/**
 * The two stored entities of the core. Their PHP classes (App\Entity\User,
 * App\Entity\Log) are not part of this model; the fields below are the ones
 * the manager, the repository and the command read or write.
 */
module Entities {
  import opened Common

  /** A point in time, supplied by the environment; clocks and formatting are not modelled. */
  datatype Time = Time(ticks: int)

  /**
   * A user account. The fields that the manager checks against `null` are
   * optional; `roles` is the role collection, a set of role strings.
   */
  datatype User = User(
    id: int,
    email: Option<string>,
    firstName: Option<string>,
    lastName: Option<string>,
    password: string,
    roles: set<string>,
    registerTime: Option<Time>,
    lastLoginTime: Option<Time>,
    ipAddress: Option<string>,
    userAgent: Option<string>,
    status: Option<string>)

  /** An audit log row. `time`, `userId` and the request columns may be null. */
  datatype Log = Log(
    id: int,
    name: string,
    message: string,
    time: Option<Time>,
    level: int,
    userId: Option<int>,
    ipAddress: Option<string>,
    userAgent: Option<string>,
    requestUri: Option<string>,
    requestMethod: Option<string>,
    status: string)
}
