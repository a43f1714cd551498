/**
 * The `app:log:reader` console command: exactly one of `--status`, `--user`
 * and `--ip` selects the logs; the rows come out oldest first, one per log.
 *
 * Console rendering is left out: the command's result is the table rows it
 * would render, the message of the error it would print, or the exception it
 * would throw. The query service the command calls is modelled by the log
 * repository queries.
 */
module LogReader {
  import opened Common
  import opened Entities
  import opened LogQueries

  /** PHP_INT_MAX on a 64-bit build: the page size that makes page 1 the whole match. */
  const PhpIntMax: nat := 0x7FFF_FFFF_FFFF_FFFF

  const NoFilterMessage := "You must specify one parameter (--status, --user, or --ip)."
  const ManyFiltersMessage := "You can only use one parameter at a time."
  const NoLogsMessage := "No logs found for your specified filter."

  /** The three options as the console hands them over: absent options are null. */
  datatype Options = Options(status: Option<string>, user: Option<string>, ip: Option<string>)

  /** PHP truthiness of an option value: null, `""` and `"0"` are false. */
  predicate Truthy(v: Option<string>) {
    v.Some? && v.value != "" && v.value != "0"
  }

  /** `count(array_filter([...]))`: how many options survive the truthiness filter. */
  function FilterCount(o: Options): (n: nat)
    ensures n <= 3
    ensures n == 0 <==> !Truthy(o.status) && !Truthy(o.user) && !Truthy(o.ip)
    ensures n == 1 <==>
      || (Truthy(o.status) && !Truthy(o.user) && !Truthy(o.ip))
      || (!Truthy(o.status) && Truthy(o.user) && !Truthy(o.ip))
      || (!Truthy(o.status) && !Truthy(o.user) && Truthy(o.ip))
  {
    (if Truthy(o.status) then 1 else 0) + (if Truthy(o.user) then 1 else 0) + (if Truthy(o.ip) then 1 else 0)
  }

  /** The two lower-case status keywords become the stored upper-case ones. */
  function NormalizeStatus(status: string): (r: string)
    ensures r != status ==> (status == "unreaded" && r == "UNREADED") || (status == "readed" && r == "READED")
    ensures status == "unreaded" ==> r == "UNREADED"
    ensures status == "readed" ==> r == "READED"
  {
    if status == "unreaded" then "UNREADED"
    else if status == "readed" then "READED"
    else status
  }

  /** Normalising a normalised status changes nothing. */
  lemma NormalizeStatusIdempotent(status: string)
    ensures NormalizeStatus(NormalizeStatus(status)) == NormalizeStatus(status)
  {
    assert "UNREADED" != "unreaded" && "UNREADED" != "readed" by {
      assert "UNREADED"[0] != "unreaded"[0];
      assert "UNREADED"[0] != "readed"[0];
    }
    assert "READED" != "unreaded" && "READED" != "readed" by {
      assert "READED"[0] != "unreaded"[0];
      assert "READED"[0] != "readed"[0];
    }
  }

  /** The query branch the command takes, with the option text as given. */
  datatype Query = StatusQuery(status: string) | UserQuery(user: string) | IpQuery(ip: string)

  /**
   * The branch as the command chooses it: the first option that is not
   * null, in the order status, user, ip. An option that is present but falsy
   * is chosen although the count above ignored it.
   */
  function SelectQueryAsWritten(o: Options): (q: Option<Query>)
    ensures q.None? <==> o.status.None? && o.user.None? && o.ip.None?
    ensures o.status.Some? ==> q == Some(StatusQuery(o.status.value))
    ensures o.status.None? && o.user.Some? ==> q == Some(UserQuery(o.user.value))
    ensures o.status.None? && o.user.None? && o.ip.Some? ==> q == Some(IpQuery(o.ip.value))
  {
    if o.status.Some? then Some(StatusQuery(o.status.value))
    else if o.user.Some? then Some(UserQuery(o.user.value))
    else if o.ip.Some? then Some(IpQuery(o.ip.value))
    else None
  }

  /**
   * The branch of the one option that was counted: the first truthy option.
   * When exactly one option is truthy, the query is that option's.
   */
  function SelectQuery(o: Options): (q: Option<Query>)
    ensures q.None? <==> FilterCount(o) == 0
    ensures FilterCount(o) == 1 && Truthy(o.status) ==> q == Some(StatusQuery(o.status.value))
    ensures FilterCount(o) == 1 && Truthy(o.user) ==> q == Some(UserQuery(o.user.value))
    ensures FilterCount(o) == 1 && Truthy(o.ip) ==> q == Some(IpQuery(o.ip.value))
  {
    if Truthy(o.status) then Some(StatusQuery(o.status.value))
    else if Truthy(o.user) then Some(UserQuery(o.user.value))
    else if Truthy(o.ip) then Some(IpQuery(o.ip.value))
    else None
  }

  /** When no option is present but falsy, the command's choice is the counted option's. */
  lemma SelectionsAgreeWithoutFalsyOptions(o: Options)
    requires o.status.Some? ==> Truthy(o.status)
    requires o.user.Some? ==> Truthy(o.user)
    requires o.ip.Some? ==> Truthy(o.ip)
    ensures SelectQueryAsWritten(o) == SelectQuery(o)
  {
  }

  /**
   * `--status= --user=5`: one option is counted (the user), but the command
   * queries the empty status instead of user 5.
   */
  lemma EmptyStatusShadowsUser()
    ensures var o := Options(Some(""), Some("5"), None);
      FilterCount(o) == 1
      && SelectQuery(o) == Some(UserQuery("5"))
      && SelectQueryAsWritten(o) == Some(StatusQuery(""))
  {
    var o := Options(Some(""), Some("5"), None);
    assert !Truthy(o.status);
    assert Truthy(o.user) by {
      assert "5"[0] != "0"[0];
    }
  }

  predicate IsDigit(c: char) {
    '0' <= c <= '9'
  }

  predicate AllDigits(s: string) {
    forall i :: 0 <= i < |s| ==> IsDigit(s[i])
  }

  /** The value of a string of decimal digits, most significant first. */
  function DecimalValue(s: string): nat
    requires AllDigits(s)
  {
    if s == [] then 0 else DecimalValue(s[..|s| - 1]) * 10 + (s[|s| - 1] as int - '0' as int)
  }

  /** The decimal digits of `n`, without leading zeros. */
  function DecimalText(n: nat): (s: string)
    ensures s != [] && AllDigits(s)
  {
    var last := ('0' as int + n % 10) as char;
    if n < 10 then [last] else DecimalText(n / 10) + [last]
  }

  /**
   * The user id the `--user` text stands for: a non-empty string of decimal
   * digits, leading zeros allowed, whose value fits a PHP integer. Any other
   * text is refused.
   */
  function ParseUserId(text: string): (id: Option<int>)
    ensures id.Some? <==> text != [] && AllDigits(text) && DecimalValue(text) <= PhpIntMax
    ensures id.Some? ==> 0 <= id.value <= PhpIntMax && id.value == DecimalValue(text)
  {
    if text != [] && AllDigits(text) && DecimalValue(text) <= PhpIntMax then Some(DecimalValue(text)) else None
  }

  /** A leading zero does not change the value of a digit string. */
  lemma {:induction false} LeadingZeroKeepsValue(s: string)
    requires AllDigits(s)
    ensures AllDigits("0" + s) && DecimalValue("0" + s) == DecimalValue(s)
  {
    var z := "0" + s;
    assert AllDigits(z) by {
      forall i | 0 <= i < |z| ensures IsDigit(z[i]) {
        if i > 0 {
          assert z[i] == s[i - 1];
        }
      }
    }
    if s != [] {
      var init := s[..|s| - 1];
      assert z[..|z| - 1] == "0" + init;
      assert z[|z| - 1] == s[|s| - 1];
      LeadingZeroKeepsValue(init);
    }
  }

  /** `--user=05` names the same user as `--user=5`. */
  lemma LeadingZeroSameUser(text: string)
    requires text != [] && AllDigits(text)
    ensures ParseUserId("0" + text) == ParseUserId(text)
  {
    LeadingZeroKeepsValue(text);
  }

  /**
   * Every id written in decimal reads back as itself, and is accepted exactly
   * when it fits a PHP integer.
   */
  lemma {:induction false} ParseDecimalText(n: nat)
    ensures DecimalValue(DecimalText(n)) == n
    ensures n <= PhpIntMax ==> ParseUserId(DecimalText(n)) == Some(n)
    ensures n > PhpIntMax ==> ParseUserId(DecimalText(n)) == None
  {
    var s := DecimalText(n);
    if n >= 10 {
      ParseDecimalText(n / 10);
      assert s[..|s| - 1] == DecimalText(n / 10);
    }
  }

  /** The equality filter a query runs with, if its text is usable. */
  function FilterOf(q: Query): (f: Option<Filter>)
    ensures q.StatusQuery? ==> f == Some(ByStatus(NormalizeStatus(q.status)))
    ensures q.IpQuery? ==> f == Some(ByIpAddress(q.ip))
    ensures q.UserQuery? ==> (f.Some? <==> ParseUserId(q.user).Some?)
    ensures q.UserQuery? && ParseUserId(q.user).Some? ==> f == Some(ByUserId(ParseUserId(q.user).value))
  {
    match q
    case StatusQuery(s) => Some(ByStatus(NormalizeStatus(s)))
    case UserQuery(text) => if ParseUserId(text).Some? then Some(ByUserId(ParseUserId(text).value)) else None
    case IpQuery(ip) => Some(ByIpAddress(ip))
  }

  /**
   * The logs of one branch: page 1 with a page size of PHP_INT_MAX. `None`
   * when the user text is not an integer, which the query service refuses.
   */
  function RunQuery(table: map<int, Log>, q: Query): (logs: Option<seq<Log>>)
    ensures logs.Some? <==> FilterOf(q).Some?
    ensures logs.Some? ==> forall log :: log in logs.value ==> Matches(log, FilterOf(q).value)
    ensures logs.Some? && LogTableKeyed(table) ==> IdsStrictlyDescending(logs.value)
  {
    match q
    case StatusQuery(s) => Some(FindByStatus(table, NormalizeStatus(s), 1, PhpIntMax))
    case UserQuery(text) =>
      if ParseUserId(text).Some? then Some(FindByUserId(table, ParseUserId(text).value, 1, PhpIntMax)) else None
    case IpQuery(ip) => Some(FindByIpAddress(table, ip, 1, PhpIntMax))
  }

  /** With no more than PHP_INT_MAX rows stored, a branch returns every matching row. */
  lemma RunQueryReturnsEveryMatch(table: map<int, Log>, q: Query)
    requires |table| <= PhpIntMax
    requires FilterOf(q).Some?
    ensures RunQuery(table, q) == Some(Matching(table, FilterOf(q).value))
  {
    var f := FilterOf(q).value;
    FirstPageIsEverything(table, f, PhpIntMax);
  }

  /** `$time->format(...)` or `'N/A'`; the formatting itself is not modelled. */
  datatype TimeCell = Formatted(at: Time) | NotAvailable

  /** One rendered table row: id, name, message, time, IP address, user id. */
  datatype Row = Row(id: int, name: string, message: string, time: TimeCell,
                     ipAddress: Option<string>, userId: Option<int>)

  function RowOf(log: Log): (row: Row)
    ensures row.id == log.id && row.name == log.name && row.message == log.message
    ensures row.ipAddress == log.ipAddress && row.userId == log.userId
    ensures row.time == NotAvailable <==> log.time.None?
    ensures log.time.Some? ==> row.time == Formatted(log.time.value)
  {
    Row(log.id, log.name, log.message, if log.time.Some? then Formatted(log.time.value) else NotAvailable,
        log.ipAddress, log.userId)
  }

  /** `array_reverse`. */
  function Reversed<T>(s: seq<T>): (r: seq<T>)
    ensures |r| == |s| && forall i :: 0 <= i < |s| ==> r[i] == s[|s| - 1 - i]
  {
    if s == [] then [] else Reversed(s[1..]) + [s[0]]
  }

  /** Reversing twice gives the original sequence back. */
  lemma ReversedTwice<T>(s: seq<T>)
    ensures Reversed(Reversed(s)) == s
  {
    var r := Reversed(s);
    assert forall i :: 0 <= i < |s| ==> Reversed(r)[i] == r[|s| - 1 - i];
  }

  /** One row per log, the last log first. */
  predicate ShowsReversed(rows: seq<Row>, logs: seq<Log>) {
    |rows| == |logs| && forall i :: 0 <= i < |logs| ==> rows[i] == RowOf(logs[|logs| - 1 - i])
  }

  predicate RowIdsAscending(rows: seq<Row>) {
    forall i, j :: 0 <= i < j < |rows| ==> rows[i].id < rows[j].id
  }

  /**
   * The rows of the table, built one log at a time from the reversed result:
   * oldest first when the logs arrive newest first.
   */
  method BuildRows(logs: seq<Log>) returns (data: seq<Row>)
    ensures ShowsReversed(data, logs)
    ensures IdsStrictlyDescending(logs) ==> RowIdsAscending(data)
  {
    var reversed := Reversed(logs);
    data := [];
    var i := 0;
    while i < |reversed|
      invariant 0 <= i <= |reversed|
      invariant |data| == i
      invariant forall k :: 0 <= k < i ==> data[k] == RowOf(reversed[k])
    {
      data := data + [RowOf(reversed[i])];
      i := i + 1;
    }
    if IdsStrictlyDescending(logs) {
      forall a, b | 0 <= a < b < |data| ensures data[a].id < data[b].id {
        var x, y := logs[|logs| - 1 - a], logs[|logs| - 1 - b];
        assert data[a].id == x.id && data[b].id == y.id;
      }
    }
  }

  /** Why the command throws instead of returning an exit code. */
  datatype Fault = ManyFilters(message: string) | UserIdNotInteger(text: string)

  /** What the command ends with: the rendered rows, a printed error, or an exception. */
  datatype CommandResult = Success(rows: seq<Row>) | Invalid(message: string) | Thrown(fault: Fault)
  {
    /** `Command::SUCCESS` and `Command::INVALID`; a thrown exception has no exit code. */
    function ExitCode(): (code: Option<int>)
      ensures code.Some? <==> !Thrown?
      ensures Success? ==> code == Some(0)
      ensures Invalid? ==> code == Some(2)
    {
      match this
      case Success(_) => Some(0)
      case Invalid(_) => Some(2)
      case Thrown(_) => None
    }
  }

  /**
   * What the command ends with once it has run branch `q`: the user-id error,
   * the no-logs error, or the rows of the logs found, oldest first.
   */
  predicate Answers(table: map<int, Log>, q: Query, result: CommandResult) {
    match RunQuery(table, q)
    case None => q.UserQuery? && result == Thrown(UserIdNotInteger(q.user))
    case Some(logs) =>
      && (logs == [] ==> result == Invalid(NoLogsMessage))
      && (logs != [] ==> result.Success? && ShowsReversed(result.rows, logs))
  }

  /** The part of the command after the branch is chosen: run its query, then build the rows. */
  method ShowBranch(table: map<int, Log>, q: Query) returns (result: CommandResult)
    ensures Answers(table, q, result)
    ensures result.Success? && LogTableKeyed(table) ==> RowIdsAscending(result.rows)
  {
    var logs := RunQuery(table, q);
    if logs.None? {
      return Thrown(UserIdNotInteger(q.user));
    }
    if |logs.value| == 0 {
      return Invalid(NoLogsMessage);
    }
    var data := BuildRows(logs.value);
    return Success(data);
  }

  /**
   * The command as written: count the truthy options, then take the branch
   * of the first option that is not null, run its query, and build the rows
   * oldest first.
   */
  method Execute(table: map<int, Log>, o: Options) returns (result: CommandResult)
    ensures FilterCount(o) == 0 ==> result == Invalid(NoFilterMessage)
    ensures FilterCount(o) > 1 ==> result == Thrown(ManyFilters(ManyFiltersMessage))
    ensures FilterCount(o) == 1 ==>
      SelectQueryAsWritten(o).Some? && Answers(table, SelectQueryAsWritten(o).value, result)
    ensures result.Success? && LogTableKeyed(table) ==> RowIdsAscending(result.rows)
  {
    var count := FilterCount(o);
    if count == 0 {
      return Invalid(NoFilterMessage);
    }
    if count > 1 {
      return Thrown(ManyFilters(ManyFiltersMessage));
    }
    var q := SelectQueryAsWritten(o).value;
    result := ShowBranch(table, q);
  }

  /**
   * The command with the branch the count intends: the one truthy option's,
   * so that a present but empty option can no longer shadow it.
   */
  method ExecuteCorrected(table: map<int, Log>, o: Options) returns (result: CommandResult)
    ensures FilterCount(o) == 0 ==> result == Invalid(NoFilterMessage)
    ensures FilterCount(o) > 1 ==> result == Thrown(ManyFilters(ManyFiltersMessage))
    ensures FilterCount(o) == 1 ==> SelectQuery(o).Some? && Answers(table, SelectQuery(o).value, result)
    ensures result.Success? && LogTableKeyed(table) ==> RowIdsAscending(result.rows)
  {
    var count := FilterCount(o);
    if count == 0 {
      return Invalid(NoFilterMessage);
    }
    if count > 1 {
      return Thrown(ManyFilters(ManyFiltersMessage));
    }
    var q := SelectQuery(o).value;
    result := ShowBranch(table, q);
  }

  /**
   * A successful run of a branch shows every stored log that meets the
   * branch's filter when the table holds no more than PHP_INT_MAX rows.
   */
  lemma SuccessShowsEveryMatch(table: map<int, Log>, q: Query, result: CommandResult)
    requires |table| <= PhpIntMax
    requires Answers(table, q, result) && result.Success?
    ensures FilterOf(q).Some?
    ensures forall k :: k in table && Matches(table[k], FilterOf(q).value) ==> RowOf(table[k]) in result.rows
  {
    var rows := result.rows;
    var f := FilterOf(q).value;
    RunQueryReturnsEveryMatch(table, q);
    var logs := Matching(table, f);
    forall k | k in table && Matches(table[k], f) ensures RowOf(table[k]) in rows {
      ShownWhenPresent(rows, logs, table[k]);
    }
  }

  /** A log present in the result has its row in the table. */
  lemma ShownWhenPresent(rows: seq<Row>, logs: seq<Log>, log: Log)
    requires ShowsReversed(rows, logs)
    requires log in logs
    ensures RowOf(log) in rows
  {
    var j :| 0 <= j < |logs| && logs[j] == log;
    var i := |logs| - 1 - j;
    assert rows[i] == RowOf(logs[j]);
  }
}
