/**
 * The audit-log queries of the log repository: one equality filter, newest
 * first (id descending), one page; and the joined view that adds the email of
 * the referenced user and takes any number of equality criteria together.
 *
 * The log table is a map from primary key to row.
 */
module LogQueries {
  import opened Common
  import opened Entities

  /** The page size used when the caller gives none. */
  const DefaultLimit: nat := 50

  /** Every row is stored under its own id, as a primary key is. */
  predicate LogTableKeyed(table: map<int, Log>) {
    forall k | k in table :: table[k].id == k
  }

  predicate IdsStrictlyDescending(logs: seq<Log>) {
    forall i, j :: 0 <= i < j < |logs| ==> logs[i].id > logs[j].id
  }

  /**
   * `n * limit`, written as repeated addition so that the solver reasons
   * about it without nonlinear arithmetic; `ProductIsMultiplication` ties
   * the two together.
   */
  function Product(n: int, limit: nat): int {
    if limit == 0 then 0 else Product(n, limit - 1) + n
  }

  lemma {:induction false} ProductIsMultiplication(n: int, limit: nat)
    ensures Product(n, limit) == n * limit
  {
    if limit > 0 {
      ProductIsMultiplication(n, limit - 1);
      assert n * limit == n * (limit - 1) + n;
    }
  }

  /** A product is negative exactly when a negative number is taken a positive number of times. */
  lemma {:induction false} ProductSign(n: int, limit: nat)
    ensures Product(n, limit) < 0 <==> n < 0 && limit > 0
    ensures n == 0 ==> Product(n, limit) == 0
  {
    if limit > 0 {
      ProductSign(n, limit - 1);
    }
  }

  /** Taking one more row per page moves every later page further than every earlier one. */
  lemma {:induction false} ProductGrows(a: int, b: int, limit: nat)
    requires a < b
    ensures Product(a, limit) + limit <= Product(b, limit)
  {
    if limit > 0 {
      ProductGrows(a, b, limit - 1);
    }
  }

  /** The offset of a 1-based page: `max(0, (page - 1) * limit)`. */
  function Offset(page: int, limit: nat): (offset: nat)
    ensures page <= 1 ==> offset == 0
    ensures page >= 1 ==> offset == (page - 1) * limit
  {
    var raw := Product(page - 1, limit);
    ProductSign(page - 1, limit);
    ProductIsMultiplication(page - 1, limit);
    if raw < 0 then 0 else raw
  }

  /** How many rows `LIMIT limit OFFSET offset` keeps of `total`: `min(limit, max(0, total - offset))`. */
  function PageSize(total: nat, offset: nat, limit: nat): (n: nat)
    ensures n <= limit
    ensures offset >= total ==> n == 0
    ensures offset < total ==> offset + n <= total && (n == limit || offset + n == total)
  {
    if offset >= total then 0 else if total - offset < limit then total - offset else limit
  }

  lemma MaxExists(ids: set<int>)
    requires ids != {}
    ensures exists m :: m in ids && forall k :: k in ids ==> k <= m
    decreases |ids|
  {
    var x := Pick(ids);
    var rest := ids - {x};
    if rest == {} {
      forall k | k in ids ensures k <= x {
        assert k !in rest;
      }
    } else {
      MaxExists(rest);
      var m :| m in rest && forall k :: k in rest ==> k <= m;
      var top := if x > m then x else m;
      forall k | k in ids ensures k <= top {
        if k != x {
          assert k in rest;
        }
      }
      assert top in ids;
    }
  }

  lemma Pick(ids: set<int>) returns (x: int)
    requires ids != {}
    ensures x in ids
  {
    if forall y :: y !in ids {
      assert false;
    }
    x :| x in ids;
  }

  function Max(ids: set<int>): (m: int)
    requires ids != {}
    ensures m in ids && forall k :: k in ids ==> k <= m
  {
    MaxExists(ids);
    var m :| m in ids && forall k :: k in ids ==> k <= m;
    m
  }

  /** The keys of a set, largest first: SQL's `ORDER BY id DESC`. */
  function DescendingIds(ids: set<int>): (r: seq<int>)
    ensures |r| == |ids|
    ensures forall k :: k in ids <==> k in r
    ensures forall i, j :: 0 <= i < j < |r| ==> r[i] > r[j]
    decreases |ids|
  {
    if ids == {} then []
    else
      var top := Max(ids);
      [top] + DescendingIds(ids - {top})
  }

  /** The rows at the given keys, in order. */
  function RowsAt(table: map<int, Log>, ids: seq<int>): (r: seq<Log>)
    requires forall i :: 0 <= i < |ids| ==> ids[i] in table
    ensures |r| == |ids| && forall i :: 0 <= i < |r| ==> r[i] == table[ids[i]]
  {
    if ids == [] then [] else [table[ids[0]]] + RowsAt(table, ids[1..])
  }

  /** The rows at the given keys, largest key first: `ORDER BY id DESC`. */
  function InIdOrder(table: map<int, Log>, keys: set<int>): (r: seq<Log>)
    requires keys <= table.Keys
    ensures |r| == |keys| <= |table|
    ensures forall k :: k in keys ==> table[k] in r
    ensures LogTableKeyed(table) ==> IdsStrictlyDescending(r)
    ensures LogTableKeyed(table) ==> forall i :: 0 <= i < |r| ==> r[i].id in keys && table[r[i].id] == r[i]
  {
    var ids := DescendingIds(keys);
    SubsetCard(keys, table.Keys);
    RowsAtCover(table, ids, keys);
    RowsAt(table, ids)
  }

  lemma RowsAtComeFrom(table: map<int, Log>, ids: seq<int>, keys: set<int>)
    requires keys <= table.Keys
    requires forall i :: 0 <= i < |ids| ==> ids[i] in keys && ids[i] in table
    ensures forall log :: log in RowsAt(table, ids) ==> exists k :: k in keys && table[k] == log
  {
    var r := RowsAt(table, ids);
    forall log | log in r ensures exists k :: k in keys && table[k] == log {
      var i :| 0 <= i < |r| && r[i] == log;
      var k := ids[i];
      assert k in keys && table[k] == log;
    }
  }

  lemma RowsAtCover(table: map<int, Log>, ids: seq<int>, keys: set<int>)
    requires keys <= table.Keys
    requires forall i :: 0 <= i < |ids| ==> ids[i] in table
    requires forall k :: k in keys ==> k in ids
    ensures forall k :: k in keys ==> table[k] in RowsAt(table, ids)
  {
    var r := RowsAt(table, ids);
    forall k | k in keys ensures table[k] in r {
      var i :| 0 <= i < |ids| && ids[i] == k;
      assert r[i] == table[k];
    }
  }

  lemma SubsetCard(a: set<int>, b: set<int>)
    requires a <= b
    ensures |a| <= |b|
  {
    assert b == a + (b - a);
  }

  /** The single equality predicate of the three paginated queries. */
  datatype Filter = ByStatus(status: string) | ByUserId(userId: int) | ByIpAddress(ipAddress: string)

  /** A null column never equals the (non-null) argument. */
  predicate Matches(log: Log, filter: Filter) {
    match filter
    case ByStatus(s) => log.status == s
    case ByUserId(u) => log.userId == Some(u)
    case ByIpAddress(ip) => log.ipAddress == Some(ip)
  }

  /** The keys of the rows satisfying `filter`. */
  function MatchingKeys(table: map<int, Log>, filter: Filter): (keys: set<int>)
    ensures keys <= table.Keys
    ensures forall k :: k in keys <==> k in table && Matches(table[k], filter)
  {
    set k | k in table && Matches(table[k], filter)
  }

  /** All rows satisfying `filter`, newest first. */
  function Matching(table: map<int, Log>, filter: Filter): (r: seq<Log>)
    ensures |r| == |MatchingKeys(table, filter)| <= |table|
    ensures forall log :: log in r ==> Matches(log, filter)
    ensures forall k :: k in table && Matches(table[k], filter) ==> table[k] in r
    ensures LogTableKeyed(table) ==> IdsStrictlyDescending(r)
    ensures LogTableKeyed(table) ==> forall i :: 0 <= i < |r| ==> r[i].id in table && table[r[i].id] == r[i]
  {
    var keys := MatchingKeys(table, filter);
    var r := InIdOrder(table, keys);
    RowsAtComeFrom(table, DescendingIds(keys), keys);
    forall log | log in r ensures Matches(log, filter) {
      var k :| k in keys && table[k] == log;
    }
    r
  }

  /** At most `limit` logs of `s` starting at `offset`: SQL's `LIMIT limit OFFSET offset`. */
  function Page(s: seq<Log>, offset: nat, limit: nat): (r: seq<Log>)
    ensures offset >= |s| ==> r == []
    ensures offset < |s| ==> |r| == if |s| - offset < limit then |s| - offset else limit
    ensures |r| == PageSize(|s|, offset, limit)
    ensures forall i :: 0 <= i < |r| ==> offset + i < |s| && r[i] == s[offset + i]
    ensures forall x :: x in r ==> x in s
    ensures IdsStrictlyDescending(s) ==> IdsStrictlyDescending(r)
  {
    var r := if offset >= |s| then [] else if |s| - offset < limit then s[offset..] else s[offset..offset + limit];
    if IdsStrictlyDescending(s) then
      WindowDescending(s, r, offset);
      r
    else
      r
  }

  /** A window of a sequence whose ids strictly descend also has strictly descending ids. */
  lemma WindowDescending(all: seq<Log>, r: seq<Log>, offset: nat)
    requires IdsStrictlyDescending(all)
    requires forall i :: 0 <= i < |r| ==> offset + i < |all| && r[i] == all[offset + i]
    ensures IdsStrictlyDescending(r)
  {
    forall i, j | 0 <= i < j < |r| ensures r[i].id > r[j].id {
      var x, y := r[i], r[j];
      assert x == all[offset + i] && y == all[offset + j];
    }
  }

  /** The first page of a sequence no longer than the page size is the whole sequence. */
  lemma WholeFirstPage(s: seq<Log>, limit: nat)
    requires |s| <= limit
    ensures Page(s, 0, limit) == s
  {
    var r := Page(s, 0, limit);
    assert |r| == |s|;
    forall i | 0 <= i < |s| ensures r[i] == s[i] {
      assert 0 + i < |s|;
    }
  }

  /** The shared shape of the three paginated queries. */
  function FindBy(table: map<int, Log>, filter: Filter, page: int, limit: nat): (r: seq<Log>)
    ensures |r| <= limit
    ensures |r| == PageSize(|Matching(table, filter)|, Offset(page, limit), limit)
    ensures forall log :: log in r ==> Matches(log, filter)
    ensures forall i :: 0 <= i < |r| ==>
      Offset(page, limit) + i < |Matching(table, filter)| && r[i] == Matching(table, filter)[Offset(page, limit) + i]
    ensures LogTableKeyed(table) ==> IdsStrictlyDescending(r)
  {
    Page(Matching(table, filter), Offset(page, limit), limit)
  }

  /** `findByStatus`: one page of the logs with this status, newest first. */
  function FindByStatus(table: map<int, Log>, status: string, page: int, limit: nat := DefaultLimit): (r: seq<Log>)
    ensures |r| <= limit
    ensures |r| == PageSize(|Matching(table, ByStatus(status))|, Offset(page, limit), limit)
    ensures forall log :: log in r ==> log.status == status
    ensures forall i :: 0 <= i < |r| ==>
      Offset(page, limit) + i < |Matching(table, ByStatus(status))| && r[i] == Matching(table, ByStatus(status))[Offset(page, limit) + i]
    ensures LogTableKeyed(table) ==> IdsStrictlyDescending(r)
  {
    FindBy(table, ByStatus(status), page, limit)
  }

  /** `findByUserId`: one page of the logs referencing this user, newest first. */
  function FindByUserId(table: map<int, Log>, userId: int, page: int, limit: nat := DefaultLimit): (r: seq<Log>)
    ensures |r| <= limit
    ensures |r| == PageSize(|Matching(table, ByUserId(userId))|, Offset(page, limit), limit)
    ensures forall log :: log in r ==> log.userId == Some(userId)
    ensures forall i :: 0 <= i < |r| ==>
      Offset(page, limit) + i < |Matching(table, ByUserId(userId))| && r[i] == Matching(table, ByUserId(userId))[Offset(page, limit) + i]
    ensures LogTableKeyed(table) ==> IdsStrictlyDescending(r)
  {
    FindBy(table, ByUserId(userId), page, limit)
  }

  /** `findByIpAddress`: one page of the logs from this address, newest first. */
  function FindByIpAddress(table: map<int, Log>, ipAddress: string, page: int, limit: nat := DefaultLimit): (r: seq<Log>)
    ensures |r| <= limit
    ensures |r| == PageSize(|Matching(table, ByIpAddress(ipAddress))|, Offset(page, limit), limit)
    ensures forall log :: log in r ==> log.ipAddress == Some(ipAddress)
    ensures forall i :: 0 <= i < |r| ==>
      Offset(page, limit) + i < |Matching(table, ByIpAddress(ipAddress))| && r[i] == Matching(table, ByIpAddress(ipAddress))[Offset(page, limit) + i]
    ensures LogTableKeyed(table) ==> IdsStrictlyDescending(r)
  {
    FindBy(table, ByIpAddress(ipAddress), page, limit)
  }

  /** The first page with a limit no smaller than the match count is the whole match, newest first. */
  lemma {:induction false} FirstPageIsEverything(table: map<int, Log>, filter: Filter, limit: nat)
    requires |Matching(table, filter)| <= limit
    ensures FindBy(table, filter, 1, limit) == Matching(table, filter)
  {
    WholeFirstPage(Matching(table, filter), limit);
  }

  /**
   * Every row of an earlier page is newer than every row of a later page, so
   * no row is shown on two pages.
   */
  lemma {:induction false} EarlierPagesAreNewer(table: map<int, Log>, filter: Filter, p: int, q: int, limit: nat)
    requires LogTableKeyed(table)
    requires 1 <= p < q
    ensures forall x, y :: x in FindBy(table, filter, p, limit) && y in FindBy(table, filter, q, limit) ==> x.id > y.id
  {
    var all := Matching(table, filter);
    LaterPagesStartLater(p, q, limit);
    FindByIsPage(table, filter, p, limit);
    FindByIsPage(table, filter, q, limit);
    PagesOfDescending(all, Offset(p, limit), Offset(q, limit), limit);
  }

  /** Page `q` starts at least one full page after an earlier page `p`. */
  lemma LaterPagesStartLater(p: int, q: int, limit: nat)
    requires 1 <= p < q
    ensures Offset(p, limit) + limit <= Offset(q, limit)
  {
    ProductIsMultiplication(p - 1, limit);
    ProductIsMultiplication(q - 1, limit);
    ProductGrows(p - 1, q - 1, limit);
  }

  /** A query page is the window of the whole match at the page's offset. */
  lemma FindByIsPage(table: map<int, Log>, filter: Filter, page: int, limit: nat)
    ensures FindBy(table, filter, page, limit) == Page(Matching(table, filter), Offset(page, limit), limit)
  {
  }

  /** Of two pages of a descending sequence, the earlier one holds only the larger ids. */
  lemma PagesOfDescending(all: seq<Log>, op: nat, oq: nat, limit: nat)
    requires IdsStrictlyDescending(all)
    requires op + limit <= oq
    ensures forall x, y :: x in Page(all, op, limit) && y in Page(all, oq, limit) ==> x.id > y.id
  {
    var P, Q := Page(all, op, limit), Page(all, oq, limit);
    forall x, y | x in P && y in Q ensures x.id > y.id {
      var i :| 0 <= i < |P| && P[i] == x;
      var j :| 0 <= j < |Q| && Q[j] == y;
      assert x == all[op + i] && y == all[oq + j];
    }
  }

  /** The columns a criterion of the joined query may name. */
  datatype Column =
    | IdColumn | NameColumn | MessageColumn | TimeColumn | LevelColumn | UserIdColumn
    | IpAddressColumn | UserAgentColumn | RequestUriColumn | RequestMethodColumn | StatusColumn

  /** A column value or query parameter, SQL NULL included. */
  datatype Value = Null | Text(text: string) | Number(number: int) | Moment(at: Time)

  function ColumnValue(log: Log, column: Column): Value {
    match column
    case IdColumn => Number(log.id)
    case NameColumn => Text(log.name)
    case MessageColumn => Text(log.message)
    case TimeColumn => if log.time.Some? then Moment(log.time.value) else Null
    case LevelColumn => Number(log.level)
    case UserIdColumn => if log.userId.Some? then Number(log.userId.value) else Null
    case IpAddressColumn => OptionalText(log.ipAddress)
    case UserAgentColumn => OptionalText(log.userAgent)
    case RequestUriColumn => OptionalText(log.requestUri)
    case RequestMethodColumn => OptionalText(log.requestMethod)
    case StatusColumn => Text(log.status)
  }

  function OptionalText(s: Option<string>): Value {
    if s.Some? then Text(s.value) else Null
  }

  /** SQL `a = b`: a comparison with NULL is unknown, which a WHERE clause treats as false. */
  predicate SqlEquals(a: Value, b: Value) {
    a != Null && b != Null && a == b
  }

  /** The WHERE clause built from the criteria: every `column = value` holds. */
  predicate MeetsAll(log: Log, criteria: map<Column, Value>) {
    forall c | c in criteria :: SqlEquals(ColumnValue(log, c), criteria[c])
  }

  /** The keys of the rows meeting every criterion. */
  function SelectedKeys(table: map<int, Log>, criteria: map<Column, Value>): (keys: set<int>)
    ensures keys <= table.Keys
    ensures forall k :: k in keys <==> k in table && MeetsAll(table[k], criteria)
  {
    set k | k in table && MeetsAll(table[k], criteria)
  }

  /** The rows meeting every criterion, newest first. */
  function Selected(table: map<int, Log>, criteria: map<Column, Value>): (r: seq<Log>)
    ensures forall log :: log in r ==> MeetsAll(log, criteria)
    ensures |r| == |SelectedKeys(table, criteria)|
    ensures forall k :: k in table && MeetsAll(table[k], criteria) ==> table[k] in r
    ensures criteria == map[] ==> |r| == |table|
    ensures LogTableKeyed(table) ==> IdsStrictlyDescending(r)
    ensures LogTableKeyed(table) ==> forall i :: 0 <= i < |r| ==> r[i].id in table && table[r[i].id] == r[i]
  {
    var keys := SelectedKeys(table, criteria);
    var r := InIdOrder(table, keys);
    RowsAtComeFrom(table, DescendingIds(keys), keys);
    forall log | log in r ensures MeetsAll(log, criteria) {
      var k :| k in keys && table[k] == log;
    }
    assert criteria == map[] ==> keys == table.Keys;
    r
  }

  /** A single-criterion joined query selects exactly what the matching single-filter query selects. */
  lemma {:induction false} SingleCriterionAgreesWithFilter(table: map<int, Log>, filter: Filter)
    ensures Selected(table, CriteriaOf(filter)) == Matching(table, filter)
  {
    var byCriteria := SelectedKeys(table, CriteriaOf(filter));
    var byFilter := MatchingKeys(table, filter);
    forall k | k in table ensures MeetsAll(table[k], CriteriaOf(filter)) <==> Matches(table[k], filter) {
      var only := CriteriaOf(filter).Keys;
      match filter
      case ByStatus(s) =>
        assert only == {StatusColumn};
        assert MeetsAll(table[k], CriteriaOf(filter)) <==> SqlEquals(ColumnValue(table[k], StatusColumn), Text(s));
      case ByUserId(u) =>
        assert only == {UserIdColumn};
        assert MeetsAll(table[k], CriteriaOf(filter)) <==> SqlEquals(ColumnValue(table[k], UserIdColumn), Number(u));
      case ByIpAddress(ip) =>
        assert only == {IpAddressColumn};
        assert MeetsAll(table[k], CriteriaOf(filter)) <==> SqlEquals(ColumnValue(table[k], IpAddressColumn), Text(ip));
    }
    assert byCriteria == byFilter;
  }

  /** The criteria map equivalent to one filter. */
  function CriteriaOf(filter: Filter): map<Column, Value> {
    match filter
    case ByStatus(s) => map[StatusColumn := Text(s)]
    case ByUserId(u) => map[UserIdColumn := Number(u)]
    case ByIpAddress(ip) => map[IpAddressColumn := Text(ip)]
  }

  /** A row of the joined view: `username` is the email of the referenced user, null when there is none. */
  datatype LogRow = LogRow(id: int, name: string, message: string, time: Option<Time>,
                           ipAddress: Option<string>, username: Option<string>)

  /** `LEFT JOIN user u ON l.user_id = u.id`, keeping the selected columns. */
  function JoinRow(log: Log, users: map<int, User>): (row: LogRow)
    ensures row.id == log.id && row.name == log.name && row.message == log.message
    ensures row.time == log.time && row.ipAddress == log.ipAddress
    ensures log.userId.Some? && log.userId.value in users ==> row.username == users[log.userId.value].email
    ensures log.userId.None? || log.userId.value !in users ==> row.username.None?
  {
    var username := if log.userId.Some? && log.userId.value in users then users[log.userId.value].email else None;
    LogRow(log.id, log.name, log.message, log.time, log.ipAddress, username)
  }

  predicate RowIdsStrictlyDescending(rows: seq<LogRow>) {
    forall i, j :: 0 <= i < j < |rows| ==> rows[i].id > rows[j].id
  }

  /** Each row joined with its user, in the same order. */
  function JoinRows(rows: seq<Log>, users: map<int, User>): (r: seq<LogRow>)
    ensures |r| == |rows| && forall i :: 0 <= i < |r| ==> r[i] == JoinRow(rows[i], users)
    ensures IdsStrictlyDescending(rows) ==> RowIdsStrictlyDescending(r)
  {
    if rows == [] then [] else [JoinRow(rows[0], users)] + JoinRows(rows[1..], users)
  }

  /** The joined rows of one window of a selection. */
  function JoinedPage(all: seq<Log>, users: map<int, User>, offset: nat, limit: nat): (r: seq<LogRow>)
    ensures |r| <= limit
    ensures |r| == PageSize(|all|, offset, limit)
    ensures forall i :: 0 <= i < |r| ==> offset + i < |all| && r[i] == JoinRow(all[offset + i], users)
    ensures IdsStrictlyDescending(all) ==> RowIdsStrictlyDescending(r)
  {
    JoinRows(Page(all, offset, limit), users)
  }

  /** The query fails instead of running when its offset is negative. */
  datatype QueryError = NegativeOffset(offset: int)

  /**
   * `findLogsWithUsername`: the page of the joined view for the rows meeting
   * every criterion. Its offset `(page - 1) * limit` is not clamped: a page
   * before the first is refused unless the limit is zero.
   */
  function FindLogsWithUsername(table: map<int, Log>, users: map<int, User>, criteria: map<Column, Value>,
                                page: int, limit: nat): (r: Result<seq<LogRow>, QueryError>)
    ensures r.Err? <==> page < 1 && limit > 0
    ensures r.Err? ==> r.error == NegativeOffset((page - 1) * limit)
    ensures r.Ok? ==> |r.value| <= limit
    ensures r.Ok? ==> |r.value| == PageSize(|Selected(table, criteria)|, Offset(page, limit), limit)
    ensures r.Ok? ==> forall i :: 0 <= i < |r.value| ==>
      Offset(page, limit) + i < |Selected(table, criteria)|
      && r.value[i] == JoinRow(Selected(table, criteria)[Offset(page, limit) + i], users)
    ensures r.Ok? && LogTableKeyed(table) ==> RowIdsStrictlyDescending(r.value)
  {
    var offset := Product(page - 1, limit);
    ProductSign(page - 1, limit);
    if offset < 0 then
      ProductIsMultiplication(page - 1, limit);
      Err(NegativeOffset(offset))
    else
      Ok(JoinedPage(Selected(table, criteria), users, Offset(page, limit), limit))
  }

  /**
   * From the first page on, the joined query with one criterion returns the
   * page of the matching single-filter query, each row joined with its user.
   */
  lemma {:induction false} JoinedQueryAgreesWithFilterQuery(table: map<int, Log>, users: map<int, User>, filter: Filter,
                                                            page: int, limit: nat)
    requires page >= 1
    ensures FindLogsWithUsername(table, users, CriteriaOf(filter), page, limit)
            == Ok(JoinRows(FindBy(table, filter, page, limit), users))
  {
    SingleCriterionAgreesWithFilter(table, filter);
    ProductSign(page - 1, limit);
  }
}
