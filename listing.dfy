/** The listing engine of `GET /api/customers`: search filter, ORDER BY,
    LIMIT/OFFSET window and the page count, over the rows of the
    customers table in rowid order. */
module Listing {
  import opened Records
  import opened Text

  /** The columns of the customers table that `sortBy` may name. */
  datatype Column = Id | FirstName | LastName | PhoneNumber | CreatedAt

  datatype Direction = Asc | Desc

  /** The query string; a parameter left out is None. */
  datatype ListQuery = ListQuery(page: Option<nat>, limit: Option<nat>, search: Option<string>,
                                 sortBy: Option<string>, sortOrder: Option<string>)

  /** The JSON body `{customers, total, page, totalPages}`. */
  datatype ListPage = ListPage(rows: seq<Customer>, total: nat, page: nat, totalPages: nat)

  // Defaults of the destructuring `const { page = 1, limit = 10, ... } = req.query`.
  function PageArg(q: ListQuery): nat { if q.page.Some? then q.page.value else 1 }
  function LimitArg(q: ListQuery): nat { if q.limit.Some? then q.limit.value else 10 }
  function SearchArg(q: ListQuery): string { if q.search.Some? then q.search.value else "" }
  function SortByArg(q: ListQuery): string { if q.sortBy.Some? then q.sortBy.value else "created_at" }
  function SortOrderArg(q: ListQuery): string { if q.sortOrder.Some? then q.sortOrder.value else "DESC" }

  function ColumnName(c: Column): string {
    match c
    case Id => "id"
    case FirstName => "first_name"
    case LastName => "last_name"
    case PhoneNumber => "phone_number"
    case CreatedAt => "created_at"
  }

  /** The column `ORDER BY ${sortBy}` resolves to; SQLite matches
      identifiers without regard to ASCII case. Anything else makes the
      statement fail. */
  function ParseColumn(s: string): (r: Option<Column>)
    ensures r.Some? ==> ColumnName(r.value) == Lower(s)
    ensures r.None? ==> forall c: Column :: ColumnName(c) != Lower(s)
  {
    var l := Lower(s);
    if l == "id" then Some(Id)
    else if l == "first_name" then Some(FirstName)
    else if l == "last_name" then Some(LastName)
    else if l == "phone_number" then Some(PhoneNumber)
    else if l == "created_at" then Some(CreatedAt)
    else None
  }

  /** The direction `${sortOrder.toUpperCase()}` spells: ASC or DESC, and
      nothing at all leaves SQL's default, ascending. Anything else makes
      the statement fail. */
  function ParseDirection(s: string): (r: Option<Direction>)
    ensures r == Some(Asc) <==> Upper(s) == "ASC" || s == ""
    ensures r == Some(Desc) <==> Upper(s) == "DESC"
  {
    var u := Upper(s);
    if u == "ASC" || u == "" then Some(Asc)
    else if u == "DESC" then Some(Desc)
    else None
  }

  /** Every column's own name parses back to it. */
  lemma ColumnNameRoundTrip(c: Column)
    ensures ParseColumn(ColumnName(c)) == Some(c)
  {
    var n := ColumnName(c);
    assert forall i :: 0 <= i < |n| ==> !('A' <= n[i] <= 'Z');
    assert Lower(n) == n;
  }

  /** A query without parameters asks for the first ten rows of all
      customers, newest first. */
  lemma DefaultQuery()
    ensures Resolve(ListQuery(None, None, None, None, None)) == Some(Plan("", CreatedAt, Desc, 1, 10))
  {
    ColumnNameRoundTrip(CreatedAt);
    var d := "DESC";
    assert forall i :: 0 <= i < |d| ==> !('a' <= d[i] <= 'z');
    assert Upper(d) == d;
  }

  /** `sortOrder` is read without regard to case. */
  lemma DirectionIgnoresCase(s: string)
    ensures ParseDirection(Upper(s)) == ParseDirection(s)
  {
    UpperIdempotent(s);
  }

  /** `sortBy` is read without regard to case. */
  lemma ColumnIgnoresCase(s: string)
    ensures ParseColumn(Upper(s)) == ParseColumn(s)
  {
    assert Lower(Upper(s)) == Lower(s) by {
      assert forall i :: 0 <= i < |s| ==> Lower(Upper(s))[i] == Lower(s)[i];
    }
  }

  /** `field LIKE '%search%'`: a substring test that folds ASCII case. */
  predicate Like(field: string, search: string) {
    Contains(Lower(field), Lower(search))
  }

  /** The WHERE clause: one of the three text columns holds the search text. */
  predicate Matches(c: Customer, search: string) {
    Like(c.firstName, search) || Like(c.lastName, search) || Like(c.phoneNumber, search)
  }

  /** The empty search matches every row. */
  lemma EmptySearchMatchesAll(c: Customer)
    ensures Matches(c, "")
  {
    assert Lower("") == "";
    ContainsEmpty(Lower(c.firstName));
  }

  predicate DistinctIds(s: seq<Customer>) {
    forall i, j :: 0 <= i < j < |s| ==> s[i].id != s[j].id
  }

  /** The rows of `rows` that match, in their original order. */
  function Filter(rows: seq<Customer>, search: string): (r: seq<Customer>)
    ensures forall c :: c in r <==> c in rows && Matches(c, search)
    ensures DistinctIds(rows) ==> DistinctIds(r)
    ensures |r| <= |rows|
  {
    if rows == [] then []
    else
      var rest := Filter(rows[1..], search);
      assert forall c :: c in rows <==> c == rows[0] || c in rows[1..];
      assert DistinctIds(rows) ==> forall c :: c in rest ==> c.id != rows[0].id;
      if Matches(rows[0], search) then [rows[0]] + rest else rest
  }

  /** Ids grow along the sequence: the order of a scan by rowid. */
  predicate IdsAscending(s: seq<Customer>) {
    forall i, j :: 0 <= i < j < |s| ==> s[i].id < s[j].id
  }

  /** Filtering keeps the rows it keeps in their original order: a scan in
      rowid order stays in rowid order. */
  lemma {:induction false} FilterKeepsOrder(rows: seq<Customer>, search: string)
    requires IdsAscending(rows)
    ensures IdsAscending(Filter(rows, search))
  {
    if rows != [] {
      var rest := Filter(rows[1..], search);
      assert IdsAscending(rows[1..]);
      FilterKeepsOrder(rows[1..], search);
      HeadBelowTail(rows, rest);
      ConsAscending(rows[0], rest);
    }
  }

  /** In an ascending sequence, the head's id is below every row taken
      from the tail. */
  lemma HeadBelowTail(rows: seq<Customer>, rest: seq<Customer>)
    requires IdsAscending(rows) && |rows| > 0
    requires forall c :: c in rest ==> c in rows[1..]
    ensures forall c :: c in rest ==> rows[0].id < c.id
  {
    forall c | c in rest ensures rows[0].id < c.id {
      var k :| 0 <= k < |rows[1..]| && rows[1..][k] == c;
      assert rows[k + 1] == c;
    }
  }

  /** A smaller id in front keeps the ids ascending. */
  lemma ConsAscending(h: Customer, rest: seq<Customer>)
    requires IdsAscending(rest)
    requires forall c :: c in rest ==> h.id < c.id
    ensures IdsAscending([h] + rest)
  {
    var r := [h] + rest;
    forall i, j | 0 <= i < j < |r| ensures r[i].id < r[j].id {
      if i > 0 {
        assert r[i] == rest[i - 1] && r[j] == rest[j - 1];
      } else {
        assert r[j] in rest;
      }
    }
  }

  /** Filtering keeps every row when the search is empty. */
  lemma {:induction false} FilterEmptySearch(rows: seq<Customer>)
    ensures Filter(rows, "") == rows
  {
    if rows != [] {
      EmptySearchMatchesAll(rows[0]);
      FilterKeepsHead(rows, "");
      FilterEmptySearch(rows[1..]);
      assert rows == [rows[0]] + rows[1..];
    }
  }

  /** A matching first row is kept in front of the filtered rest. */
  lemma FilterKeepsHead(rows: seq<Customer>, search: string)
    requires rows != [] && Matches(rows[0], search)
    ensures Filter(rows, search) == [rows[0]] + Filter(rows[1..], search)
  {
  }

  /** `a` sorts strictly before `b` on column `col`: numbers by value,
      text by the BINARY collation. */
  predicate KeyBefore(a: Customer, b: Customer, col: Column) {
    match col
    case Id => a.id < b.id
    case CreatedAt => a.createdAt < b.createdAt
    case FirstName => TextBefore(a.firstName, b.firstName)
    case LastName => TextBefore(a.lastName, b.lastName)
    case PhoneNumber => TextBefore(a.phoneNumber, b.phoneNumber)
  }

  predicate SameKey(a: Customer, b: Customer, col: Column) {
    !KeyBefore(a, b, col) && !KeyBefore(b, a, col)
  }

  /** The order of `ORDER BY col dir`. SQL leaves rows with equal keys in
      no particular order; the model breaks such ties by ascending id. */
  predicate Precedes(a: Customer, b: Customer, col: Column, dir: Direction) {
    (if dir == Asc then KeyBefore(a, b, col) else KeyBefore(b, a, col))
    || (SameKey(a, b, col) && a.id < b.id)
  }

  /** Equal keys are equal column values. */
  lemma SameKeyIsEqualValue(a: Customer, b: Customer, col: Column)
    ensures SameKey(a, b, col) <==>
      match col
      case Id => a.id == b.id
      case CreatedAt => a.createdAt == b.createdAt
      case FirstName => a.firstName == b.firstName
      case LastName => a.lastName == b.lastName
      case PhoneNumber => a.phoneNumber == b.phoneNumber
  {
    match col
    case FirstName => TextBeforeTrichotomy(a.firstName, b.firstName);
    case LastName => TextBeforeTrichotomy(a.lastName, b.lastName);
    case PhoneNumber => TextBeforeTrichotomy(a.phoneNumber, b.phoneNumber);
    case _ =>
  }

  lemma KeyBeforeAsymmetric(a: Customer, b: Customer, col: Column)
    ensures !(KeyBefore(a, b, col) && KeyBefore(b, a, col))
  {
    match col
    case FirstName => TextBeforeTrichotomy(a.firstName, b.firstName);
    case LastName => TextBeforeTrichotomy(a.lastName, b.lastName);
    case PhoneNumber => TextBeforeTrichotomy(a.phoneNumber, b.phoneNumber);
    case _ =>
  }

  lemma KeyBeforeTransitive(a: Customer, b: Customer, c: Customer, col: Column)
    requires KeyBefore(a, b, col) && KeyBefore(b, c, col)
    ensures KeyBefore(a, c, col)
  {
    match col
    case FirstName => TextBeforeTransitive(a.firstName, b.firstName, c.firstName);
    case LastName => TextBeforeTransitive(a.lastName, b.lastName, c.lastName);
    case PhoneNumber => TextBeforeTransitive(a.phoneNumber, b.phoneNumber, c.phoneNumber);
    case _ =>
  }

  /** No row precedes itself, and of two rows at most one precedes the other. */
  lemma PrecedesAsymmetric(a: Customer, b: Customer, col: Column, dir: Direction)
    ensures !(Precedes(a, b, col, dir) && Precedes(b, a, col, dir))
    ensures !Precedes(a, a, col, dir)
  {
    KeyBeforeAsymmetric(a, b, col);
    KeyBeforeAsymmetric(a, a, col);
  }

  /** Of two rows with different ids one precedes the other. */
  lemma PrecedesTotal(a: Customer, b: Customer, col: Column, dir: Direction)
    requires a.id != b.id
    ensures Precedes(a, b, col, dir) || Precedes(b, a, col, dir)
  {
  }

  lemma PrecedesTransitive(a: Customer, b: Customer, c: Customer, col: Column, dir: Direction)
    requires Precedes(a, b, col, dir) && Precedes(b, c, col, dir)
    ensures Precedes(a, c, col, dir)
  {
    SameKeyIsEqualValue(a, b, col);
    SameKeyIsEqualValue(b, c, col);
    SameKeyIsEqualValue(a, c, col);
    if KeyBefore(a, b, col) && KeyBefore(b, c, col) {
      KeyBeforeTransitive(a, b, c, col);
    }
    if KeyBefore(b, a, col) && KeyBefore(c, b, col) {
      KeyBeforeTransitive(c, b, a, col);
    }
  }

  /** Every row precedes every later row. */
  predicate SortedBy(s: seq<Customer>, col: Column, dir: Direction) {
    forall i, j :: 0 <= i < j < |s| ==> Precedes(s[i], s[j], col, dir)
  }

  /** Insert `x` into a sorted sequence at its place. */
  function Insert(x: Customer, s: seq<Customer>, col: Column, dir: Direction): (r: seq<Customer>)
    requires SortedBy(s, col, dir)
    requires forall y :: y in s ==> y.id != x.id
    ensures SortedBy(r, col, dir)
    ensures multiset(r) == multiset(s) + multiset{x}
  {
    if s == [] then [x]
    else if Precedes(x, s[0], col, dir) then
      FirstPrecedesAll(x, s, col, dir);
      [x] + s
    else
      PrecedesTotal(x, s[0], col, dir);
      var rest := Insert(x, s[1..], col, dir);
      HeadPrecedesInserted(s, x, rest, col, dir);
      assert s == [s[0]] + s[1..];
      [s[0]] + rest
  }

  /** Putting in front of a sorted sequence a row that precedes all of its
      rows keeps it sorted. */
  lemma ConsSorted(h: Customer, s: seq<Customer>, col: Column, dir: Direction)
    requires SortedBy(s, col, dir)
    requires forall y :: y in s ==> Precedes(h, y, col, dir)
    ensures SortedBy([h] + s, col, dir)
  {
    var r := [h] + s;
    forall i, j | 0 <= i < j < |r| ensures Precedes(r[i], r[j], col, dir) {
      if i > 0 {
        assert r[i] == s[i - 1] && r[j] == s[j - 1];
      } else {
        assert r[j] in s;
      }
    }
  }

  lemma FirstPrecedesAll(x: Customer, s: seq<Customer>, col: Column, dir: Direction)
    requires SortedBy(s, col, dir) && |s| > 0 && Precedes(x, s[0], col, dir)
    ensures SortedBy([x] + s, col, dir)
  {
    forall y | y in s ensures Precedes(x, y, col, dir) {
      var j :| 0 <= j < |s| && s[j] == y;
      if j > 0 {
        PrecedesTransitive(x, s[0], y, col, dir);
      }
    }
    ConsSorted(x, s, col, dir);
  }

  lemma HeadPrecedesInserted(s: seq<Customer>, x: Customer, rest: seq<Customer>, col: Column, dir: Direction)
    requires SortedBy(s, col, dir) && |s| > 0 && Precedes(s[0], x, col, dir)
    requires SortedBy(rest, col, dir)
    requires multiset(rest) == multiset(s[1..]) + multiset{x}
    ensures SortedBy([s[0]] + rest, col, dir)
  {
    forall y | y in rest ensures Precedes(s[0], y, col, dir) {
      assert y in multiset(rest);
      if y != x {
        assert y in multiset(s[1..]);
        var j :| 0 <= j < |s[1..]| && s[1..][j] == y;
        assert s[j + 1] == y;
      }
    }
    ConsSorted(s[0], rest, col, dir);
  }

  /** Insertion sort by `Precedes`. */
  function Sort(s: seq<Customer>, col: Column, dir: Direction): (r: seq<Customer>)
    requires DistinctIds(s)
    ensures SortedBy(r, col, dir)
    ensures multiset(r) == multiset(s)
  {
    if s == [] then []
    else
      TailDistinct(s);
      var rest := Sort(s[1..], col, dir);
      HeadIdFresh(s, rest);
      Insert(s[0], rest, col, dir)
  }

  /** The tail of a sequence with distinct ids has distinct ids. */
  lemma TailDistinct(s: seq<Customer>)
    requires DistinctIds(s) && |s| > 0
    ensures DistinctIds(s[1..])
  {
    forall i, j | 0 <= i < j < |s| - 1 ensures s[1..][i].id != s[1..][j].id {
      assert s[1..][i] == s[i + 1] && s[1..][j] == s[j + 1];
    }
  }

  /** The head's id occurs in no arrangement of the tail, and the head
      together with the tail are the whole sequence. */
  lemma HeadIdFresh(s: seq<Customer>, rest: seq<Customer>)
    requires DistinctIds(s) && |s| > 0
    requires multiset(rest) == multiset(s[1..])
    ensures forall y :: y in rest ==> y.id != s[0].id
    ensures multiset(s) == multiset(rest) + multiset{s[0]}
  {
    forall y | y in rest ensures y.id != s[0].id {
      assert y in multiset(s[1..]);
      var k :| 0 <= k < |s[1..]| && s[1..][k] == y;
      assert s[k + 1] == y;
    }
    assert s == [s[0]] + s[1..];
  }

  /** A sorted arrangement of a collection of rows is unique: whatever
      procedure sorts the matches, the listing shows the same order. */
  lemma {:induction false} SortedUnique(a: seq<Customer>, b: seq<Customer>, col: Column, dir: Direction)
    requires SortedBy(a, col, dir) && SortedBy(b, col, dir)
    requires multiset(a) == multiset(b)
    ensures a == b
    decreases |a|
  {
    assert |a| == |multiset(a)| == |b|;
    if |a| > 0 {
      assert a[0] in multiset(b) && b[0] in multiset(a);
      if a[0] != b[0] {
        var i :| 0 <= i < |a| && a[i] == b[0];
        var j :| 0 <= j < |b| && b[j] == a[0];
        assert Precedes(a[0], b[0], col, dir);
        assert Precedes(b[0], a[0], col, dir);
        PrecedesAsymmetric(a[0], b[0], col, dir);
      }
      TailMultiset(a);
      TailMultiset(b);
      SortedUnique(a[1..], b[1..], col, dir);
    }
  }

  lemma TailMultiset(a: seq<Customer>)
    requires |a| > 0
    ensures multiset(a[1..]) == multiset(a) - multiset{a[0]}
  {
    assert a == [a[0]] + a[1..];
  }

  function Min(a: nat, b: nat): nat { if a <= b then a else b }

  /** `LIMIT limit OFFSET offset`: the rows at positions offset,
      offset+1, ... of `s`, at most `limit` of them. */
  function Window<T>(s: seq<T>, offset: nat, limit: nat): (r: seq<T>)
    ensures |r| == if offset >= |s| then 0 else Min(limit, |s| - offset)
    ensures forall k :: 0 <= k < |r| ==> r[k] == s[offset + k]
  {
    if offset >= |s| then [] else s[offset..offset + Min(limit, |s| - offset)]
  }

  /** `Math.ceil(total / limit)` in integers: the number of pages of
      `limit` rows that hold `total` rows. */
  function CeilDiv(n: nat, d: nat): (r: nat)
    requires d > 0
    ensures (r - 1) * d < n <= r * d
  {
    var r := (n + d - 1) / d;
    assert (n + d - 1) % d < d;
    assert r * d == n + d - 1 - (n + d - 1) % d;
    r
  }

  /** A query whose sort column and direction passed validation, with
      the defaults filled in. */
  datatype Plan = Plan(search: string, col: Column, dir: Direction, page: nat, limit: nat)

  predicate ValidPlan(p: Plan) { p.page >= 1 && p.limit >= 1 }

  /** Fill in the defaults and resolve `sortBy` and `sortOrder`; None when
      either does not name a column or a direction. */
  function Resolve(q: ListQuery): (r: Option<Plan>)
    requires q.page != Some(0) && q.limit != Some(0)
    ensures r.Some? <==> ParseColumn(SortByArg(q)).Some? && ParseDirection(SortOrderArg(q)).Some?
    ensures r.Some? ==> ValidPlan(r.value) && r.value.search == SearchArg(q)
                        && r.value.page == PageArg(q) && r.value.limit == LimitArg(q)
                        && Some(r.value.col) == ParseColumn(SortByArg(q))
                        && Some(r.value.dir) == ParseDirection(SortOrderArg(q))
  {
    var col, dir := ParseColumn(SortByArg(q)), ParseDirection(SortOrderArg(q));
    if col.None? || dir.None? then None
    else Some(Plan(SearchArg(q), col.value, dir.value, PageArg(q), LimitArg(q)))
  }

  /** The offset of the first row of the page. */
  function Offset(p: Plan): nat
    requires ValidPlan(p)
  {
    (p.page - 1) * p.limit
  }

  /** The two statements of the handler: the page query and the count. */
  function Run(table: seq<Customer>, p: Plan): (r: ListPage)
    requires DistinctIds(table) && ValidPlan(p)
    ensures r.page == p.page && |r.rows| <= p.limit
  {
    var matches := Filter(table, p.search);
    ListPage(Window(Sort(matches, p.col, p.dir), Offset(p), p.limit),
             |matches|, p.page, CeilDiv(|matches|, p.limit))
  }

  /** The list handler over the table's rows in rowid order. A sort
      column or direction that does not parse makes SQLite refuse the
      statement, answered with status 500. */
  function List(table: seq<Customer>, q: ListQuery): (r: Outcome<ListPage>)
    requires DistinctIds(table)
    requires q.page != Some(0) && q.limit != Some(0)
    ensures r.Ok? <==> Resolve(q).Some?
    ensures !r.Ok? ==> r.StoreError?
    ensures r.Ok? ==> r.value == Run(table, Resolve(q).value)
  {
    match Resolve(q)
    case None => StoreError
    case Some(p) => Ok(Run(table, p))
  }

  /** Every listed row is a matching row of the table, the page is in
      `(sortBy, sortOrder)` order and holds at most `limit` rows. */
  lemma RunRowsAreSortedMatches(table: seq<Customer>, p: Plan)
    requires DistinctIds(table) && ValidPlan(p)
    ensures forall c :: c in Run(table, p).rows ==> c in table && Matches(c, p.search)
    ensures SortedBy(Run(table, p).rows, p.col, p.dir)
    ensures |Run(table, p).rows| <= p.limit
  {
    var sorted := Sort(Filter(table, p.search), p.col, p.dir);
    var rows := Window(sorted, Offset(p), p.limit);
    assert Run(table, p).rows == rows;
    forall c | c in rows ensures c in table && Matches(c, p.search) {
      var k :| 0 <= k < |rows| && rows[k] == c;
      assert c in multiset(sorted);
    }
  }

  /** The listed page is the window `[offset, offset + limit)` of the
      matching rows arranged in `(sortBy, sortOrder)` order, for ANY
      arrangement that is so ordered. */
  lemma RunRowsAreWindowOfOrder(table: seq<Customer>, p: Plan, ordered: seq<Customer>)
    requires DistinctIds(table) && ValidPlan(p)
    requires SortedBy(ordered, p.col, p.dir)
    requires multiset(ordered) == multiset(Filter(table, p.search))
    ensures Run(table, p).rows == Window(ordered, Offset(p), p.limit)
  {
    SortedUnique(Sort(Filter(table, p.search), p.col, p.dir), ordered, p.col, p.dir);
  }

  /** `total` counts all matching rows; it depends neither on the page
      asked for nor on the order, and neither does `totalPages`. */
  lemma RunTotalIgnoresPage(table: seq<Customer>, p1: Plan, p2: Plan)
    requires DistinctIds(table) && ValidPlan(p1) && ValidPlan(p2)
    requires p1.search == p2.search
    ensures Run(table, p1).total == Run(table, p2).total == |Filter(table, p1.search)|
    ensures p1.limit == p2.limit ==> Run(table, p1).totalPages == Run(table, p2).totalPages
  {
  }

  /** With an empty search, `total` is the number of rows in the table. */
  lemma RunEmptySearchTotal(table: seq<Customer>, p: Plan)
    requires DistinctIds(table) && ValidPlan(p)
    requires p.search == ""
    ensures Run(table, p).total == |table|
  {
    FilterEmptySearch(table);
  }

  /** A page holds rows exactly when it is one of the first `totalPages`
      pages; a page past the last is empty. */
  lemma RunPageEmptyIffPastLast(table: seq<Customer>, p: Plan)
    requires DistinctIds(table) && ValidPlan(p)
    ensures Run(table, p).rows == [] <==> p.page > Run(table, p).totalPages
  {
    RunRowsEmptyIff(table, p);
    RunOffsetPastTotal(table, p);
  }

  /** The offset reaches the number of matches exactly past the last page. */
  lemma RunOffsetPastTotal(table: seq<Customer>, p: Plan)
    requires DistinctIds(table) && ValidPlan(p)
    ensures Offset(p) >= Run(table, p).total <==> p.page > Run(table, p).totalPages
  {
    RunCounts(table, p);
    PastLastPage(|Filter(table, p.search)|, p);
  }

  /** `total` is the number of matching rows and `totalPages` the number
      of `limit`-row pages they fill. */
  lemma RunCounts(table: seq<Customer>, p: Plan)
    requires DistinctIds(table) && ValidPlan(p)
    ensures Run(table, p).total == |Filter(table, p.search)|
    ensures Run(table, p).totalPages == CeilDiv(|Filter(table, p.search)|, p.limit)
  {
  }

  /** The offset of a page reaches `n` exactly when the page lies past the
      `ceil(n / limit)` pages that `n` rows fill. */
  lemma PastLastPage(n: nat, p: Plan)
    requires ValidPlan(p)
    ensures Offset(p) >= n <==> p.page > CeilDiv(n, p.limit)
  {
    OffsetPastTotal(p.page, p.limit, n, CeilDiv(n, p.limit), Offset(p));
  }

  /** The page is empty exactly when its offset reaches the number of
      matches. */
  lemma RunRowsEmptyIff(table: seq<Customer>, p: Plan)
    requires DistinctIds(table) && ValidPlan(p)
    ensures Run(table, p).rows == [] <==> Offset(p) >= Run(table, p).total
  {
    var matches := Filter(table, p.search);
    var sorted := Sort(matches, p.col, p.dir);
    assert |sorted| == |matches| by {
      assert |multiset(sorted)| == |multiset(matches)|;
    }
    EmptyWindow(sorted, Offset(p), p.limit, Run(table, p).rows);
  }

  lemma EmptyWindow(s: seq<Customer>, offset: nat, limit: nat, w: seq<Customer>)
    requires limit >= 1 && w == Window(s, offset, limit)
    ensures w == [] <==> offset >= |s|
  {
  }

  /** `(page - 1) * limit >= total` exactly when `page > ceil(total / limit)`. */
  lemma OffsetPastTotal(page: nat, limit: nat, total: nat, pages: nat, offset: nat)
    requires page >= 1 && limit >= 1
    requires (pages - 1) * limit < total <= pages * limit
    requires offset == (page - 1) * limit
    ensures offset >= total <==> page > pages
  {
    if page > pages {
      assert (page - 1) * limit >= pages * limit by {
        MulMonotone(pages, page - 1, limit);
      }
    } else {
      assert (page - 1) * limit <= (pages - 1) * limit by {
        MulMonotone(page - 1, pages - 1, limit);
      }
    }
  }

  lemma MulMonotone(a: nat, b: nat, d: nat)
    requires a <= b
    ensures a * d <= b * d
  {
  }
}
