/** Ordering, paging and the whole task list query. */
module TaskList {
  import opened Wrappers
  import opened Text
  import opened Calendar
  import opened Sql
  import opened TaskFilter

  // ----- ordering -----

  datatype SortKey = ByCreated | ByDue | ByUpdated

  /** The default and any unknown sort is by creation. */
  function SortKeyOf(sort: string): SortKey {
    var s := TrimSpace(sort);
    if s == "due" then ByDue else if s == "updated" then ByUpdated else ByCreated
  }

  /** Newer first, ties by descending id. */
  predicate NewerFirst(at: int, id: int, at2: int, id2: int) { at > at2 || (at == at2 && id > id2) }

  /** a comes before b in the ORDER BY of the key. */
  predicate Precedes(key: SortKey, a: TaskRow, b: TaskRow) {
    match key
    case ByCreated => NewerFirst(a.createdAt, a.id, b.createdAt, b.id)
    case ByUpdated => NewerFirst(a.updatedAt, a.id, b.updatedAt, b.id)
    case ByDue =>
      if a.dueDate.Some? && b.dueDate.Some? && a.dueDate != b.dueDate then LexLess(a.dueDate.value, b.dueDate.value)
      else if a.dueDate.Some? != b.dueDate.Some? then a.dueDate.Some?
      else NewerFirst(a.createdAt, a.id, b.createdAt, b.id)
  }

  /** Every order is strict and transitive, and total on rows with different ids. */
  lemma StrictTotalOrder(key: SortKey, a: TaskRow, b: TaskRow, c: TaskRow)
    ensures !Precedes(key, a, a)
    ensures !(Precedes(key, a, b) && Precedes(key, b, a))
    ensures a.id != b.id ==> Precedes(key, a, b) || Precedes(key, b, a)
    ensures Precedes(key, a, b) && Precedes(key, b, c) ==> Precedes(key, a, c)
  {
    if a.dueDate.Some? && b.dueDate.Some? {
      LexTotal(a.dueDate.value, b.dueDate.value);
      if c.dueDate.Some? {
        LexTotal(b.dueDate.value, c.dueDate.value);
        LexTotal(a.dueDate.value, c.dueDate.value);
        if LexLess(a.dueDate.value, b.dueDate.value) && LexLess(b.dueDate.value, c.dueDate.value) {
          LexTransitive(a.dueDate.value, b.dueDate.value, c.dueDate.value);
        }
      }
    }
  }

  // ----- which order a sort text asks for -----

  /** The later one stands first; of equally late ones the one with the higher id. */
  predicate LatestFirst(at: int, id: int, at2: int, id2: int) { at >= at2 && (at == at2 ==> id > id2) }

  /** By due date: a dated row before an undated one, the earlier day first, then the latest made. */
  predicate DueFirst(a: TaskRow, b: TaskRow) {
    && (b.dueDate.Some? ==> a.dueDate.Some?)
    && (b.dueDate.Some? && a.dueDate.Some? ==> !LexLess(b.dueDate.value, a.dueDate.value))
    && (a.dueDate == b.dueDate ==> LatestFirst(a.createdAt, a.id, b.createdAt, b.id))
  }

  /** The row a may stand before the row b in a list with this sort text: "due" and "updated" are
      the two texts that ask for another order than that of creation, white space around them aside. */
  predicate MayStandBefore(sort: string, a: TaskRow, b: TaskRow) {
    && (TrimSpace(sort) == "due" ==> DueFirst(a, b))
    && (TrimSpace(sort) == "updated" ==> LatestFirst(a.updatedAt, a.id, b.updatedAt, b.id))
    && (TrimSpace(sort) !in {"due", "updated"} ==> LatestFirst(a.createdAt, a.id, b.createdAt, b.id))
  }

  ghost predicate StandsAs(sort: string, rows: seq<TaskRow>) {
    forall i, j :: 0 <= i < j < |rows| ==> MayStandBefore(sort, rows[i], rows[j])
  }

  /** The key chosen for a sort text orders two rows as the text asks. */
  lemma KeyMeansText(sort: string, a: TaskRow, b: TaskRow)
    ensures Precedes(SortKeyOf(sort), a, b) ==> MayStandBefore(sort, a, b)
    ensures a.id != b.id ==> (Precedes(SortKeyOf(sort), a, b) <==> MayStandBefore(sort, a, b))
  {
    if a.dueDate.Some? && b.dueDate.Some? {
      LexTotal(a.dueDate.value, b.dueDate.value);
    }
  }

  /** On canonical dates: of two rows shown by due date the earlier day comes first. */
  lemma DueListIsByDay(a: TaskRow, b: TaskRow)
    requires MayHoldDay(a.dueDate) && MayHoldDay(b.dueDate)
    ensures DueFirst(a, b) && b.dueDate.Some? ==>
              a.dueDate.Some? && DayNumber(ReadDate(a.dueDate.value)) <= DayNumber(ReadDate(b.dueDate.value))
    ensures DueFirst(a, b) && b.dueDate.Some? && ReadDate(a.dueDate.value) == ReadDate(b.dueDate.value) ==>
              LatestFirst(a.createdAt, a.id, b.createdAt, b.id)
  {
    if a.dueDate.Some? && b.dueDate.Some? {
      var x, y := ReadDate(a.dueDate.value), ReadDate(b.dueDate.value);
      ReadThenFormat(a.dueDate.value);
      ReadThenFormat(b.dueDate.value);
      TextOrderIsDayOrder(y, x);
      DayNumberOrder(x, y);
      DayNumberOrder(y, x);
    }
  }

  ghost predicate DistinctIds(rows: seq<TaskRow>) {
    forall i, j :: 0 <= i < j < |rows| ==> rows[i].id != rows[j].id
  }

  ghost predicate Ordered(key: SortKey, rows: seq<TaskRow>) {
    forall i, j :: 0 <= i < j < |rows| ==> Precedes(key, rows[i], rows[j])
  }

  function Insert(key: SortKey, row: TaskRow, rows: seq<TaskRow>): seq<TaskRow> {
    if rows == [] || Precedes(key, row, rows[0]) then [row] + rows
    else [rows[0]] + Insert(key, row, rows[1..])
  }

  /** The rows in the order of the key. */
  function Sort(key: SortKey, rows: seq<TaskRow>): seq<TaskRow> {
    if rows == [] then [] else Insert(key, rows[0], Sort(key, rows[1..]))
  }

  lemma {:induction false} InsertKeepsRows(key: SortKey, row: TaskRow, rows: seq<TaskRow>)
    ensures multiset(Insert(key, row, rows)) == multiset(rows) + multiset{row}
  {
    if rows != [] && !Precedes(key, row, rows[0]) {
      InsertKeepsRows(key, row, rows[1..]);
      assert rows == [rows[0]] + rows[1..];
    }
  }

  lemma {:induction false} InsertOrdered(key: SortKey, row: TaskRow, rows: seq<TaskRow>)
    requires Ordered(key, rows) && forall r :: r in rows ==> r.id != row.id
    ensures Ordered(key, Insert(key, row, rows))
  {
    if rows == [] {
    } else if Precedes(key, row, rows[0]) {
      var out := [row] + rows;
      forall i, j | 0 <= i < j < |out|
        ensures Precedes(key, out[i], out[j])
      {
        StrictTotalOrder(key, row, rows[0], out[j]);
      }
    } else {
      assert forall r :: r in rows[1..] ==> r in rows;
      InsertOrdered(key, row, rows[1..]);
      InsertKeepsRows(key, row, rows[1..]);
      var tail := Insert(key, row, rows[1..]);
      StrictTotalOrder(key, rows[0], row, row);
      forall r | r in tail
        ensures Precedes(key, rows[0], r)
      {
        assert r in multiset(tail);
        if r != row {
          assert r in rows[1..];
        }
      }
    }
  }

  lemma {:induction false} SortKeepsRows(key: SortKey, rows: seq<TaskRow>)
    ensures multiset(Sort(key, rows)) == multiset(rows)
  {
    if rows != [] {
      SortKeepsRows(key, rows[1..]);
      InsertKeepsRows(key, rows[0], Sort(key, rows[1..]));
      assert rows == [rows[0]] + rows[1..];
    }
  }

  lemma {:induction false} SortOrders(key: SortKey, rows: seq<TaskRow>)
    requires DistinctIds(rows)
    ensures Ordered(key, Sort(key, rows))
  {
    if rows != [] {
      SortOrders(key, rows[1..]);
      SortKeepsRows(key, rows[1..]);
      forall r | r in Sort(key, rows[1..])
        ensures r.id != rows[0].id
      {
        assert r in multiset(rows[1..]);
      }
      InsertOrdered(key, rows[0], Sort(key, rows[1..]));
    }
  }

  lemma HeadsAgree(key: SortKey, a: seq<TaskRow>, b: seq<TaskRow>)
    requires Ordered(key, a) && Ordered(key, b) && multiset(a) == multiset(b) && a != [] && b != []
    ensures a[0] == b[0]
  {
    assert a[0] in multiset(b) && b[0] in multiset(a);
    var i :| 0 <= i < |b| && b[i] == a[0];
    var j :| 0 <= j < |a| && a[j] == b[0];
    StrictTotalOrder(key, a[0], b[0], a[0]);
  }

  lemma TailsAgree(a: seq<TaskRow>, b: seq<TaskRow>)
    requires a != [] && b != [] && a[0] == b[0] && multiset(a) == multiset(b)
    ensures multiset(a[1..]) == multiset(b[1..])
  {
    assert a == [a[0]] + a[1..] && b == [b[0]] + b[1..];
    assert multiset(a[1..]) == multiset(a) - multiset{a[0]};
    assert multiset(b[1..]) == multiset(b) - multiset{b[0]};
  }

  lemma SameSize(a: seq<TaskRow>, b: seq<TaskRow>)
    requires multiset(a) == multiset(b)
    ensures |a| == |b|
  {
    assert |multiset(a)| == |a| && |multiset(b)| == |b|;
  }

  /** ORDER BY leaves no freedom: any arrangement of the rows that respects the order is this one. */
  lemma {:induction false} OrderIsUnique(key: SortKey, a: seq<TaskRow>, b: seq<TaskRow>)
    requires Ordered(key, a) && Ordered(key, b) && multiset(a) == multiset(b)
    ensures a == b
  {
    SameSize(a, b);
    if a != [] {
      HeadsAgree(key, a, b);
      TailsAgree(a, b);
      OrderIsUnique(key, a[1..], b[1..]);
      assert a == [a[0]] + a[1..] && b == [b[0]] + b[1..];
    }
  }

  // ----- paging -----

  const TWO63: int := 0x8000_0000_0000_0000
  const TWO64: int := 0x1_0000_0000_0000_0000

  /** The value of an integer expression in Go's 64-bit int. */
  function Int64(n: int): int { (n + TWO63) % TWO64 - TWO63 }

  function ClampPage(page: int): (p: int)
    ensures p >= 1
  {
    if page < 1 then 1 else page
  }

  function ClampPerPage(perPage: int): (p: int)
    ensures 1 <= p <= 200
  {
    if perPage < 1 || perPage > 200 then 50 else perPage
  }

  /** LIMIT limit OFFSET offset: a negative offset counts as zero. */
  function LimitOffset<T>(rows: seq<T>, limit: nat, offset: int): seq<T> {
    var from := if offset < 0 then 0 else if offset > |rows| then |rows| else offset;
    rows[from..if from + limit > |rows| then |rows| else from + limit]
  }

  function Offset(page: int, perPage: int): int { Int64((page - 1) * perPage) }

  function PageOf<T>(rows: seq<T>, page: int, perPage: nat): seq<T> {
    LimitOffset(rows, perPage, Offset(page, perPage))
  }

  function PageCount(total: nat, perPage: int): nat
    requires perPage >= 1
  {
    (total + perPage - 1) / perPage
  }

  function Pages<T>(rows: seq<T>, perPage: nat, k: nat): seq<T> {
    if k == 0 then [] else Pages(rows, perPage, k - 1) + PageOf(rows, k, perPage)
  }

  /** The first k pages' rows, counted without regard to the list's end. */
  function Reach(k: nat, perPage: nat): nat { if k == 0 then 0 else Reach(k - 1, perPage) + perPage }

  lemma {:induction false} ReachIsProduct(k: nat, perPage: nat)
    ensures Reach(k, perPage) == k * perPage
  {
    if k > 0 {
      ReachIsProduct(k - 1, perPage);
      assert k * perPage == (k - 1) * perPage + perPage;
    }
  }

  lemma {:induction false} PagesArePrefix<T>(rows: seq<T>, perPage: nat, k: nat)
    requires 1 <= perPage <= 200 && |rows| < TWO63 - 200
    requires Reach(k, perPage) < |rows| + perPage
    ensures Pages(rows, perPage, k) == rows[..if Reach(k, perPage) > |rows| then |rows| else Reach(k, perPage)]
  {
    if k > 0 {
      PagesArePrefix(rows, perPage, k - 1);
      ReachIsProduct(k - 1, perPage);
      NextPage(rows, perPage, Reach(k - 1, perPage));
    }
  }

  lemma NextPage<T>(rows: seq<T>, perPage: nat, lo: nat)
    requires lo < |rows| < TWO63 - 200 && perPage <= 200
    ensures rows[..lo] + LimitOffset(rows, perPage, Int64(lo)) ==
            rows[..if lo + perPage > |rows| then |rows| else lo + perPage]
  {
    assert Int64(lo) == lo;
  }

  /** Reading pages 1 up to the last gives the whole list in order: nothing lost, nothing repeated. */
  lemma PagesPartition<T>(rows: seq<T>, perPage: nat)
    requires 1 <= perPage <= 200 && |rows| < TWO63 - 200
    ensures Pages(rows, perPage, PageCount(|rows|, perPage)) == rows
  {
    var k := PageCount(|rows|, perPage);
    CeilingBounds(|rows|, perPage);
    ReachIsProduct(k, perPage);
    PagesArePrefix(rows, perPage, k);
    assert rows[..|rows|] == rows;
  }

  lemma CeilingBounds(total: nat, perPage: nat)
    requires perPage >= 1
    ensures total <= PageCount(total, perPage) * perPage < total + perPage
  {
    var n := total + perPage - 1;
    assert n == (n / perPage) * perPage + n % perPage;
  }

  /** The rows a page should hold when its offset is not reduced to 64 bits. */
  function IntendedPage<T>(rows: seq<T>, page: int, perPage: nat): seq<T> {
    LimitOffset(rows, perPage, (page - 1) * perPage)
  }

  /** A page is right on every list exactly when its offset fits in 64 bits: past that the product
      wraps round and a page far beyond the end shows rows again. */
  lemma PageIsRightIffOffsetFits(page: int, perPage: nat)
    requires page >= 1 && 1 <= perPage <= 200
    ensures (forall rows: seq<int> :: PageOf(rows, page, perPage) == IntendedPage(rows, page, perPage)) <==>
            (page - 1) * perPage < 0x8000_0000_0000_0000
  {
    var full := (page - 1) * perPage;
    assert full >= 0;
    if full < TWO63 {
      assert Int64(full) == full;
    } else {
      var rows := WrapWitness(full, perPage);
      assert PageOf(rows, page, perPage) == LimitOffset(rows, perPage, Int64(full));
      assert IntendedPage(rows, page, perPage) == LimitOffset(rows, perPage, full);
    }
  }

  lemma WrapWitness(full: nat, perPage: nat) returns (rows: seq<int>)
    requires full >= TWO63 && perPage >= 1
    ensures LimitOffset(rows, perPage, Int64(full)) != LimitOffset(rows, perPage, full)
  {
    var w := Int64(full);
    assert w < TWO63 <= full;
    rows := seq((if w < 0 then 0 else w) + 1, _ => 0);
    assert LimitOffset(rows, perPage, full) == [];
    assert |LimitOffset(rows, perPage, w)| == 1;
  }

  // ----- the query -----

  datatype ListResult = ListResult(tasks: seq<TaskRow>, total: nat, page: int, perPage: int)

  /** The rows a WHERE clause selects, in table order. */
  function Where(table: seq<TaskRow>, conditions: seq<Cond>, next: nat, args: seq<Value>): seq<TaskRow> {
    if table == [] then []
    else
      var rest := Where(table[1..], conditions, next, args);
      if Selected(conditions, next, args, table[0]) then [table[0]] + rest else rest
  }

  /** The rows a filter asks for, in table order. */
  ghost function Matching(table: seq<TaskRow>, f: Filter, today: Date): seq<TaskRow>
    requires Exists(today)
  {
    if table == [] then []
    else
      var rest := Matching(table[1..], f, today);
      if Selects(f, today, table[0]) then [table[0]] + rest else rest
  }

  lemma {:induction false} WhereIsMatching(table: seq<TaskRow>, conditions: seq<Cond>, next: nat, args: seq<Value>, f: Filter, today: Date)
    requires Exists(today)
    requires forall row :: Selected(conditions, next, args, row) <==> Selects(f, today, row)
    ensures Where(table, conditions, next, args) == Matching(table, f, today)
  {
    if table != [] {
      WhereIsMatching(table[1..], conditions, next, args, f, today);
    }
  }

  lemma {:induction false} MatchingMembers(table: seq<TaskRow>, f: Filter, today: Date)
    requires Exists(today)
    ensures |Matching(table, f, today)| <= |table|
    ensures forall row :: row in Matching(table, f, today) <==> row in table && Selects(f, today, row)
  {
    if table != [] {
      MatchingMembers(table[1..], f, today);
      assert forall row :: row in table <==> row == table[0] || row in table[1..];
    }
  }

  lemma {:induction false} MatchingDistinct(table: seq<TaskRow>, f: Filter, today: Date)
    requires Exists(today) && DistinctIds(table)
    ensures DistinctIds(Matching(table, f, today))
  {
    if table != [] {
      var rest := Matching(table[1..], f, today);
      MatchingDistinct(table[1..], f, today);
      MatchingMembers(table[1..], f, today);
      forall r | r in rest
        ensures r.id != table[0].id
      {
        assert r in table[1..];
      }
    }
  }

  /** ListTasks. A missing filter means the first page of fifty. */
  method ListTasks(table: seq<TaskRow>, filter: Option<Filter>, today: Date) returns (r: ListResult)
    requires Exists(today)
    ensures var f := if filter.Some? then filter.value else NoFilter();
      r.page == ClampPage(f.page) && r.perPage == ClampPerPage(f.perPage) &&
      r.total == |Matching(table, f, today)| &&
      r.tasks == PageOf(Sort(SortKeyOf(f.sort), Matching(table, f, today)), r.page, r.perPage)
    ensures DistinctIds(table) ==> StandsAs(if filter.Some? then filter.value.sort else "", r.tasks)
    ensures filter.None? ==> r.page == 1 && r.perPage == 50 && r.total == |table|
    ensures filter.Some? && filter.value.page >= 1 ==> r.page == filter.value.page
    ensures filter.Some? && filter.value.page < 1 ==> r.page == 1
    ensures filter.Some? && !(1 <= filter.value.perPage <= 200) ==> r.perPage == 50
    ensures filter.Some? && 1 <= filter.value.perPage <= 200 ==> r.perPage == filter.value.perPage
  {
    var f := if filter.Some? then filter.value else NoFilter();
    var page, perPage := ClampPage(f.page), ClampPerPage(f.perPage);
    var conditions, args := CompileFilter(f, today);
    var offset := Offset(page, perPage);
    forall row: TaskRow
      ensures Selected(conditions, 1, args, row) <==> Selects(f, today, row)
      ensures Selected(conditions, 2, DataArgs(f.username, args, perPage, offset), row) <==> Selects(f, today, row)
    {
      StatementsAgree(conditions, args, f.username, perPage, offset, row);
    }
    var dataArgs := DataArgs(f.username, args, perPage, offset);
    WhereIsMatching(table, conditions, 1, args, f, today);
    WhereIsMatching(table, conditions, 2, dataArgs, f, today);
    var counted := Where(table, conditions, 1, args);
    var rows := Sort(SortKeyOf(f.sort), Where(table, conditions, 2, dataArgs));
    r := ListResult(LimitOffset(rows, perPage, offset), |counted|, page, perPage);
    PageStandsAs(table, f, today, page, perPage);
    if filter.None? {
      MatchingAll(table, today);
    }
  }

  function NoFilter(): Filter {
    Filter("", None, [], "", None, None, "", "", "", "", 1, 50, "", "", "")
  }

  /** A missing filter asks for every task. */
  lemma {:induction false} MatchingAll(table: seq<TaskRow>, today: Date)
    requires Exists(today)
    ensures Matching(table, NoFilter(), today) == table
  {
    if table != [] {
      MatchingAll(table[1..], today);
    }
  }

  lemma SortStandsAs(sort: string, rows: seq<TaskRow>)
    requires DistinctIds(rows)
    ensures StandsAs(sort, Sort(SortKeyOf(sort), rows))
  {
    var key := SortKeyOf(sort);
    var sorted := Sort(key, rows);
    SortOrders(key, rows);
    forall i, j | 0 <= i < j < |sorted|
      ensures MayStandBefore(sort, sorted[i], sorted[j])
    {
      KeyMeansText(sort, sorted[i], sorted[j]);
    }
  }

  lemma PageStandsAs(table: seq<TaskRow>, f: Filter, today: Date, page: int, perPage: nat)
    requires Exists(today)
    ensures DistinctIds(table) ==> StandsAs(f.sort, PageOf(Sort(SortKeyOf(f.sort), Matching(table, f, today)), page, perPage))
  {
    if DistinctIds(table) {
      MatchingDistinct(table, f, today);
      SortStandsAs(f.sort, Matching(table, f, today));
    }
  }

  /** Sorting keeps the rows and their distinctness, and is the only ordered arrangement. */
  lemma SortIsTheOrder(key: SortKey, rows: seq<TaskRow>)
    requires DistinctIds(rows)
    ensures var sorted := Sort(key, rows);
      |sorted| == |rows| && Ordered(key, sorted) && DistinctIds(sorted) &&
      (forall row :: row in sorted <==> row in rows) &&
      (forall other :: Ordered(key, other) && multiset(other) == multiset(rows) ==> other == sorted)
  {
    var sorted := Sort(key, rows);
    SortKeepsRows(key, rows);
    SortOrders(key, rows);
    SameSize(sorted, rows);
    forall row: TaskRow
      ensures row in sorted <==> row in rows
    {
      assert row in multiset(sorted) <==> row in multiset(rows);
    }
    OrderedIsDistinct(key, sorted, rows);
    forall other | Ordered(key, other) && multiset(other) == multiset(rows)
      ensures other == sorted
    {
      OrderIsUnique(key, other, sorted);
    }
  }

  lemma OrderedIsDistinct(key: SortKey, sorted: seq<TaskRow>, rows: seq<TaskRow>)
    requires Ordered(key, sorted) && DistinctIds(rows) && forall row :: row in sorted ==> row in rows
    ensures DistinctIds(sorted)
  {
    forall i, j | 0 <= i < j < |sorted|
      ensures sorted[i].id != sorted[j].id
    {
      StrictTotalOrder(key, sorted[i], sorted[j], sorted[i]);
      assert sorted[i] in sorted && sorted[j] in sorted;
      var m :| 0 <= m < |rows| && rows[m] == sorted[i];
      var n :| 0 <= n < |rows| && rows[n] == sorted[j];
    }
  }

  /** An arrangement of rows with different ids that stands as a sort text asks is ordered by its key. */
  lemma StandingIsOrdered(sort: string, other: seq<TaskRow>, rows: seq<TaskRow>)
    requires StandsAs(sort, other) && DistinctIds(rows) && multiset(other) == multiset(rows)
    ensures Ordered(SortKeyOf(sort), other)
  {
    forall i, j | 0 <= i < j < |other|
      ensures Precedes(SortKeyOf(sort), other[i], other[j])
    {
      assert MayStandBefore(sort, other[i], other[j]);
      assert other[i] in multiset(rows) && other[j] in multiset(rows);
      var m :| 0 <= m < |rows| && rows[m] == other[i];
      var n :| 0 <= n < |rows| && rows[n] == other[j];
      KeyMeansText(sort, other[i], other[j]);
    }
  }

  /** Reading all pages of a filtered list yields each task of the table the filter asks for, once,
      standing as the sort text asks; no other arrangement of those rows stands so. */
  lemma AllPagesShowTheList(table: seq<TaskRow>, f: Filter, today: Date, perPage: nat)
    requires Exists(today) && DistinctIds(table) && |table| < TWO63 - 200 && 1 <= perPage <= 200
    ensures var found := Matching(table, f, today);
      var shown := Pages(Sort(SortKeyOf(f.sort), found), perPage, PageCount(|found|, perPage));
      StandsAs(f.sort, shown) && DistinctIds(shown) &&
      (forall row :: row in shown <==> row in table && Selects(f, today, row)) &&
      (forall other :: StandsAs(f.sort, other) && multiset(other) == multiset(found) ==> other == shown)
  {
    var key := SortKeyOf(f.sort);
    var found := Matching(table, f, today);
    MatchingMembers(table, f, today);
    MatchingDistinct(table, f, today);
    SortIsTheOrder(key, found);
    SortStandsAs(f.sort, found);
    PagesPartition(Sort(key, found), perPage);
    forall other | StandsAs(f.sort, other) && multiset(other) == multiset(found)
      ensures other == Sort(key, found)
    {
      StandingIsOrdered(f.sort, other, found);
    }
  }
}
