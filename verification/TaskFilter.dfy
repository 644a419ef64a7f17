/** The task list's filter: what it asks for, and its compilation to SQL conditions with a
    positional argument list. */
module TaskFilter {
  import opened Wrappers
  import opened Text
  import opened Calendar
  import opened Sql

  datatype Filter = Filter(
    project: string, epicId: Option<int>, statuses: seq<string>, assignee: string,
    requestorId: Option<string>, assigneeId: Option<string>, kind: string, priority: string,
    search: string, username: string, page: int, perPage: int, sort: string, due: string, plan: string)

  // ----- what a filter asks for -----

  predicate FieldsHold(f: Filter, row: TaskRow) {
    && (f.project != "" ==> row.project == f.project)
    && (f.epicId.Some? ==> row.epicId == f.epicId)
    && (f.statuses != [] ==> row.status in f.statuses)
    && (f.assignee != "" ==> row.assignee == f.assignee)
  }

  predicate RolesHold(f: Filter, row: TaskRow) {
    && (f.requestorId.Some? ==> row.requestorId == f.requestorId)
    && (f.assigneeId.Some? ==> row.assigneeId == f.assigneeId)
    && (f.kind != "" ==> row.kind == f.kind)
    && (f.priority != "" ==> row.priority == f.priority)
  }

  /** The text contains the search, ignoring ASCII case; % and _ in the search act as wildcards. */
  ghost predicate Finds(search: string, text: string) {
    if WildcardFree(search) then Contains(Lower(text), Lower(search))
    else LikeMatch("%" + search + "%", text)
  }

  ghost predicate SearchHolds(f: Filter, row: TaskRow) {
    f.search != "" ==> Finds(f.search, row.subject) || Finds(f.search, row.bodyText) || Finds(f.search, row.fromEmail)
  }

  predicate Before(o: Option<string>, day: string) { o.Some? && LexLess(o.value, day) }

  predicate Within(o: Option<string>, first: string, last: string) {
    o.Some? && !LexLess(o.value, first) && !LexLess(last, o.value)
  }

  predicate DueHolds(due: string, today: Date, row: TaskRow)
    requires Exists(today)
  {
    var d := row.dueDate;
    if due == "overdue" then Before(d, Format(today))
    else if due == "today" then d == Some(Format(today))
    else if due == "tomorrow" then d == Some(Format(AddDays(today, 1)))
    else if due == "7d" then Within(d, Format(today), Format(AddDays(today, 7)))
    else if due == "30d" then Within(d, Format(today), Format(AddDays(today, 30)))
    else if due == "none" then d.None?
    else if due == "due_pending" then row.dueAiPending == 1
    else true
  }

  const ACTIVE_STATUSES := ["new", "in_progress", "backlog"]

  predicate Active(status: string) { status in ACTIVE_STATUSES }

  predicate LateAndActive(today: Date, row: TaskRow) {
    Before(row.dueDate, Format(today)) && Active(row.status)
  }

  predicate PlanHolds(plan: string, today: Date, row: TaskRow)
    requires Exists(today)
  {
    var s := row.scheduledDate;
    if plan == "today" then s == Some(Format(today)) || LateAndActive(today, row)
    else if plan == "tomorrow" then s == Some(Format(AddDays(today, 1))) || LateAndActive(today, row)
    else if plan == "week" then Within(s, Format(today), Format(AddDays(today, 6))) || LateAndActive(today, row)
    else if plan == "none" then s.None?
    else true
  }

  /** The direct reading of a filter. */
  ghost predicate Selects(f: Filter, today: Date, row: TaskRow)
    requires Exists(today)
  {
    FieldsHold(f, row) && RolesHold(f, row) && SearchHolds(f, row) &&
    DueHolds(f.due, today, row) && PlanHolds(f.plan, today, row)
  }

  // ----- compilation -----

  /** Conditions and arguments fit together. */
  predicate Fits(conditions: seq<Cond>, args: seq<Value>) {
    AllPlain(conditions) && |args| == TotalArity(conditions)
  }

  lemma {:induction false} ArityAppend(cs: seq<Cond>, c: Cond)
    ensures TotalArity(cs + [c]) == TotalArity(cs) + Arity(c)
  {
    if cs == [] {
      assert cs + [c] == [c];
    } else {
      assert (cs + [c])[1..] == cs[1..] + [c];
      ArityAppend(cs[1..], c);
    }
  }

  lemma Extend(cs: seq<Cond>, args: seq<Value>, c: Cond, own: seq<Value>)
    requires Fits(cs, args) && Plain(c) && |own| == Arity(c)
    ensures Fits(cs + [c], args + own)
    ensures forall row :: Holds(cs + [c], args + own, row) <==> Holds(cs, args, row) && Alone(c, own, row) == True3
  {
    ArityAppend(cs, c);
    forall row: TaskRow
      ensures Holds(cs + [c], args + own, row) <==> Holds(cs, args, row) && Alone(c, own, row) == True3
    {
      HoldsAppend(cs, args, c, own, row);
    }
  }

  lemma ExtendEq(cs: seq<Cond>, args: seq<Value>, c: Column, v: Value)
    requires Fits(cs, args) && v != Null
    ensures Fits(cs + [Eq(Col(c), Param)], args + [v])
    ensures forall row :: Holds(cs + [Eq(Col(c), Param)], args + [v], row) <==> Holds(cs, args, row) && Get(row, c) == v
  {
    Extend(cs, args, Eq(Col(c), Param), [v]);
    assert forall row :: Alone(Eq(Col(c), Param), [v], row) == Eq3(Get(row, c), v);
  }

  function Texts(ss: seq<string>): (vs: seq<Value>)
    ensures |vs| == |ss| && forall i :: 0 <= i < |ss| ==> vs[i] == TextV(ss[i])
  {
    if ss == [] then [] else Texts(ss[..|ss| - 1]) + [TextV(ss[|ss| - 1])]
  }

  predicate AllParams(os: seq<Operand>) { forall i :: 0 <= i < |os| ==> os[i] == Param }

  lemma {:induction false} ParamsArity(os: seq<Operand>)
    requires AllParams(os)
    ensures ListArity(os) == |os|
  {
    if os != [] {
      ParamsArity(os[1..]);
    }
  }

  lemma {:induction false} InParams(s: string, os: seq<Operand>, next: nat, args: seq<Value>, row: TaskRow)
    requires AllParams(os) && 1 <= next && next - 1 + |os| == |args|
    requires forall i :: 0 <= i < |args| ==> args[i].TextV?
    ensures In3(TextV(s), NumberList(os, next).0, args, row) == OfBool(TextV(s) in args[next - 1..])
  {
    if os != [] {
      InParams(s, os[1..], next + 1, args, row);
      assert args[next - 1..] == [args[next - 1]] + args[next..];
      var rest := NumberList(os[1..], next + 1).0;
      assert NumberList(os, next).0 == [Numbered(next)] + rest;
      assert ([Numbered(next)] + rest)[1..] == rest;
    }
  }

  lemma StatusMembership(statuses: seq<string>, os: seq<Operand>)
    requires AllParams(os) && |os| == |statuses|
    ensures var c := In(Col(Status), os);
      Plain(c) && Arity(c) == |statuses| &&
      forall row :: Alone(c, Texts(statuses), row) == True3 <==> row.status in statuses
  {
    ParamsArity(os);
    var args := Texts(statuses);
    forall row: TaskRow
      ensures Alone(In(Col(Status), os), args, row) == True3 <==> row.status in statuses
    {
      InParams(row.status, os, 1, args, row);
      assert args[0..] == args;
    }
  }

  method CompileStatuses(statuses: seq<string>, conditions0: seq<Cond>, args0: seq<Value>) returns (conditions: seq<Cond>, args: seq<Value>)
    requires Fits(conditions0, args0)
    ensures Fits(conditions, args)
    ensures forall row :: Holds(conditions, args, row) <==> Holds(conditions0, args0, row) && row.status in statuses
  {
    var placeholders: seq<Operand> := [];
    args := args0;
    for i := 0 to |statuses|
      invariant |placeholders| == i && AllParams(placeholders)
      invariant args == args0 + Texts(statuses[..i])
    {
      placeholders := placeholders + [Param];
      args := args + [TextV(statuses[i])];
      assert statuses[..i + 1][..i] == statuses[..i];
    }
    assert statuses[..|statuses|] == statuses;
    StatusMembership(statuses, placeholders);
    Extend(conditions0, args0, In(Col(Status), placeholders), Texts(statuses));
    conditions := conditions0 + [In(Col(Status), placeholders)];
  }

  method CompileFields(f: Filter) returns (conditions: seq<Cond>, args: seq<Value>)
    ensures Fits(conditions, args)
    ensures forall row :: Holds(conditions, args, row) <==> FieldsHold(f, row)
  {
    conditions, args := [], [];
    if f.project != "" {
      ExtendEq(conditions, args, Project, TextV(f.project));
      conditions, args := conditions + [Eq(Col(Project), Param)], args + [TextV(f.project)];
    }
    if f.epicId.Some? {
      ExtendEq(conditions, args, EpicId, IntV(f.epicId.value));
      conditions, args := conditions + [Eq(Col(EpicId), Param)], args + [IntV(f.epicId.value)];
    }
    if |f.statuses| > 0 {
      conditions, args := CompileStatuses(f.statuses, conditions, args);
    }
    if f.assignee != "" {
      ExtendEq(conditions, args, Assignee, TextV(f.assignee));
      conditions, args := conditions + [Eq(Col(Assignee), Param)], args + [TextV(f.assignee)];
    }
  }

  method CompileRoles(f: Filter, conditions0: seq<Cond>, args0: seq<Value>) returns (conditions: seq<Cond>, args: seq<Value>)
    requires Fits(conditions0, args0)
    ensures Fits(conditions, args)
    ensures forall row :: Holds(conditions, args, row) <==> Holds(conditions0, args0, row) && RolesHold(f, row)
  {
    conditions, args := conditions0, args0;
    if f.requestorId.Some? {
      ExtendEq(conditions, args, RequestorId, TextV(f.requestorId.value));
      conditions, args := conditions + [Eq(Col(RequestorId), Param)], args + [TextV(f.requestorId.value)];
    }
    if f.assigneeId.Some? {
      ExtendEq(conditions, args, AssigneeId, TextV(f.assigneeId.value));
      conditions, args := conditions + [Eq(Col(AssigneeId), Param)], args + [TextV(f.assigneeId.value)];
    }
    if f.kind != "" {
      ExtendEq(conditions, args, Kind, TextV(f.kind));
      conditions, args := conditions + [Eq(Col(Kind), Param)], args + [TextV(f.kind)];
    }
    if f.priority != "" {
      ExtendEq(conditions, args, Priority, TextV(f.priority));
      conditions, args := conditions + [Eq(Col(Priority), Param)], args + [TextV(f.priority)];
    }
  }

  const SEARCH := Or(Or(
    Like(LowerOf(Col(Subject)), LowerOf(Param)),
    Like(LowerOf(Col(BodyText)), LowerOf(Param))),
    Like(LowerOf(Col(FromEmail)), LowerOf(Param)))

  lemma {:induction false} LikeIgnoresCase(p: string, s: string)
    ensures LikeMatch(Lower(p), Lower(s)) <==> LikeMatch(p, s)
    decreases |p| + |s|
  {
    if p != [] {
      assert Lower(p)[1..] == Lower(p[1..]);
      if s != [] {
        assert Lower(s)[1..] == Lower(s[1..]);
        LikeIgnoresCase(p[1..], s[1..]);
        LikeIgnoresCase(p, s[1..]);
      }
      LikeIgnoresCase(p[1..], s);
    }
  }

  lemma FindsByLike(search: string, text: string)
    ensures Finds(search, text) <==> LikeMatch(Lower("%" + search + "%"), Lower(text))
  {
    LikeIgnoresCase("%" + search + "%", text);
    if WildcardFree(search) {
      LikeIsContainment(search, text);
    }
  }

  function NumberedLike(c: Column, k: nat): Cond { Like(LowerOf(Col(c)), LowerOf(Numbered(k))) }

  lemma ColumnFinds(c: Column, k: nat, search: string, args: seq<Value>, row: TaskRow)
    requires Get(row, c).TextV? && 1 <= k <= |args| && args[k - 1] == TextV("%" + search + "%")
    ensures Eval(NumberedLike(c, k), args, row) == OfBool(Finds(search, Get(row, c).s))
  {
    FindsByLike(search, Get(row, c).s);
    assert Val(LowerOf(Col(c)), args, row) == TextV(Lower(Get(row, c).s));
    assert Val(LowerOf(Numbered(k)), args, row) == TextV(Lower("%" + search + "%"));
  }

  lemma SearchNumbered()
    ensures Plain(SEARCH) && Arity(SEARCH) == 3
    ensures NumberCond(SEARCH, 1).0 == Or(Or(NumberedLike(Subject, 1), NumberedLike(BodyText, 2)), NumberedLike(FromEmail, 3))
  {
    assert NumberCond(SEARCH.l.l, 1) == (NumberedLike(Subject, 1), 2);
    assert NumberCond(SEARCH.l.r, 2) == (NumberedLike(BodyText, 2), 3);
    assert NumberCond(SEARCH.r, 3) == (NumberedLike(FromEmail, 3), 4);
    assert NumberCond(SEARCH.l, 1) == (Or(NumberedLike(Subject, 1), NumberedLike(BodyText, 2)), 3);
    assert Arity(SEARCH.l) == 2;
  }

  lemma SearchMeaning(search: string, row: TaskRow)
    ensures var v := TextV("%" + search + "%");
      Alone(SEARCH, [v, v, v], row) == True3 <==>
      Finds(search, row.subject) || Finds(search, row.bodyText) || Finds(search, row.fromEmail)
  {
    var v := TextV("%" + search + "%");
    var args := [v, v, v];
    ColumnFinds(Subject, 1, search, args, row);
    ColumnFinds(BodyText, 2, search, args, row);
    ColumnFinds(FromEmail, 3, search, args, row);
    SearchNumbered();
    AnyOfThree(NumberedLike(Subject, 1), NumberedLike(BodyText, 2), NumberedLike(FromEmail, 3), args, row);
  }

  lemma AnyOfThree(a: Cond, b: Cond, c: Cond, args: seq<Value>, row: TaskRow)
    ensures Eval(Or(Or(a, b), c), args, row) == True3 <==>
            Eval(a, args, row) == True3 || Eval(b, args, row) == True3 || Eval(c, args, row) == True3
  {
    assert Eval(Or(Or(a, b), c), args, row) == Or3(Eval(Or(a, b), args, row), Eval(c, args, row));
  }

  method CompileSearch(f: Filter, conditions0: seq<Cond>, args0: seq<Value>) returns (conditions: seq<Cond>, args: seq<Value>)
    requires Fits(conditions0, args0)
    ensures Fits(conditions, args)
    ensures forall row :: Holds(conditions, args, row) <==> Holds(conditions0, args0, row) && SearchHolds(f, row)
  {
    conditions, args := conditions0, args0;
    if f.search != "" {
      forall row {
        SearchMeaning(f.search, row);
      }
      var search := TextV("%" + f.search + "%");
      SearchNumbered();
      Extend(conditions, args, SEARCH, [search, search, search]);
      conditions, args := conditions + [SEARCH], args + [search, search, search];
    }
  }

  lemma BetweenMeaning(c: Column, first: string, last: string, o: Option<string>, row: TaskRow)
    requires Get(row, c) == OfText(o)
    ensures Alone(Between(Col(c), Param, Param), [TextV(first), TextV(last)], row) == True3 <==> Within(o, first, last)
  {
    if o.Some? {
      LexTotal(first, o.value);
      LexTotal(o.value, last);
    }
  }

  lemma ExtendWithin(cs: seq<Cond>, args: seq<Value>, first: string, last: string)
    requires Fits(cs, args)
    ensures var c, own := Between(Col(DueDate), Param, Param), [TextV(first), TextV(last)];
      Fits(cs + [c], args + own) &&
      forall row :: Holds(cs + [c], args + own, row) <==> Holds(cs, args, row) && Within(row.dueDate, first, last)
  {
    var c, own := Between(Col(DueDate), Param, Param), [TextV(first), TextV(last)];
    Extend(cs, args, c, own);
    forall row: TaskRow
      ensures Alone(c, own, row) == True3 <==> Within(row.dueDate, first, last)
    {
      BetweenMeaning(DueDate, first, last, row.dueDate, row);
    }
  }

  method CompileDue(f: Filter, today: Date, conditions0: seq<Cond>, args0: seq<Value>) returns (conditions: seq<Cond>, args: seq<Value>)
    requires Fits(conditions0, args0) && Exists(today)
    ensures Fits(conditions, args)
    ensures forall row :: Holds(conditions, args, row) <==> Holds(conditions0, args0, row) && DueHolds(f.due, today, row)
  {
    conditions, args := conditions0, args0;
    if f.due == "overdue" {
      Extend(conditions, args, Less(Col(DueDate), Param), [TextV(Format(today))]);
      conditions, args := conditions + [Less(Col(DueDate), Param)], args + [TextV(Format(today))];
    } else if f.due == "today" {
      ExtendEq(conditions, args, DueDate, TextV(Format(today)));
      conditions, args := conditions + [Eq(Col(DueDate), Param)], args + [TextV(Format(today))];
    } else if f.due == "tomorrow" {
      ExtendEq(conditions, args, DueDate, TextV(Format(AddDays(today, 1))));
      conditions, args := conditions + [Eq(Col(DueDate), Param)], args + [TextV(Format(AddDays(today, 1)))];
    } else if f.due == "7d" || f.due == "30d" {
      var days := if f.due == "7d" then 7 else 30;
      var first, last := Format(today), Format(AddDays(today, days));
      ExtendWithin(conditions, args, first, last);
      conditions, args := conditions + [Between(Col(DueDate), Param, Param)], args + [TextV(first), TextV(last)];
    } else if f.due == "none" {
      Extend(conditions, args, IsNull(Col(DueDate)), []);
      conditions, args := conditions + [IsNull(Col(DueDate))], args + [];
    } else if f.due == "due_pending" {
      Extend(conditions, args, Eq(Col(DueAiPending), Lit(IntV(1))), []);
      conditions, args := conditions + [Eq(Col(DueAiPending), Lit(IntV(1)))], args + [];
    }
  }

  const ACTIVE := In(Col(Status), Literals(ACTIVE_STATUSES))

  function Literals(ss: seq<string>): seq<Operand> {
    if ss == [] then [] else [Lit(TextV(ss[0]))] + Literals(ss[1..])
  }

  /** (scheduled OR (due_date < ? AND status IN ('new','in_progress','backlog'))). */
  function PlanCondition(scheduled: Cond): Cond {
    Or(scheduled, And(Less(Col(DueDate), Param), ACTIVE))
  }

  lemma {:induction false} LiteralsAreFixed(ss: seq<string>, next: nat)
    ensures PlainList(Literals(ss)) && ListArity(Literals(ss)) == 0
    ensures NumberList(Literals(ss), next) == (Literals(ss), next)
  {
    if ss != [] {
      LiteralsAreFixed(ss[1..], next);
      assert Literals(ss)[1..] == Literals(ss[1..]);
    }
  }

  lemma {:induction false} InLiterals(s: string, ss: seq<string>, args: seq<Value>, row: TaskRow)
    ensures In3(TextV(s), Literals(ss), args, row) == OfBool(s in ss)
  {
    if ss != [] {
      InLiterals(s, ss[1..], args, row);
      assert Literals(ss)[1..] == Literals(ss[1..]);
    }
  }

  lemma PlanArity(scheduled: Cond)
    requires Plain(scheduled)
    ensures Plain(PlanCondition(scheduled)) && Arity(PlanCondition(scheduled)) == Arity(scheduled) + 1
  {
    LiteralsAreFixed(ACTIVE_STATUSES, 1);
    assert Arity(Less(Col(DueDate), Param)) == 1 && Arity(ACTIVE) == 0;
    assert Arity(And(Less(Col(DueDate), Param), ACTIVE)) == 1;
  }

  function NumberedLate(n: nat): Cond { And(Less(Col(DueDate), Numbered(n)), ACTIVE) }

  lemma PlanNumbered(scheduled: Cond)
    requires NumberCond(scheduled, 1).1 == 1 + Arity(scheduled)
    ensures NumberCond(PlanCondition(scheduled), 1).0 == Or(NumberCond(scheduled, 1).0, NumberedLate(1 + Arity(scheduled)))
  {
    var n := 1 + Arity(scheduled);
    var late := And(Less(Col(DueDate), Param), ACTIVE);
    LiteralsAreFixed(ACTIVE_STATUSES, n + 1);
    assert NumberCond(late.l, n) == (Less(Col(DueDate), Numbered(n)), n + 1);
    assert NumberCond(ACTIVE, n + 1) == (ACTIVE, n + 1);
  }

  lemma LateMeaning(n: nat, day: string, args: seq<Value>, row: TaskRow)
    requires 1 <= n <= |args| && args[n - 1] == TextV(day)
    ensures Eval(NumberedLate(n), args, row) == True3 <==> Before(row.dueDate, day) && Active(row.status)
  {
    InLiterals(row.status, ACTIVE_STATUSES, args, row);
    var less := Less(Col(DueDate), Numbered(n));
    assert Eval(less, args, row) == True3 <==> Before(row.dueDate, day);
    assert Eval(ACTIVE, args, row) == OfBool(Active(row.status));
  }

  lemma PlanMeaning(scheduled: Cond, own: seq<Value>, day: string, row: TaskRow)
    requires Plain(scheduled) && |own| == Arity(scheduled)
    ensures Alone(PlanCondition(scheduled), own + [TextV(day)], row) == True3 <==>
            Alone(scheduled, own, row) == True3 || (Before(row.dueDate, day) && Active(row.status))
  {
    var args := own + [TextV(day)];
    ConditionLocal(scheduled, 1, 1, args, own, row);
    PlanNumbered(scheduled);
    LateMeaning(1 + |own|, day, args, row);
  }

  lemma ExtendPlan(cs: seq<Cond>, args: seq<Value>, scheduled: Cond, own: seq<Value>, day: string)
    requires Fits(cs, args) && Plain(scheduled) && |own| == Arity(scheduled)
    ensures var c, all := PlanCondition(scheduled), own + [TextV(day)];
      Fits(cs + [c], args + all) &&
      forall row :: Holds(cs + [c], args + all, row) <==>
        (Holds(cs, args, row) && (Alone(scheduled, own, row) == True3 || (Before(row.dueDate, day) && Active(row.status))))
  {
    PlanArity(scheduled);
    Extend(cs, args, PlanCondition(scheduled), own + [TextV(day)]);
    forall row: TaskRow {
      PlanMeaning(scheduled, own, day, row);
    }
  }

  method CompilePlan(f: Filter, today: Date, conditions0: seq<Cond>, args0: seq<Value>) returns (conditions: seq<Cond>, args: seq<Value>)
    requires Fits(conditions0, args0) && Exists(today)
    ensures Fits(conditions, args)
    ensures forall row :: Holds(conditions, args, row) <==> Holds(conditions0, args0, row) && PlanHolds(f.plan, today, row)
  {
    conditions, args := conditions0, args0;
    var late := TextV(Format(today));
    if f.plan == "today" || f.plan == "tomorrow" {
      var day := Format(if f.plan == "today" then today else AddDays(today, 1));
      var scheduled := Eq(Col(ScheduledDate), Param);
      var own := [TextV(day)] + [late];
      ExtendPlan(conditions, args, scheduled, [TextV(day)], Format(today));
      conditions, args := conditions + [PlanCondition(scheduled)], args + own;
    } else if f.plan == "week" {
      var scheduled := Between(Col(ScheduledDate), Param, Param);
      var window := [TextV(Format(today)), TextV(Format(AddDays(today, 6)))];
      var own := window + [late];
      ExtendPlan(conditions, args, scheduled, window, Format(today));
      forall row: TaskRow
        ensures Alone(scheduled, window, row) == True3 <==> Within(row.scheduledDate, Format(today), Format(AddDays(today, 6)))
      {
        BetweenMeaning(ScheduledDate, Format(today), Format(AddDays(today, 6)), row.scheduledDate, row);
      }
      conditions, args := conditions + [PlanCondition(scheduled)], args + own;
    } else if f.plan == "none" {
      Extend(conditions, args, IsNull(Col(ScheduledDate)), []);
      conditions, args := conditions + [IsNull(Col(ScheduledDate))], args + [];
    }
  }

  /** The conditions and arguments ListTasks builds: every row satisfies them exactly when the
      filter asks for it. */
  method CompileFilter(f: Filter, today: Date) returns (conditions: seq<Cond>, args: seq<Value>)
    requires Exists(today)
    ensures Fits(conditions, args)
    ensures forall row :: Holds(conditions, args, row) <==> Selects(f, today, row)
  {
    conditions, args := CompileFields(f);
    conditions, args := CompileRoles(f, conditions, args);
    conditions, args := CompileSearch(f, conditions, args);
    conditions, args := CompileDue(f, today, conditions, args);
    conditions, args := CompilePlan(f, today, conditions, args);
  }

  // ----- the two statements -----

  /** The count statement numbers the clause's parameters from 1 and binds the arguments alone. */
  predicate CountSelects(conditions: seq<Cond>, args: seq<Value>, row: TaskRow) {
    Selected(conditions, 1, args, row)
  }

  /** The data statement uses ?1 in its column list, so the clause's parameters start at 2. */
  function DataArgs(username: string, args: seq<Value>, limit: int, offset: int): seq<Value> {
    [TextV(username)] + args + [IntV(limit), IntV(offset)]
  }

  predicate DataSelects(conditions: seq<Cond>, username: string, args: seq<Value>, limit: int, offset: int, row: TaskRow) {
    Selected(conditions, 2, DataArgs(username, args, limit, offset), row)
  }

  /** Both statements select the same rows, those the conditions describe, although they number
      the parameters differently; ?1 reads the user name and the two trailing parameters read the
      limit and the offset. */
  lemma StatementsAgree(conditions: seq<Cond>, args: seq<Value>, username: string, limit: int, offset: int, row: TaskRow)
    requires Fits(conditions, args)
    ensures CountSelects(conditions, args, row) <==> Holds(conditions, args, row)
    ensures DataSelects(conditions, username, args, limit, offset, row) <==> Holds(conditions, args, row)
    ensures var next := NumberAll(conditions, 2).1;
      var bound := DataArgs(username, args, limit, offset);
      |bound| == next + 1 && Val(Numbered(1), bound, row) == TextV(username) &&
      Val(Numbered(next), bound, row) == IntV(limit) && Val(Numbered(next + 1), bound, row) == IntV(offset)
  {
    WherePosition(conditions, [], args, [], row);
    assert [] + args + [] == args;
    WherePosition(conditions, [TextV(username)], args, [IntV(limit), IntV(offset)], row);
  }

  // ----- the date windows, in days -----

  /** A column that may be NULL holds a canonical date, if any. */
  predicate MayHoldDay(o: Option<string>) { o.Some? ==> ValidTaskDate(o.value) }

  /** The day number of the date a column holds lies from first to last; NULL lies nowhere. */
  predicate DayIn(o: Option<string>, first: int, last: int)
    requires MayHoldDay(o)
  {
    o.Some? && first <= DayNumber(ReadDate(o.value)) <= last
  }

  /** On a canonical date or NULL the due filters compare day numbers. The "7d" and "30d" windows
      hold 8 and 31 days, as both ends count; a window that ends after 9999 is empty. */
  lemma DueWindowsInDays(row: TaskRow, today: Date)
    requires MayHoldDay(row.dueDate) && Exists(today) && today.year < 10000
    ensures var d, t := row.dueDate, DayNumber(today);
      (DueHolds("overdue", today, row) <==> DayIn(d, 0, t - 1)) &&
      (DueHolds("today", today, row) <==> DayIn(d, t, t)) &&
      (DueHolds("tomorrow", today, row) <==> DayIn(d, t + 1, t + 1)) &&
      (DueHolds("7d", today, row) <==> DayIn(d, t, t + 7) && AddDays(today, 7).year < 10000) &&
      (DueHolds("30d", today, row) <==> DayIn(d, t, t + 30) && AddDays(today, 30).year < 10000) &&
      (DueHolds("none", today, row) <==> d.None?)
  {
    if row.dueDate.Some? {
      var d := ReadDate(row.dueDate.value);
      ReadThenFormat(row.dueDate.value);
      CompareWithToday(d, today);
      SameDay(d, today, 1);
      WindowInDays(d, today, 7);
      WindowInDays(d, today, 30);
    }
  }

  lemma CompareWithToday(d: Date, today: Date)
    requires Exists(d) && d.year < 10000 && Exists(today) && today.year < 10000
    ensures LexLess(Format(d), Format(today)) <==> DayNumber(d) < DayNumber(today)
    ensures Format(d) == Format(today) <==> DayNumber(d) == DayNumber(today)
  {
    TextOrderIsDayOrder(d, today);
    DayNumberOrder(d, today);
  }

  lemma SameDay(d: Date, today: Date, k: nat)
    requires Exists(d) && d.year < 10000 && Exists(today)
    ensures Format(d) == Format(AddDays(today, k)) <==> DayNumber(d) == DayNumber(today) + k
  {
    AddDaysIsSteps(today, k);
    var e := AddDays(today, k);
    DayNumberOrder(d, e);
    if e.year < 10000 {
      TextOrderIsDayOrder(d, e);
    } else {
      PrintedOrder(d, e);
    }
  }

  /** From today to k days later, for windows shorter than a year. */
  lemma WindowInDays(d: Date, today: Date, k: nat)
    requires Exists(d) && d.year < 10000 && Exists(today) && today.year < 10000 && k <= 365
    ensures var n, t := DayNumber(d), DayNumber(today);
      Within(Some(Format(d)), Format(today), Format(AddDays(today, k))) <==> t <= n <= t + k && AddDays(today, k).year < 10000
  {
    AddDaysIsSteps(today, k);
    YearAfter(today, k);
    var e := AddDays(today, k);
    CompareWithToday(d, today);
    DayNumberOrder(d, e);
    DayNumberOrder(d, today);
    if e.year < 10000 {
      TextOrderIsDayOrder(e, d);
    } else {
      PrintedOrder(d, e);
      assert LeadingYear(e.year) == LeadingYear(1000) == 1000;
    }
  }

  /** The due filters nest and exclude one another on every row with canonical dates, unless a
      window ends after 9999. */
  lemma DueFiltersNest(row: TaskRow, today: Date)
    requires Exists(today) && today.year < 10000
    requires MayHoldDay(row.dueDate)
    ensures DueHolds("today", today, row) && AddDays(today, 7).year < 10000 ==> DueHolds("7d", today, row)
    ensures DueHolds("7d", today, row) && AddDays(today, 30).year < 10000 ==> DueHolds("30d", today, row)
    ensures DueHolds("overdue", today, row) ==> !DueHolds("today", today, row) && !DueHolds("7d", today, row) && !DueHolds("30d", today, row)
    ensures DueHolds("none", today, row) ==> !DueHolds("today", today, row) && !DueHolds("7d", today, row) && !DueHolds("30d", today, row)
    ensures !(DueHolds("overdue", today, row) && DueHolds("none", today, row))
  {
    DueWindowsInDays(row, today);
  }

  /** An active task whose due date, if it has one, is past. */
  predicate Late(row: TaskRow, today: Date)
    requires MayHoldDay(row.dueDate) && Exists(today)
  {
    DayIn(row.dueDate, 0, DayNumber(today) - 1) && row.status in {"new", "in_progress", "backlog"}
  }

  lemma ActiveExactly(status: string)
    ensures Active(status) <==> status in {"new", "in_progress", "backlog"}
  {
  }

  /** The plan filters select a scheduled day in the window, or any late task still active, with
      either date missing or there. */
  lemma PlanWindowsInDays(row: TaskRow, today: Date)
    requires MayHoldDay(row.dueDate) && MayHoldDay(row.scheduledDate)
    requires Exists(today) && today.year < 10000
    ensures var s, t := row.scheduledDate, DayNumber(today);
      var late := Late(row, today);
      (PlanHolds("today", today, row) <==> DayIn(s, t, t) || late) &&
      (PlanHolds("tomorrow", today, row) <==> DayIn(s, t + 1, t + 1) || late) &&
      (PlanHolds("week", today, row) <==> (DayIn(s, t, t + 6) && AddDays(today, 6).year < 10000) || late) &&
      (PlanHolds("none", today, row) <==> s.None?)
  {
    ActiveExactly(row.status);
    if row.scheduledDate.Some? {
      var s := ReadDate(row.scheduledDate.value);
      ReadThenFormat(row.scheduledDate.value);
      CompareWithToday(s, today);
      SameDay(s, today, 1);
      WindowInDays(s, today, 6);
    }
    if row.dueDate.Some? {
      ReadThenFormat(row.dueDate.value);
      CompareWithToday(ReadDate(row.dueDate.value), today);
    }
  }

  /** Today's and tomorrow's plan are part of the week's, on every row with canonical dates, unless
      the week ends after 9999. */
  lemma PlanFiltersNest(row: TaskRow, today: Date)
    requires Exists(today) && AddDays(today, 6).year < 10000
    requires MayHoldDay(row.scheduledDate)
    ensures PlanHolds("today", today, row) || PlanHolds("tomorrow", today, row) ==> PlanHolds("week", today, row)
  {
    AddDaysIsSteps(today, 6);
    DayNumberOrder(today, AddDays(today, 6));
    if row.scheduledDate.Some? {
      var s := ReadDate(row.scheduledDate.value);
      ReadThenFormat(row.scheduledDate.value);
      CompareWithToday(s, today);
      SameDay(s, today, 1);
      WindowInDays(s, today, 6);
    }
  }
}
