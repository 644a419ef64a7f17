/** The part of SQLite the task list relies on: three-valued conditions over a task row,
    positional parameters and LIKE. */
module Sql {
  import opened Wrappers
  import opened Text

  // ----- rows and values -----

  datatype TaskRow = TaskRow(
    id: int, project: string, epicId: Option<int>, status: string, assignee: string,
    requestorId: Option<string>, assigneeId: Option<string>, kind: string, priority: string,
    subject: string, bodyText: string, fromEmail: string,
    dueDate: Option<string>, dueAiPending: int, scheduledDate: Option<string>,
    createdAt: int, updatedAt: int)

  datatype Value = Null | IntV(i: int) | TextV(s: string)

  datatype Column =
    | Project | EpicId | Status | Assignee | RequestorId | AssigneeId | Kind | Priority
    | Subject | BodyText | FromEmail | DueDate | DueAiPending | ScheduledDate

  function OfText(o: Option<string>): Value { if o.Some? then TextV(o.value) else Null }

  function Get(row: TaskRow, c: Column): Value {
    match c
    case Project => TextV(row.project)
    case EpicId => if row.epicId.Some? then IntV(row.epicId.value) else Null
    case Status => TextV(row.status)
    case Assignee => TextV(row.assignee)
    case RequestorId => OfText(row.requestorId)
    case AssigneeId => OfText(row.assigneeId)
    case Kind => TextV(row.kind)
    case Priority => TextV(row.priority)
    case Subject => TextV(row.subject)
    case BodyText => TextV(row.bodyText)
    case FromEmail => TextV(row.fromEmail)
    case DueDate => OfText(row.dueDate)
    case DueAiPending => IntV(row.dueAiPending)
    case ScheduledDate => OfText(row.scheduledDate)
  }

  // ----- three-valued logic -----

  datatype Tri = True3 | False3 | Unknown

  function OfBool(b: bool): Tri { if b then True3 else False3 }

  function And3(a: Tri, b: Tri): Tri {
    if a == False3 || b == False3 then False3 else if a == True3 && b == True3 then True3 else Unknown
  }

  function Or3(a: Tri, b: Tri): Tri {
    if a == True3 || b == True3 then True3 else if a == False3 && b == False3 then False3 else Unknown
  }

  function Eq3(a: Value, b: Value): Tri {
    if a == Null || b == Null then Unknown else OfBool(a == b)
  }

  /** Numbers sort before texts; texts compare by code point. */
  function Less3(a: Value, b: Value): Tri {
    match (a, b)
    case (IntV(x), IntV(y)) => OfBool(x < y)
    case (TextV(x), TextV(y)) => OfBool(LexLess(x, y))
    case (IntV(_), TextV(_)) => True3
    case (TextV(_), IntV(_)) => False3
    case _ => Unknown
  }

  function AtMost3(a: Value, b: Value): Tri { Or3(Less3(a, b), Eq3(a, b)) }

  // ----- LIKE -----

  /** text LIKE pattern: % matches any run, _ any one character, ASCII letters match in either case. */
  predicate LikeMatch(p: string, s: string)
    decreases |p| + |s|
  {
    if p == [] then s == []
    else if p[0] == '%' then LikeMatch(p[1..], s) || (s != [] && LikeMatch(p, s[1..]))
    else s != [] && (p[0] == '_' || LowerChar(p[0]) == LowerChar(s[0])) && LikeMatch(p[1..], s[1..])
  }

  function Like3(a: Value, p: Value): Tri {
    if a.TextV? && p.TextV? then OfBool(LikeMatch(p.s, a.s)) else Unknown
  }

  // ----- conditions -----

  /** Param is an anonymous `?`, Numbered(k) is `?k`. */
  datatype Operand = Col(c: Column) | Param | Numbered(k: nat) | Lit(v: Value) | LowerOf(o: Operand)

  datatype Cond =
    | Eq(a: Operand, b: Operand)
    | Less(a: Operand, b: Operand)
    | Between(a: Operand, lo: Operand, hi: Operand)
    | In(a: Operand, options: seq<Operand>)
    | IsNull(a: Operand)
    | Like(a: Operand, b: Operand)
    | And(l: Cond, r: Cond)
    | Or(l: Cond, r: Cond)

  /** SQLite gives each anonymous parameter the number after the largest one used so far;
      `next` is that number. */
  function NumberOperand(o: Operand, next: nat): (Operand, nat) {
    match o
    case Param => (Numbered(next), next + 1)
    case LowerOf(x) => var (y, n) := NumberOperand(x, next); (LowerOf(y), n)
    case _ => (o, next)
  }

  function NumberList(os: seq<Operand>, next: nat): (seq<Operand>, nat) {
    if os == [] then ([], next)
    else
      var (o, n) := NumberOperand(os[0], next);
      var (rest, m) := NumberList(os[1..], n);
      ([o] + rest, m)
  }

  function NumberCond(c: Cond, next: nat): (Cond, nat) {
    match c
    case Eq(a, b) =>
      var (x, n) := NumberOperand(a, next);
      var (y, m) := NumberOperand(b, n);
      (Eq(x, y), m)
    case Less(a, b) =>
      var (x, n) := NumberOperand(a, next);
      var (y, m) := NumberOperand(b, n);
      (Less(x, y), m)
    case Between(a, lo, hi) =>
      var (x, n) := NumberOperand(a, next);
      var (y, m) := NumberOperand(lo, n);
      var (z, k) := NumberOperand(hi, m);
      (Between(x, y, z), k)
    case In(a, options) =>
      var (x, n) := NumberOperand(a, next);
      var (ys, m) := NumberList(options, n);
      (In(x, ys), m)
    case IsNull(a) => var (x, n) := NumberOperand(a, next); (IsNull(x), n)
    case Like(a, b) =>
      var (x, n) := NumberOperand(a, next);
      var (y, m) := NumberOperand(b, n);
      (Like(x, y), m)
    case And(l, r) =>
      var (x, n) := NumberCond(l, next);
      var (y, m) := NumberCond(r, n);
      (And(x, y), m)
    case Or(l, r) =>
      var (x, n) := NumberCond(l, next);
      var (y, m) := NumberCond(r, n);
      (Or(x, y), m)
  }

  /** The value of an operand under bound arguments; parameter k reads the k-th argument. */
  function Val(o: Operand, args: seq<Value>, row: TaskRow): Value {
    match o
    case Col(c) => Get(row, c)
    case Param => Null
    case Numbered(k) => if 1 <= k <= |args| then args[k - 1] else Null
    case Lit(v) => v
    case LowerOf(x) =>
      var v := Val(x, args, row);
      if v.TextV? then TextV(Lower(v.s)) else v
  }

  function In3(v: Value, options: seq<Operand>, args: seq<Value>, row: TaskRow): Tri {
    if options == [] then False3
    else Or3(Eq3(v, Val(options[0], args, row)), In3(v, options[1..], args, row))
  }

  function Eval(c: Cond, args: seq<Value>, row: TaskRow): Tri {
    match c
    case Eq(a, b) => Eq3(Val(a, args, row), Val(b, args, row))
    case Less(a, b) => Less3(Val(a, args, row), Val(b, args, row))
    case Between(a, lo, hi) =>
      And3(AtMost3(Val(lo, args, row), Val(a, args, row)), AtMost3(Val(a, args, row), Val(hi, args, row)))
    case In(a, options) => In3(Val(a, args, row), options, args, row)
    case IsNull(a) => OfBool(Val(a, args, row) == Null)
    case Like(a, b) => Like3(Val(a, args, row), Val(b, args, row))
    case And(l, r) => And3(Eval(l, args, row), Eval(r, args, row))
    case Or(l, r) => Or3(Eval(l, args, row), Eval(r, args, row))
  }

  // ----- a WHERE clause: conditions joined by AND -----

  function NumberAll(cs: seq<Cond>, next: nat): (seq<Cond>, nat) {
    if cs == [] then ([], next)
    else
      var (c, n) := NumberCond(cs[0], next);
      var (rest, m) := NumberAll(cs[1..], n);
      ([c] + rest, m)
  }

  function EvalAll(cs: seq<Cond>, args: seq<Value>, row: TaskRow): Tri {
    if cs == [] then True3 else And3(Eval(cs[0], args, row), EvalAll(cs[1..], args, row))
  }

  /** A row is selected when its WHERE clause is true; unknown does not select. `next` is the
      number of the clause's first anonymous parameter. */
  predicate Selected(cs: seq<Cond>, next: nat, args: seq<Value>, row: TaskRow) {
    EvalAll(NumberAll(cs, next).0, args, row) == True3
  }

  // ----- reading a condition against its own arguments -----

  /** Number of anonymous parameters. */
  function OperandArity(o: Operand): nat {
    match o
    case Param => 1
    case LowerOf(x) => OperandArity(x)
    case _ => 0
  }

  function ListArity(os: seq<Operand>): nat {
    if os == [] then 0 else OperandArity(os[0]) + ListArity(os[1..])
  }

  function Arity(c: Cond): nat {
    match c
    case Eq(a, b) => OperandArity(a) + OperandArity(b)
    case Less(a, b) => OperandArity(a) + OperandArity(b)
    case Between(a, lo, hi) => OperandArity(a) + OperandArity(lo) + OperandArity(hi)
    case In(a, options) => OperandArity(a) + ListArity(options)
    case IsNull(a) => OperandArity(a)
    case Like(a, b) => OperandArity(a) + OperandArity(b)
    case And(l, r) => Arity(l) + Arity(r)
    case Or(l, r) => Arity(l) + Arity(r)
  }

  predicate PlainOperand(o: Operand) {
    match o
    case Numbered(_) => false
    case LowerOf(x) => PlainOperand(x)
    case _ => true
  }

  predicate PlainList(os: seq<Operand>) { forall i :: 0 <= i < |os| ==> PlainOperand(os[i]) }

  /** Only anonymous parameters. */
  predicate Plain(c: Cond) {
    match c
    case Eq(a, b) => PlainOperand(a) && PlainOperand(b)
    case Less(a, b) => PlainOperand(a) && PlainOperand(b)
    case Between(a, lo, hi) => PlainOperand(a) && PlainOperand(lo) && PlainOperand(hi)
    case In(a, options) => PlainOperand(a) && PlainList(options)
    case IsNull(a) => PlainOperand(a)
    case Like(a, b) => PlainOperand(a) && PlainOperand(b)
    case And(l, r) => Plain(l) && Plain(r)
    case Or(l, r) => Plain(l) && Plain(r)
  }

  /** The meaning of a condition on its own: its parameters numbered from 1 over its own arguments. */
  function Alone(c: Cond, own: seq<Value>, row: TaskRow): Tri {
    Eval(NumberCond(c, 1).0, own, row)
  }

  /** Every condition is true, each reading its own slice of the arguments in order. */
  predicate Holds(cs: seq<Cond>, args: seq<Value>, row: TaskRow) {
    if cs == [] then args == []
    else
      var n := Arity(cs[0]);
      n <= |args| && Alone(cs[0], args[..n], row) == True3 && Holds(cs[1..], args[n..], row)
  }

  function TotalArity(cs: seq<Cond>): nat {
    if cs == [] then 0 else Arity(cs[0]) + TotalArity(cs[1..])
  }

  predicate AllPlain(cs: seq<Cond>) { forall i :: 0 <= i < |cs| ==> Plain(cs[i]) }

  /** Both argument lists carry the same n values from parameter numbers next and next2 on. */
  predicate SameWindow(next: nat, next2: nat, n: nat, args: seq<Value>, args2: seq<Value>) {
    next >= 1 && next2 >= 1 && next + n <= |args| + 1 && next2 + n <= |args2| + 1 &&
    forall k :: next - 1 <= k < next - 1 + n ==> args[k] == args2[k + (next2 - next)]
  }

  lemma SplitWindow(next: nat, next2: nat, n: nat, m: nat, args: seq<Value>, args2: seq<Value>)
    requires SameWindow(next, next2, n + m, args, args2)
    ensures SameWindow(next, next2, n, args, args2) && SameWindow(next + n, next2 + n, m, args, args2)
  {
  }

  lemma {:induction false} OperandNumbers(o: Operand, next: nat)
    ensures NumberOperand(o, next).1 == next + OperandArity(o)
  {
    match o
    case LowerOf(x) => OperandNumbers(x, next);
    case _ =>
  }

  lemma {:induction false} OperandLocal(o: Operand, next: nat, next2: nat, args: seq<Value>, args2: seq<Value>, row: TaskRow)
    requires PlainOperand(o) && SameWindow(next, next2, OperandArity(o), args, args2)
    ensures NumberOperand(o, next).1 == next + OperandArity(o)
    ensures NumberOperand(o, next2).1 == next2 + OperandArity(o)
    ensures Val(NumberOperand(o, next).0, args, row) == Val(NumberOperand(o, next2).0, args2, row)
  {
    OperandNumbers(o, next);
    OperandNumbers(o, next2);
    match o
    case LowerOf(x) => OperandLocal(x, next, next2, args, args2, row);
    case Param => assert args[next - 1] == args2[next2 - 1];
    case _ =>
  }

  lemma PairLocal(a: Operand, b: Operand, next: nat, next2: nat, args: seq<Value>, args2: seq<Value>, row: TaskRow)
    requires PlainOperand(a) && PlainOperand(b)
    requires SameWindow(next, next2, OperandArity(a) + OperandArity(b), args, args2)
    ensures NumberOperand(a, next).1 == next + OperandArity(a)
    ensures NumberOperand(a, next2).1 == next2 + OperandArity(a)
    ensures NumberOperand(b, next + OperandArity(a)).1 == next + OperandArity(a) + OperandArity(b)
    ensures NumberOperand(b, next2 + OperandArity(a)).1 == next2 + OperandArity(a) + OperandArity(b)
    ensures Val(NumberOperand(a, next).0, args, row) == Val(NumberOperand(a, next2).0, args2, row)
    ensures Val(NumberOperand(b, next + OperandArity(a)).0, args, row) ==
            Val(NumberOperand(b, next2 + OperandArity(a)).0, args2, row)
  {
    var n, m := OperandArity(a), OperandArity(b);
    SplitWindow(next, next2, n, m, args, args2);
    OperandLocal(a, next, next2, args, args2, row);
    OperandLocal(b, next + n, next2 + n, args, args2, row);
  }

  lemma {:induction false} ListLocal(v: Value, os: seq<Operand>, next: nat, next2: nat, args: seq<Value>, args2: seq<Value>, row: TaskRow)
    requires PlainList(os) && SameWindow(next, next2, ListArity(os), args, args2)
    ensures NumberList(os, next).1 == next + ListArity(os)
    ensures NumberList(os, next2).1 == next2 + ListArity(os)
    ensures In3(v, NumberList(os, next).0, args, row) == In3(v, NumberList(os, next2).0, args2, row)
  {
    if os != [] {
      var n, m := OperandArity(os[0]), ListArity(os[1..]);
      SplitWindow(next, next2, n, m, args, args2);
      OperandLocal(os[0], next, next2, args, args2, row);
      ListLocal(v, os[1..], next + n, next2 + n, args, args2, row);
      var (o, k) := NumberOperand(os[0], next);
      var (o2, k2) := NumberOperand(os[0], next2);
      assert ([o] + NumberList(os[1..], k).0)[1..] == NumberList(os[1..], k).0;
      assert ([o2] + NumberList(os[1..], k2).0)[1..] == NumberList(os[1..], k2).0;
    }
  }

  lemma BetweenNumbers(a: Operand, lo: Operand, hi: Operand, next: nat)
    ensures var n := next + OperandArity(a);
      var m := n + OperandArity(lo);
      NumberCond(Between(a, lo, hi), next) ==
      (Between(NumberOperand(a, next).0, NumberOperand(lo, n).0, NumberOperand(hi, m).0), m + OperandArity(hi))
  {
    OperandNumbers(a, next);
    OperandNumbers(lo, next + OperandArity(a));
    OperandNumbers(hi, next + OperandArity(a) + OperandArity(lo));
  }

  lemma BetweenLocal(c: Cond, next: nat, next2: nat, args: seq<Value>, args2: seq<Value>, row: TaskRow)
    requires c.Between? && Plain(c) && SameWindow(next, next2, Arity(c), args, args2)
    ensures Eval(NumberCond(c, next).0, args, row) == Eval(NumberCond(c, next2).0, args2, row)
  {
    var n, m := OperandArity(c.a), OperandArity(c.lo);
    BetweenNumbers(c.a, c.lo, c.hi, next);
    BetweenNumbers(c.a, c.lo, c.hi, next2);
    OperandLocal(c.a, next, next2, args, args2, row);
    OperandLocal(c.lo, next + n, next2 + n, args, args2, row);
    OperandLocal(c.hi, next + n + m, next2 + n + m, args, args2, row);
    BetweenSame(NumberCond(c, next).0, NumberCond(c, next2).0, args, args2, row);
  }

  lemma BetweenSame(c: Cond, d: Cond, args: seq<Value>, args2: seq<Value>, row: TaskRow)
    requires c.Between? && d.Between?
    requires Val(c.a, args, row) == Val(d.a, args2, row)
    requires Val(c.lo, args, row) == Val(d.lo, args2, row) && Val(c.hi, args, row) == Val(d.hi, args2, row)
    ensures Eval(c, args, row) == Eval(d, args2, row)
  {
    BetweenTruth(c, args, row);
    BetweenTruth(d, args2, row);
  }

  lemma BetweenTruth(c: Cond, args: seq<Value>, row: TaskRow)
    requires c.Between?
    ensures Eval(c, args, row) ==
            And3(AtMost3(Val(c.lo, args, row), Val(c.a, args, row)), AtMost3(Val(c.a, args, row), Val(c.hi, args, row)))
  {
  }

  lemma InLocal(c: Cond, next: nat, next2: nat, args: seq<Value>, args2: seq<Value>, row: TaskRow)
    requires c.In? && Plain(c) && SameWindow(next, next2, Arity(c), args, args2)
    ensures NumberCond(c, next).1 == next + Arity(c) && NumberCond(c, next2).1 == next2 + Arity(c)
    ensures Eval(NumberCond(c, next).0, args, row) == Eval(NumberCond(c, next2).0, args2, row)
  {
    var n := OperandArity(c.a);
    SplitWindow(next, next2, n, ListArity(c.options), args, args2);
    OperandLocal(c.a, next, next2, args, args2, row);
    ListLocal(Val(NumberOperand(c.a, next).0, args, row), c.options, next + n, next2 + n, args, args2, row);
  }

  lemma BinaryLocal(c: Cond, next: nat, next2: nat, args: seq<Value>, args2: seq<Value>, row: TaskRow)
    requires c.Eq? || c.Less? || c.Like?
    requires Plain(c) && SameWindow(next, next2, Arity(c), args, args2)
    ensures NumberCond(c, next).1 == next + Arity(c) && NumberCond(c, next2).1 == next2 + Arity(c)
    ensures Eval(NumberCond(c, next).0, args, row) == Eval(NumberCond(c, next2).0, args2, row)
  {
    PairLocal(c.a, c.b, next, next2, args, args2, row);
  }

  lemma LeafLocal(c: Cond, next: nat, next2: nat, args: seq<Value>, args2: seq<Value>, row: TaskRow)
    requires !c.And? && !c.Or?
    requires Plain(c) && SameWindow(next, next2, Arity(c), args, args2)
    ensures NumberCond(c, next).1 == next + Arity(c) && NumberCond(c, next2).1 == next2 + Arity(c)
    ensures Eval(NumberCond(c, next).0, args, row) == Eval(NumberCond(c, next2).0, args2, row)
  {
    match c
    case IsNull(a) => OperandLocal(a, next, next2, args, args2, row);
    case Between(a, lo, hi) =>
      BetweenNumbers(a, lo, hi, next);
      BetweenNumbers(a, lo, hi, next2);
      BetweenLocal(c, next, next2, args, args2, row);
    case In(_, _) => InLocal(c, next, next2, args, args2, row);
    case _ => BinaryLocal(c, next, next2, args, args2, row);
  }

  /** A condition's truth depends only on the arguments its own parameters are numbered to:
      equal windows at any two positions of any two argument lists give equal truth. */
  lemma {:induction false} ConditionLocal(c: Cond, next: nat, next2: nat, args: seq<Value>, args2: seq<Value>, row: TaskRow)
    requires Plain(c) && SameWindow(next, next2, Arity(c), args, args2)
    ensures NumberCond(c, next).1 == next + Arity(c) && NumberCond(c, next2).1 == next2 + Arity(c)
    ensures Eval(NumberCond(c, next).0, args, row) == Eval(NumberCond(c, next2).0, args2, row)
  {
    if c.And? || c.Or? {
      SplitWindow(next, next2, Arity(c.l), Arity(c.r), args, args2);
      ConditionLocal(c.l, next, next2, args, args2, row);
      ConditionLocal(c.r, next + Arity(c.l), next2 + Arity(c.l), args, args2, row);
    } else {
      LeafLocal(c, next, next2, args, args2, row);
    }
  }

  /** Placed anywhere in a statement, with any arguments before and after, a WHERE clause selects
      the rows on which each condition is true of its own arguments, and its parameters take up
      exactly the numbers of those arguments. */
  lemma {:induction false} WherePosition(cs: seq<Cond>, pre: seq<Value>, args: seq<Value>, post: seq<Value>, row: TaskRow)
    requires AllPlain(cs) && |args| == TotalArity(cs)
    ensures NumberAll(cs, |pre| + 1).1 == |pre| + |args| + 1
    ensures Selected(cs, |pre| + 1, pre + args + post, row) <==> Holds(cs, args, row)
  {
    if cs != [] {
      var n := Arity(cs[0]);
      var own, rest := args[..n], args[n..];
      var whole := pre + args + post;
      assert whole == (pre + own) + rest + post;
      ConditionLocal(cs[0], |pre| + 1, 1, whole, own, row);
      WherePosition(cs[1..], pre + own, rest, post, row);
      var (c, k) := NumberCond(cs[0], |pre| + 1);
      assert ([c] + NumberAll(cs[1..], k).0)[1..] == NumberAll(cs[1..], k).0;
    }
  }

  /** Appending a condition together with its arguments conjoins its meaning. */
  lemma {:induction false} HoldsAppend(cs: seq<Cond>, args: seq<Value>, c: Cond, own: seq<Value>, row: TaskRow)
    requires |args| == TotalArity(cs) && |own| == Arity(c)
    ensures TotalArity(cs + [c]) == |args + own|
    ensures Holds(cs + [c], args + own, row) <==> Holds(cs, args, row) && Alone(c, own, row) == True3
  {
    if cs == [] {
      assert cs + [c] == [c] && args + own == own;
      assert own[..|own|] == own && own[|own|..] == [];
      assert [c][1..] == [];
    } else {
      var n := Arity(cs[0]);
      assert (cs + [c])[1..] == cs[1..] + [c] && (cs + [c])[0] == cs[0];
      assert (args + own)[..n] == args[..n] && (args + own)[n..] == args[n..] + own;
      HoldsAppend(cs[1..], args[n..], c, own, row);
    }
  }

  // ----- LIKE and plain containment -----

  predicate WildcardFree(p: string) { forall i :: 0 <= i < |p| ==> p[i] != '%' && p[i] != '_' }

  lemma {:induction false} LikeSuffix(p: string, s: string)
    ensures LikeMatch("%" + p, s) <==> exists i :: 0 <= i <= |s| && LikeMatch(p, s[i..])
  {
    var q := "%" + p;
    assert q[1..] == p;
    assert s[0..] == s;
    if s != [] {
      LikeSuffix(p, s[1..]);
      assert forall i :: 0 <= i <= |s| - 1 ==> s[1..][i..] == s[i + 1..];
      if LikeMatch(q, s[1..]) {
        var i :| 0 <= i <= |s| - 1 && LikeMatch(p, s[1..][i..]);
        assert LikeMatch(p, s[i + 1..]);
      }
      if i :| 0 <= i <= |s| && LikeMatch(p, s[i..]) {
        if i > 0 {
          assert LikeMatch(p, s[1..][i - 1..]);
        }
      }
    }
  }

  lemma {:induction false} LikeAnything(s: string)
    ensures LikeMatch("%", s)
  {
    if s != [] {
      LikeAnything(s[1..]);
    }
  }

  lemma {:induction false} LikePrefix(p: string, s: string)
    requires WildcardFree(p)
    ensures LikeMatch(p + "%", s) <==> |p| <= |s| && Lower(s[..|p|]) == Lower(p)
  {
    if p == [] {
      assert p + "%" == "%";
      LikeAnything(s);
    } else {
      assert (p + "%")[1..] == p[1..] + "%";
      if s != [] {
        LikePrefix(p[1..], s[1..]);
        if |p| <= |s| {
          assert s[..|p|] == [s[0]] + s[1..][..|p| - 1];
          assert p == [p[0]] + p[1..];
          LowerCons(s[0], s[1..][..|p| - 1]);
          LowerCons(p[0], p[1..]);
        }
      }
    }
  }

  lemma LowerCons(c: char, s: string)
    ensures Lower([c] + s) == [LowerChar(c)] + Lower(s)
  {
    assert ([c] + s)[1..] == s;
  }

  lemma LowerSlice(s: string, i: nat, j: nat)
    requires i <= j <= |s|
    ensures Lower(s)[i..j] == Lower(s[i..j])
  {
  }

  /** With no wildcard in it, a search text finds exactly the texts that contain it, ignoring
      ASCII case. */
  lemma LikeIsContainment(p: string, s: string)
    requires WildcardFree(p)
    ensures LikeMatch("%" + p + "%", s) <==> Contains(Lower(s), Lower(p))
  {
    assert "%" + p + "%" == "%" + (p + "%");
    LikeSuffix(p + "%", s);
    forall i: nat | i <= |s|
      ensures LikeMatch(p + "%", s[i..]) <==> ContainsAt(Lower(s), Lower(p), i)
    {
      LikePrefix(p, s[i..]);
      if i + |p| <= |s| {
        assert s[i..][..|p|] == s[i..i + |p|];
        LowerSlice(s, i, i + |p|);
      }
    }
    if Contains(Lower(s), Lower(p)) {
      var i :| 0 <= i <= |s| && ContainsAt(Lower(s), Lower(p), i);
      assert LikeMatch(p + "%", s[i..]);
    }
  }

  /** A text that the pattern p matches without containing it: each _ becomes a letter, each %
      vanishes. */
  function Instance(p: string): (s: string)
    ensures |s| <= |p|
  {
    if p == [] then []
    else if p[0] == '%' then Instance(p[1..])
    else [if p[0] == '_' then 'x' else p[0]] + Instance(p[1..])
  }

  lemma {:induction false} InstanceMatches(p: string)
    ensures LikeMatch(p, Instance(p))
    ensures !WildcardFree(p) ==> Lower(Instance(p)) != Lower(p)
  {
    if p != [] {
      InstanceMatches(p[1..]);
      if p[0] != '%' {
        assert Instance(p)[1..] == Instance(p[1..]);
        assert p == [p[0]] + p[1..];
        if Lower(Instance(p)) == Lower(p) {
          LowerCons(p[0], p[1..]);
          LowerCons(Instance(p)[0], Instance(p[1..]));
          assert Instance(p) == [Instance(p)[0]] + Instance(p[1..]);
          assert Lower(p)[0] == LowerChar(p[0]);
          assert Lower(p)[1..] == Lower(p[1..]) && Lower(Instance(p))[1..] == Lower(Instance(p[1..]));
        }
      }
    }
  }

  lemma {:induction false} LikeThenPercent(p: string, s: string)
    requires LikeMatch(p, s)
    ensures LikeMatch(p + "%", s)
    decreases |p| + |s|
  {
    if p == [] {
      assert p + "%" == "%";
      LikeAnything(s);
    } else {
      assert (p + "%")[1..] == p[1..] + "%";
      if p[0] == '%' {
        if LikeMatch(p[1..], s) {
          LikeThenPercent(p[1..], s);
        } else {
          LikeThenPercent(p, s[1..]);
        }
      } else {
        LikeThenPercent(p[1..], s[1..]);
      }
    }
  }

  /** Search by LIKE means containment for every text exactly when the search has no wildcard:
      the code does not escape % and _. */
  lemma SearchIsContainmentIffWildcardFree(p: string)
    ensures (forall s: string :: LikeMatch("%" + p + "%", s) <==> Contains(Lower(s), Lower(p))) <==> WildcardFree(p)
  {
    if WildcardFree(p) {
      forall s: string
        ensures LikeMatch("%" + p + "%", s) <==> Contains(Lower(s), Lower(p))
      {
        LikeIsContainment(p, s);
      }
    } else {
      var s := Instance(p);
      InstanceMatches(p);
      LikeThenPercent(p, s);
      assert s[0..] == s;
      LikeSuffix(p + "%", s);
      assert "%" + p + "%" == "%" + (p + "%");
      ContainedIsEqual(Lower(s), Lower(p));
    }
  }

  lemma ContainedIsEqual(s: string, sub: string)
    requires |s| <= |sub|
    ensures Contains(s, sub) <==> s == sub
  {
    if Contains(s, sub) {
      var i :| 0 <= i <= |s| && ContainsAt(s, sub, i);
      assert s[i..i + |sub|] == s;
    } else {
      assert s == sub ==> ContainsAt(s, sub, 0);
    }
  }

  // ----- letters beyond ASCII -----

  function Fold(fold: char -> char, s: string): (t: string)
    ensures |t| == |s|
    ensures forall i :: 0 <= i < |s| ==> t[i] == fold(s[i])
  {
    seq(|s|, i requires 0 <= i < |s| => fold(s[i]))
  }

  /** A case folding of any alphabet that folds at least what SQLite's LOWER and LIKE do. */
  ghost predicate FoldsAscii(fold: char -> char) {
    forall c, d :: LowerChar(c) == LowerChar(d) ==> fold(c) == fold(d)
  }

  /** No letter of p has another form that only the wider folding knows. */
  ghost predicate AsciiCased(fold: char -> char, p: string) {
    forall i, d :: 0 <= i < |p| && fold(d) == fold(p[i]) ==> LowerChar(d) == LowerChar(p[i])
  }

  ghost predicate IgnoresCase(fold: char -> char, p: string) {
    forall s: string :: LikeMatch("%" + p + "%", s) <==> Contains(Fold(fold, s), Fold(fold, p))
  }

  /** A search without wildcards ignores case, under whatever folding, exactly when none of its
      letters has another case outside ASCII. A search with a Cyrillic letter is such a one that
      does not: it misses the text with that letter in the other case. */
  lemma SearchIgnoresCaseExactly(fold: char -> char, p: string)
    requires FoldsAscii(fold) && WildcardFree(p)
    ensures IgnoresCase(fold, p) <==> AsciiCased(fold, p)
  {
    if AsciiCased(fold, p) {
      forall s: string
        ensures LikeMatch("%" + p + "%", s) <==> Contains(Fold(fold, s), Fold(fold, p))
      {
        LikeIsContainment(p, s);
        SameContainment(fold, s, p);
      }
    } else {
      var i, d :| 0 <= i < |p| && fold(d) == fold(p[i]) && LowerChar(d) != LowerChar(p[i]);
      var s := p[i := d];
      assert Fold(fold, s) == Fold(fold, p);
      assert Lower(s)[i] != Lower(p)[i];
      LikeIsContainment(p, s);
      ContainedIsEqual(Lower(s), Lower(p));
      ContainedIsEqual(Fold(fold, s), Fold(fold, p));
    }
  }

  lemma SameContainment(fold: char -> char, s: string, p: string)
    requires FoldsAscii(fold) && AsciiCased(fold, p)
    ensures Contains(Fold(fold, s), Fold(fold, p)) <==> Contains(Lower(s), Lower(p))
  {
    forall i | 0 <= i <= |s|
      ensures ContainsAt(Fold(fold, s), Fold(fold, p), i) <==> ContainsAt(Lower(s), Lower(p), i)
    {
      if i + |p| <= |s| {
        SameAt(fold, s[i..i + |p|], p);
        LowerSlice(s, i, i + |p|);
        assert Fold(fold, s)[i..i + |p|] == Fold(fold, s[i..i + |p|]);
      }
    }
  }

  lemma SameAt(fold: char -> char, s: string, p: string)
    requires FoldsAscii(fold) && AsciiCased(fold, p) && |s| == |p|
    ensures Fold(fold, s) == Fold(fold, p) <==> Lower(s) == Lower(p)
  {
    if Fold(fold, s) == Fold(fold, p) {
      assert forall j :: 0 <= j < |p| ==> fold(s[j]) == Fold(fold, s)[j] == Fold(fold, p)[j] == fold(p[j]);
    }
    if Lower(s) == Lower(p) {
      assert forall j :: 0 <= j < |p| ==> LowerChar(s[j]) == Lower(s)[j] == Lower(p)[j] == LowerChar(p[j]);
    }
  }
}
