/** Applying the verdicts of an LLM response. Each verdict is several writes that are committed one by
    one; a failing write either stops the whole response or is only logged. */
module AiVerdicts {
  import opened Wrappers
  import opened Text

  // ----- verdicts and the keys of tasks -----

  datatype Action = New | Update | Completed | NoAction

  /** `comment` is the comment a verdict carries, that of its updates for an update; `proposes` says
      that it names a due date that reads as a day. */
  datatype Verdict = Verdict(
    action: Action, hasTask: bool, taskId: Option<int>, hasUpdates: bool,
    status: string, priority: string, comment: string, proposes: bool)

  predicate Creates(v: Verdict) {
    (v.action.New? && v.hasTask) || (v.action.Completed? && v.taskId.None? && v.comment != "")
  }

  predicate Touches(v: Verdict) { v.taskId.Some? && (v.action.Completed? || (v.action.Update? && v.hasUpdates)) }

  /** The unique message id of the task made from verdict i of a message. */
  function Key(source: string, i: nat): string { source + "-task-" + Decimal(i) }

  /** The message and verdict a task came from. */
  datatype Origin = Origin(source: string, index: nat)

  type Tasks = map<string, Origin>

  lemma DigitsAtEnd(p: string, d: string, q: string, e: string)
    requires p + "-" + d == q + "-" + e && AllDigits(d) && AllDigits(e)
    ensures p == q && d == e
  {
    var s := p + "-" + d;
    assert s == q + "-" + e && s[|p|] == '-' && s[|q|] == '-';
    assert forall k :: |p| < k < |s| ==> s[k] == d[k - |p| - 1];
    assert forall k :: |q| < k < |s| ==> s[k] == e[k - |q| - 1];
    assert |p| == |q|;
    assert s[..|p|] == p && s[|p| + 1..] == d;
    assert s[..|q|] == q && s[|q| + 1..] == e;
  }

  /** The key tells both the message and the verdict. */
  lemma KeyIsInjective(source: string, i: nat, other: string, j: nat)
    requires Key(source, i) == Key(other, j)
    ensures source == other && i == j
  {
    assert "-task-" == "-task" + "-";
    assert Key(source, i) == (source + "-task") + "-" + Decimal(i);
    assert Key(other, j) == (other + "-task") + "-" + Decimal(j);
    DigitsAtEnd(source + "-task", Decimal(i), other + "-task", Decimal(j));
    assert (source + "-task")[..|source|] == source && (other + "-task")[..|other|] == other;
    DecimalNumber(i);
    DecimalNumber(j);
  }

  predicate Made(tasks: Tasks, source: string, i: nat) {
    Key(source, i) in tasks && tasks[Key(source, i)] == Origin(source, i)
  }

  /** Every task carries the key of its origin. */
  predicate TasksOk(tasks: Tasks) { forall k :: k in tasks ==> k == Key(tasks[k].source, tasks[k].index) }

  /** So a key is taken exactly by the task of that message and verdict. */
  lemma KeyTakenExactly(tasks: Tasks, source: string, i: nat)
    requires TasksOk(tasks)
    ensures Key(source, i) in tasks <==> Made(tasks, source, i)
  {
    if Key(source, i) in tasks {
      var o := tasks[Key(source, i)];
      KeyIsInjective(source, i, o.source, o.index);
    }
  }

  // ----- the writes of a verdict -----

  /** One committed statement: the task's row, its status, its other fields, the AI's due date, that
      date accepted at once, the sender's comment, the AI's comment, the activity stamp after each, and
      the link to the inbox row. */
  datatype Write =
    | Task | Status | Fields | Proposal | AutoDue
    | Comment | CommentActivity | AiComment | AiActivity | Link

  /** A failure of these ends the response with an error; a failure of the others is only logged. */
  predicate Required(w: Write) { !w.Proposal? && !w.AutoDue? && !w.Link? }

  function DueWrites(v: Verdict, auto: bool): seq<Write> {
    if !v.proposes then [] else if auto then [Proposal, AutoDue] else [Proposal]
  }

  function CommentWrites(v: Verdict): seq<Write> { if v.comment == "" then [] else [Comment, CommentActivity] }

  function ColumnWrites(v: Verdict): seq<Write> {
    (if v.status != "" then [Status] else []) + (if v.priority != "" then [Fields] else [])
  }

  const LAST_WRITES := [AiComment, AiActivity, Link]

  function CreateWrites(v: Verdict, auto: bool): seq<Write> {
    [Task] + (if v.action.New? then DueWrites(v, auto) else []) + [Link]
  }

  function UpdateWrites(v: Verdict, auto: bool): seq<Write> {
    ColumnWrites(v) + DueWrites(v, auto) + CommentWrites(v) + LAST_WRITES
  }

  function CompleteWrites(v: Verdict): seq<Write> { [Status] + CommentWrites(v) + LAST_WRITES }

  /** The writes of a verdict, in the order they are made. */
  function Writes(v: Verdict, auto: bool): seq<Write> {
    if Creates(v) then CreateWrites(v, auto)
    else if !Touches(v) then []
    else if v.action.Update? then UpdateWrites(v, auto)
    else CompleteWrites(v)
  }

  /** A write of verdict number `verdict` of a response. */
  datatype Part = Part(verdict: nat, write: Write)

  function Parts(i: nat, ws: seq<Write>): seq<Part> { seq(|ws|, k requires 0 <= k < |ws| => Part(i, ws[k])) }

  function Chained(lists: seq<seq<Write>>): seq<Part> {
    if lists == [] then []
    else Chained(lists[..|lists| - 1]) + Parts(|lists| - 1, lists[|lists| - 1])
  }

  function AllWrites(vs: seq<Verdict>, auto: bool): seq<seq<Write>> {
    seq(|vs|, k requires 0 <= k < |vs| => Writes(vs[k], auto))
  }

  /** All writes of a response, in order. */
  function Plan(vs: seq<Verdict>, auto: bool): seq<Part> { Chained(AllWrites(vs, auto)) }

  // ----- no write comes twice in a response -----

  function Rank(w: Write): nat {
    match w
    case Task => 0
    case Status => 1
    case Fields => 2
    case Proposal => 3
    case AutoDue => 4
    case Comment => 5
    case CommentActivity => 6
    case AiComment => 7
    case AiActivity => 8
    case Link => 9
  }

  /** The ranks rise, from lo on and below hi. */
  predicate Rising(ws: seq<Write>, lo: nat, hi: nat) {
    && (forall k :: 0 <= k < |ws| ==> lo <= Rank(ws[k]) < hi)
    && (forall j, k :: 0 <= j < k < |ws| ==> Rank(ws[j]) < Rank(ws[k]))
  }

  lemma RisingAppend(a: seq<Write>, b: seq<Write>, lo: nat, mid: nat, hi: nat)
    requires Rising(a, lo, mid) && Rising(b, mid, hi) && lo <= mid <= hi
    ensures Rising(a + b, lo, hi)
  {
  }

  lemma RisingThree(a: seq<Write>, b: seq<Write>, c: seq<Write>, lo: nat, mid: nat, mid2: nat, hi: nat)
    requires Rising(a, lo, mid) && Rising(b, mid, mid2) && Rising(c, mid2, hi) && lo <= mid <= mid2 <= hi
    ensures Rising(a + b + c, lo, hi)
  {
    RisingAppend(a, b, lo, mid, mid2);
    RisingAppend(a + b, c, lo, mid2, hi);
  }

  lemma ChunksRise(v: Verdict, auto: bool)
    ensures Rising(ColumnWrites(v), 0, 3) && Rising(DueWrites(v, auto), 3, 5)
    ensures Rising(CommentWrites(v), 5, 7) && Rising(LAST_WRITES, 7, 10)
  {
  }

  lemma UpdateRises(columns: seq<Write>, due: seq<Write>, comments: seq<Write>, last: seq<Write>)
    requires Rising(columns, 0, 3) && Rising(due, 3, 5) && Rising(comments, 5, 7) && Rising(last, 7, 10)
    ensures Rising(columns + due + comments + last, 0, 10)
  {
    RisingThree(columns, due, comments, 0, 3, 5, 7);
    RisingAppend(columns + due + comments, last, 0, 7, 10);
  }

  lemma WritesRise(v: Verdict, auto: bool)
    ensures Rising(Writes(v, auto), 0, 10)
  {
    ChunksRise(v, auto);
    if Creates(v) {
      RisingThree([Task], if v.action.New? then DueWrites(v, auto) else [], [Link], 0, 3, 5, 10);
    } else if v.action.Update? {
      UpdateRises(ColumnWrites(v), DueWrites(v, auto), CommentWrites(v), LAST_WRITES);
    } else {
      RisingThree([Status], CommentWrites(v), LAST_WRITES, 0, 5, 7, 10);
    }
  }

  predicate Distinct(plan: seq<Part>) { forall j, k :: 0 <= j < k < |plan| ==> plan[j] != plan[k] }

  lemma {:induction false} ChainIsDistinct(lists: seq<seq<Write>>)
    requires forall k :: 0 <= k < |lists| ==> Rising(lists[k], 0, 10)
    ensures Distinct(Chained(lists))
    ensures forall k :: 0 <= k < |Chained(lists)| ==> Chained(lists)[k].verdict < |lists|
  {
    if lists != [] {
      var n := |lists| - 1;
      ChainIsDistinct(lists[..n]);
      var front: seq<Part>, last: seq<Part> := Chained(lists[..n]), Parts(n, lists[n]);
      var plan := front + last;
      forall j, k | 0 <= j < k < |plan|
        ensures plan[j] != plan[k]
      {
        if j >= |front| {
          assert Rank(plan[j].write) < Rank(plan[k].write);
        }
      }
    }
  }

  /** Of every write there is at most one in a response. */
  lemma PlanIsDistinct(vs: seq<Verdict>, auto: bool)
    ensures Distinct(Plan(vs, auto))
  {
    forall k | 0 <= k < |vs|
      ensures Rising(AllWrites(vs, auto)[k], 0, 10)
    {
      WritesRise(vs[k], auto);
    }
    ChainIsDistinct(AllWrites(vs, auto));
  }

  lemma {:induction false} ChainHolds(lists: seq<seq<Write>>, i: nat, w: Write)
    ensures Part(i, w) in Chained(lists) <==> i < |lists| && w in lists[i]
  {
    if lists != [] {
      var n := |lists| - 1;
      ChainHolds(lists[..n], i, w);
      var ws := lists[n];
      assert Part(i, w) in Parts(n, ws) <==> i == n && w in ws by {
        assert forall k :: 0 <= k < |ws| ==> Parts(n, ws)[k] == Part(n, ws[k]);
        if w in ws {
          var k :| 0 <= k < |ws| && ws[k] == w;
          assert Parts(n, ws)[k] == Part(n, w);
        }
      }
    }
  }

  /** The writes of a response are those of its verdicts. */
  lemma PlanHolds(vs: seq<Verdict>, auto: bool, i: nat, w: Write)
    ensures Part(i, w) in Plan(vs, auto) <==> i < |vs| && w in Writes(vs[i], auto)
  {
    ChainHolds(AllWrites(vs, auto), i, w);
  }

  /** A response makes a new task with verdict i exactly if that verdict is a creating one. */
  lemma PlanMakesTask(vs: seq<Verdict>, auto: bool, i: nat)
    ensures Part(i, Task) in Plan(vs, auto) <==> i < |vs| && Creates(vs[i])
  {
    PlanHolds(vs, auto, i, Task);
    if i < |vs| {
      WritesMakeTask(vs[i], auto);
    }
  }

  lemma WritesMakeTask(v: Verdict, auto: bool)
    ensures Task in Writes(v, auto) <==> Creates(v)
  {
    if Creates(v) {
      assert Writes(v, auto)[0] == Task;
    }
  }

  // ----- which writes a verdict asks for -----

  /** A verdict makes a task if it is a new one with a task, or a completion of none that carries a
      comment. */
  predicate AsksForTask(v: Verdict) {
    || (v.action == New && v.hasTask)
    || (v.action == Completed && v.taskId == None && v.comment != "")
  }

  /** It works on a task that is there if it names it and is a completion, or an update with updates. */
  predicate AsksForChange(v: Verdict) {
    v.taskId != None && (v.action == Completed || (v.action == Update && v.hasUpdates))
  }

  predicate Asks(v: Verdict, auto: bool, w: Write) {
    match w
    case Task => AsksForTask(v)
    case Status => AsksForChange(v) && (v.action == Completed || v.status != "")
    case Fields => AsksForChange(v) && v.action == Update && v.priority != ""
    case Proposal => v.proposes && ((v.action == New && AsksForTask(v)) || (v.action == Update && AsksForChange(v)))
    case AutoDue => auto && v.proposes && ((v.action == New && AsksForTask(v)) || (v.action == Update && AsksForChange(v)))
    case Comment => AsksForChange(v) && v.comment != ""
    case CommentActivity => AsksForChange(v) && v.comment != ""
    case AiComment => AsksForChange(v)
    case AiActivity => AsksForChange(v)
    case Link => AsksForTask(v) || AsksForChange(v)
  }

  function IfAsked(v: Verdict, auto: bool, w: Write): seq<Write> { if Asks(v, auto, w) then [w] else [] }

  function Columns(v: Verdict, auto: bool): seq<Write> { IfAsked(v, auto, Status) + IfAsked(v, auto, Fields) }

  function DueDates(v: Verdict, auto: bool): seq<Write> { IfAsked(v, auto, Proposal) + IfAsked(v, auto, AutoDue) }

  function Comments(v: Verdict, auto: bool): seq<Write> { IfAsked(v, auto, Comment) + IfAsked(v, auto, CommentActivity) }

  function AiNotes(v: Verdict, auto: bool): seq<Write> { IfAsked(v, auto, AiComment) + IfAsked(v, auto, AiActivity) }

  /** The writes of a verdict are exactly those it asks for, each once, in this order: the task, its
      columns, its due date, the sender's comment, the AI's comment, the link. */
  lemma WritesExactly(v: Verdict, auto: bool)
    ensures Writes(v, auto) ==
            IfAsked(v, auto, Task) + Columns(v, auto) + DueDates(v, auto) + Comments(v, auto) + AiNotes(v, auto) + IfAsked(v, auto, Link)
  {
    if Creates(v) {
      CreatesExactly(v, auto);
      GlueCreated(DueDates(v, auto));
    } else if !Touches(v) {
      NothingAsked(v, auto);
    } else if v.action.Update? {
      UpdatesExactly(v, auto);
      GlueUpdated(Columns(v, auto), DueDates(v, auto), Comments(v, auto));
    } else {
      CompletesExactly(v, auto);
      GlueCompleted(Comments(v, auto));
    }
  }

  lemma CreatesExactly(v: Verdict, auto: bool)
    requires Creates(v)
    ensures DueDates(v, auto) == if v.action.New? then DueWrites(v, auto) else []
    ensures Columns(v, auto) == Comments(v, auto) == AiNotes(v, auto) == []
    ensures IfAsked(v, auto, Task) == [Task] && IfAsked(v, auto, Link) == [Link]
  {
  }

  lemma UpdatesExactly(v: Verdict, auto: bool)
    requires !Creates(v) && Touches(v) && v.action.Update?
    ensures Columns(v, auto) == ColumnWrites(v) && DueDates(v, auto) == DueWrites(v, auto) && Comments(v, auto) == CommentWrites(v)
    ensures AiNotes(v, auto) == [AiComment, AiActivity] && IfAsked(v, auto, Link) == [Link] && IfAsked(v, auto, Task) == []
  {
  }

  lemma CompletesExactly(v: Verdict, auto: bool)
    requires !Creates(v) && Touches(v) && !v.action.Update?
    ensures Columns(v, auto) == [Status] && DueDates(v, auto) == [] && Comments(v, auto) == CommentWrites(v)
    ensures AiNotes(v, auto) == [AiComment, AiActivity] && IfAsked(v, auto, Link) == [Link] && IfAsked(v, auto, Task) == []
  {
  }

  lemma NothingAsked(v: Verdict, auto: bool)
    requires !Creates(v) && !Touches(v)
    ensures IfAsked(v, auto, Task) + Columns(v, auto) + DueDates(v, auto) + Comments(v, auto) + AiNotes(v, auto) + IfAsked(v, auto, Link) == []
  {
    assert Columns(v, auto) == DueDates(v, auto) == Comments(v, auto) == AiNotes(v, auto) == [];
  }

  lemma GlueCreated(due: seq<Write>)
    ensures [Task] + [] + due + [] + [] + [Link] == [Task] + due + [Link]
  {
  }

  lemma GlueUpdated(columns: seq<Write>, due: seq<Write>, comments: seq<Write>)
    ensures [] + columns + due + comments + [AiComment, AiActivity] + [Link] == columns + due + comments + LAST_WRITES
  {
    assert [] + columns == columns;
    Regroup(columns + due + comments, [AiComment, AiActivity], [Link]);
    assert [AiComment, AiActivity] + [Link] == LAST_WRITES;
  }

  lemma GlueCompleted(comments: seq<Write>)
    ensures [] + [Status] + [] + comments + [AiComment, AiActivity] + [Link] == [Status] + comments + LAST_WRITES
  {
    assert [] + [Status] + [] == [Status];
    Regroup([Status] + comments, [AiComment, AiActivity], [Link]);
    assert [AiComment, AiActivity] + [Link] == LAST_WRITES;
  }

  // ----- trying the writes one after the other -----

  /** The tasks so far, which of the writes tried so far were made, and whether an error ended it. */
  datatype Progress = Progress(tasks: Tasks, made: seq<bool>, stopped: bool)

  /** The write is made: the database does its part, the key of a new task is free, and a proposed date
      is accepted only if it has just been stored. */
  predicate Makes(s: Progress, source: string, part: Part, ok: bool) {
    && ok
    && (part.write.Task? ==> Key(source, part.verdict) !in s.tasks)
    && (part.write.AutoDue? ==> s.made != [] && s.made[|s.made| - 1])
  }

  function Try(s: Progress, source: string, part: Part, ok: bool): Progress {
    if s.stopped then s
    else if Makes(s, source, part, ok) then
      s.(tasks := if part.write.Task? then s.tasks[Key(source, part.verdict) := Origin(source, part.verdict)] else s.tasks,
         made := s.made + [true])
    else if Required(part.write) then s.(stopped := true)
    else s.(made := s.made + [false])
  }

  /** Some writes in order; `ok` gives each its outcome. */
  function TryAll(s: Progress, source: string, parts: seq<Part>, ok: Part -> bool): Progress {
    if parts == [] then s
    else Try(TryAll(s, source, parts[..|parts| - 1], ok), source, parts[|parts| - 1], ok(parts[|parts| - 1]))
  }

  lemma {:induction false} TryAllAppend(s: Progress, source: string, a: seq<Part>, b: seq<Part>, ok: Part -> bool)
    ensures TryAll(s, source, a + b, ok) == TryAll(TryAll(s, source, a, ok), source, b, ok)
    decreases |b|
  {
    if b == [] {
      assert a + b == a;
    } else {
      var n := |b| - 1;
      assert (a + b)[..|a + b| - 1] == a + b[..n];
      TryAllAppend(s, source, a, b[..n], ok);
    }
  }

  lemma {:induction false} StoppedStays(s: Progress, source: string, parts: seq<Part>, ok: Part -> bool)
    requires s.stopped
    ensures TryAll(s, source, parts, ok) == s
  {
    if parts != [] {
      StoppedStays(s, source, parts[..|parts| - 1], ok);
    }
  }

  lemma TryOne(s: Progress, source: string, part: Part, ok: Part -> bool)
    ensures TryAll(s, source, [part], ok) == Try(s, source, part, ok(part))
  {
    assert [part][..0] == [];
    assert TryAll(s, source, [], ok) == s;
  }

  /** The next writes of a verdict, after those done. */
  lemma More(s: Progress, source: string, i: nat, done: seq<Write>, next: seq<Write>, ok: Part -> bool)
    ensures TryAll(s, source, Parts(i, done + next), ok) ==
            TryAll(TryAll(s, source, Parts(i, done), ok), source, Parts(i, next), ok)
    ensures TryAll(s, source, Parts(i, done), ok).stopped ==>
            TryAll(s, source, Parts(i, done + next), ok) == TryAll(s, source, Parts(i, done), ok)
  {
    assert Parts(i, done + next) == Parts(i, done) + Parts(i, next);
    TryAllAppend(s, source, Parts(i, done), Parts(i, next), ok);
    if TryAll(s, source, Parts(i, done), ok).stopped {
      StoppedStays(TryAll(s, source, Parts(i, done), ok), source, Parts(i, next), ok);
    }
  }

  // ----- the statements -----

  method Execute(s: Progress, source: string, i: nat, w: Write, ok: Part -> bool) returns (t: Progress)
    ensures t == TryAll(s, source, Parts(i, [w]), ok)
  {
    assert Parts(i, [w]) == [Part(i, w)];
    TryOne(s, source, Part(i, w), ok);
    t := Try(s, source, Part(i, w), ok(Part(i, w)));
  }

  /** The comment's row, then the task's activity stamp. */
  method AddTaskComment(s: Progress, source: string, i: nat, row: Write, stamp: Write, ok: Part -> bool) returns (t: Progress)
    ensures t == TryAll(s, source, Parts(i, [row, stamp]), ok)
  {
    assert [row] + [stamp] == [row, stamp];
    More(s, source, i, [row], [stamp], ok);
    t := Execute(s, source, i, row, ok);
    if t.stopped { return; }
    t := Execute(t, source, i, stamp, ok);
  }

  /** The AI's date; accepting it is skipped if it could not be stored. */
  method ApplyDueDate(s: Progress, source: string, i: nat, v: Verdict, auto: bool, ok: Part -> bool) returns (t: Progress)
    requires !s.stopped
    ensures t == TryAll(s, source, Parts(i, DueWrites(v, auto)), ok) && !t.stopped
  {
    if !v.proposes { return s; }
    t := Execute(s, source, i, Proposal, ok);
    TryOne(s, source, Part(i, Proposal), ok);
    assert Parts(i, [Proposal]) == [Part(i, Proposal)];
    if auto {
      assert [Proposal] + [AutoDue] == [Proposal, AutoDue];
      More(s, source, i, [Proposal], [AutoDue], ok);
      TryOne(t, source, Part(i, AutoDue), ok);
      assert Parts(i, [AutoDue]) == [Part(i, AutoDue)];
      if !t.made[|t.made| - 1] { return t.(made := t.made + [false]); }
      t := Execute(t, source, i, AutoDue, ok);
    }
  }

  /** createTaskFromVerdict and createCompletedTaskFromVerdict. */
  method CreateTaskFromVerdict(s: Progress, source: string, i: nat, v: Verdict, auto: bool, ok: Part -> bool) returns (t: Progress)
    requires !s.stopped
    ensures t == TryAll(s, source, Parts(i, CreateWrites(v, auto)), ok)
  {
    ghost var due := if v.action.New? then DueWrites(v, auto) else [];
    More(s, source, i, [Task], due, ok);
    More(s, source, i, [Task] + due, [Link], ok);
    t := Execute(s, source, i, Task, ok);
    if t.stopped { return; }
    if v.action.New? {
      t := ApplyDueDate(t, source, i, v, auto, ok);
    }
    t := Execute(t, source, i, Link, ok);
  }

  /** The status, by its own statement, and the priority. */
  method WriteColumns(s: Progress, source: string, i: nat, v: Verdict, ok: Part -> bool) returns (t: Progress)
    requires !s.stopped
    ensures t == TryAll(s, source, Parts(i, ColumnWrites(v)), ok)
  {
    t := s;
    ghost var status := if v.status != "" then [Status] else [];
    More(s, source, i, status, if v.priority != "" then [Fields] else [], ok);
    if v.status != "" {
      t := Execute(t, source, i, Status, ok);
      if t.stopped { return; }
    }
    if v.priority != "" {
      t := Execute(t, source, i, Fields, ok);
    }
  }

  /** Both comments and the link, after the writes done. */
  method WriteComments(s: Progress, source: string, i: nat, v: Verdict, ok: Part -> bool) returns (t: Progress)
    requires !s.stopped
    ensures t == TryAll(s, source, Parts(i, CommentWrites(v) + LAST_WRITES), ok)
  {
    t := s;
    More(s, source, i, CommentWrites(v), LAST_WRITES, ok);
    if v.comment != "" {
      t := AddTaskComment(t, source, i, Comment, CommentActivity, ok);
      if t.stopped { return; }
    }
    assert [AiComment, AiActivity] + [Link] == LAST_WRITES;
    More(t, source, i, [AiComment, AiActivity], [Link], ok);
    t := AddTaskComment(t, source, i, AiComment, AiActivity, ok);
    if t.stopped { return; }
    t := Execute(t, source, i, Link, ok);
  }

  method UpdateTaskFromVerdict(s: Progress, source: string, i: nat, v: Verdict, auto: bool, ok: Part -> bool) returns (t: Progress)
    requires !s.stopped
    ensures t == TryAll(s, source, Parts(i, UpdateWrites(v, auto)), ok)
  {
    ghost var columns, due, rest := ColumnWrites(v), DueWrites(v, auto), CommentWrites(v) + LAST_WRITES;
    assert columns + (due + rest) == UpdateWrites(v, auto);
    More(s, source, i, columns, due + rest, ok);
    t := WriteColumns(s, source, i, v, ok);
    if t.stopped { return; }
    More(t, source, i, due, rest, ok);
    t := ApplyDueDate(t, source, i, v, auto, ok);
    t := WriteComments(t, source, i, v, ok);
  }

  method CompleteTaskFromVerdict(s: Progress, source: string, i: nat, v: Verdict, ok: Part -> bool) returns (t: Progress)
    requires !s.stopped
    ensures t == TryAll(s, source, Parts(i, CompleteWrites(v)), ok)
  {
    assert [Status] + (CommentWrites(v) + LAST_WRITES) == CompleteWrites(v);
    More(s, source, i, [Status], CommentWrites(v) + LAST_WRITES, ok);
    t := Execute(s, source, i, Status, ok);
    if t.stopped { return; }
    t := WriteComments(t, source, i, v, ok);
  }

  lemma {:induction false} ChainStops(s: Progress, source: string, lists: seq<seq<Write>>, n: nat, ok: Part -> bool)
    requires n <= |lists| && TryAll(s, source, Chained(lists[..n]), ok).stopped
    ensures TryAll(s, source, Chained(lists), ok) == TryAll(s, source, Chained(lists[..n]), ok)
  {
    if n < |lists| {
      var m := |lists| - 1;
      var front, last := Chained(lists[..m]), Parts(m, lists[m]);
      assert lists[..m][..n] == lists[..n];
      ChainStops(s, source, lists[..m], n, ok);
      TryAllAppend(s, source, front, last, ok);
      StoppedStays(TryAll(s, source, front, ok), source, last, ok);
    } else {
      assert lists[..n] == lists;
    }
  }

  method ApplyVerdicts(tasks: Tasks, source: string, vs: seq<Verdict>, auto: bool, ok: Part -> bool) returns (t: Progress)
    ensures t == TryAll(Progress(tasks, [], false), source, Plan(vs, auto), ok)
  {
    ghost var start, lists := Progress(tasks, [], false), AllWrites(vs, auto);
    t := Progress(tasks, [], false);
    for i := 0 to |vs|
      invariant t == TryAll(start, source, Chained(lists[..i]), ok) && !t.stopped
    {
      var v := vs[i];
      assert lists[..i + 1][..i] == lists[..i];
      TryAllAppend(start, source, Chained(lists[..i]), Parts(i, lists[i]), ok);
      ghost var before := t;
      match v.action {
        case New =>
          if v.hasTask { t := CreateTaskFromVerdict(t, source, i, v, auto, ok); }
        case Update =>
          if v.taskId.Some? && v.hasUpdates { t := UpdateTaskFromVerdict(t, source, i, v, auto, ok); }
        case Completed =>
          if v.taskId.Some? {
            t := CompleteTaskFromVerdict(t, source, i, v, ok);
          } else if v.comment != "" {
            t := CreateTaskFromVerdict(t, source, i, v, auto, ok);
          }
        case NoAction =>
      }
      assert t == TryAll(before, source, Parts(i, Writes(v, auto)), ok);
      if t.stopped {
        ChainStops(start, source, lists, i + 1, ok);
        return;
      }
    }
    assert lists[..|vs|] == lists;
  }

  // ----- when a response applies without error -----

  /** What a write needs that must not fail: the database's part, and for a new task a free key. */
  predicate Applicable(tasks: Tasks, source: string, part: Part, ok: bool) {
    Required(part.write) ==> ok && (part.write.Task? ==> Key(source, part.verdict) !in tasks)
  }

  /** The tasks after n writes: those before, and one for each new one among these. */
  lemma {:induction false} TriedTasks(tasks: Tasks, source: string, plan: seq<Part>, ok: Part -> bool, key: string)
    requires !TryAll(Progress(tasks, [], false), source, plan, ok).stopped
    ensures key in TryAll(Progress(tasks, [], false), source, plan, ok).tasks <==>
            key in tasks || exists k :: 0 <= k < |plan| && plan[k].write.Task? && key == Key(source, plan[k].verdict)
  {
    if plan != [] {
      var n := |plan| - 1;
      TriedTasks(tasks, source, plan[..n], ok, key);
      assert forall k :: 0 <= k < n ==> plan[..n][k] == plan[k];
    }
  }

  lemma {:induction false} TriedExactly(tasks: Tasks, source: string, plan: seq<Part>, ok: Part -> bool)
    requires Distinct(plan)
    ensures !TryAll(Progress(tasks, [], false), source, plan, ok).stopped <==>
            forall k :: 0 <= k < |plan| ==> Applicable(tasks, source, plan[k], ok(plan[k]))
  {
    if plan != [] {
      var n := |plan| - 1;
      TriedExactly(tasks, source, plan[..n], ok);
      assert forall k :: 0 <= k < n ==> plan[..n][k] == plan[k];
      var before := TryAll(Progress(tasks, [], false), source, plan[..n], ok);
      if !before.stopped && plan[n].write.Task? {
        var key := Key(source, plan[n].verdict);
        TriedTasks(tasks, source, plan[..n], ok, key);
        forall k | 0 <= k < n && plan[k].write.Task?
          ensures key != Key(source, plan[k].verdict)
        {
          assert plan[k] != plan[n];
          if key == Key(source, plan[k].verdict) {
            KeyIsInjective(source, plan[k].verdict, source, plan[n].verdict);
          }
        }
      }
    }
  }

  /** A response applies without error if and only if the database does its part for each write that
      must not fail, and each of its new tasks is new; no write stands in the way of a later one. */
  lemma AppliesExactly(tasks: Tasks, source: string, vs: seq<Verdict>, auto: bool, ok: Part -> bool)
    ensures !TryAll(Progress(tasks, [], false), source, Plan(vs, auto), ok).stopped <==>
            forall k :: 0 <= k < |Plan(vs, auto)| ==> Applicable(tasks, source, Plan(vs, auto)[k], ok(Plan(vs, auto)[k]))
  {
    PlanIsDistinct(vs, auto);
    TriedExactly(tasks, source, Plan(vs, auto), ok);
  }

  /** Then exactly one task was made for each creating verdict. */
  lemma AppliedTasks(tasks: Tasks, source: string, vs: seq<Verdict>, auto: bool, ok: Part -> bool)
    requires !TryAll(Progress(tasks, [], false), source, Plan(vs, auto), ok).stopped
    ensures var after := TryAll(Progress(tasks, [], false), source, Plan(vs, auto), ok).tasks;
      forall key :: key in after <==> key in tasks || exists i :: 0 <= i < |vs| && Creates(vs[i]) && key == Key(source, i)
  {
    var plan := Plan(vs, auto);
    var after := TryAll(Progress(tasks, [], false), source, plan, ok).tasks;
    forall key
      ensures key in after <==> key in tasks || exists i :: 0 <= i < |vs| && Creates(vs[i]) && key == Key(source, i)
    {
      TriedTasks(tasks, source, plan, ok, key);
      if k :| 0 <= k < |plan| && plan[k].write.Task? && key == Key(source, plan[k].verdict) {
        assert plan[k] == Part(plan[k].verdict, Task);
        PlanMakesTask(vs, auto, plan[k].verdict);
      }
      if i :| 0 <= i < |vs| && Creates(vs[i]) && key == Key(source, i) {
        PlanMakesTask(vs, auto, i);
        var k :| 0 <= k < |plan| && plan[k] == Part(i, Task);
      }
    }
  }

  /** Which writes a response makes: those tried up to the first error, and of these all that must not
      fail. */
  lemma {:induction false} TriedShape(tasks: Tasks, source: string, plan: seq<Part>, ok: Part -> bool)
    ensures var t := TryAll(Progress(tasks, [], false), source, plan, ok);
      |t.made| <= |plan| && (!t.stopped ==> |t.made| == |plan|) &&
      (forall k :: 0 <= k < |t.made| && Required(plan[k].write) ==> t.made[k]) &&
      (t.stopped ==> |t.made| < |plan| && Required(plan[|t.made|].write))
  {
    if plan != [] {
      TriedShape(tasks, source, plan[..|plan| - 1], ok);
    }
  }
}
