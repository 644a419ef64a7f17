/** What holds over every run of the AI pipeline, with failing reads and writes, crashes and restarts. */
module AiRuns {
  import opened Wrappers
  import opened AiVerdicts
  import opened AiPipeline

  // ----- what holds of every run -----

  function Empty(cap: nat, auto: bool): Pipeline {
    Pipeline(cap, auto, map[], map[], [], map[], Idle, [], multiset{}, 0)
  }

  /** Over any run with crashes no row is ever given up, and a row is done if and only if some response
      to it ended in its mark: one that came to the end of its writes and made all that must not fail. */
  lemma EveryRunIsSafe(cap: nat, auto: bool, inputs: seq<Input>, p: Pipeline, id: nat)
    requires p == Run(Empty(cap, auto), inputs) && id in p.rows
    ensures p.rows[id].processed == 0 || p.rows[id].processed == 1
    ensures p.rows[id].processed == 1 <==> exists r: nat :: MarkedBy(p.rounds, id, r)
    ensures forall r: nat :: MarkedBy(p.rounds, id, r) ==>
      p.rounds[r].plan == Plan(p.rounds[r].verdicts, p.auto) && |p.rounds[r].made| == |p.rounds[r].plan|
    ensures forall r: nat, part :: MarkedBy(p.rounds, id, r) && part in p.rounds[r].plan && Required(part.write) ==> Did(p.rounds[r], part)
  {
    RunKeepsInv(Empty(cap, auto), inputs);
    forall r: nat, part | MarkedBy(p.rounds, id, r) && part in p.rounds[r].plan && Required(part.write)
      ensures Did(p.rounds[r], part)
    {
      var x := p.rounds[r];
      assert ResponseOk(x, p.auto);
      var k :| 0 <= k < |x.plan| && x.plan[k] == part;
      assert x.made[k];
    }
  }

  /** Two responses to one row lie in different lives of the process, and the earlier one ended without
      the mark: at a failing write that must not fail, with all writes tried and the mark not written, or
      by a crash. */
  lemma EveryRepetitionTakesRestart(cap: nat, auto: bool, inputs: seq<Input>, p: Pipeline, q: nat, r: nat)
    requires p == Run(Empty(cap, auto), inputs) && q < r < |p.rounds| && p.rounds[q].row == p.rounds[r].row
    ensures p.rounds[q].life < p.rounds[r].life
    ensures var x := p.rounds[q];
      x.end.Cut? || (x.end.Unmarked? && |x.made| == |x.plan|) ||
      (x.end.Stopped? && |x.made| < |x.plan| && Required(x.plan[|x.made|].write))
  {
    RunKeepsInv(Empty(cap, auto), inputs);
    assert ResponseOk(p.rounds[q], p.auto);
  }

  // ----- how often a write is made -----

  predicate AddsAt(rounds: seq<Response>, e: Effect, r: nat) { r < |rounds| && Adds(rounds[r], e) }

  predicate AddTwice(rounds: seq<Response>, e: Effect, q: nat, r: nat) { q < r && AddsAt(rounds, e, q) && AddsAt(rounds, e, r) }

  lemma {:induction false} CountOne(rounds: seq<Response>, e: Effect)
    ensures Count(rounds, e) >= 1 <==> exists r: nat :: AddsAt(rounds, e, r)
  {
    if rounds != [] {
      var n := |rounds| - 1;
      CountOne(rounds[..n], e);
      assert forall r: nat :: AddsAt(rounds, e, r) <==> AddsAt(rounds[..n], e, r) || (r == n && Adds(rounds[n], e));
      assert Adds(rounds[n], e) ==> AddsAt(rounds, e, n);
    }
  }

  lemma {:induction false} CountTwo(rounds: seq<Response>, e: Effect)
    ensures Count(rounds, e) >= 2 <==> exists q: nat, r: nat :: AddTwice(rounds, e, q, r)
  {
    if rounds != [] {
      var n := |rounds| - 1;
      CountTwo(rounds[..n], e);
      CountOne(rounds[..n], e);
      assert forall r: nat :: AddsAt(rounds, e, r) <==> AddsAt(rounds[..n], e, r) || (r == n && Adds(rounds[n], e));
      if q: nat, r: nat :| AddTwice(rounds, e, q, r) {
        assert AddsAt(rounds[..n], e, q);
        assert r < n ==> AddTwice(rounds[..n], e, q, r);
      }
      if q: nat, r: nat :| AddTwice(rounds[..n], e, q, r) {
        assert AddTwice(rounds, e, q, r);
      }
      if Adds(rounds[n], e) {
        if q: nat :| AddsAt(rounds[..n], e, q) {
          assert AddTwice(rounds, e, q, n);
        }
      }
    }
  }

  /** Response r to the row came past the write. */
  predicate Passed(rounds: seq<Response>, id: nat, part: Part, r: nat) {
    r < |rounds| && rounds[r].row == id && GotPast(rounds[r], part)
  }

  predicate PassedTwice(rounds: seq<Response>, id: nat, part: Part, q: nat, r: nat) {
    q < r && Passed(rounds, id, part, q) && Passed(rounds, id, part, r)
  }

  lemma PassedAdds(rounds: seq<Response>, auto: bool, id: nat, part: Part)
    requires RoundsOk(rounds, auto) && Required(part.write)
    ensures forall r: nat :: Passed(rounds, id, part, r) <==> AddsAt(rounds, Effect(id, part), r)
  {
    forall r: nat
      ensures Passed(rounds, id, part, r) <==> AddsAt(rounds, Effect(id, part), r)
    {
      if r < |rounds| {
        assert ResponseOk(rounds[r], auto);
      }
    }
  }

  /** Over any run a write of a row's verdict is made twice if and only if two responses to the row,
      which lie in different lives, both made it; and if it is one that must not fail, if and only if
      both came past it, no matter how they went on. */
  lemma WrittenTwiceExactly(cap: nat, auto: bool, inputs: seq<Input>, p: Pipeline, id: nat, part: Part)
    requires p == Run(Empty(cap, auto), inputs)
    ensures p.journal[Effect(id, part)] >= 2 <==> exists q: nat, r: nat :: AddTwice(p.rounds, Effect(id, part), q, r)
    ensures Required(part.write) ==>
      (p.journal[Effect(id, part)] >= 2 <==> exists q: nat, r: nat :: PassedTwice(p.rounds, id, part, q, r))
    ensures forall q: nat, r: nat :: PassedTwice(p.rounds, id, part, q, r) ==> p.rounds[q].life < p.rounds[r].life
  {
    RunKeepsInv(Empty(cap, auto), inputs);
    var e := Effect(id, part);
    assert p.journal[e] == Count(p.rounds, e);
    CountTwo(p.rounds, e);
    if Required(part.write) {
      PassedAdds(p.rounds, p.auto, id, part);
      assert forall q: nat, r: nat :: AddTwice(p.rounds, e, q, r) <==> PassedTwice(p.rounds, id, part, q, r);
    }
  }

  /** Over any run the task of a creating verdict is made at most once, under a key no other message or
      verdict has, and exists from then on. */
  lemma EveryRunCreatesOnce(cap: nat, auto: bool, inputs: seq<Input>, p: Pipeline, q: nat, r: nat, i: nat)
    requires p == Run(Empty(cap, auto), inputs) && CreatedAt(p.rounds, r, i)
    ensures p.rounds[r].row in p.rows && Made(p.tasks, p.rows[p.rounds[r].row].source, i)
    ensures RoundsKnown(p.rows, p.rounds) && (SameTask(p.rows, p.rounds, q, r, i) ==> q == r)
    ensures p.journal[Effect(p.rounds[r].row, Part(i, Task))] == 1
  {
    RunKeepsInv(Empty(cap, auto), inputs);
    var e := Effect(p.rounds[r].row, Part(i, Task));
    assert p.journal[e] == Count(p.rounds, e);
    CountOne(p.rounds, e);
    CountTwo(p.rounds, e);
    assert AddsAt(p.rounds, e, r);
    if j: nat, k: nat :| AddTwice(p.rounds, e, j, k) {
      assert SameTask(p.rows, p.rounds, j, k, i);
    }
  }

  // ----- losing a row -----

  /** After a restart whose query succeeds every row that is not done is pending again, and the queue holds the oldest of
      them, as many as fit. */
  lemma RestartQueuesOldest(p: Pipeline, order: seq<nat>)
    requires Inv(p) && Pending(p.rows, order)
    ensures var r := Step(p, Restart(order, true));
      r.rows == p.rows && r.queue == Loaded(order, p.cap) && forall id :: id in r.rows ==> r.rows[id].processed == 1 || id in order
    ensures var r := Step(p, Restart(order, true)); |order| <= p.cap ==> forall id :: id in r.rows ==> r.rows[id].processed == 1 || id in r.queue
    ensures var r := Step(p, Restart(order, true)); forall a, b :: a in r.queue && b in order && b !in r.queue ==> r.rows[a].at <= r.rows[b].at
  {
    var r := Step(p, Restart(order, true));
    forall a, b | a in r.queue && b in order && b !in r.queue
      ensures r.rows[a].at <= r.rows[b].at
    {
      var j :| 0 <= j < |r.queue| && r.queue[j] == a;
      var k :| 0 <= k < |order| && order[k] == b;
      assert order[j] == a;
      assert forall m :: 0 <= m < |r.queue| ==> r.queue[m] == order[m];
    }
  }

  /** A row in no place of the pipeline: dropped by a full queue, or left by an error. */
  predicate Lost(p: Pipeline, id: nat) { id in p.rows && id !in p.queue && id !in p.waiting && !Busy(p.work, id) }

  lemma DoneRowsAreLost(p: Pipeline, id: nat)
    requires PlacesOk(p) && id in p.rows && p.rows[id].processed == 1
    ensures Lost(p, id)
  {
    assert forall k :: 0 <= k < |p.queue| ==> Waits(p.rows, p.queue[k]);
  }

  lemma LostStaysLost(p: Pipeline, id: nat, i: Input)
    requires PlacesOk(p) && Lost(p, id) && !i.Restart?
    ensures Lost(Step(p, i), id) && Step(p, i).rows[id] == p.rows[id]
  {
    match i
    case Arrive(_, _, _) =>
    case Wake(_) =>
    case Take(_, _) =>
      if p.work.Idle? && p.queue != [] {
        assert p.queue[0] in p.queue;
      }
    case LlmFails(_) =>
    case Answer(_) =>
    case Commit(_) =>
    case Finish(_) =>
  }

  lemma RestartKeepsDone(p: Pipeline, id: nat, order: seq<nat>, loaded: bool)
    requires PlacesOk(p) && id in p.rows && p.rows[id].processed == 1
    ensures Lost(Step(p, Restart(order, loaded)), id) && Step(p, Restart(order, loaded)).rows == p.rows
  {
    DoneRowsAreLost(p, id);
  }

  /** A lost row is not looked at again before the next restart, and a done row never again at all. */
  lemma {:induction false} LostUntilRestart(p: Pipeline, id: nat, inputs: seq<Input>)
    requires PlacesOk(p) && id in p.rows
    requires p.rows[id].processed == 1 || (Lost(p, id) && forall k :: 0 <= k < |inputs| ==> !inputs[k].Restart?)
    ensures Lost(Run(p, inputs), id) && Run(p, inputs).rows[id] == p.rows[id]
    decreases |inputs|
  {
    if p.rows[id].processed == 1 {
      DoneRowsAreLost(p, id);
    }
    if inputs != [] {
      StepKeepsPlaces(p, inputs[0]);
      match inputs[0] {
        case Restart(order, loaded) => RestartKeepsDone(p, id, order, loaded);
        case _ => LostStaysLost(p, id, inputs[0]);
      }
      LostUntilRestart(Step(p, inputs[0]), id, inputs[1..]);
    }
  }

  /** The step that loses a row that is not done: waking it at a full queue, taking it when its row cannot
      be read, an error in one of its writes, a mark that is not written, or a restart that cannot read
      the pending rows or has more of them than fit. */
  predicate Loses(p: Pipeline, id: nat, i: Input) {
    match i
    case Wake(k) => k == id && id in p.waiting && |p.queue| >= p.cap
    case Take(read, wrote) => !read && p.work.Idle? && p.queue != [] && p.queue[0] == id
    case Commit(ok) => HasNext(p) && p.work.id == id && Tried(p, ok).stopped
    case Finish(wrote) => AtEnd(p) && p.work.id == id && !wrote
    case Restart(order, loaded) => if loaded then Pending(p.rows, order) && id !in Loaded(order, p.cap) else true
    case _ => false
  }

  lemma TakeLosesExactly(p: Pipeline, id: nat, read: bool, wrote: bool)
    requires PlacesOk(p) && id in p.rows && p.rows[id].processed == 0 && !Lost(p, id)
    ensures Step(p, Take(read, wrote)).rows == p.rows
    ensures Lost(Step(p, Take(read, wrote)), id) <==> Loses(p, id, Take(read, wrote))
  {
    TakeKeepsPlaces(p, read, wrote);
    if p.work.Idle? && p.queue != [] {
      assert Waits(p.rows, p.queue[0]);
      assert id in p.queue && id != p.queue[0] ==> id in p.queue[1..];
      assert forall k :: 0 < k < |p.queue| ==> p.queue[k] != p.queue[0];
    }
  }

  lemma CommitLosesExactly(p: Pipeline, id: nat, ok: bool)
    requires id in p.rows && !Lost(p, id)
    ensures Step(p, Commit(ok)).rows == p.rows
    ensures PlacesOk(p) ==> (Lost(Step(p, Commit(ok)), id) <==> Loses(p, id, Commit(ok)))
  {
    if HasNext(p) {
      var t := Committed(p, Tried(p, ok));
      assert t.rows == p.rows && t.queue == p.queue && t.waiting == p.waiting;
      assert Tried(p, ok).stopped ==> t.work.Idle?;
      assert !Tried(p, ok).stopped ==> Busy(t.work, id) == Busy(p.work, id);
    }
  }

  /** A row in the pipeline that is not done becomes lost, still not done, exactly in such a step. */
  lemma LostExactly(p: Pipeline, id: nat, i: Input)
    requires Inv(p) && id in p.rows && p.rows[id].processed == 0 && !Lost(p, id)
    ensures id in Step(p, i).rows && (Lost(Step(p, i), id) && Step(p, i).rows[id].processed == 0 <==> Loses(p, id, i))
  {
    match i
    case Take(read, wrote) => TakeLosesExactly(p, id, read, wrote);
    case Commit(ok) => CommitLosesExactly(p, id, ok);
    case Arrive(_, _, _) =>
    case Wake(_) =>
    case LlmFails(_) =>
    case Answer(_) =>
    case Finish(_) =>
    case Restart(_, _) =>
  }

  /** ai_attempts never grows, so every failure of the LLM is a first one: the row waits a minute. */
  lemma EveryFailureIsTheFirst(p: Pipeline, wrote: bool)
    requires Inv(p) && p.work.Asking?
    ensures Step(p, LlmFails(wrote)) == p.(waiting := p.waiting[p.work.id := 1], work := Idle)
  {
  }

  // ----- running inputs -----

  lemma {:induction false} RunAppend(p: Pipeline, a: seq<Input>, b: seq<Input>)
    ensures Run(p, a + b) == Run(Run(p, a), b)
    decreases |a|
  {
    if a == [] {
      assert a + b == b;
    } else {
      assert (a + b)[1..] == a[1..] + b;
      RunAppend(Step(p, a[0]), a[1..], b);
    }
  }

  lemma RunOne(p: Pipeline, i: Input)
    ensures Run(p, [i]) == Step(p, i)
  {
    assert [i][1..] == [];
  }

  lemma RunTwo(p: Pipeline, i: Input, j: Input)
    ensures Run(p, [i, j]) == Step(Step(p, i), j)
  {
    assert [i, j][1..] == [j];
    RunOne(Step(p, i), j);
  }

  lemma RunThree(p: Pipeline, i: Input, j: Input, k: Input)
    ensures Run(p, [i, j, k]) == Step(Step(Step(p, i), j), k)
  {
    assert [i, j, k][1..] == [j, k];
    RunTwo(Step(p, i), j, k);
  }

  // ----- the writes of one response, with nothing in between -----

  function Commits(plan: seq<Part>, ok: Part -> bool): seq<Input> {
    seq(|plan|, k requires 0 <= k < |plan| => Commit(ok(plan[k])))
  }

  /** What the writes that were made add to the journal. */
  function EffectsOf(id: nat, plan: seq<Part>, made: seq<bool>): multiset<Effect>
    requires |made| <= |plan|
  {
    if made == [] then multiset{}
    else
      var n := |made| - 1;
      EffectsOf(id, plan, made[..n]) + (if made[n] then multiset{Effect(id, plan[n])} else multiset{})
  }

  lemma EffectsSnoc(id: nat, plan: seq<Part>, made: seq<bool>, b: bool)
    requires |made| < |plan|
    ensures EffectsOf(id, plan, made + [b]) == EffectsOf(id, plan, made) + (if b then multiset{Effect(id, plan[|made|])} else multiset{})
  {
    assert (made + [b])[..|made|] == made;
  }

  /** A response after some of its writes were tried. */
  function Attempted(p: Pipeline, x: Response, t: Progress): Pipeline
    requires p.rounds != [] && |t.made| <= |x.plan|
  {
    p.(tasks := t.tasks, journal := p.journal + EffectsOf(x.row, x.plan, t.made),
       rounds := WithLast(p.rounds, x.(made := t.made, end := if t.stopped then Stopped else Open)),
       work := if t.stopped then Idle else Applying(x.row, x.plan, t.made))
  }

  /** One commit in a pipeline whose last response is x, as far as t. */
  lemma CommitStops(a: Pipeline, x: Response, t: Progress, source: string, ok: bool)
    requires a.rounds != [] && a.rounds[|a.rounds| - 1] == x.(made := t.made, end := Open) && a.tasks == t.tasks
    requires a.work == Applying(x.row, x.plan, t.made) && x.row in a.rows && source == a.rows[x.row].source
    requires !t.stopped && |t.made| < |x.plan| && Try(t, source, x.plan[|t.made|], ok).stopped
    ensures Next(a, ok) == a.(work := Idle, rounds := WithLast(a.rounds, x.(made := t.made, end := Stopped)))
  {
    assert t == Progress(a.tasks, t.made, false) && NextPart(a) == x.plan[|t.made|];
  }

  lemma CommitAdvances(a: Pipeline, x: Response, t: Progress, u: Progress, source: string, ok: bool)
    requires a.rounds != [] && a.rounds[|a.rounds| - 1] == x.(made := t.made, end := Open) && a.tasks == t.tasks
    requires a.work == Applying(x.row, x.plan, t.made) && x.row in a.rows && source == a.rows[x.row].source
    requires !t.stopped && |t.made| < |x.plan| && u == Try(t, source, x.plan[|t.made|], ok) && !u.stopped
    ensures Next(a, ok) ==
      a.(tasks := u.tasks, work := Applying(x.row, x.plan, u.made), rounds := WithLast(a.rounds, x.(made := u.made, end := Open)),
         journal := if LastMade(u.made) then a.journal + multiset{Effect(x.row, x.plan[|t.made|])} else a.journal)
  {
    assert t == Progress(a.tasks, t.made, false) && NextPart(a) == x.plan[|t.made|];
  }

  lemma LastTwice(rounds: seq<Response>, x: Response, y: Response)
    requires rounds != []
    ensures WithLast(WithLast(rounds, x), y) == WithLast(rounds, y) && WithLast(rounds, x)[|rounds| - 1] == x
  {
  }

  lemma AttemptedNext(p: Pipeline, x: Response, t: Progress, u: Progress, source: string, ok: bool)
    requires p.rounds != [] && x.row in p.rows && source == p.rows[x.row].source
    requires !t.stopped && |t.made| < |x.plan| && u == Try(t, source, x.plan[|t.made|], ok)
    ensures |u.made| <= |x.plan| && Next(Attempted(p, x, t), ok) == Attempted(p, x, u)
  {
    var a := Attempted(p, x, t);
    if u.stopped {
      CommitStops(a, x, t, source, ok);
      assert u.made == t.made && u.tasks == t.tasks;
      LastTwice(p.rounds, x.(made := t.made, end := Open), x.(made := t.made, end := Stopped));
    } else {
      CommitAdvances(a, x, t, u, source, ok);
      TryShape(t, source, x.plan[|t.made|], ok);
      EffectsSnoc(x.row, x.plan, t.made, LastMade(u.made));
      LastTwice(p.rounds, x.(made := t.made, end := Open), x.(made := u.made, end := Open));
      var e := Effect(x.row, x.plan[|t.made|]);
      assert p.journal + EffectsOf(x.row, x.plan, u.made) ==
             if LastMade(u.made) then a.journal + multiset{e} else a.journal;
    }
  }

  lemma CommitsNext(p: Pipeline, x: Response, t: Progress, u: Progress, source: string, ok: bool)
    requires p.rounds != [] && x.row in p.rows && source == p.rows[x.row].source
    requires |t.made| < |x.plan| && u == if t.stopped then t else Try(t, source, x.plan[|t.made|], ok)
    ensures |u.made| <= |x.plan| && Next(Attempted(p, x, t), ok) == Attempted(p, x, u)
  {
    if !t.stopped {
      AttemptedNext(p, x, t, u, source, ok);
    }
  }

  lemma {:induction false} IdleIgnores(p: Pipeline, inputs: seq<Input>)
    requires p.work.Idle? && forall k :: 0 <= k < |inputs| ==> inputs[k].Answer? || inputs[k].Commit? || inputs[k].Finish?
    ensures Run(p, inputs) == p
    decreases |inputs|
  {
    if inputs != [] {
      IdleIgnores(p, inputs[1..]);
    }
  }

  lemma CommitsSnoc(p: Pipeline, plan: seq<Part>, ok: Part -> bool, n: nat)
    requires 0 < n <= |plan|
    ensures Run(p, Commits(plan[..n], ok)) == Next(Run(p, Commits(plan[..n - 1], ok)), ok(plan[n - 1]))
  {
    var front, last := Commits(plan[..n - 1], ok), Commit(ok(plan[n - 1]));
    assert Commits(plan[..n], ok) == front + [last];
    RunAppend(p, front, [last]);
    RunOne(Run(p, front), last);
  }

  lemma TriedSoFar(s: Progress, source: string, plan: seq<Part>, ok: Part -> bool, n: nat)
    requires 0 < n <= |plan|
    ensures var t := TryAll(s, source, plan[..n - 1], ok);
      TryAll(s, source, plan[..n], ok) == if t.stopped then t else Try(t, source, plan[n - 1], ok(plan[n - 1]))
  {
    assert plan[..n][..n - 1] == plan[..n - 1];
  }

  /** The progress after each of the writes. */
  predicate Course(ts: seq<Progress>, source: string, plan: seq<Part>, ok: Part -> bool) {
    |ts| == |plan| + 1 && ts[0].made == [] && !ts[0].stopped &&
    forall k :: 0 <= k < |plan| ==> ts[k + 1] == if ts[k].stopped then ts[k] else Try(ts[k], source, plan[k], ok(plan[k]))
  }

  lemma {:induction false} CourseShape(ts: seq<Progress>, source: string, plan: seq<Part>, ok: Part -> bool, n: nat)
    requires Course(ts, source, plan, ok) && n <= |plan|
    ensures |ts[n].made| <= n && (!ts[n].stopped ==> |ts[n].made| == n)
  {
    if n > 0 {
      CourseShape(ts, source, plan, ok, n - 1);
      assert ts[n - 1 + 1] == if ts[n - 1].stopped then ts[n - 1] else Try(ts[n - 1], source, plan[n - 1], ok(plan[n - 1]));
    }
  }

  /** A chain of pipelines, each the next of the one before, is a run. */
  lemma {:induction false} ChainRuns(rs: seq<Pipeline>, plan: seq<Part>, ok: Part -> bool, n: nat)
    requires |rs| == |plan| + 1 && n <= |plan|
    requires forall k :: 0 <= k < |plan| ==> rs[k + 1] == Next(rs[k], ok(plan[k]))
    ensures Run(rs[0], Commits(plan[..n], ok)) == rs[n]
  {
    if n == 0 {
      assert Commits(plan[..0], ok) == [];
    } else {
      ChainRuns(rs, plan, ok, n - 1);
      CommitsSnoc(rs[0], plan, ok, n);
      assert rs[n - 1 + 1] == Next(rs[n - 1], ok(plan[n - 1]));
    }
  }

  /** Trying the writes step by step is trying them up to the first error. */
  lemma CommitsRun(p: Pipeline, x: Response, source: string, ok: Part -> bool, ts: seq<Progress>)
    requires p.rounds != [] && x.row in p.rows && source == p.rows[x.row].source && Course(ts, source, x.plan, ok)
    ensures var n := |x.plan|;
      |ts[n].made| <= n && (!ts[n].stopped ==> |ts[n].made| == n) &&
      Run(Attempted(p, x, ts[0]), Commits(x.plan, ok)) == Attempted(p, x, ts[n])
  {
    var n := |x.plan|;
    forall k | 0 <= k <= n
      ensures |ts[k].made| <= k && (!ts[k].stopped ==> |ts[k].made| == k)
    {
      CourseShape(ts, source, x.plan, ok, k);
    }
    var rs := seq(n + 1, k requires 0 <= k <= n => Attempted(p, x, ts[k]));
    forall k | 0 <= k < n
      ensures rs[k + 1] == Next(rs[k], ok(x.plan[k]))
    {
      CommitsNext(p, x, ts[k], ts[k + 1], source, ok(x.plan[k]));
    }
    ChainRuns(rs, x.plan, ok, n);
    assert x.plan[..n] == x.plan;
  }

  lemma CourseOf(s: Progress, source: string, plan: seq<Part>, ok: Part -> bool) returns (ts: seq<Progress>)
    requires s.made == [] && !s.stopped
    ensures Course(ts, source, plan, ok) && ts[0] == s && ts[|plan|] == TryAll(s, source, plan, ok)
  {
    ts := seq(|plan| + 1, k requires 0 <= k <= |plan| => TryAll(s, source, plan[..k], ok));
    forall k | 0 <= k < |plan|
      ensures ts[k + 1] == if ts[k].stopped then ts[k] else Try(ts[k], source, plan[k], ok(plan[k]))
    {
      TriedSoFar(s, source, plan, ok, k + 1);
    }
    assert plan[..0] == [] && plan[..|plan|] == plan;
  }

  /** A response with nothing tried yet, and all its writes with nothing in between. */
  lemma ResponseRuns(p: Pipeline, x: Response, source: string, ok: Part -> bool, t: Progress)
    requires p.rounds != [] && x == p.rounds[|p.rounds| - 1] && x.made == [] && x.end.Open?
    requires x.row in p.rows && source == p.rows[x.row].source && p.work == Applying(x.row, x.plan, [])
    requires t == TryAll(Progress(p.tasks, [], false), source, x.plan, ok)
    ensures |t.made| <= |x.plan| && (!t.stopped ==> |t.made| == |x.plan|)
    ensures Run(p, Commits(x.plan, ok)) == Attempted(p, x, t)
  {
    assert p.journal + multiset{} == p.journal;
    assert Attempted(p, x, Progress(p.tasks, [], false)) == p;
    var ts := CourseOf(Progress(p.tasks, [], false), source, x.plan, ok);
    CommitsRun(p, x, source, ok, ts);
  }

  // ----- what an undone row may still get -----

  function Answers(rounds: seq<Response>, id: nat): nat {
    if rounds == [] then 0 else Answers(rounds[..|rounds| - 1], id) + (if rounds[|rounds| - 1].row == id then 1 else 0)
  }

  lemma {:induction false} AnswersSame(a: seq<Response>, b: seq<Response>, id: nat)
    requires SameRows(a, b)
    ensures Answers(a, id) == Answers(b, id)
  {
    if a != [] {
      AnswersSame(a[..|a| - 1], b[..|b| - 1], id);
    }
  }

  lemma AnswersSnoc(rounds: seq<Response>, x: Response, id: nat)
    ensures Answers(rounds + [x], id) == Answers(rounds, id) + (if x.row == id then 1 else 0)
  {
    assert (rounds + [x])[..|rounds|] == rounds;
  }

  lemma AnswersOfOthers(p: Pipeline, i: Input, id: nat)
    requires !(p.work.Asking? && p.work.id == id)
    ensures Answers(Step(p, i).rounds, id) == Answers(p.rounds, id)
  {
    if i.Answer? {
      if p.work.Asking? {
        AnswersSnoc(p.rounds, Response(p.work.id, p.life, i.verdicts, Plan(i.verdicts, p.auto), [], Open), id);
      }
    } else {
      StepKeepsRows(p, i);
      AnswersSame(Step(p, i).rounds, p.rounds, id);
    }
  }

  lemma JournalOfOthers(p: Pipeline, i: Input, e: Effect)
    requires !(p.work.Applying? && p.work.id == e.row)
    ensures Step(p, i).journal[e] == p.journal[e]
  {
    match i
    case Arrive(_, _, _) =>
    case Wake(_) =>
    case Take(_, _) =>
    case LlmFails(_) =>
    case Answer(_) =>
    case Commit(ok) =>
      if HasNext(p) {
        assert Effect(p.work.id, NextPart(p)) != e;
      }
    case Finish(_) =>
    case Restart(_, _) =>
  }

  lemma {:induction false} DoneIsLeft(p: Pipeline, inputs: seq<Input>, id: nat, part: Part)
    requires Inv(p) && id in p.rows && p.rows[id].processed == 1
    ensures Answers(Run(p, inputs).rounds, id) == Answers(p.rounds, id)
    ensures Run(p, inputs).journal[Effect(id, part)] == p.journal[Effect(id, part)]
    decreases |inputs|
  {
    if inputs != [] {
      DoneRowsAreLost(p, id);
      AnswersOfOthers(p, inputs[0], id);
      JournalOfOthers(p, inputs[0], Effect(id, part));
      StepKeepsInv(p, inputs[0]);
      LostUntilRestart(p, id, [inputs[0]]);
      RunOne(p, inputs[0]);
      DoneIsLeft(Step(p, inputs[0]), inputs[1..], id, part);
    }
  }

  lemma {:induction false} Oldest(rows: map<nat, Row>, ids: set<nat>) returns (m: nat)
    requires ids != {} && ids <= rows.Keys
    ensures m in ids && forall k :: k in ids ==> rows[m].at <= rows[k].at
    decreases ids
  {
    var k :| k in ids;
    m := k;
    if ids != {k} {
      var rest := ids - {k};
      assert ids == {k} + rest;
      var o := Oldest(rows, rest);
      m := if rows[o].at < rows[k].at then o else k;
    }
  }

  lemma {:induction false} OldestFirst(rows: map<nat, Row>, ids: set<nat>) returns (order: seq<nat>)
    requires ids <= rows.Keys
    ensures forall k :: k in order <==> k in ids
    ensures forall j, k :: 0 <= j < k < |order| ==> order[j] != order[k] && rows[order[j]].at <= rows[order[k]].at
    decreases ids
  {
    order := [];
    if ids != {} {
      var m := Oldest(rows, ids);
      var rest := OldestFirst(rows, ids - {m});
      order := [m] + rest;
    }
  }

  function Undone(rows: map<nat, Row>): set<nat> { set k | k in rows && rows[k].processed == 0 }

  lemma PendingRows(rows: map<nat, Row>) returns (order: seq<nat>)
    ensures Pending(rows, order)
  {
    order := OldestFirst(rows, Undone(rows));
    assert forall k :: 0 <= k < |order| ==> order[k] in Undone(rows);
  }

  /** A restart and the taking of the oldest pending row. */
  lemma RestartedAndTaken(p: Pipeline, order: seq<nat>) returns (t: Pipeline)
    requires Inv(p) && p.cap >= 1 && Pending(p.rows, order) && order != []
    ensures t == Run(p, [Restart(order, true), Take(true, false)]) && Inv(t) && t.work == Asking(order[0], 1)
    ensures t.rows == p.rows && t.tasks == p.tasks && t.journal == p.journal && t.auto == p.auto && t.cap == p.cap
    ensures SameRows(t.rounds, p.rounds)
  {
    var r := RestartedOldest(p, order);
    RunTwo(p, Restart(order, true), Take(true, false));
    t := Step(r, Take(true, false));
    StepKeepsInv(r, Take(true, false));
    StepKeepsRows(r, Take(true, false));
  }

  lemma RestartedOldest(p: Pipeline, order: seq<nat>) returns (r: Pipeline)
    requires Inv(p) && p.cap >= 1 && Pending(p.rows, order) && order != []
    ensures r == Step(p, Restart(order, true)) && Inv(r) && r.work.Idle? && r.queue != [] && r.queue[0] == order[0]
    ensures order[0] in r.rows && r.rows[order[0]].attempts == 0
    ensures r.rows == p.rows && r.tasks == p.tasks && r.journal == p.journal && r.auto == p.auto && r.cap == p.cap
    ensures SameRows(r.rounds, p.rounds)
  {
    r := Step(p, Restart(order, true));
    StepKeepsInv(p, Restart(order, true));
    StepKeepsRows(p, Restart(order, true));
  }

  /** An empty response marks its row and makes no write. */
  lemma EmptyAnswer(p: Pipeline)
    requires Inv(p) && p.work.Asking?
    ensures var t := Step(Step(p, Answer([])), Finish(true));
      Inv(t) && p.work.id in p.rows && t.rows == p.rows[p.work.id := p.rows[p.work.id].(processed := 1)] && t.tasks == p.tasks &&
      t.journal == p.journal && t.auto == p.auto && t.cap == p.cap &&
      forall id :: id != p.work.id ==> Answers(t.rounds, id) == Answers(p.rounds, id)
  {
    var a := Step(p, Answer([]));
    StepKeepsInv(p, Answer([]));
    assert AllWrites([], p.auto) == [] && Plan([], p.auto) == [];
    assert Waits(p.rows, p.work.id);
    assert AtEnd(a);
    StepKeepsInv(a, Finish(true));
    StepKeepsRows(a, Finish(true));
    forall id | id != p.work.id
      ensures Answers(Step(a, Finish(true)).rounds, id) == Answers(p.rounds, id)
    {
      AnswersSame(Step(a, Finish(true)).rounds, a.rounds, id);
      AnswersSnoc(p.rounds, Response(p.work.id, p.life, [], [], [], Open), id);
    }
  }

  lemma FewerUndone(rows: map<nat, Row>, id: nat)
    requires id in rows && rows[id].processed == 0
    ensures Undone(rows[id := rows[id].(processed := 1)]) == Undone(rows) - {id} && id in Undone(rows)
  {
  }

  /** A response is being applied to the row, with none of its writes tried. */
  predicate JustAnswered(p: Pipeline, id: nat, vs: seq<Verdict>) {
    && p.rounds != [] && id in p.rows && p.work == Applying(id, Plan(vs, p.auto), [])
    && p.rounds[|p.rounds| - 1] == Response(id, p.life, vs, Plan(vs, p.auto), [], Open)
  }

  lemma AskedIsAnswered(p: Pipeline, vs: seq<Verdict>) returns (t: Pipeline)
    requires Inv(p) && p.work.Asking?
    ensures t == Step(p, Answer(vs)) && Inv(t) && JustAnswered(t, p.work.id, vs)
    ensures t.auto == p.auto && t.tasks == p.tasks && t.journal == p.journal
    ensures Answers(t.rounds, p.work.id) == Answers(p.rounds, p.work.id) + 1
  {
    t := Step(p, Answer(vs));
    StepKeepsInv(p, Answer(vs));
    AnswersSnoc(p.rounds, Response(p.work.id, p.life, vs, Plan(vs, p.auto), [], Open), p.work.id);
  }

  lemma OldestIsAnswered(p: Pipeline, order: seq<nat>, vs: seq<Verdict>)
    requires Inv(p) && p.cap >= 1 && Pending(p.rows, order) && order != []
    ensures var t := Run(p, [Restart(order, true), Take(true, false)] + [Answer(vs)]);
      Inv(t) && JustAnswered(t, order[0], vs) && t.auto == p.auto && t.tasks == p.tasks && t.journal == p.journal &&
      Answers(t.rounds, order[0]) == Answers(p.rounds, order[0]) + 1
  {
    var t := RestartedAndTaken(p, order);
    AnswersSame(t.rounds, p.rounds, order[0]);
    var u := AskedIsAnswered(t, vs);
    RunAppend(p, [Restart(order, true), Take(true, false)], [Answer(vs)]);
    RunOne(t, Answer(vs));
  }

  lemma OldestIsDone(p: Pipeline, order: seq<nat>, id: nat)
    requires Inv(p) && p.cap >= 1 && Pending(p.rows, order) && order != [] && id != order[0]
    ensures var t := Run(p, [Restart(order, true), Take(true, false)] + [Answer([]), Finish(true)]);
      Inv(t) && t.auto == p.auto && t.cap == p.cap && t.tasks == p.tasks && t.journal == p.journal && order[0] in p.rows &&
      t.rows == p.rows[order[0] := p.rows[order[0]].(processed := 1)] && Answers(t.rounds, id) == Answers(p.rounds, id)
  {
    var t := RestartedAndTaken(p, order);
    AnswersSame(t.rounds, p.rounds, id);
    EmptyAnswer(t);
    RunAppend(p, [Restart(order, true), Take(true, false)], [Answer([]), Finish(true)]);
    RunTwo(t, Answer([]), Finish(true));
  }

  /** Any row that is not done may get any response: after restarts, once the older rows are done. */
  lemma {:induction false} MayBeAnswered(p: Pipeline, id: nat, vs: seq<Verdict>) returns (inputs: seq<Input>)
    requires Inv(p) && p.cap >= 1 && id in p.rows && p.rows[id].processed == 0
    ensures var t := Run(p, inputs);
      Inv(t) && JustAnswered(t, id, vs) && t.auto == p.auto && t.tasks == p.tasks && t.journal == p.journal &&
      Answers(t.rounds, id) == Answers(p.rounds, id) + 1
    decreases Undone(p.rows)
  {
    var order := PendingRows(p.rows);
    assert order != [];
    if order[0] == id {
      OldestIsAnswered(p, order, vs);
      inputs := [Restart(order, true), Take(true, false)] + [Answer(vs)];
    } else {
      var first := [Restart(order, true), Take(true, false)] + [Answer([]), Finish(true)];
      OldestIsDone(p, order, id);
      FewerUndone(p.rows, order[0]);
      var rest := MayBeAnswered(Run(p, first), id, vs);
      RunAppend(p, first, rest);
      inputs := first + rest;
    }
  }

  /** Whatever has happened, a row may get another response if and only if it is not done: if no response
      to it ended in its mark. */
  lemma AnswerableExactly(p: Pipeline, id: nat)
    requires Inv(p) && p.cap >= 1 && id in p.rows
    ensures (exists inputs :: Answers(Run(p, inputs).rounds, id) > Answers(p.rounds, id)) <==> p.rows[id].processed == 0
    ensures p.rows[id].processed == 0 <==> forall r: nat :: !MarkedBy(p.rounds, id, r)
  {
    if p.rows[id].processed == 0 {
      var inputs := MayBeAnswered(p, id, []);
      assert Answers(Run(p, inputs).rounds, id) > Answers(p.rounds, id);
    } else {
      forall inputs
        ensures Answers(Run(p, inputs).rounds, id) == Answers(p.rounds, id)
      {
        DoneIsLeft(p, inputs, id, Part(0, Task));
      }
    }
  }

  const NOTHING := Verdict(NoAction, false, None, false, "", "", "", false)
  const EVERYTHING := Verdict(Update, false, Some(0), true, "new", "high", "comment", true)

  /** A response whose verdict n updates all there is, and whose others do nothing. */
  function OnlyVerdict(n: nat): seq<Verdict> { seq(n, k => NOTHING) + [EVERYTHING] }

  lemma {:induction false} ChainOfNothing(lists: seq<seq<Write>>)
    requires forall k :: 0 <= k < |lists| ==> lists[k] == []
    ensures Chained(lists) == []
  {
    if lists != [] {
      ChainOfNothing(lists[..|lists| - 1]);
    }
  }

  lemma OnlyLists(n: nat, auto: bool)
    ensures var lists := AllWrites(OnlyVerdict(n), auto);
      lists[n] == Writes(EVERYTHING, auto) && forall k :: 0 <= k < n ==> lists[k] == []
  {
    assert forall k :: 0 <= k < n ==> OnlyVerdict(n)[k] == NOTHING;
    assert OnlyVerdict(n)[n] == EVERYTHING;
  }

  lemma OnlyPlan(n: nat, auto: bool)
    ensures Plan(OnlyVerdict(n), auto) == Parts(n, Writes(EVERYTHING, auto))
  {
    var lists := AllWrites(OnlyVerdict(n), auto);
    OnlyLists(n, auto);
    LastOfChain(lists);
  }

  lemma LastOfChain(lists: seq<seq<Write>>)
    requires lists != [] && forall k :: 0 <= k < |lists| - 1 ==> lists[k] == []
    ensures Chained(lists) == Parts(|lists| - 1, lists[|lists| - 1])
  {
    ChainOfNothing(lists[..|lists| - 1]);
  }

  lemma EverythingWrites(auto: bool, w: Write)
    requires !w.Task? && (w.AutoDue? ==> auto)
    ensures w in Writes(EVERYTHING, auto) && Task !in Writes(EVERYTHING, auto) && Writes(EVERYTHING, auto)[0] == Status
    ensures forall k :: 0 <= k < |Writes(EVERYTHING, auto)| && Writes(EVERYTHING, auto)[k].AutoDue? ==> k > 0
  {
    var v := EVERYTHING;
    assert ColumnWrites(v) == [Status, Fields] && CommentWrites(v) == [Comment, CommentActivity];
    assert DueWrites(v, auto) == if auto then [Proposal, AutoDue] else [Proposal];
    var ws := Writes(v, auto);
    assert ws == if auto
      then [Status, Fields, Proposal, AutoDue, Comment, CommentActivity, AiComment, AiActivity, Link]
      else [Status, Fields, Proposal, Comment, CommentActivity, AiComment, AiActivity, Link];
    assert ws[0] == Status && ws[1] == Fields && ws[2] == Proposal;
    if auto {
      assert ws[3] == AutoDue && ws[4] == Comment && ws[5] == CommentActivity && ws[6] == AiComment && ws[7] == AiActivity && ws[8] == Link;
    } else {
      assert ws[3] == Comment && ws[4] == CommentActivity && ws[5] == AiComment && ws[6] == AiActivity && ws[7] == Link;
    }
  }

  const GOES_WELL := (part: Part) => true

  lemma {:induction false} AllMade(s: Progress, source: string, plan: seq<Part>)
    requires s.made == [] && !s.stopped && forall k :: 0 <= k < |plan| ==> !plan[k].write.Task? && (plan[k].write.AutoDue? ==> k > 0)
    ensures var t := TryAll(s, source, plan, GOES_WELL);
      !t.stopped && |t.made| == |plan| && forall k :: 0 <= k < |plan| ==> t.made[k]
  {
    if plan != [] {
      AllMade(s, source, plan[..|plan| - 1]);
    }
  }

  lemma {:induction false} EffectCounts(id: nat, plan: seq<Part>, made: seq<bool>, k: nat)
    requires k < |made| <= |plan| && made[k]
    ensures EffectsOf(id, plan, made)[Effect(id, plan[k])] >= 1
  {
    if k < |made| - 1 {
      EffectCounts(id, plan, made[..|made| - 1], k);
    }
  }

  lemma EverythingIsMade(id: nat, n: nat, plan: seq<Part>, ws: seq<Write>, w: Write, s: Progress, source: string)
    requires plan == Parts(n, ws) && w in ws && Task !in ws && s.made == [] && !s.stopped
    requires forall k :: 0 <= k < |ws| && ws[k].AutoDue? ==> k > 0
    ensures var t := TryAll(s, source, plan, GOES_WELL);
      |t.made| <= |plan| && EffectsOf(id, plan, t.made)[Effect(id, Part(n, w))] >= 1
  {
    AllMade(s, source, plan);
    var k :| 0 <= k < |ws| && ws[k] == w;
    assert plan[k] == Part(n, w);
    EffectCounts(id, plan, TryAll(s, source, plan, GOES_WELL).made, k);
  }

  lemma MadeInRun(p: Pipeline, x: Response, n: nat, ws: seq<Write>, w: Write)
    requires p.rounds != [] && x == p.rounds[|p.rounds| - 1] && x.made == [] && x.end.Open?
    requires x.row in p.rows && p.work == Applying(x.row, x.plan, [])
    requires x.plan == Parts(n, ws) && w in ws && Task !in ws && forall k :: 0 <= k < |ws| && ws[k].AutoDue? ==> k > 0
    ensures Run(p, Commits(x.plan, GOES_WELL)).journal[Effect(x.row, Part(n, w))] > p.journal[Effect(x.row, Part(n, w))]
  {
    var s, source := Progress(p.tasks, [], false), p.rows[x.row].source;
    ResponseRuns(p, x, source, GOES_WELL, TryAll(s, source, x.plan, GOES_WELL));
    EverythingIsMade(x.row, n, x.plan, ws, w, s, source);
  }

  /** From such a response every write but a task's is made. */
  lemma MadeOnceMore(p: Pipeline, id: nat, n: nat, w: Write)
    requires JustAnswered(p, id, OnlyVerdict(n)) && !w.Task? && (w.AutoDue? ==> p.auto)
    ensures Run(p, Commits(Plan(OnlyVerdict(n), p.auto), GOES_WELL)).journal[Effect(id, Part(n, w))] > p.journal[Effect(id, Part(n, w))]
  {
    OnlyPlan(n, p.auto);
    EverythingWrites(p.auto, w);
    MadeInRun(p, p.rounds[|p.rounds| - 1], n, Writes(EVERYTHING, p.auto), w);
  }

  /** Whatever has happened, a write of a row's verdict other than a new task's can be made once more if
      and only if the row is not done; so a write that was made before its row's mark failed to be, or
      before a crash or an error, is one that may be repeated. */
  lemma RepeatableExactly(p: Pipeline, id: nat, n: nat, w: Write)
    requires Inv(p) && p.cap >= 1 && id in p.rows && !w.Task? && (w.AutoDue? ==> p.auto)
    ensures (exists inputs :: Run(p, inputs).journal[Effect(id, Part(n, w))] > p.journal[Effect(id, Part(n, w))]) <==>
            p.rows[id].processed == 0
  {
    if p.rows[id].processed == 0 {
      var first := MayBeAnswered(p, id, OnlyVerdict(n));
      var more := Commits(Plan(OnlyVerdict(n), p.auto), GOES_WELL);
      RunAppend(p, first, more);
      MadeOnceMore(Run(p, first), id, n, w);
      assert Run(p, first + more).journal[Effect(id, Part(n, w))] > p.journal[Effect(id, Part(n, w))];
    } else {
      forall inputs
        ensures Run(p, inputs).journal[Effect(id, Part(n, w))] == p.journal[Effect(id, Part(n, w))]
      {
        DoneIsLeft(p, inputs, id, Part(n, w));
      }
    }
  }

  // ----- a response that can never be applied -----

  /** Every response creates a task at verdict n. */
  predicate AnswersCreateAt(inputs: seq<Input>, n: nat) {
    forall k :: 0 <= k < |inputs| && inputs[k].Answer? ==> n < |inputs[k].verdicts| && Creates(inputs[k].verdicts[n])
  }

  /** The work at hand still has to make the task of verdict n. */
  predicate Ahead(work: Work, n: nat)
    requires work.Applying?
  {
    exists k :: |work.made| <= k < |work.plan| && work.plan[k] == Part(n, Task)
  }

  /** The row's task n exists, the row is not done, and a response being applied to it is not past n. */
  predicate Stuck(p: Pipeline, id: nat, n: nat) {
    && id in p.rows && p.rows[id].processed == 0 && Key(p.rows[id].source, n) in p.tasks
    && (p.work.Applying? && p.work.id == id ==> Ahead(p.work, n))
  }

  lemma StuckCommit(p: Pipeline, id: nat, n: nat, ok: bool)
    requires Stuck(p, id, n) && HasNext(p)
    ensures Stuck(Committed(p, Tried(p, ok)), id, n)
  {
    var t := Tried(p, ok);
    assert forall key :: key in p.tasks ==> key in t.tasks || t.stopped;
    if p.work.id == id {
      var k :| |p.work.made| <= k < |p.work.plan| && p.work.plan[k] == Part(n, Task);
      if k == |p.work.made| {
        assert NextPart(p) == Part(n, Task) && t.stopped;
      } else if !t.stopped {
        assert |t.made| == |p.work.made| + 1;
        assert Ahead(Committed(p, t).work, n);
      }
    }
  }

  lemma StuckAnswer(p: Pipeline, id: nat, n: nat, vs: seq<Verdict>)
    requires Stuck(p, id, n) && p.work.Asking? && n < |vs| && Creates(vs[n])
    ensures Stuck(Answered(p, vs), id, n)
  {
    var plan := Plan(vs, p.auto);
    PlanMakesTask(vs, p.auto, n);
    var k :| 0 <= k < |plan| && plan[k] == Part(n, Task);
    assert Ahead(Applying(p.work.id, plan, []), n);
  }

  lemma StuckStep(p: Pipeline, id: nat, n: nat, i: Input)
    requires Inv(p) && Stuck(p, id, n)
    requires i.Answer? ==> n < |i.verdicts| && Creates(i.verdicts[n])
    ensures Stuck(Step(p, i), id, n)
  {
    match i
    case Commit(ok) => if HasNext(p) { StuckCommit(p, id, n, ok); }
    case Answer(vs) => if p.work.Asking? { StuckAnswer(p, id, n, vs); }
    case LlmFails(wrote) => if p.work.Asking? { EveryFailureIsTheFirst(p, wrote); }
    case Take(read, wrote) => TakeKeepsPlaces(p, read, wrote);
    case Arrive(_, _, _) =>
    case Wake(_) =>
    case Finish(_) =>
    case Restart(_, _) =>
  }

  /** A half-applied response poisons its row: while every response to it creates a task at a verdict
      whose task already exists, no run with any restarts ever marks the row done. */
  lemma {:induction false} StuckForEver(p: Pipeline, id: nat, n: nat, inputs: seq<Input>)
    requires Inv(p) && Stuck(p, id, n) && AnswersCreateAt(inputs, n)
    ensures Stuck(Run(p, inputs), id, n)
    decreases |inputs|
  {
    if inputs != [] {
      assert inputs[0].Answer? ==> n < |inputs[0].verdicts| && Creates(inputs[0].verdicts[n]);
      StuckStep(p, id, n, inputs[0]);
      StepKeepsInv(p, inputs[0]);
      StuckForEver(Step(p, inputs[0]), id, n, inputs[1..]);
    }
  }

  const MAKES := Verdict(New, true, None, false, "", "", "", false)
  const COMPLETES := Verdict(Completed, false, Some(0), false, "", "", "", false)

  /** A response that makes a task and then fails to complete another. */
  const HALF := [MAKES, COMPLETES]

  lemma HalfPlan(auto: bool)
    ensures Plan(HALF, auto) ==
      [Part(0, Task), Part(0, Link), Part(1, Status), Part(1, AiComment), Part(1, AiActivity), Part(1, Link)]
  {
    var lists := AllWrites(HALF, auto);
    assert Writes(MAKES, auto) == [Task, Link] && Writes(COMPLETES, auto) == [Status, AiComment, AiActivity, Link];
    assert lists == [Writes(MAKES, auto), Writes(COMPLETES, auto)];
    assert lists[..1] == [lists[0]] && lists[..1][..0] == [];
    assert Chained(lists[..1]) == Chained([]) + Parts(0, lists[0]);
    assert Parts(0, lists[0]) == [Part(0, Task), Part(0, Link)];
    assert Parts(1, lists[1]) == [Part(1, Status), Part(1, AiComment), Part(1, AiActivity), Part(1, Link)];
  }

  function HalfApplied(id: nat, source: string, at: int): seq<Input> {
    [Arrive(id, source, at), Wake(id), Take(true, true)] + ([Answer(HALF), Commit(true)] + [Commit(true), Commit(false)])
  }

  lemma ArrivedAndTaken(p: Pipeline, id: nat, source: string, at: int) returns (q: Pipeline)
    requires p.cap >= 1 && p.rows == map[] && p.queue == [] && p.waiting == map[] && p.work.Idle?
    ensures q == Run(p, [Arrive(id, source, at), Wake(id), Take(true, true)])
    ensures q == p.(rows := map[id := Row(source, at, 0, 0)], work := Asking(id, 1))
  {
    var rows := map[id := Row(source, at, 0, 0)];
    var a, r := p.(rows := rows, waiting := map[id := 0]), p.(rows := rows, queue := [id]);
    assert a == Step(p, Arrive(id, source, at));
    assert a.waiting - {id} == map[];
    assert r == Step(a, Wake(id));
    RunThree(p, Arrive(id, source, at), Wake(id), Take(true, true));
    assert Written(rows, id, 0, true) == rows;
    q := p.(rows := rows, work := Asking(id, 1));
  }

  /** The first task is made; the rest of the plan is still to do. */
  lemma AnsweredAndMade(p: Pipeline, id: nat) returns (r: Pipeline)
    requires p.work == Asking(id, 1) && id in p.rows && Key(p.rows[id].source, 0) !in p.tasks
    ensures r == Run(p, [Answer(HALF), Commit(true)]) && r.rows == p.rows && r.queue == p.queue && r.waiting == p.waiting
    ensures Key(p.rows[id].source, 0) in r.tasks && r.work == Applying(id, Plan(HALF, r.auto), [true]) && r.rounds != []
  {
    HalfPlan(p.auto);
    RunTwo(p, Answer(HALF), Commit(true));
    var q := Step(p, Answer(HALF));
    assert HasNext(q) && NextPart(q) == Part(0, Task);
    assert Tried(q, true).made == [true];
    r := Step(q, Commit(true));
  }

  lemma LinkedAndFailed(p: Pipeline, id: nat) returns (r: Pipeline)
    requires p.work == Applying(id, Plan(HALF, p.auto), [true]) && id in p.rows && p.rounds != []
    ensures r == Run(p, [Commit(true), Commit(false)]) && r.rows == p.rows && r.queue == p.queue && r.waiting == p.waiting
    ensures r.tasks == p.tasks && r.work.Idle?
  {
    HalfPlan(p.auto);
    RunTwo(p, Commit(true), Commit(false));
    assert HasNext(p) && NextPart(p) == Part(0, Link);
    var q := Step(p, Commit(true));
    assert Tried(p, true).made == [true, true];
    assert HasNext(q) && NextPart(q) == Part(1, Status);
    assert Tried(q, false).stopped;
    r := Step(q, Commit(false));
  }

  /** Such a run ends with the row stuck at its first verdict and lost until a restart. */
  lemma HalfAppliedIsStuck(cap: nat, auto: bool, id: nat, source: string, at: int)
    requires cap >= 1
    ensures var p := Run(Empty(cap, auto), HalfApplied(id, source, at));
      Inv(p) && Stuck(p, id, 0) && Lost(p, id)
  {
    var p := Empty(cap, auto);
    RunKeepsInv(p, HalfApplied(id, source, at));
    var first, second, third := [Arrive(id, source, at), Wake(id), Take(true, true)], [Answer(HALF), Commit(true)], [Commit(true), Commit(false)];
    RunAppend(p, first, second + third);
    var q := ArrivedAndTaken(p, id, source, at);
    RunAppend(q, second, third);
    var r := AnsweredAndMade(q, id);
    var t := LinkedAndFailed(r, id);
    assert t == Run(p, HalfApplied(id, source, at));
  }
}
