/** One uninterrupted round of the worker, as inputs of the pipeline. */
module AiRounds {
  import opened Wrappers
  import opened AiVerdicts
  import opened AiPipeline
  import opened AiRuns

  /** The inputs of one round: the row is taken, the LLM fails or answers, the writes are tried. */
  function Round(auto: bool, read: bool, wrote: bool, answer: Option<seq<Verdict>>, ok: Part -> bool, wroteLast: bool): seq<Input> {
    if !read then [Take(false, wrote)]
    else
      match answer
      case None => [Take(true, wrote), LlmFails(wroteLast)]
      case Some(vs) => [Take(true, wrote), Answer(vs)] + (Commits(Plan(vs, auto), ok) + [Finish(wroteLast)])
  }

  /** How a response ended that nothing came between. */
  function EndOf(t: Progress, wroteLast: bool): End { if t.stopped then Stopped else if wroteLast then Marked else Unmarked }

  /** The pipeline after a row was taken, answered and its writes tried, with nothing in between. */
  function Worked(p: Pipeline, wrote: bool, vs: seq<Verdict>, plan: seq<Part>, t: Progress, wroteLast: bool): Pipeline
    requires p.queue != [] && p.queue[0] in p.rows && |t.made| <= |plan|
  {
    var id := p.queue[0];
    Applied(p.(queue := p.queue[1..], rows := Written(p.rows, id, 0, wrote)), id, vs, plan, t, wroteLast)
  }

  function Applied(p: Pipeline, id: nat, vs: seq<Verdict>, plan: seq<Part>, t: Progress, wroteLast: bool): Pipeline
    requires id in p.rows && |t.made| <= |plan|
  {
    p.(tasks := t.tasks, work := Idle, rows := if t.stopped then p.rows else Written(p.rows, id, 1, wroteLast),
       rounds := p.rounds + [Response(id, p.life, vs, plan, t.made, EndOf(t, wroteLast))],
       journal := p.journal + EffectsOf(id, plan, t.made))
  }

  lemma TakenAndAnswered(p: Pipeline, wrote: bool, vs: seq<Verdict>, plan: seq<Part>) returns (q: Pipeline)
    requires p.work.Idle? && p.queue != [] && p.queue[0] in p.rows && plan == Plan(vs, p.auto)
    ensures q == Run(p, [Take(true, wrote), Answer(vs)])
    ensures var id := p.queue[0];
      q == p.(queue := p.queue[1..], rows := Written(p.rows, id, 0, wrote), work := Applying(id, plan, []),
              rounds := p.rounds + [Response(id, p.life, vs, plan, [], Open)])
  {
    RunTwo(p, Take(true, wrote), Answer(vs));
    q := Step(Step(p, Take(true, wrote)), Answer(vs));
  }

  /** The mark at the end of a response, or nothing if it was stopped. */
  lemma AttemptedAndFinished(p: Pipeline, x: Response, t: Progress, wroteLast: bool) returns (r: Pipeline)
    requires p.rounds != [] && x.row in p.rows && |t.made| <= |x.plan| && (!t.stopped ==> |t.made| == |x.plan|)
    ensures r == Step(Attempted(p, x, t), Finish(wroteLast))
    ensures r ==
      p.(tasks := t.tasks, journal := p.journal + EffectsOf(x.row, x.plan, t.made), work := Idle,
         rounds := WithLast(p.rounds, x.(made := t.made, end := EndOf(t, wroteLast))),
         rows := if t.stopped then p.rows else Written(p.rows, x.row, 1, wroteLast))
  {
    var a := Attempted(p, x, t);
    if !t.stopped {
      assert AtEnd(a);
      LastTwice(p.rounds, x.(made := t.made, end := Open), x.(made := t.made, end := EndOf(t, wroteLast)));
    }
    r := Step(a, Finish(wroteLast));
  }

  lemma LastOfAppend(rounds: seq<Response>, x: Response, y: Response)
    ensures WithLast(rounds + [x], y) == rounds + [y]
  {
  }

  /** The writes of an answer and the mark, with nothing in between. */
  lemma AnswerRuns(q: Pipeline, x: Response, source: string, ok: Part -> bool, t: Progress, wroteLast: bool) returns (r: Pipeline)
    requires q.rounds != [] && x == q.rounds[|q.rounds| - 1] && x.made == [] && x.end.Open?
    requires x.row in q.rows && source == q.rows[x.row].source && q.work == Applying(x.row, x.plan, [])
    requires t == TryAll(Progress(q.tasks, [], false), source, x.plan, ok)
    ensures |t.made| <= |x.plan| && r == Run(q, Commits(x.plan, ok) + [Finish(wroteLast)])
    ensures r ==
      q.(tasks := t.tasks, journal := q.journal + EffectsOf(x.row, x.plan, t.made), work := Idle,
         rounds := WithLast(q.rounds, x.(made := t.made, end := EndOf(t, wroteLast))),
         rows := if t.stopped then q.rows else Written(q.rows, x.row, 1, wroteLast))
  {
    ResponseRuns(q, x, source, ok, t);
    RunAppend(q, Commits(x.plan, ok), [Finish(wroteLast)]);
    RunOne(Attempted(q, x, t), Finish(wroteLast));
    r := AttemptedAndFinished(q, x, t, wroteLast);
  }

  /** What a round with an answer does: the row ends marked if every write that must not fail was made. */
  lemma RoundAnswered(p: Pipeline, wrote: bool, vs: seq<Verdict>, plan: seq<Part>, ok: Part -> bool, t: Progress, wroteLast: bool)
    requires p.work.Idle? && p.queue != [] && p.queue[0] in p.rows && plan == Plan(vs, p.auto)
    requires t == TryAll(Progress(p.tasks, [], false), p.rows[p.queue[0]].source, plan, ok)
    ensures |t.made| <= |plan|
    ensures Run(p, Round(p.auto, true, wrote, Some(vs), ok, wroteLast)) == Worked(p, wrote, vs, plan, t, wroteLast)
  {
    var id := p.queue[0];
    var q := TakenAndAnswered(p, wrote, vs, plan);
    var x := Response(id, p.life, vs, plan, [], Open);
    RunAppend(p, [Take(true, wrote), Answer(vs)], Commits(plan, ok) + [Finish(wroteLast)]);
    var r := AnswerRuns(q, x, p.rows[id].source, ok, t, wroteLast);
    LastOfAppend(p.rounds, x, x.(made := t.made, end := EndOf(t, wroteLast)));
  }

  lemma AllWellExactly(tasks: Tasks, source: string, vs: seq<Verdict>, auto: bool, ok: Part -> bool)
    requires forall part :: ok(part)
    ensures !TryAll(Progress(tasks, [], false), source, Plan(vs, auto), ok).stopped <==>
            forall i :: 0 <= i < |vs| && Creates(vs[i]) ==> Key(source, i) !in tasks
  {
    var plan := Plan(vs, auto);
    AppliesExactly(tasks, source, vs, auto, ok);
    forall i | 0 <= i < |vs| && Creates(vs[i])
      ensures exists k :: 0 <= k < |plan| && plan[k] == Part(i, Task)
    {
      PlanMakesTask(vs, auto, i);
    }
    forall k | 0 <= k < |plan| && plan[k].write.Task?
      ensures plan[k].verdict < |vs| && Creates(vs[plan[k].verdict])
    {
      assert plan[k] == Part(plan[k].verdict, Task);
      PlanMakesTask(vs, auto, plan[k].verdict);
    }
  }

  /** An undisturbed round whose reads and writes succeed marks its row done if and only if none of the
      tasks its response creates exists already. */
  lemma RoundMarksExactly(p: Pipeline, vs: seq<Verdict>, ok: Part -> bool)
    requires Inv(p) && p.work.Idle? && p.queue != [] && forall part :: ok(part)
    ensures p.queue[0] in p.rows && p.queue[0] in Run(p, Round(p.auto, true, true, Some(vs), ok, true)).rows
    ensures Run(p, Round(p.auto, true, true, Some(vs), ok, true)).rows[p.queue[0]].processed == 1 <==>
            forall i :: 0 <= i < |vs| && Creates(vs[i]) ==> Key(p.rows[p.queue[0]].source, i) !in p.tasks
  {
    assert Waits(p.rows, p.queue[0]);
    var source, plan := p.rows[p.queue[0]].source, Plan(vs, p.auto);
    RoundAnswered(p, true, vs, plan, ok, TryAll(Progress(p.tasks, [], false), source, plan, ok), true);
    AllWellExactly(p.tasks, source, vs, p.auto, ok);
  }

  lemma RoundFailed(p: Pipeline, wrote: bool, ok: Part -> bool, wroteLast: bool)
    requires p.work.Idle? && p.queue != [] && p.queue[0] in p.rows
    ensures var id, attempts := p.queue[0], p.rows[p.queue[0]].attempts + 1;
      var rows := Written(p.rows, id, 0, wrote);
      Run(p, Round(p.auto, true, wrote, None, ok, wroteLast)) ==
      if attempts >= 5 then p.(queue := p.queue[1..], rows := Written(rows, id, -1, wroteLast))
      else p.(queue := p.queue[1..], rows := rows, waiting := p.waiting[id := Backoff(attempts)])
  {
    var id, attempts := p.queue[0], p.rows[p.queue[0]].attempts + 1;
    var q := p.(queue := p.queue[1..], rows := Written(p.rows, id, 0, wrote), work := Asking(id, attempts));
    assert Step(p, Take(true, wrote)) == q;
    RunTwo(p, Take(true, wrote), LlmFails(wroteLast));
    assert Step(q, LlmFails(wroteLast)).work == Idle;
  }

  lemma RoundOfMissing(p: Pipeline, q: Pipeline, wrote: bool, vs: seq<Verdict>, commits: seq<Input>, wroteLast: bool)
    requires p.work.Idle? && p.queue != [] && p.queue[0] !in p.rows && q == p.(queue := p.queue[1..])
    requires forall k :: 0 <= k < |commits| ==> commits[k].Commit?
    ensures Run(p, [Take(true, wrote), Answer(vs)] + (commits + [Finish(wroteLast)])) == q
  {
    var rest := [Answer(vs)] + (commits + [Finish(wroteLast)]);
    assert [Take(true, wrote), Answer(vs)] + (commits + [Finish(wroteLast)]) == [Take(true, wrote)] + rest;
    RunAppend(p, [Take(true, wrote)], rest);
    assert Run(p, [Take(true, wrote)]) == q by { RunOne(p, Take(true, wrote)); }
    IdleIgnores(q, rest);
  }

  /** A row that cannot be read or is gone is passed over. */
  lemma RoundOfUnread(p: Pipeline, read: bool, wrote: bool, answer: Option<seq<Verdict>>, ok: Part -> bool, wroteLast: bool)
    requires p.work.Idle? && p.queue != [] && (!read || p.queue[0] !in p.rows)
    ensures Run(p, Round(p.auto, read, wrote, answer, ok, wroteLast)) == p.(queue := p.queue[1..])
  {
    if !read {
      RunOne(p, Take(false, wrote));
    } else {
      match answer
      case None => RunTwo(p, Take(true, wrote), LlmFails(wroteLast));
      case Some(vs) => RoundOfMissing(p, p.(queue := p.queue[1..]), wrote, vs, Commits(Plan(vs, p.auto), ok), wroteLast);
    }
  }
}

/** The queue object over its buffered channel, and the worker. */
module AiQueue {
  import opened Wrappers
  import opened AiVerdicts
  import opened AiPipeline
  import opened AiRuns
  import opened AiRounds

  class Queue {
    const capacity: nat
    var channel: seq<nat>

    constructor (bufferSize: int)
      ensures Valid() && channel == [] && capacity == (if bufferSize <= 0 then 100 else bufferSize)
    {
      capacity := if bufferSize <= 0 then 100 else bufferSize;
      channel := [];
    }

    ghost predicate Valid()
      reads this
    {
      |channel| <= capacity
    }

    method Enqueue(inboxItemID: nat)
      requires Valid()
      modifies this
      ensures Valid() && channel == Enqueued(old(channel), capacity, inboxItemID)
    {
      if |channel| < capacity { channel := channel + [inboxItemID]; }
    }

    /** The pending rows, oldest first, as far as there is room; none if their query fails. */
    method LoadPending(items: Option<seq<nat>>) returns (ok: bool)
      requires Valid()
      modifies this
      ensures Valid() && ok == items.Some?
      ensures channel == old(channel) + (if ok then Loaded(items.value, capacity - old(|channel|)) else [])
    {
      if items.None? { return false; }
      ghost var before := channel;
      for i := 0 to |items.value|
        invariant Valid() && channel == before + Loaded(items.value[..i], capacity - |before|)
      {
        Enqueue(items.value[i]);
        assert items.value[..i + 1] == items.value[..i] + [items.value[i]];
      }
      assert items.value[..|items.value|] == items.value;
      ok := true;
    }
  }

  class Worker {
    var cap: nat
    var auto: bool
    var rows: map<nat, Row>
    var tasks: Tasks
    var queue: seq<nat>
    var waiting: map<nat, int>
    // the record
    ghost var rounds: seq<Response>
    ghost var journal: multiset<Effect>
    ghost var life: nat

    ghost function State(): Pipeline
      reads this
    {
      Pipeline(cap, auto, rows, tasks, queue, waiting, Idle, rounds, journal, life)
    }

    method UpdateInboxItemAI(id: nat, processed: int, wrote: bool)
      requires id in rows
      modifies this`rows
      ensures rows == Written(old(rows), id, processed, wrote)
    {
      if wrote { rows := rows[id := rows[id].(processed := processed)]; }
    }

    /** The verdicts of an answer, and the row's mark if there was no error. */
    method ApplyAnswer(id: nat, vs: seq<Verdict>, ok: Part -> bool, wroteLast: bool, ghost plan: seq<Part>, ghost t: Progress)
      requires id in rows && plan == Plan(vs, auto) && t == TryAll(Progress(tasks, [], false), rows[id].source, plan, ok)
      requires |t.made| <= |plan|
      modifies this
      ensures State() == Applied(old(State()), id, vs, plan, t, wroteLast)
    {
      var done := ApplyVerdicts(tasks, rows[id].source, vs, auto, ok);
      tasks := done.tasks;
      journal := journal + EffectsOf(id, plan, t.made);
      rounds := rounds + [Response(id, life, vs, plan, t.made, EndOf(t, wroteLast))];
      if done.stopped { return; }
      UpdateInboxItemAI(id, 1, wroteLast);
    }

    /** Takes one row through the LLM, whose answer is given, as are the outcomes of the database's
        reads and writes: the same as that round of the pipeline with no other input in between. */
    method Process(read: bool, wrote: bool, answer: Option<seq<Verdict>>, ok: Part -> bool, wroteLast: bool)
      requires queue != []
      modifies this
      ensures State() == Run(old(State()), Round(old(auto), read, wrote, answer, ok, wroteLast))
    {
      ghost var p := State();
      var id := queue[0];
      queue := queue[1..];
      if !read || id !in rows {
        RoundOfUnread(p, read, wrote, answer, ok, wroteLast);
        return;
      }
      var attempts := rows[id].attempts + 1;
      UpdateInboxItemAI(id, 0, wrote);
      if answer.None? {
        RoundFailed(p, wrote, ok, wroteLast);
        if attempts >= 5 {
          UpdateInboxItemAI(id, -1, wroteLast);
        } else {
          waiting := waiting[id := Backoff(attempts)];
        }
        return;
      }
      ghost var plan := Plan(answer.value, auto);
      ghost var t := TryAll(Progress(tasks, [], false), rows[id].source, plan, ok);
      RoundAnswered(p, wrote, answer.value, plan, ok, t, wroteLast);
      ApplyAnswer(id, answer.value, ok, wroteLast, plan, t);
    }
  }
}
