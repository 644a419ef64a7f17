/** The AI pipeline: a bounded queue of inbox rows, one worker, crashes and restarts. */
module AiPipeline {
  import opened Wrappers
  import opened AiVerdicts

  // ----- the state -----

  /** An inbox row; processed is 0 while the row waits, 1 when done, -1 when given up. */
  datatype Row = Row(source: string, at: int, processed: int, attempts: nat)

  datatype Work = Idle | Asking(id: nat, attempts: nat) | Applying(id: nat, plan: seq<Part>, made: seq<bool>)

  /** How the work on a response ended: not yet, at a failing write, by a crash, with the row's mark not
      written, or with the mark. */
  datatype End = Open | Stopped | Cut | Unmarked | Marked

  /** A response to a row, in one life of the process: its writes, and which of those tried were made. */
  datatype Response = Response(row: nat, life: nat, verdicts: seq<Verdict>, plan: seq<Part>, made: seq<bool>, end: End)

  /** A write that was made for a row. */
  datatype Effect = Effect(row: nat, part: Part)

  /** `waiting` holds the rows some goroutine will enqueue, with its delay in minutes. The rows and
      tasks are in the database, queue, waiting and work in memory; `auto` is the setting that accepts
      proposed dates at once. The rest is a record: all responses so far, the one being applied the
      last; how often each write was made; and the number of restarts. */
  datatype Pipeline = Pipeline(
    cap: nat, auto: bool, rows: map<nat, Row>, tasks: Tasks,
    queue: seq<nat>, waiting: map<nat, int>, work: Work,
    rounds: seq<Response>, journal: multiset<Effect>, life: nat)

  /** `read` and `loaded` say whether the query for the row and for the pending rows succeeds, `wrote`
      and `ok` whether a write does. */
  datatype Input =
    | Arrive(id: nat, source: string, at: int)
    | Wake(id: nat)
    | Take(read: bool, wrote: bool)
    | LlmFails(wrote: bool)
    | Answer(verdicts: seq<Verdict>)
    | Commit(ok: bool)
    | Finish(wrote: bool)
    | Restart(order: seq<nat>, loaded: bool)

  const BACKOFF := [1, 5, 15, 60]

  function Backoff(attempt: nat): int
    requires attempt >= 1
  {
    if attempt - 1 < |BACKOFF| then BACKOFF[attempt - 1] else BACKOFF[|BACKOFF| - 1]
  }

  /** The minutes before the next try. */
  lemma BackoffExactly(attempt: nat)
    requires attempt >= 1
    ensures Backoff(attempt) == if attempt == 1 then 1 else if attempt == 2 then 5 else if attempt == 3 then 15 else 60
  {
  }

  /** A full queue drops the row. */
  function Enqueued(queue: seq<nat>, cap: nat, id: nat): seq<nat> { if |queue| < cap then queue + [id] else queue }

  function Written(rows: map<nat, Row>, id: nat, processed: int, wrote: bool): map<nat, Row>
    requires id in rows
  {
    if wrote then rows[id := rows[id].(processed := processed)] else rows
  }

  /** A result of SELECT ... WHERE ai_processed = 0 ORDER BY received_at. */
  predicate Pending(rows: map<nat, Row>, order: seq<nat>) {
    && (forall k :: 0 <= k < |order| ==> order[k] in rows && rows[order[k]].processed == 0)
    && (forall id :: id in rows && rows[id].processed == 0 ==> id in order)
    && (forall j, k :: 0 <= j < k < |order| ==> order[j] != order[k])
    && (forall j, k :: 0 <= j < k < |order| && order[j] in rows && order[k] in rows ==> rows[order[j]].at <= rows[order[k]].at)
  }

  function Loaded(order: seq<nat>, cap: nat): seq<nat> { if |order| <= cap then order else order[..cap] }

  /** The worker has a write of its response to try. */
  predicate HasNext(p: Pipeline) {
    p.work.Applying? && |p.work.made| < |p.work.plan| && p.work.id in p.rows && p.rounds != []
  }

  function NextPart(p: Pipeline): Part
    requires HasNext(p)
  {
    p.work.plan[|p.work.made|]
  }

  function Tried(p: Pipeline, ok: bool): Progress
    requires HasNext(p)
  {
    Try(Progress(p.tasks, p.work.made, false), p.rows[p.work.id].source, NextPart(p), ok)
  }

  function LastMade(made: seq<bool>): bool { made != [] && made[|made| - 1] }

  function WithLast(rounds: seq<Response>, x: Response): seq<Response>
    requires rounds != []
  {
    rounds[|rounds| - 1 := x]
  }

  function Closed(rounds: seq<Response>, end: End): seq<Response>
    requires rounds != []
  {
    WithLast(rounds, rounds[|rounds| - 1].(end := end))
  }

  function Committed(p: Pipeline, t: Progress): Pipeline
    requires HasNext(p)
  {
    if t.stopped then p.(work := Idle, rounds := Closed(p.rounds, Stopped))
    else
      p.(tasks := t.tasks, work := p.work.(made := t.made),
         rounds := WithLast(p.rounds, p.rounds[|p.rounds| - 1].(made := t.made)),
         journal := if LastMade(t.made) then p.journal + multiset{Effect(p.work.id, NextPart(p))} else p.journal)
  }

  /** One write of the response is tried. */
  function Next(p: Pipeline, ok: bool): Pipeline { if !HasNext(p) then p else Committed(p, Tried(p, ok)) }

  /** Every write of the response was tried. */
  predicate AtEnd(p: Pipeline) {
    p.work.Applying? && |p.work.made| >= |p.work.plan| && p.work.id in p.rows && p.rounds != []
  }

  /** Inputs that cannot occur change nothing. A restart forgets what was in memory and loads the
      pending rows before the worker starts; if their query fails it starts with an empty queue. */
  function Step(p: Pipeline, i: Input): Pipeline {
    match i
    case Arrive(id, source, at) =>
      if id in p.rows then p
      else p.(rows := p.rows[id := Row(source, at, 0, 0)], waiting := p.waiting[id := 0])
    case Wake(id) =>
      if id !in p.waiting then p else p.(waiting := p.waiting - {id}, queue := Enqueued(p.queue, p.cap, id))
    case Take(read, wrote) =>
      if !p.work.Idle? || p.queue == [] then p
      else if !read || p.queue[0] !in p.rows then p.(queue := p.queue[1..])
      else p.(queue := p.queue[1..], rows := Written(p.rows, p.queue[0], 0, wrote),
              work := Asking(p.queue[0], p.rows[p.queue[0]].attempts + 1))
    case LlmFails(wrote) =>
      if !p.work.Asking? || p.work.id !in p.rows then p
      else if p.work.attempts >= 5 then p.(rows := Written(p.rows, p.work.id, -1, wrote), work := Idle)
      else p.(waiting := p.waiting[p.work.id := if p.work.attempts >= 1 then Backoff(p.work.attempts) else 0], work := Idle)
    case Answer(vs) => if !p.work.Asking? then p else Answered(p, vs)
    case Commit(ok) => Next(p, ok)
    case Finish(wrote) => if !AtEnd(p) then p else Finished(p, wrote)
    case Restart(order, loaded) => if loaded && !Pending(p.rows, order) then p else Restarted(p, order, loaded)
  }

  function Answered(p: Pipeline, vs: seq<Verdict>): Pipeline
    requires p.work.Asking?
  {
    p.(rounds := p.rounds + [Response(p.work.id, p.life, vs, Plan(vs, p.auto), [], Open)],
       work := Applying(p.work.id, Plan(vs, p.auto), []))
  }

  function Finished(p: Pipeline, wrote: bool): Pipeline
    requires AtEnd(p)
  {
    p.(rows := Written(p.rows, p.work.id, 1, wrote), work := Idle,
       rounds := Closed(p.rounds, if wrote then Marked else Unmarked))
  }

  function Restarted(p: Pipeline, order: seq<nat>, loaded: bool): Pipeline {
    p.(queue := if loaded then Loaded(order, p.cap) else [], waiting := map[], work := Idle, life := p.life + 1,
       rounds := if p.work.Applying? && p.rounds != [] then Closed(p.rounds, Cut) else p.rounds)
  }

  function Run(p: Pipeline, inputs: seq<Input>): Pipeline
    decreases |inputs|
  {
    if inputs == [] then p else Run(Step(p, inputs[0]), inputs[1..])
  }

  // ----- the invariant: rows and their places -----

  predicate RoundsKnown(rows: map<nat, Row>, rounds: seq<Response>) { forall k :: 0 <= k < |rounds| ==> rounds[k].row in rows }

  /** ai_attempts is never written, so no row is ever given up. */
  predicate RowsOk(rows: map<nat, Row>) {
    forall id :: id in rows ==> rows[id].attempts == 0 && (rows[id].processed == 0 || rows[id].processed == 1)
  }

  predicate Busy(w: Work, id: nat) { !w.Idle? && w.id == id }

  predicate Waits(rows: map<nat, Row>, id: nat) { id in rows && rows[id].processed == 0 }

  /** A row is in at most one place of the pipeline, and only while it waits. */
  predicate TokensOk(rows: map<nat, Row>, queue: seq<nat>, waiting: map<nat, int>, work: Work) {
    && (forall j, k :: 0 <= j < k < |queue| ==> queue[j] != queue[k])
    && (forall k :: 0 <= k < |queue| ==> Waits(rows, queue[k]) && queue[k] !in waiting && !Busy(work, queue[k]))
    && (forall id :: id in waiting ==> Waits(rows, id) && !Busy(work, id) && 0 <= waiting[id] <= 1)
    && (!work.Idle? ==> Waits(rows, work.id))
    && (work.Asking? ==> work.attempts == 1)
  }

  /** The part of the invariant about rows and their places. */
  predicate PlacesOk(p: Pipeline) {
    RowsOk(p.rows) && TokensOk(p.rows, p.queue, p.waiting, p.work) && |p.queue| <= p.cap
  }

  /** The row may still get a response in this life of the process. */
  predicate Expected(p: Pipeline, id: nat) { id in p.queue || id in p.waiting || (p.work.Asking? && p.work.id == id) }

  /** A row gets at most one response in each life. */
  predicate LivesOk(p: Pipeline) {
    && RoundsKnown(p.rows, p.rounds)
    && (forall r :: 0 <= r < |p.rounds| ==> p.rounds[r].life <= p.life)
    && (forall q, r :: 0 <= q < r < |p.rounds| && p.rounds[q].row == p.rounds[r].row ==> p.rounds[q].life < p.rounds[r].life)
    && (forall r :: 0 <= r < |p.rounds| && Expected(p, p.rounds[r].row) ==> p.rounds[r].life < p.life)
  }

  // ----- the invariant: the record -----

  /** The response made this write. */
  predicate Did(x: Response, part: Part) {
    exists k :: 0 <= k < |x.made| && k < |x.plan| && x.made[k] && x.plan[k] == part
  }

  /** The response came past this write, so it was tried and was no error. */
  predicate GotPast(x: Response, part: Part) { exists k :: 0 <= k < |x.made| && k < |x.plan| && x.plan[k] == part }

  predicate ResponseOk(x: Response, auto: bool) {
    && x.plan == Plan(x.verdicts, auto) && |x.made| <= |x.plan|
    && (forall k :: 0 <= k < |x.made| && Required(x.plan[k].write) ==> x.made[k])
    && (x.end.Stopped? ==> |x.made| < |x.plan| && Required(x.plan[|x.made|].write))
    && (x.end.Marked? || x.end.Unmarked? ==> |x.made| == |x.plan|)
  }

  predicate RoundsOk(rounds: seq<Response>, auto: bool) { forall r :: 0 <= r < |rounds| ==> ResponseOk(rounds[r], auto) }

  /** The response being applied is the last one, and no other is open. */
  predicate WorkOk(work: Work, rounds: seq<Response>) {
    && (work.Applying? ==>
          var n := |rounds| - 1;
          n >= 0 && rounds[n].row == work.id && rounds[n].plan == work.plan && rounds[n].made == work.made && rounds[n].end.Open?)
    && (forall r :: 0 <= r < |rounds| && rounds[r].end.Open? ==> work.Applying? && r == |rounds| - 1)
  }

  predicate MarkedBy(rounds: seq<Response>, id: nat, r: nat) { r < |rounds| && rounds[r].row == id && rounds[r].end.Marked? }

  /** The marked rows are those with a response that ended in the mark, and it is their last. */
  ghost predicate EndsOk(rows: map<nat, Row>, rounds: seq<Response>) {
    && (forall r :: 0 <= r < |rounds| && rounds[r].end.Marked? ==> rounds[r].row in rows && rows[rounds[r].row].processed == 1)
    && (forall id :: id in rows && rows[id].processed == 1 ==> exists r: nat :: MarkedBy(rounds, id, r))
    && (forall q, r :: 0 <= q < r < |rounds| && rounds[q].row == rounds[r].row ==> !rounds[q].end.Marked?)
  }

  /** Response r made a task of its verdict i. */
  predicate CreatedAt(rounds: seq<Response>, r: nat, i: nat) { r < |rounds| && Did(rounds[r], Part(i, Task)) }

  /** Responses q and r both made the task of verdict i of one message. */
  predicate SameTask(rows: map<nat, Row>, rounds: seq<Response>, q: nat, r: nat, i: nat)
    requires RoundsKnown(rows, rounds)
  {
    CreatedAt(rounds, q, i) && CreatedAt(rounds, r, i) && rows[rounds[q].row].source == rows[rounds[r].row].source
  }

  /** The tasks the record speaks of exist. */
  ghost predicate MadeOk(rows: map<nat, Row>, tasks: Tasks, rounds: seq<Response>)
    requires RoundsKnown(rows, rounds)
  {
    forall r: nat, i: nat :: CreatedAt(rounds, r, i) ==> Made(tasks, rows[rounds[r].row].source, i)
  }

  /** No two responses made the same. */
  ghost predicate OnceOk(rows: map<nat, Row>, rounds: seq<Response>)
    requires RoundsKnown(rows, rounds)
  {
    forall q: nat, r: nat, i: nat :: SameTask(rows, rounds, q, r, i) ==> q == r
  }

  predicate Adds(x: Response, e: Effect) { x.row == e.row && Did(x, e.part) }

  /** The responses that made a write. */
  function Count(rounds: seq<Response>, e: Effect): nat {
    if rounds == [] then 0 else Count(rounds[..|rounds| - 1], e) + (if Adds(rounds[|rounds| - 1], e) then 1 else 0)
  }

  /** A write was made as often as there are responses that made it. */
  ghost predicate JournalOk(rounds: seq<Response>, journal: multiset<Effect>) {
    forall e :: journal[e] == Count(rounds, e)
  }

  ghost predicate RecordOk(p: Pipeline) {
    && RoundsKnown(p.rows, p.rounds) && RoundsOk(p.rounds, p.auto) && WorkOk(p.work, p.rounds) && EndsOk(p.rows, p.rounds)
    && TasksOk(p.tasks) && MadeOk(p.rows, p.tasks, p.rounds) && OnceOk(p.rows, p.rounds)
    && JournalOk(p.rounds, p.journal)
  }

  ghost predicate Inv(p: Pipeline) { PlacesOk(p) && LivesOk(p) && RecordOk(p) }

  // ----- every step keeps it: places -----

  lemma WakeKeepsPlaces(p: Pipeline, id: nat)
    requires PlacesOk(p)
    ensures PlacesOk(Step(p, Wake(id)))
  {
  }

  lemma TakeKeepsPlaces(p: Pipeline, read: bool, wrote: bool)
    requires PlacesOk(p)
    ensures PlacesOk(Step(p, Take(read, wrote))) && Step(p, Take(read, wrote)).rows == p.rows
  {
    if p.work.Idle? && p.queue != [] {
      var q := p.queue[1..];
      assert forall k :: 0 <= k < |q| ==> q[k] == p.queue[k + 1];
      assert Waits(p.rows, p.queue[0]);
      assert Step(p, Take(read, wrote)).rows == p.rows;
    }
  }

  lemma FailureKeepsPlaces(p: Pipeline, wrote: bool)
    requires PlacesOk(p)
    ensures PlacesOk(Step(p, LlmFails(wrote))) && Step(p, LlmFails(wrote)).rows == p.rows
  {
  }

  lemma FinishKeepsPlaces(p: Pipeline, wrote: bool)
    requires PlacesOk(p)
    ensures PlacesOk(Step(p, Finish(wrote)))
  {
  }

  lemma RestartKeepsPlaces(p: Pipeline, order: seq<nat>, loaded: bool)
    requires PlacesOk(p)
    ensures PlacesOk(Step(p, Restart(order, loaded)))
  {
  }

  lemma AnswerKeepsPlaces(p: Pipeline, i: Input)
    requires PlacesOk(p) && i.Answer?
    ensures PlacesOk(Step(p, i))
  {
  }

  lemma CommitKeepsPlaces(p: Pipeline, ok: bool)
    requires PlacesOk(p)
    ensures PlacesOk(Step(p, Commit(ok)))
  {
    if HasNext(p) {
      var t := Committed(p, Tried(p, ok));
      assert t.rows == p.rows && t.queue == p.queue && t.waiting == p.waiting && t.cap == p.cap;
    }
  }

  lemma ArriveKeepsPlaces(p: Pipeline, id: nat, source: string, at: int)
    requires PlacesOk(p)
    ensures PlacesOk(Step(p, Arrive(id, source, at)))
  {
  }

  lemma StepKeepsPlaces(p: Pipeline, i: Input)
    requires PlacesOk(p)
    ensures PlacesOk(Step(p, i))
  {
    match i
    case Arrive(id, source, at) => ArriveKeepsPlaces(p, id, source, at);
    case Wake(id) => WakeKeepsPlaces(p, id);
    case Take(read, wrote) => TakeKeepsPlaces(p, read, wrote);
    case LlmFails(wrote) => FailureKeepsPlaces(p, wrote);
    case Answer(_) => AnswerKeepsPlaces(p, i);
    case Commit(ok) => CommitKeepsPlaces(p, ok);
    case Finish(wrote) => FinishKeepsPlaces(p, wrote);
    case Restart(order, loaded) => RestartKeepsPlaces(p, order, loaded);
  }

  // ----- lives -----

  lemma AnswerKeepsLives(p: Pipeline, vs: seq<Verdict>)
    requires PlacesOk(p) && LivesOk(p)
    ensures LivesOk(Step(p, Answer(vs)))
  {
    if p.work.Asking? {
      var t := Step(p, Answer(vs));
      assert !Expected(t, p.work.id);
      assert forall r :: 0 <= r < |p.rounds| ==> t.rounds[r] == p.rounds[r];
      assert forall r :: 0 <= r < |p.rounds| && Expected(t, p.rounds[r].row) ==> Expected(p, p.rounds[r].row);
    }
  }

  /** The responses are to the same rows in the same lives. */
  predicate SameRows(a: seq<Response>, b: seq<Response>) {
    |a| == |b| && forall r :: 0 <= r < |a| ==> a[r].row == b[r].row && a[r].life == b[r].life
  }

  /** Nothing but an answer adds a response, and none but a restart makes a known row expected again. */
  lemma OthersExpectNoMore(p: Pipeline, i: Input, id: nat)
    requires PlacesOk(p) && !i.Answer? && !i.Restart? && id in p.rows
    ensures Step(p, i).life == p.life && id in Step(p, i).rows
    ensures Expected(Step(p, i), id) ==> Expected(p, id)
  {
    match i
    case Arrive(_, _, _) =>
    case Wake(_) =>
    case Take(_, _) =>
    case LlmFails(_) =>
    case Commit(_) =>
    case Finish(_) =>
  }

  lemma StepKeepsRows(p: Pipeline, i: Input)
    requires !i.Answer?
    ensures SameRows(Step(p, i).rounds, p.rounds)
  {
    match i
    case Arrive(_, _, _) =>
    case Wake(_) =>
    case Take(_, _) =>
    case LlmFails(_) =>
    case Commit(_) =>
    case Finish(_) =>
    case Restart(_, _) =>
  }

  lemma OthersKeepLives(p: Pipeline, i: Input)
    requires PlacesOk(p) && LivesOk(p) && !i.Answer? && !i.Restart?
    ensures LivesOk(Step(p, i))
  {
    var t := Step(p, i);
    StepKeepsRows(p, i);
    forall r | 0 <= r < |p.rounds|
      ensures t.life == p.life && p.rounds[r].row in t.rows && (Expected(t, p.rounds[r].row) ==> p.rounds[r].life < p.life)
    {
      OthersExpectNoMore(p, i, p.rounds[r].row);
    }
    SameRowsKeepLives(p, t);
  }

  lemma SameRowsKeepLives(p: Pipeline, t: Pipeline)
    requires LivesOk(p) && SameRows(t.rounds, p.rounds)
    requires forall r :: 0 <= r < |p.rounds| ==>
      p.rounds[r].row in t.rows && p.rounds[r].life <= t.life && (Expected(t, p.rounds[r].row) ==> p.rounds[r].life < t.life)
    ensures LivesOk(t)
  {
  }

  lemma StepKeepsLives(p: Pipeline, i: Input)
    requires PlacesOk(p) && LivesOk(p)
    ensures LivesOk(Step(p, i))
  {
    match i
    case Answer(vs) => AnswerKeepsLives(p, vs);
    case Restart(order, loaded) =>
      StepKeepsRows(p, i);
      var t := Step(p, i);
      if t != p {
        SameRowsKeepLives(p, t);
      }
    case _ => OthersKeepLives(p, i);
  }

  // ----- the record: what does not change it -----

  lemma {:induction false} CountSame(a: seq<Response>, b: seq<Response>, e: Effect)
    requires |a| == |b| && forall r :: 0 <= r < |a| ==> a[r].row == b[r].row && a[r].plan == b[r].plan && a[r].made == b[r].made
    ensures Count(a, e) == Count(b, e)
  {
    if a != [] {
      var n := |a| - 1;
      assert a[n].row == b[n].row;
      CountSame(a[..n], b[..n], e);
    }
  }

  /** What was made does not depend on how the responses ended. */
  lemma DeedsSame(rows: map<nat, Row>, tasks: Tasks, a: seq<Response>, b: seq<Response>, journal: multiset<Effect>)
    requires |a| == |b| && forall r :: 0 <= r < |a| ==> a[r].row == b[r].row && a[r].plan == b[r].plan && a[r].made == b[r].made
    requires RoundsKnown(rows, a) && MadeOk(rows, tasks, a) && OnceOk(rows, a) && JournalOk(a, journal)
    ensures RoundsKnown(rows, b) && MadeOk(rows, tasks, b) && OnceOk(rows, b) && JournalOk(b, journal)
  {
    assert forall r: nat, i: nat :: CreatedAt(b, r, i) ==> CreatedAt(a, r, i);
    forall q: nat, r: nat, i: nat | SameTask(rows, b, q, r, i)
      ensures q == r
    {
      assert SameTask(rows, a, q, r, i);
    }
    forall e
      ensures journal[e] == Count(b, e)
    {
      CountSame(a, b, e);
    }
  }

  /** Nor on anything of a row but its message. */
  lemma SameSources(rows: map<nat, Row>, rows2: map<nat, Row>, tasks: Tasks, rounds: seq<Response>)
    requires RoundsKnown(rows, rounds) && RoundsKnown(rows2, rounds)
    requires forall k :: 0 <= k < |rounds| ==> rows2[rounds[k].row].source == rows[rounds[k].row].source
    requires MadeOk(rows, tasks, rounds) && OnceOk(rows, rounds)
    ensures MadeOk(rows2, tasks, rounds) && OnceOk(rows2, rounds)
  {
    forall q: nat, r: nat, i: nat | SameTask(rows2, rounds, q, r, i)
      ensures q == r
    {
      assert SameTask(rows, rounds, q, r, i);
    }
  }

  /** Rows that arrive, and work that is no applying, leave the record as it is. */
  lemma GrowthKeepsRecord(p: Pipeline, t: Pipeline)
    requires RecordOk(p) && t.auto == p.auto && t.tasks == p.tasks && t.rounds == p.rounds && t.journal == p.journal
    requires t.work == p.work || (!t.work.Applying? && !p.work.Applying?)
    requires forall id :: id in p.rows ==> id in t.rows && t.rows[id] == p.rows[id]
    requires forall id :: id in t.rows && id !in p.rows ==> t.rows[id].processed == 0
    ensures RecordOk(t)
  {
    assert RoundsKnown(t.rows, t.rounds);
    SameSources(p.rows, t.rows, p.tasks, p.rounds);
    assert EndsOk(t.rows, t.rounds);
  }

  lemma IntakeKeepsRecord(p: Pipeline, i: Input)
    requires PlacesOk(p) && RecordOk(p) && (i.Arrive? || i.Wake? || i.Take? || i.LlmFails?)
    ensures RecordOk(Step(p, i))
  {
    IntakeGrows(p, i);
    GrowthKeepsRecord(p, Step(p, i));
  }

  lemma IntakeGrows(p: Pipeline, i: Input)
    requires PlacesOk(p) && (i.Arrive? || i.Wake? || i.Take? || i.LlmFails?)
    ensures var t := Step(p, i);
      t.auto == p.auto && t.tasks == p.tasks && t.rounds == p.rounds && t.journal == p.journal &&
      (t.work == p.work || (!t.work.Applying? && !p.work.Applying?)) &&
      (forall id :: id in p.rows ==> id in t.rows && t.rows[id] == p.rows[id]) &&
      (forall id :: id in t.rows && id !in p.rows ==> t.rows[id].processed == 0)
  {
    match i
    case Arrive(_, _, _) =>
    case Wake(_) =>
    case Take(read, wrote) => TakeKeepsPlaces(p, read, wrote);
    case LlmFails(wrote) => FailureKeepsPlaces(p, wrote);
  }

  // ----- the record: a new response -----

  lemma NewDeeds(rows: map<nat, Row>, tasks: Tasks, rounds: seq<Response>, journal: multiset<Effect>, x: Response)
    requires RoundsKnown(rows, rounds) && x.row in rows && x.made == []
    requires MadeOk(rows, tasks, rounds) && OnceOk(rows, rounds) && JournalOk(rounds, journal)
    ensures RoundsKnown(rows, rounds + [x])
    ensures MadeOk(rows, tasks, rounds + [x]) && OnceOk(rows, rounds + [x]) && JournalOk(rounds + [x], journal)
  {
    var more := rounds + [x];
    assert forall r: nat, i: nat :: CreatedAt(more, r, i) ==> CreatedAt(rounds, r, i);
    forall q: nat, r: nat, i: nat | SameTask(rows, more, q, r, i)
      ensures q == r
    {
      assert SameTask(rows, rounds, q, r, i);
    }
    forall e
      ensures journal[e] == Count(more, e)
    {
      assert more[..|rounds|] == rounds;
    }
  }

  lemma NewEnds(rows: map<nat, Row>, rounds: seq<Response>, x: Response)
    requires EndsOk(rows, rounds) && x.row in rows && rows[x.row].processed == 0 && x.end.Open?
    ensures EndsOk(rows, rounds + [x])
  {
    var more := rounds + [x];
    forall id | id in rows && rows[id].processed == 1
      ensures exists r: nat :: MarkedBy(more, id, r)
    {
      var r: nat :| MarkedBy(rounds, id, r);
      assert MarkedBy(more, id, r);
    }
  }

  lemma AnswerKeepsRecord(p: Pipeline, vs: seq<Verdict>)
    requires PlacesOk(p) && RecordOk(p) && p.work.Asking?
    ensures RecordOk(Answered(p, vs))
  {
    var x := Response(p.work.id, p.life, vs, Plan(vs, p.auto), [], Open);
    assert Waits(p.rows, p.work.id);
    NewDeeds(p.rows, p.tasks, p.rounds, p.journal, x);
    NewEnds(p.rows, p.rounds, x);
    assert RoundsOk(p.rounds + [x], p.auto);
    assert WorkOk(Applying(p.work.id, x.plan, []), p.rounds + [x]);
  }

  // ----- the record: the end of the last response -----

  lemma ClosedRounds(rounds: seq<Response>, auto: bool, end: End)
    requires RoundsOk(rounds, auto) && rounds != [] && !end.Open?
    requires ResponseOk(rounds[|rounds| - 1].(end := end), auto)
    requires forall r :: 0 <= r < |rounds| && rounds[r].end.Open? ==> r == |rounds| - 1
    ensures RoundsOk(Closed(rounds, end), auto) && WorkOk(Idle, Closed(rounds, end))
  {
  }

  lemma ClosedEnds(rows: map<nat, Row>, rounds: seq<Response>, end: End)
    requires EndsOk(rows, rounds) && rounds != [] && rounds[|rounds| - 1].end.Open? && !end.Marked?
    ensures EndsOk(rows, Closed(rounds, end))
  {
    var more := Closed(rounds, end);
    forall id | id in rows && rows[id].processed == 1
      ensures exists r: nat :: MarkedBy(more, id, r)
    {
      var r: nat :| MarkedBy(rounds, id, r);
      assert MarkedBy(more, id, r);
    }
  }

  lemma ClosingKeepsRecord(p: Pipeline, end: End)
    requires RecordOk(p) && p.work.Applying? && p.rounds != [] && !end.Open? && !end.Marked?
    requires ResponseOk(p.rounds[|p.rounds| - 1].(end := end), p.auto)
    ensures RecordOk(p.(work := Idle, rounds := Closed(p.rounds, end)))
  {
    ClosedRounds(p.rounds, p.auto, end);
    ClosedEnds(p.rows, p.rounds, end);
    DeedsSame(p.rows, p.tasks, p.rounds, Closed(p.rounds, end), p.journal);
  }

  lemma MarkedEnds(rows: map<nat, Row>, rounds: seq<Response>, id: nat)
    requires EndsOk(rows, rounds) && rounds != [] && rounds[|rounds| - 1].row == id && id in rows
    requires rounds[|rounds| - 1].end.Open?
    ensures EndsOk(Written(rows, id, 1, true), Closed(rounds, Marked))
  {
    var more, marked := Closed(rounds, Marked), Written(rows, id, 1, true);
    forall k | k in marked && marked[k].processed == 1
      ensures exists r: nat :: MarkedBy(more, k, r)
    {
      if k == id {
        assert MarkedBy(more, k, |rounds| - 1);
      } else {
        var r: nat :| MarkedBy(rounds, k, r);
        assert MarkedBy(more, k, r);
      }
    }
  }

  lemma MarkKeepsRecord(p: Pipeline)
    requires RecordOk(p) && AtEnd(p)
    ensures RecordOk(Finished(p, true))
  {
    assert ResponseOk(p.rounds[|p.rounds| - 1], p.auto);
    var rows, rounds := Written(p.rows, p.work.id, 1, true), Closed(p.rounds, Marked);
    assert RoundsOk(rounds, p.auto) && WorkOk(Idle, rounds) by { ClosedRounds(p.rounds, p.auto, Marked); }
    assert EndsOk(rows, rounds) by { MarkedEnds(p.rows, p.rounds, p.work.id); }
    DeedsSame(p.rows, p.tasks, p.rounds, rounds, p.journal);
    SameSources(p.rows, rows, p.tasks, rounds);
  }

  lemma FinishKeepsRecord(p: Pipeline, wrote: bool)
    requires RecordOk(p) && AtEnd(p)
    ensures RecordOk(Finished(p, wrote))
  {
    if wrote {
      MarkKeepsRecord(p);
    } else {
      assert ResponseOk(p.rounds[|p.rounds| - 1], p.auto);
      ClosingKeepsRecord(p, Unmarked);
    }
  }

  lemma RestartKeepsRecord(p: Pipeline, order: seq<nat>, loaded: bool)
    requires RecordOk(p)
    ensures RecordOk(Restarted(p, order, loaded))
  {
    var t := Restarted(p, order, loaded);
    if p.work.Applying? {
      assert ResponseOk(p.rounds[|p.rounds| - 1], p.auto);
      ClosingKeepsRecord(p, Cut);
      GrowthKeepsRecord(p.(work := Idle, rounds := Closed(p.rounds, Cut)), t);
    } else {
      GrowthKeepsRecord(p, t);
    }
  }

  // ----- the record: one more write -----

  /** One more write tried: what the response made then. */
  lemma DidExtend(x: Response, b: bool, part: Part)
    requires |x.made| < |x.plan| && Distinct(x.plan)
    ensures Did(x.(made := x.made + [b]), part) <==> Did(x, part) || (b && x.plan[|x.made|] == part)
    ensures !Did(x, x.plan[|x.made|])
  {
    var y := x.(made := x.made + [b]);
    assert forall k :: 0 <= k < |x.made| ==> y.made[k] == x.made[k];
    if Did(x, part) {
      var k :| 0 <= k < |x.made| && k < |x.plan| && x.made[k] && x.plan[k] == part;
      assert y.made[k];
    }
    if b && x.plan[|x.made|] == part {
      assert y.made[|x.made|];
    }
  }

  lemma CountLast(rounds: seq<Response>, y: Response, e: Effect)
    requires rounds != []
    ensures Count(WithLast(rounds, y), e) == Count(rounds, e) - (if Adds(rounds[|rounds| - 1], e) then 1 else 0) + (if Adds(y, e) then 1 else 0)
  {
    assert WithLast(rounds, y)[..|rounds| - 1] == rounds[..|rounds| - 1];
  }

  lemma JournalGrows(rounds: seq<Response>, journal: multiset<Effect>, b: bool)
    requires JournalOk(rounds, journal) && rounds != []
    requires var x := rounds[|rounds| - 1]; |x.made| < |x.plan| && Distinct(x.plan)
    ensures var x := rounds[|rounds| - 1];
      JournalOk(WithLast(rounds, x.(made := x.made + [b])),
                if b then journal + multiset{Effect(x.row, x.plan[|x.made|])} else journal)
  {
    var x := rounds[|rounds| - 1];
    var y, e0 := x.(made := x.made + [b]), Effect(x.row, x.plan[|x.made|]);
    forall e
      ensures (if b then journal + multiset{e0} else journal)[e] == Count(WithLast(rounds, y), e)
    {
      DidExtend(x, b, e.part);
      CountLast(rounds, y, e);
      assert journal[e] == Count(rounds, e);
      assert e == e0 <==> e.row == x.row && e.part == e0.part;
    }
  }

  lemma CreatedExtend(rounds: seq<Response>, b: bool, r: nat, i: nat)
    requires rounds != []
    requires var x := rounds[|rounds| - 1]; |x.made| < |x.plan| && Distinct(x.plan)
    ensures var x := rounds[|rounds| - 1];
      CreatedAt(WithLast(rounds, x.(made := x.made + [b])), r, i) <==>
      CreatedAt(rounds, r, i) || (r == |rounds| - 1 && b && x.plan[|x.made|] == Part(i, Task))
  {
    DidExtend(rounds[|rounds| - 1], b, Part(i, Task));
  }

  lemma TryKeepsMade(rows: map<nat, Row>, rounds: seq<Response>, s: Progress, ok: bool)
    requires rounds != [] && RoundsKnown(rows, rounds) && MadeOk(rows, s.tasks, rounds) && TasksOk(s.tasks) && !s.stopped
    requires var x := rounds[|rounds| - 1]; x.made == s.made && |x.made| < |x.plan| && Distinct(x.plan)
    ensures var x := rounds[|rounds| - 1];
      var t := Try(s, rows[x.row].source, x.plan[|x.made|], ok);
      TasksOk(t.tasks) && (!t.stopped ==> MadeOk(rows, t.tasks, WithLast(rounds, x.(made := t.made))))
  {
    var x := rounds[|rounds| - 1];
    var t := Try(s, rows[x.row].source, x.plan[|x.made|], ok);
    if !t.stopped {
      var b := Makes(s, rows[x.row].source, x.plan[|x.made|], ok);
      var more := WithLast(rounds, x.(made := x.made + [b]));
      forall r: nat, i: nat | CreatedAt(more, r, i)
        ensures Made(t.tasks, rows[more[r].row].source, i)
      {
        CreatedExtend(rounds, b, r, i);
        if CreatedAt(rounds, r, i) {
          assert Made(s.tasks, rows[rounds[r].row].source, i);
        }
      }
    }
  }

  lemma TryKeepsOnce(rows: map<nat, Row>, rounds: seq<Response>, s: Progress, ok: bool)
    requires rounds != [] && RoundsKnown(rows, rounds) && MadeOk(rows, s.tasks, rounds) && OnceOk(rows, rounds) && !s.stopped
    requires var x := rounds[|rounds| - 1]; x.made == s.made && |x.made| < |x.plan| && Distinct(x.plan)
    ensures var x := rounds[|rounds| - 1];
      var t := Try(s, rows[x.row].source, x.plan[|x.made|], ok);
      !t.stopped ==> OnceOk(rows, WithLast(rounds, x.(made := t.made)))
  {
    var x, last := rounds[|rounds| - 1], |rounds| - 1;
    var t := Try(s, rows[x.row].source, x.plan[|x.made|], ok);
    if !t.stopped {
      var b := Makes(s, rows[x.row].source, x.plan[|x.made|], ok);
      var more := WithLast(rounds, x.(made := x.made + [b]));
      forall q: nat, r: nat, i: nat | SameTask(rows, more, q, r, i)
        ensures q == r
      {
        CreatedExtend(rounds, b, q, i);
        CreatedExtend(rounds, b, r, i);
        assert CreatedAt(rounds, q, i) ==> Made(s.tasks, rows[rounds[q].row].source, i);
        assert CreatedAt(rounds, r, i) ==> Made(s.tasks, rows[rounds[r].row].source, i);
        assert CreatedAt(rounds, q, i) && CreatedAt(rounds, r, i) ==> SameTask(rows, rounds, q, r, i);
      }
    }
  }

  lemma ExtendedEnds(rows: map<nat, Row>, rounds: seq<Response>, made: seq<bool>)
    requires EndsOk(rows, rounds) && rounds != []
    ensures EndsOk(rows, WithLast(rounds, rounds[|rounds| - 1].(made := made)))
  {
    var more := WithLast(rounds, rounds[|rounds| - 1].(made := made));
    forall id | id in rows && rows[id].processed == 1
      ensures exists r: nat :: MarkedBy(more, id, r)
    {
      var r: nat :| MarkedBy(rounds, id, r);
      assert MarkedBy(more, id, r);
    }
  }

  lemma ExtendedRounds(rounds: seq<Response>, auto: bool, id: nat, b: bool)
    requires RoundsOk(rounds, auto) && rounds != []
    requires var x := rounds[|rounds| - 1]; |x.made| < |x.plan| && (Required(x.plan[|x.made|].write) ==> b)
    requires WorkOk(Applying(id, rounds[|rounds| - 1].plan, rounds[|rounds| - 1].made), rounds)
    ensures var x := rounds[|rounds| - 1];
      var more := WithLast(rounds, x.(made := x.made + [b]));
      RoundsOk(more, auto) && WorkOk(Applying(id, x.plan, x.made + [b]), more)
  {
    var x := rounds[|rounds| - 1];
    assert ResponseOk(x, auto);
    assert ResponseOk(x.(made := x.made + [b]), auto);
  }

  /** The work at hand is the last response of the record. */
  lemma NextIsLast(p: Pipeline)
    requires RoundsOk(p.rounds, p.auto) && WorkOk(p.work, p.rounds) && HasNext(p)
    ensures var x := p.rounds[|p.rounds| - 1];
      x.row == p.work.id && x.plan == p.work.plan && x.made == p.work.made && x.end.Open? && ResponseOk(x, p.auto)
      && Distinct(x.plan)
  {
    var x := p.rounds[|p.rounds| - 1];
    assert ResponseOk(x, p.auto);
    PlanIsDistinct(x.verdicts, p.auto);
  }

  lemma TryShape(s: Progress, source: string, part: Part, ok: bool)
    requires !s.stopped && !Try(s, source, part, ok).stopped
    ensures var b, t := Makes(s, source, part, ok), Try(s, source, part, ok);
      t.made == s.made + [b] && LastMade(t.made) == b && (Required(part.write) ==> b)
  {
  }

  /** The record after one more write of the last response was tried and was no error. */
  lemma AdvancedRecord(rows: map<nat, Row>, auto: bool, rounds: seq<Response>, s: Progress, journal: multiset<Effect>, ok: bool)
    requires rounds != [] && RoundsKnown(rows, rounds) && RoundsOk(rounds, auto) && EndsOk(rows, rounds)
    requires !s.stopped && TasksOk(s.tasks) && MadeOk(rows, s.tasks, rounds) && OnceOk(rows, rounds) && JournalOk(rounds, journal)
    requires var x := rounds[|rounds| - 1];
      x.made == s.made && |x.made| < |x.plan| && Distinct(x.plan) && WorkOk(Applying(x.row, x.plan, x.made), rounds) &&
      !Try(s, rows[x.row].source, x.plan[|x.made|], ok).stopped
    ensures var x := rounds[|rounds| - 1];
      var t := Try(s, rows[x.row].source, x.plan[|x.made|], ok);
      var more := WithLast(rounds, x.(made := t.made));
      RoundsKnown(rows, more) && RoundsOk(more, auto) && WorkOk(Applying(x.row, x.plan, t.made), more) && EndsOk(rows, more)
      && TasksOk(t.tasks) && MadeOk(rows, t.tasks, more) && OnceOk(rows, more)
      && JournalOk(more, if LastMade(t.made) then journal + multiset{Effect(x.row, x.plan[|x.made|])} else journal)
  {
    var x := rounds[|rounds| - 1];
    var source, part := rows[x.row].source, x.plan[|x.made|];
    var b, t := Makes(s, source, part, ok), Try(s, source, part, ok);
    TryShape(s, source, part, ok);
    var more := WithLast(rounds, x.(made := t.made));
    assert RoundsKnown(rows, more);
    assert TasksOk(t.tasks) && MadeOk(rows, t.tasks, more) by { TryKeepsMade(rows, rounds, s, ok); }
    assert OnceOk(rows, more) by { TryKeepsOnce(rows, rounds, s, ok); }
    assert EndsOk(rows, more) by { ExtendedEnds(rows, rounds, t.made); }
    assert RoundsOk(more, auto) && WorkOk(Applying(x.row, x.plan, t.made), more) by { ExtendedRounds(rounds, auto, x.row, b); }
    JournalGrows(rounds, journal, b);
  }

  lemma CommittedIs(p: Pipeline, t: Progress, x: Response)
    requires HasNext(p) && !t.stopped && x == p.rounds[|p.rounds| - 1]
    requires x.row == p.work.id && x.plan == p.work.plan && x.made == p.work.made
    ensures Committed(p, t) ==
      p.(tasks := t.tasks, work := Applying(x.row, x.plan, t.made), rounds := WithLast(p.rounds, x.(made := t.made)),
         journal := if LastMade(t.made) then p.journal + multiset{Effect(x.row, x.plan[|x.made|])} else p.journal)
  {
  }

  lemma AdvanceIsRecorded(p: Pipeline, u: Pipeline, s: Progress, t: Progress, x: Response, ok: bool)
    requires RecordOk(p) && p.rounds != [] && x == p.rounds[|p.rounds| - 1]
    requires |x.made| < |x.plan| && Distinct(x.plan) && p.work == Applying(x.row, x.plan, x.made)
    requires s == Progress(p.tasks, x.made, false) && t == Try(s, p.rows[x.row].source, x.plan[|x.made|], ok) && !t.stopped
    requires u == p.(tasks := t.tasks, work := Applying(x.row, x.plan, t.made), rounds := WithLast(p.rounds, x.(made := t.made)),
                     journal := if LastMade(t.made) then p.journal + multiset{Effect(x.row, x.plan[|x.made|])} else p.journal)
    ensures RecordOk(u)
  {
    AdvancedRecord(p.rows, p.auto, p.rounds, s, p.journal, ok);
  }

  lemma AdvanceKeepsRecord(p: Pipeline, ok: bool)
    requires RecordOk(p) && HasNext(p) && !Tried(p, ok).stopped
    ensures RecordOk(Committed(p, Tried(p, ok)))
  {
    NextIsLast(p);
    var x, u := p.rounds[|p.rounds| - 1], Committed(p, Tried(p, ok));
    CommittedIs(p, Tried(p, ok), x);
    AdvanceIsRecorded(p, u, Progress(p.tasks, x.made, false), Tried(p, ok), x, ok);
  }

  lemma CommitKeepsRecord(p: Pipeline, ok: bool)
    requires RecordOk(p) && HasNext(p)
    ensures RecordOk(Committed(p, Tried(p, ok)))
  {
    if Tried(p, ok).stopped {
      NextIsLast(p);
      ClosingKeepsRecord(p, Stopped);
    } else {
      AdvanceKeepsRecord(p, ok);
    }
  }

  lemma StepKeepsRecord(p: Pipeline, i: Input)
    requires PlacesOk(p) && RecordOk(p)
    ensures RecordOk(Step(p, i))
  {
    match i
    case Answer(vs) => if p.work.Asking? { AnswerKeepsRecord(p, vs); }
    case Commit(ok) => if HasNext(p) { CommitKeepsRecord(p, ok); }
    case Finish(wrote) => if AtEnd(p) { FinishKeepsRecord(p, wrote); }
    case Restart(order, loaded) => RestartKeepsRecord(p, order, loaded);
    case Arrive(_, _, _) => IntakeKeepsRecord(p, i);
    case Wake(_) => IntakeKeepsRecord(p, i);
    case Take(_, _) => IntakeKeepsRecord(p, i);
    case LlmFails(_) => IntakeKeepsRecord(p, i);
  }

  lemma StepKeepsInv(p: Pipeline, i: Input)
    requires Inv(p)
    ensures Inv(Step(p, i))
  {
    StepKeepsPlaces(p, i);
    StepKeepsLives(p, i);
    StepKeepsRecord(p, i);
  }

  lemma {:induction false} RunKeepsInv(p: Pipeline, inputs: seq<Input>)
    requires Inv(p)
    ensures Inv(Run(p, inputs))
    decreases |inputs|
  {
    if inputs != [] {
      var next := Step(p, inputs[0]);
      StepKeepsInv(p, inputs[0]);
      RunKeepsInv(next, inputs[1..]);
    }
  }
}
