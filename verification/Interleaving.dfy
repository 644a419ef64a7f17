/** Bulk status changes interleaved with other calls: the statuses are read before the transaction that
    writes, so other calls can come in between. */
module Interleaving {
  import opened Wrappers
  import opened Database
  import opened Operations

  /** The database, and what every bulk call under way has read so far. */
  datatype World = World(db: Db, seen: map<nat, Changes>)

  datatype Event =
    | Call(op: Op)
    | BulkRead(caller: nat, id: int)
    | BulkWrite(caller: nat, to: string, actor: string)

  function ReadsOf(w: World, caller: nat): Changes { if caller in w.seen then w.seen[caller] else [] }

  predicate HasRead(changes: Changes, id: int) { exists k :: 0 <= k < |changes| && changes[k].0 == id }

  /** Every bulk call has read existing tasks, each once. */
  predicate ReadsOk(w: World) { forall c :: c in w.seen ==> ChangesOk(w.db, w.seen[c]) }

  /** A missing task ends a bulk call; a repeated id is read once; writing ends it too. */
  ghost function After(w: World, e: Event, addr: Resolver): World
    requires Valid(w.db) && ReadsOk(w)
  {
    match e
    case Call(op) => w.(db := Step(w.db, op, addr))
    case BulkRead(c, id) =>
      if id !in w.db.tasks then w.(seen := w.seen - {c})
      else if HasRead(ReadsOf(w, c), id) then w
      else w.(seen := w.seen[c := ReadsOf(w, c) + [(id, w.db.tasks[id].status)]])
    case BulkWrite(c, to, actor) =>
      if c !in w.seen then w else World(WriteEach(w.db, w.seen[c], to, actor, addr), w.seen - {c})
  }

  /** The event is no bulk write, or one that finds every status as it read it. */
  predicate Undisturbed(w: World, e: Event)
    requires ReadsOk(w)
  {
    e.BulkWrite? && e.caller in w.seen ==> Unmoved(w.db, w.seen[e.caller])
  }

  lemma ReadsStayOk(w: World, e: Event, addr: Resolver)
    requires Valid(w.db) && ReadsOk(w)
    ensures ReadsOk(After(w, e, addr))
  {
    var r := After(w, e, addr);
    match e
    case Call(op) =>
      StepExtends(w.db, op, addr);
      forall c | c in r.seen
        ensures ChangesOk(r.db, r.seen[c])
      {
        assert ChangesOk(w.db, w.seen[c]) && w.db.tasks.Keys <= r.db.tasks.Keys;
      }
    case BulkRead(c, id) =>
    case BulkWrite(c, to, actor) =>
      if c in w.seen {
        assert r.db.tasks.Keys == w.db.tasks.Keys;
        forall d | d in r.seen
          ensures ChangesOk(r.db, r.seen[d])
        {
          assert ChangesOk(w.db, w.seen[d]);
        }
      }
  }

  /** One event keeps the constraints and chains if and only if it is undisturbed. */
  lemma EventKeepsChainsExactly(w: World, e: Event, addr: Resolver)
    requires Valid(w.db) && ReadsOk(w)
    ensures Valid(After(w, e, addr).db) <==> Undisturbed(w, e)
  {
    match e
    case Call(op) => StepKeepsValid(w.db, op, addr);
    case BulkRead(c, id) =>
    case BulkWrite(c, to, actor) =>
      if c in w.seen { BulkWriteKeepsChainsExactly(w.db, w.seen[c], to, actor, addr); }
  }

  /** Constraints and chains hold after every event. */
  ghost predicate StaysValid(w: World, events: seq<Event>, addr: Resolver)
    requires ReadsOk(w)
    decreases |events|
  {
    Valid(w.db) &&
    (events == [] || (ReadsStayOk(w, events[0], addr); StaysValid(After(w, events[0], addr), events[1..], addr)))
  }

  /** Every bulk write, as its turn comes, finds the statuses as it read them. */
  ghost predicate NoneDisturbed(w: World, events: seq<Event>, addr: Resolver)
    requires Valid(w.db) && ReadsOk(w)
    decreases |events|
  {
    events == [] ||
    (Undisturbed(w, events[0]) &&
     (EventKeepsChainsExactly(w, events[0], addr);
      ReadsStayOk(w, events[0], addr);
      NoneDisturbed(After(w, events[0], addr), events[1..], addr)))
  }

  /** Over every interleaving of calls, bulk reads and bulk writes: the constraints and every task's
      history chain hold all along if and only if no bulk write meets a task that was moved since it
      was read. */
  lemma {:induction false} ChainsHoldExactly(w: World, events: seq<Event>, addr: Resolver)
    requires Valid(w.db) && ReadsOk(w)
    ensures StaysValid(w, events, addr) <==> NoneDisturbed(w, events, addr)
    decreases |events|
  {
    if events != [] {
      var next := After(w, events[0], addr);
      EventKeepsChainsExactly(w, events[0], addr);
      ReadsStayOk(w, events[0], addr);
      if Valid(next.db) {
        ChainsHoldExactly(next, events[1..], addr);
      }
    }
  }

  lemma FirstEvent(w: World, events: seq<Event>, next: World, addr: Resolver)
    requires ReadsOk(w) && events != [] && StaysValid(w, events, addr)
    requires next == After(w, events[0], addr)
    ensures ReadsOk(next) && StaysValid(next, events[1..], addr)
  {
    ReadsStayOk(w, events[0], addr);
  }

  lemma FirstRead(w: World, c: nat, id: int, addr: Resolver)
    requires Valid(w.db) && ReadsOk(w) && c !in w.seen && id in w.db.tasks
    ensures var w1 := After(w, BulkRead(c, id), addr);
      w1.db == w.db && ReadsOk(w1) && c in w1.seen && w1.seen[c] == [(id, w.db.tasks[id].status)]
  {
    ReadsStayOk(w, BulkRead(c, id), addr);
  }

  lemma ReadThenMove(w: World, c: nat, id: int, mid: string, one: string, addr: Resolver)
    requires Valid(w.db) && ReadsOk(w) && c !in w.seen && id in w.db.tasks
    ensures var w1 := After(w, BulkRead(c, id), addr);
      Valid(w1.db) && ReadsOk(w1) &&
      var w2 := After(w1, Call(SetTaskStatus(id, mid, one)), addr);
      Valid(w2.db) && ReadsOk(w2) && c in w2.seen && id in w2.db.tasks && w2.db.tasks[id].status == mid &&
      w2.seen[c] == [(id, w.db.tasks[id].status)]
  {
    var read, move := BulkRead(c, id), Call(SetTaskStatus(id, mid, one));
    FirstRead(w, c, id, addr);
    var w1 := After(w, read, addr);
    StepKeepsValid(w1.db, move.op, addr);
    ReadsStayOk(w1, move, addr);
    TransitionFrame(w.db, id, mid, one, addr);
  }

  lemma StaleWriteBreaks(w: World, c: nat, id: int, from: string, to: string, two: string, addr: Resolver)
    requires Valid(w.db) && ReadsOk(w) && c in w.seen && w.seen[c] == [(id, from)] && id in w.db.tasks && w.db.tasks[id].status != from
    ensures !StaysValid(w, [BulkWrite(c, to, two)], addr)
  {
    var write := BulkWrite(c, to, two);
    assert !Unmoved(w.db, w.seen[c]) by { assert w.seen[c][0] == (id, from); }
    EventKeepsChainsExactly(w, write, addr);
    if StaysValid(w, [write], addr) {
      FirstEvent(w, [write], After(w, write, addr), addr);
    }
  }

  /** The run that breaks a chain: a bulk call reads a task, somebody moves it, the bulk call writes. */
  lemma MoveInBetweenBreaksChain(w: World, c: nat, id: int, mid: string, to: string, one: string, two: string, addr: Resolver)
    requires Valid(w.db) && ReadsOk(w) && c !in w.seen && id in w.db.tasks && mid != w.db.tasks[id].status
    ensures !StaysValid(w, [BulkRead(c, id), Call(SetTaskStatus(id, mid, one)), BulkWrite(c, to, two)], addr)
  {
    var read, move, write := BulkRead(c, id), Call(SetTaskStatus(id, mid, one)), BulkWrite(c, to, two);
    var events := [read, move, write];
    assert events[1..] == [move, write] && events[1..][1..] == [write];
    ReadThenMove(w, c, id, mid, one, addr);
    var w1 := After(w, read, addr);
    var w2 := After(w1, move, addr);
    StaleWriteBreaks(w2, c, id, w.db.tasks[id].status, to, two, addr);
    if StaysValid(w, events, addr) {
      FirstEvent(w, events, w1, addr);
      FirstEvent(w1, events[1..], w2, addr);
    }
  }
}
