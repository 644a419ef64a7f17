/** The store's smaller operations, and what every operation keeps over whole runs. */
module Operations {
  import opened Wrappers
  import opened Text
  import opened FromHeader
  import opened Database
  import opened Persons

  function EmptyDb(): Db { Db(map[], map[], [], [], map[], map[], {}, 0) }

  // ----- roles -----

  /** A role argument: absent, an empty id, or a person. */
  datatype RoleChange = Keep | Clear | SetTo(person: nat)

  function Changed(r: Option<nat>, c: RoleChange): Option<nat> {
    match c case Keep => r case Clear => None case SetTo(p) => Some(p)
  }

  /** An UPDATE naming a missing person fails only if it reaches a row. */
  predicate RoleFails(db: Db, id: int, c: RoleChange) { c.SetTo? && id in db.tasks && c.person !in db.persons }

  function WithRoles(db: Db, id: int, requestor: RoleChange, assignee: RoleChange): Db {
    if id !in db.tasks then db
    else
      var t := db.tasks[id];
      db.(tasks := db.tasks[id := t.(requestor := Changed(t.requestor, requestor), assignee := Changed(t.assignee, assignee))])
  }

  /** Whether the read of the task and the two UPDATEs, each its own transaction, get through. */
  datatype RolesOutcome = RolesOutcome(read: bool, first: bool, second: bool)

  /** An UPDATE is made only if its argument is given. */
  predicate UpdateFails(db: Db, id: int, c: RoleChange, ok: bool) { !c.Keep? && (!ok || RoleFails(db, id, c)) }

  function UpdateError(ok: bool): StoreError { if ok then ForeignKeyFailed else StatementFailed }

  /** SetTaskPersonRoles. */
  function SetRoles(db: Db, id: int, requestor: RoleChange, assignee: RoleChange, o: RolesOutcome): (Db, Result<(), StoreError>) {
    if !o.read then (db, Err(StatementFailed))
    else if UpdateFails(db, id, requestor, o.first) then (db, Err(UpdateError(o.first)))
    else if UpdateFails(db, id, assignee, o.second) then (WithRoles(db, id, requestor, Keep), Err(UpdateError(o.second)))
    else (WithRoles(db, id, requestor, assignee), Ok(()))
  }

  lemma RolesOneByOne(db: Db, id: int, requestor: RoleChange, assignee: RoleChange)
    ensures WithRoles(WithRoles(db, id, requestor, Keep), id, Keep, assignee) == WithRoles(db, id, requestor, assignee)
    ensures RoleFails(WithRoles(db, id, requestor, Keep), id, assignee) <==> RoleFails(db, id, assignee)
  {
    if id in db.tasks {
      var t := db.tasks[id];
      var u := t.(requestor := Changed(t.requestor, requestor));
      var w := u.(assignee := Changed(t.assignee, assignee));
      assert db.tasks[id := u][id := w] == db.tasks[id := w];
    }
  }

  lemma WithRolesValid(db: Db, id: int, requestor: RoleChange, assignee: RoleChange)
    requires Valid(db) && !RoleFails(db, id, requestor) && !RoleFails(db, id, assignee)
    ensures Valid(WithRoles(db, id, requestor, assignee))
  {
    assert WithRoles(db, id, requestor, assignee).tasks.Keys == db.tasks.Keys;
  }

  lemma SetRolesValid(db: Db, id: int, requestor: RoleChange, assignee: RoleChange, o: RolesOutcome)
    requires Valid(db)
    ensures Valid(SetRoles(db, id, requestor, assignee, o).0)
  {
    if !RoleFails(db, id, requestor) {
      WithRolesValid(db, id, requestor, Keep);
      if !RoleFails(db, id, assignee) {
        WithRolesValid(db, id, requestor, assignee);
      }
    }
  }

  /** The first UPDATE changes the task's requestor. */
  predicate RequestorMoves(db: Db, id: int, requestor: RoleChange) {
    id in db.tasks && Changed(db.tasks[id].requestor, requestor) != db.tasks[id].requestor
  }

  /** The call is all-or-nothing exactly when it does not change the requestor and then fail on the
      assignee, because the person is missing or the second UPDATE does not get through. */
  lemma RolesAtomicExactly(db: Db, id: int, requestor: RoleChange, assignee: RoleChange, o: RolesOutcome)
    ensures var (r, result) := SetRoles(db, id, requestor, assignee, o);
      (result.Err? ==> r == db) <==>
      !(o.read && !UpdateFails(db, id, requestor, o.first) && RequestorMoves(db, id, requestor) && UpdateFails(db, id, assignee, o.second))
  {
    if id in db.tasks {
      var t := db.tasks[id];
      if Changed(t.requestor, requestor) == t.requestor {
        assert db.tasks[id := t] == db.tasks;
      }
      assert WithRoles(db, id, requestor, Keep).tasks[id].requestor == Changed(t.requestor, requestor);
    }
  }

  // ----- identities and matches -----

  function StoredValue(kind: string, value: string): string { if kind == "email" then Normalized(value) else value }

  /** AddPersonIdentity: an existing (kind, value) is left alone; a missing owner is refused. The key
      drawn for the new row is used up either way. */
  ghost function AddIdentity(db: Db, owner: nat, kind: string, value: string, provenance: string): Db {
    var text := StoredValue(kind, value);
    var drawn := db.(nextId := db.nextId + 1);
    if HasIdentity(db, kind, text) || owner !in db.persons then drawn
    else drawn.(identities := db.identities[db.nextId := Identity(owner, kind, text, if provenance == "" then "manual" else provenance)])
  }

  lemma AddIdentityValid(db: Db, owner: nat, kind: string, value: string, provenance: string)
    requires Valid(db)
    ensures Valid(AddIdentity(db, owner, kind, value, provenance))
  {
    if !HasIdentity(db, kind, StoredValue(kind, value)) {
      assert forall i :: i in db.identities ==> !IsIdentity(db, i, kind, StoredValue(kind, value));
    }
  }

  function Accept(db: Db, identity: nat, person: nat): Result<Db, StoreError> {
    if identity !in db.identities then Err(IdentityNotFound)
    else if person !in db.persons then Err(ForeignKeyFailed)
    else Ok(db.(
      identities := db.identities[identity := db.identities[identity].(owner := person, provenance := "suggested")],
      rejections := db.rejections - {(identity, person)}))
  }

  lemma AcceptValid(db: Db, identity: nat, person: nat)
    requires Valid(db)
    ensures Accept(db, identity, person).Ok? ==> Valid(Accept(db, identity, person).value)
  {
    if identity in db.identities && person in db.persons {
      var r := Accept(db, identity, person).value;
      assert forall i :: i in r.identities ==> i in db.identities && SameKey(r.identities[i], db.identities[i]);
    }
  }

  function Reject(db: Db, identity: nat, person: nat): Result<Db, StoreError> {
    if person !in db.persons then Err(ForeignKeyFailed)
    else Ok(db.(rejections := db.rejections + {(identity, person)}))
  }

  /** Everything but the identities and the rejections. */
  predicate SameElsewhere(db: Db, r: Db) {
    && r.tasks == db.tasks && r.born == db.born && r.comments == db.comments && r.history == db.history
    && r.persons == db.persons
  }

  /** Accepting a match makes the identity the person's, under the pair it had, marked as suggested, and
      takes back a rejection of just this match. A missing identity or person is reported. */
  lemma AcceptExactly(db: Db, identity: nat, person: nat)
    ensures Accept(db, identity, person).Ok? <==> identity in db.identities && person in db.persons
    ensures identity !in db.identities ==> Accept(db, identity, person) == Err(IdentityNotFound)
    ensures identity in db.identities && person !in db.persons ==> Accept(db, identity, person) == Err(ForeignKeyFailed)
    ensures Accept(db, identity, person).Ok? ==>
              var r := Accept(db, identity, person).value;
              SameElsewhere(db, r) && r.nextId == db.nextId && r.identities.Keys == db.identities.Keys &&
              r.identities[identity].owner == person && r.identities[identity].provenance == "suggested" &&
              SameKey(r.identities[identity], db.identities[identity]) &&
              (forall i :: i in db.identities && i != identity ==> r.identities[i] == db.identities[i]) &&
              (identity, person) !in r.rejections &&
              (forall x :: x != (identity, person) ==> (x in r.rejections <==> x in db.rejections))
  {
  }

  /** Rejecting a match records it and nothing else; a missing person is reported. */
  lemma RejectExactly(db: Db, identity: nat, person: nat)
    ensures Reject(db, identity, person) == Err(ForeignKeyFailed) <==> person !in db.persons
    ensures person in db.persons ==>
              var r := OrSame(db, Reject(db, identity, person));
              Reject(db, identity, person) == Ok(r) && SameElsewhere(db, r) && r.identities == db.identities &&
              forall x :: x in r.rejections <==> x in db.rejections || x == (identity, person)
  {
  }

  /** A rejection that is then accepted leaves no trace among the rejections; an acceptance that is then
      rejected keeps its owner. */
  lemma AcceptAfterReject(db: Db, identity: nat, person: nat)
    requires identity in db.identities && person in db.persons && (identity, person) !in db.rejections
    ensures var rejected := OrSame(db, Reject(db, identity, person));
      var accepted := OrSame(db, Accept(db, identity, person));
      OrSame(rejected, Accept(rejected, identity, person)) == accepted &&
      OrSame(accepted, Reject(accepted, identity, person)).identities == accepted.identities
  {
    assert (db.rejections + {(identity, person)}) - {(identity, person)} == db.rejections - {(identity, person)};
  }

  /** A pair that is not there is added for an existing owner, an address in its normal form, a missing
      provenance as "manual"; a pair that is there keeps its owner; a missing owner gets nothing. */
  lemma AddIdentityExactly(db: Db, owner: nat, kind: string, value: string, provenance: string)
    requires Valid(db)
    ensures var r := AddIdentity(db, owner, kind, value, provenance);
      var text := if kind == "email" then TrimSpace(Lower(value)) else value;
      SameElsewhere(db, r) && r.rejections == db.rejections &&
      (forall i :: i in db.identities ==> i in r.identities && r.identities[i] == db.identities[i]) &&
      (forall i :: i in r.identities && i !in db.identities ==>
                     r.identities[i] == Identity(owner, kind, text, if provenance == "" then "manual" else provenance)) &&
      (HasIdentity(r, kind, text) <==> HasIdentity(db, kind, text) || owner in db.persons) &&
      (r.identities == db.identities <==> HasIdentity(db, kind, text) || owner !in db.persons)
  {
    var r := AddIdentity(db, owner, kind, value, provenance);
    var text := StoredValue(kind, value);
    if HasIdentity(db, kind, text) {
      var i :| IsIdentity(db, i, kind, text);
      assert IsIdentity(r, i, kind, text);
    } else if owner in db.persons {
      assert db.nextId !in db.identities && IsIdentity(r, db.nextId, kind, text);
    } else {
      assert forall i :: IsIdentity(r, i, kind, text) <==> IsIdentity(db, i, kind, text);
    }
  }

  /** What a successful change of roles leaves: an absent argument keeps the role, an empty one clears it,
      a person is entered; the status, the sender and every other task stay. */
  lemma RolesMean(db: Db, id: int, requestor: RoleChange, assignee: RoleChange, o: RolesOutcome)
    requires id in db.tasks && SetRoles(db, id, requestor, assignee, o).1.Ok?
    ensures var r := SetRoles(db, id, requestor, assignee, o).0;
      r.tasks.Keys == db.tasks.Keys && r.(tasks := db.tasks) == db &&
      (forall t :: t in db.tasks && t != id ==> r.tasks[t] == db.tasks[t]) &&
      r.tasks[id].status == db.tasks[id].status && r.tasks[id].fromEmail == db.tasks[id].fromEmail &&
      (requestor.Keep? ==> r.tasks[id].requestor == db.tasks[id].requestor) &&
      (requestor.Clear? ==> r.tasks[id].requestor == None) &&
      (requestor.SetTo? ==> r.tasks[id].requestor == Some(requestor.person)) &&
      (assignee.Keep? ==> r.tasks[id].assignee == db.tasks[id].assignee) &&
      (assignee.Clear? ==> r.tasks[id].assignee == None) &&
      (assignee.SetTo? ==> r.tasks[id].assignee == Some(assignee.person))
  {
  }

  // ----- runs -----

  /** UpdatePerson: the whole row is written; a missing person is reported. */
  function Rewritten(db: Db, person: nat, row: Person): Result<Db, StoreError> {
    if person in db.persons then Ok(db.(persons := db.persons[person := row])) else Err(PersonNotFound)
  }

  function WithoutIdentity(db: Db, identity: nat): Result<Db, StoreError> {
    if identity in db.identities then Ok(db.(identities := db.identities - {identity})) else Err(IdentityNotFound)
  }

  /** EnsurePersonByEmail: what is no valid address is ignored, a new address makes a person. */
  ghost function EnsuredByEmail(db: Db, email: string): (Db, Option<nat>)
    requires Sound(db)
  {
    var address := Normalized(email);
    if !ValidPersonEmail(address) then (db, None)
    else
      var (r, person) := Upsert(db, address);
      (r, Some(person))
  }

  lemma EnsuredByEmailValid(db: Db, email: string)
    requires Valid(db)
    ensures Valid(EnsuredByEmail(db, email).0) && Extends(db, EnsuredByEmail(db, email).0)
  {
    UpsertFrame(db, Normalized(email), 0);
  }

  lemma IdentityRowsValid(db: Db, identity: nat, person: nat, row: Person)
    requires Valid(db)
    ensures Valid(OrSame(db, WithoutIdentity(db, identity))) && Valid(OrSame(db, Rewritten(db, person, row)))
    ensures Extends(db, OrSame(db, WithoutIdentity(db, identity))) && Extends(db, OrSame(db, Rewritten(db, person, row)))
  {
  }

  /** The calls that write tasks, comments and persons, each in one transaction or in statements
      nothing else comes between. A bulk change is none of them. */
  datatype Op =
    | CreateTask(id: int, status: string, fromEmail: string)
    | AddComment(comment: Comment)
    | CreatePerson(row: Person)
    | UpdatePerson(person: nat, row: Person)
    | SetTaskStatus(id: int, to: string, actor: string)
    | Incoming(name: string, email: string, pick: nat)
    | EnsureByEmail(email: string)
    | MergeInto(source: nat, target: nat)
    | Roles(id: int, requestor: RoleChange, assignee: RoleChange, o: RolesOutcome)
    | AddPersonIdentity(owner: nat, kind: string, value: string, provenance: string)
    | RemovePersonIdentity(identity: nat)
    | AcceptMatch(identity: nat, person: nat)
    | RejectMatch(identity: nat, person: nat)

  /** The database after a message from a sender, whether or not the person could be ensured. */
  ghost function Received(db: Db, name: string, email: string, pick: nat): (r: Db)
    requires Valid(db) && (DirtyIds(db, email) != {} ==> pick in DirtyIds(db, email))
    ensures Valid(r) && Extends(db, r)
  {
    EnsureKeepsValid(db, name, email, pick);
    var r := Ensure(db, name, email, pick);
    if r.Err? then db
    else
      EnsureExtends(db, name, email, pick);
      r.value.0
  }

  function OrSame(db: Db, r: Result<Db, StoreError>): Db { if r.Ok? then r.value else db }

  /** The database after a call; a call that fails leaves what it leaves. */
  ghost function Step(db: Db, op: Op, addr: Resolver): Db
    requires Valid(db)
  {
    match op
    case CreateTask(id, status, fromEmail) =>
      if id in db.tasks then db
      else db.(tasks := db.tasks[id := Task(status, fromEmail, None, None)], born := db.born[id := status])
    case AddComment(c) =>
      if c.task in db.tasks && RefOk(c.authorPerson, db.persons) then db.(comments := db.comments + [c]) else db
    case CreatePerson(p) => db.(persons := db.persons[db.nextId := p], nextId := db.nextId + 1)
    case SetTaskStatus(id, to, actor) => OrSame(db, SetStatus(db, id, to, actor, addr))
    case UpdatePerson(person, row) => OrSame(db, Rewritten(db, person, row))
    case EnsureByEmail(email) => EnsuredByEmail(db, email).0
    case RemovePersonIdentity(identity) => OrSame(db, WithoutIdentity(db, identity))
    case Incoming(name, email, pick) =>
      if DirtyIds(db, email) != {} && pick !in DirtyIds(db, email) then db
      else Received(db, name, email, pick)
    case MergeInto(source, target) => OrSame(db, Merge(db, source, target))
    case Roles(id, requestor, assignee, o) => SetRoles(db, id, requestor, assignee, o).0
    case AddPersonIdentity(owner, kind, value, provenance) => AddIdentity(db, owner, kind, value, provenance)
    case AcceptMatch(identity, person) => OrSame(db, Accept(db, identity, person))
    case RejectMatch(identity, person) => OrSame(db, Reject(db, identity, person))
  }

  lemma {:induction false} NoRows(history: seq<HistoryRow>, id: int)
    requires forall k :: 0 <= k < |history| ==> history[k].task != id
    ensures RowsOf(history, id) == []
  {
    if history != [] {
      NoRows(history[1..], id);
    }
  }

  lemma CreateKeepsValid(db: Db, id: int, status: string, fromEmail: string)
    requires Valid(db) && id !in db.tasks
    ensures Valid(db.(tasks := db.tasks[id := Task(status, fromEmail, None, None)], born := db.born[id := status]))
  {
    NoRows(db.history, id);
  }

  lemma TaskCallKeepsValid(db: Db, op: Op, addr: Resolver)
    requires Valid(db) && (op.CreateTask? || op.AddComment? || op.SetTaskStatus? || op.Roles?)
    ensures Valid(Step(db, op, addr))
  {
    match op
    case CreateTask(id, status, fromEmail) =>
      if id !in db.tasks {
        CreateKeepsValid(db, id, status, fromEmail);
      }
    case AddComment(c) =>
    case SetTaskStatus(id, to, actor) =>
      if id in db.tasks {
        TransitionKeepsHistory(db, id, to, actor, addr);
      }
    case Roles(id, requestor, assignee, o) => SetRolesValid(db, id, requestor, assignee, o);
  }

  lemma PersonCallKeepsValid(db: Db, op: Op, addr: Resolver)
    requires Valid(db) && (op.UpdatePerson? || op.AddPersonIdentity?)
    ensures Valid(Step(db, op, addr))
  {
    match op
    case UpdatePerson(person, row) => IdentityRowsValid(db, 0, person, row);
    case AddPersonIdentity(owner, kind, value, provenance) => AddIdentityValid(db, owner, kind, value, provenance);
  }

  lemma IdentityCallKeepsValid(db: Db, op: Op, addr: Resolver)
    requires Valid(db) && (op.RemovePersonIdentity? || op.AcceptMatch? || op.RejectMatch?)
    ensures Valid(Step(db, op, addr))
  {
    match op
    case RemovePersonIdentity(identity) => IdentityRowsValid(db, identity, 0, NOBODY);
    case AcceptMatch(identity, person) => AcceptValid(db, identity, person);
    case RejectMatch(identity, person) => RejectValid(db, identity, person);
  }

  lemma RejectValid(db: Db, identity: nat, person: nat)
    requires Valid(db)
    ensures Valid(OrSame(db, Reject(db, identity, person)))
  {
  }

  /** No call breaks a foreign key, UNIQUE(kind, value) or a task's history chain. */
  lemma StepKeepsValid(db: Db, op: Op, addr: Resolver)
    requires Valid(db)
    ensures Valid(Step(db, op, addr))
  {
    match op
    case CreateTask(_, _, _) => TaskCallKeepsValid(db, op, addr);
    case AddComment(_) => TaskCallKeepsValid(db, op, addr);
    case SetTaskStatus(_, _, _) => TaskCallKeepsValid(db, op, addr);
    case Roles(_, _, _, _) => TaskCallKeepsValid(db, op, addr);
    case CreatePerson(p) => PersonKeepsValid(db, p);
    case Incoming(_, _, _) =>
    case MergeInto(source, target) => OneMergeValid(db, (source, target));
    case UpdatePerson(_, _) => PersonCallKeepsValid(db, op, addr);
    case EnsureByEmail(email) => EnsuredByEmailValid(db, email);
    case AddPersonIdentity(_, _, _, _) => PersonCallKeepsValid(db, op, addr);
    case _ => IdentityCallKeepsValid(db, op, addr);
  }

  lemma PersonKeepsValid(db: Db, p: Person)
    requires Valid(db)
    ensures Valid(db.(persons := db.persons[db.nextId := p], nextId := db.nextId + 1))
  {
  }

  ghost function Run(db: Db, ops: seq<Op>, addr: Resolver): Db
    requires Valid(db)
    decreases |ops|
  {
    if ops == [] then db
    else
      StepKeepsValid(db, ops[0], addr);
      Run(Step(db, ops[0], addr), ops[1..], addr)
  }

  /** Nothing is forgotten: history rows, persons and the statuses tasks were created with. */
  ghost predicate Extends(db: Db, r: Db) {
    && db.history <= r.history
    && db.persons.Keys <= r.persons.Keys
    && db.tasks.Keys <= r.tasks.Keys
    && (forall t :: t in db.born ==> t in r.born && r.born[t] == db.born[t])
  }

  lemma TransitionExtends(db: Db, id: int, to: string, actor: string, addr: Resolver)
    requires Sound(db) && id in db.tasks
    ensures Extends(db, Transition(db, id, to, actor, addr))
  {
    TransitionFrame(db, id, to, actor, addr);
    MovedFrame(db, id, to, addr);
    var r := Transition(db, id, to, actor, addr);
    assert db.history <= r.history;
  }

  lemma HealExtends(db: Db, email: string, pick: nat)
    requires Valid(db) && (DirtyIds(db, email) != {} ==> pick in DirtyIds(db, email))
    requires Heal(db, email, pick).Ok?
    ensures Extends(db, Heal(db, email, pick).value)
  {
  }

  lemma FinishExtends(d: Db, name: string, email: string)
    requires Valid(d)
    ensures Extends(d, Finish(d, name, email).0)
  {
  }

  lemma EnsureExtends(db: Db, name: string, email: string, pick: nat)
    requires Valid(db) && (DirtyIds(db, email) != {} ==> pick in DirtyIds(db, email))
    requires Ensure(db, name, email, pick).Ok?
    ensures Extends(db, Ensure(db, name, email, pick).value.0)
  {
    HealExtends(db, email, pick);
    HealedValid(db, email, pick);
    FinishExtends(Heal(db, email, pick).value, name, email);
  }

  lemma MergeExtends(db: Db, source: nat, target: nat)
    ensures Extends(db, OrSame(db, Merge(db, source, target)))
  {
  }

  lemma RolesExtend(db: Db, id: int, requestor: RoleChange, assignee: RoleChange, o: RolesOutcome)
    ensures Extends(db, SetRoles(db, id, requestor, assignee, o).0)
  {
  }

  lemma IdentitiesExtend(db: Db, owner: nat, kind: string, value: string, provenance: string, identity: nat)
    ensures Extends(db, AddIdentity(db, owner, kind, value, provenance))
    ensures Extends(db, OrSame(db, Accept(db, identity, owner))) && Extends(db, OrSame(db, Reject(db, identity, owner)))
  {
  }

  lemma TaskStepExtends(db: Db, op: Op, addr: Resolver)
    requires Valid(db) && (op.CreateTask? || op.AddComment? || op.CreatePerson? || op.SetTaskStatus? || op.Incoming?)
    ensures Extends(db, Step(db, op, addr))
  {
    match op
    case SetTaskStatus(id, to, actor) =>
      if id in db.tasks {
        TransitionExtends(db, id, to, actor, addr);
      }
    case _ =>
  }

  lemma StepExtends(db: Db, op: Op, addr: Resolver)
    requires Valid(db)
    ensures Extends(db, Step(db, op, addr))
  {
    match op
    case MergeInto(source, target) => MergeExtends(db, source, target);
    case Roles(id, requestor, assignee, o) => RolesExtend(db, id, requestor, assignee, o);
    case AddPersonIdentity(owner, kind, value, provenance) => IdentitiesExtend(db, owner, kind, value, provenance, 0);
    case UpdatePerson(person, row) => IdentityRowsValid(db, 0, person, row);
    case EnsureByEmail(email) => EnsuredByEmailValid(db, email);
    case RemovePersonIdentity(identity) => IdentityRowsValid(db, identity, 0, NOBODY);
    case AcceptMatch(identity, person) => IdentitiesExtend(db, person, "", "", "", identity);
    case RejectMatch(identity, person) => IdentitiesExtend(db, person, "", "", "", identity);
    case _ => TaskStepExtends(db, op, addr);
  }

  /** After any run of these calls the constraints hold, every task's history is a chain from the status
      it was created with to its current one, and nothing recorded before has been lost. */
  lemma {:induction false} RunsStayValid(db: Db, ops: seq<Op>, addr: Resolver)
    requires Valid(db)
    ensures Valid(Run(db, ops, addr)) && Extends(db, Run(db, ops, addr))
    decreases |ops|
  {
    if ops != [] {
      StepKeepsValid(db, ops[0], addr);
      StepExtends(db, ops[0], addr);
      RunsStayValid(Step(db, ops[0], addr), ops[1..], addr);
    }
  }

  /** What a chain means: no row stands still, each starts at the status the one before reached, and
      the last reached status is the current one. */
  lemma {:induction false} ChainReads(start: string, rows: seq<HistoryRow>, end: string)
    requires Linked(start, rows, end)
    ensures rows == [] ==> start == end
    ensures rows != [] ==> rows[0].from == FromColumn(start) && rows[|rows| - 1].to == end
    ensures forall k :: 0 <= k < |rows| - 1 ==> rows[k + 1].from == FromColumn(rows[k].to)
    ensures forall k :: 0 <= k < |rows| ==> rows[k].from != Some(rows[k].to)
    decreases rows
  {
    if rows != [] {
      ChainReads(rows[0].to, rows[1..], end);
    }
  }
}
