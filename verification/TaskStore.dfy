/** The store's operations, statement by statement, on tables held as fields. */
module TaskStore {
  import opened Wrappers
  import opened Text
  import opened FromHeader
  import opened Database
  import opened Persons
  import opened Operations

  class Store {
    var tasks: map<int, Task>
    var born: map<int, string>
    var comments: seq<Comment>
    var history: seq<HistoryRow>
    var persons: map<nat, Person>
    var identities: map<nat, Identity>
    var rejections: set<(nat, nat)>
    var nextId: nat
    const dec: Decoder

    function State(): Db
      reads this
    {
      Db(tasks, born, comments, history, persons, identities, rejections, nextId)
    }

    constructor (decoder: Decoder)
      ensures Valid(State()) && State() == EmptyDb() && dec == decoder
    {
      tasks, born, comments, history := map[], map[], [], [];
      persons, identities, rejections, nextId := map[], map[], {}, 0;
      dec := decoder;
    }

    // ----- status -----

    method UpsertPersonByEmail(email: string) returns (person: nat)
      requires Sound(State())
      modifies this
      ensures (State(), person) == Upsert(old(State()), email)
    {
      ghost var db := State();
      if i :| i in identities && IsIdentity(State(), i, "email", email) {
        assert HasIdentity(db, "email", email) && SameKey(identities[i], identities[IdentityOf(db, "email", email)]);
        return identities[i].owner;
      }
      person := nextId;
      persons := persons[person := NOBODY];
      identities := identities[nextId + 1 := Identity(person, "email", email, "auto")];
      nextId := nextId + 2;
      assert !HasIdentity(db, "email", email);
    }

    method AutoAssignLastConfirmer(id: int)
      requires Sound(State()) && id in tasks
      modifies this
      ensures State() == AutoAssign(old(State()), id, Resolve(dec))
    {
      if tasks[id].assignee.Some? {
        return;
      }
      var email := AddressOf(Confirmer(State(), id), dec);
      if email == "" {
        return;
      }
      var person := UpsertPersonByEmail(email);
      tasks := tasks[id := tasks[id].(assignee := Some(person))];
    }

    /** The statements for one row, with the status read before: new status, automatic assignment,
        history. */
    method ApplyChange(id: int, from: string, to: string, actor: string)
      requires Sound(State()) && id in tasks
      modifies this
      ensures State() == Written(old(State()), id, from, to, actor, Resolve(dec))
    {
      ghost var db := State();
      tasks := tasks[id := tasks[id].(status := to)];
      StatusFrame(db, id, to);
      if Closed(to) {
        AutoAssignLastConfirmer(id);
      }
      if from != to {
        history := history + [HistoryRow(id, FromColumn(from), to, actor)];
      }
    }

    method SetTaskStatus(id: int, to: string, actor: string) returns (r: Result<(), StoreError>)
      requires Valid(State())
      modifies this
      ensures Valid(State())
      ensures match SetStatus(old(State()), id, to, actor, Resolve(dec))
              case Ok(db) => r == Ok(()) && State() == db
              case Err(e) => r == Err(e) && State() == old(State())
      ensures r.Ok? <==> id in old(tasks)
      ensures r.Ok? ==> GoesToConfirmer(old(State()), State(), id, to, Resolve(dec))
    {
      if id !in tasks {
        return Err(TaskNotFound(id));
      }
      ClosingAssignsConfirmer(State(), id, to, actor, Resolve(dec));
      TransitionKeepsHistory(State(), id, to, actor, Resolve(dec));
      ApplyChange(id, tasks[id].status, to, actor);
      return Ok(());
    }

    /** The given ids without repetitions, and their statuses before the update. */
    method ReadChanges(taskIds: seq<int>) returns (r: Result<Changes, StoreError>)
      ensures r.Err? <==> !AllExist(State(), taskIds)
      ensures r.Ok? ==> |r.value| == |Dedup(taskIds)| && AllExist(State(), Dedup(taskIds))
      ensures r.Ok? ==> forall k :: 0 <= k < |r.value| ==> r.value[k] == (Dedup(taskIds)[k], tasks[Dedup(taskIds)[k]].status)
    {
      var seen: set<int> := {};
      var uniq: seq<int> := [];
      for i := 0 to |taskIds|
        invariant uniq == Dedup(taskIds[..i])
        invariant forall x :: x in seen <==> x in uniq
      {
        assert taskIds[..i + 1][..i] == taskIds[..i];
        if taskIds[i] !in seen {
          seen := seen + {taskIds[i]};
          uniq := uniq + [taskIds[i]];
        }
      }
      assert taskIds[..|taskIds|] == taskIds;
      var changes: seq<(int, string)> := [];
      for i := 0 to |uniq|
        invariant |changes| == i
        invariant forall k :: 0 <= k < i ==> uniq[k] in tasks && changes[k] == (uniq[k], tasks[uniq[k]].status)
      {
        if uniq[i] !in tasks {
          assert uniq[i] in taskIds;
          return Err(TaskNotFound(uniq[i]));
        }
        changes := changes + [(uniq[i], tasks[uniq[i]].status)];
      }
      assert forall k :: 0 <= k < |taskIds| ==> taskIds[k] in uniq;
      return Ok(changes);
    }

    /** The transaction of a bulk change, whatever happened since the statuses were read. */
    method WriteChanges(changes: Changes, to: string, actor: string)
      requires Sound(State()) && ChangesOk(State(), changes)
      modifies this
      ensures State() == WriteEach(old(State()), changes, to, actor, Resolve(dec))
    {
      ghost var db := State();
      for i := 0 to |changes|
        invariant Sound(State()) && ChangesOk(State(), changes[i..])
        invariant WriteEach(State(), changes[i..], to, actor, Resolve(dec)) == WriteEach(db, changes, to, actor, Resolve(dec))
      {
        WriteNext(State(), changes, i, to, actor, Resolve(dec));
        ApplyChange(changes[i].0, changes[i].1, to, actor);
      }
      assert changes[|changes|..] == [];
    }

    /** The whole call with nothing in between its reads and its transaction. */
    method BulkUpdateTasks(taskIds: seq<int>, to: string, actor: string) returns (r: Result<nat, StoreError>)
      requires Valid(State())
      modifies this
      ensures Valid(State())
      ensures r.Ok? <==> AllExist(old(State()), taskIds)
      ensures r.Ok? ==> State() == SetEach(old(State()), taskIds, to, actor, Resolve(dec)) && r.value == |Dedup(taskIds)|
      ensures r.Err? ==> State() == old(State())
    {
      ghost var db := State();
      var changes := ReadChanges(taskIds);
      if changes.Err? {
        return Err(changes.error);
      }
      WriteUnmoved(db, changes.value, to, actor, Resolve(dec));
      assert Ids(changes.value) == Dedup(taskIds);
      DuplicatesDoNotMatter(db, taskIds, to, actor, Resolve(dec));
      SetEachKeepsValid(db, Dedup(taskIds), to, actor, Resolve(dec));
      WriteChanges(changes.value, to, actor);
      return Ok(|changes.value|);
    }

    // ----- persons -----

    /** Steps 1 and 2 of a merge. UNIQUE holds, so no identity of the target conflicts with one of
        the source and the first step deletes nothing. */
    method MoveIdentities(source: nat, target: nat)
      requires Valid(State()) && source != target
      modifies this`identities
      ensures identities.Keys == old(identities.Keys)
      ensures forall i :: i in identities ==> identities[i] == SubstIdentity(source, target, old(identities)[i])
    {
      var conflicting := set i, j | i in identities && j in identities && identities[i].owner == target &&
        identities[j].owner == source && SameKey(identities[i], identities[j]) :: i;
      assert conflicting == {};
      identities := identities - conflicting;
      identities := map i | i in identities ::
        if identities[i].owner == source then identities[i].(owner := target) else identities[i];
    }

    /** Step 3: references of tasks, one column at a time. */
    method RelinkTasks(source: nat, target: nat)
      modifies this`tasks
      ensures tasks.Keys == old(tasks.Keys)
      ensures forall t :: t in tasks ==> tasks[t] == SubstTask(source, target, old(tasks)[t])
    {
      tasks := map t | t in tasks ::
        if tasks[t].requestor == Some(source) then tasks[t].(requestor := Some(target)) else tasks[t];
      tasks := map t | t in tasks ::
        if tasks[t].assignee == Some(source) then tasks[t].(assignee := Some(target)) else tasks[t];
    }

    /** Step 4: references of comments. */
    method RelinkComments(source: nat, target: nat)
      modifies this`comments
      ensures |comments| == old(|comments|)
      ensures forall k :: 0 <= k < |comments| ==> comments[k] == SubstComment(source, target, old(comments)[k])
    {
      var authored := comments;
      comments := seq(|authored|, k requires 0 <= k < |authored| =>
        if authored[k].authorPerson == Some(source) then authored[k].(authorPerson := Some(target)) else authored[k]);
    }

    method MergePersons(source: nat, target: nat) returns (r: Result<(), StoreError>)
      requires Valid(State())
      modifies this
      ensures Valid(State())
      ensures match Merge(old(State()), source, target)
              case Ok(db) => r == Ok(()) && State() == db
              case Err(e) => r == Err(e) && State() == old(State())
    {
      ghost var db := State();
      if source == target {
        return Ok(());
      }
      if source !in persons || target !in persons {
        return Err(PersonNotFound);
      }
      MergedValid(db, source, target);
      ghost var merged := Merged(db, source, target);
      MoveIdentities(source, target);
      RelinkTasks(source, target);
      RelinkComments(source, target);
      rejections := set p | p in rejections && p.1 != source;
      persons := persons[source := persons[source].(archived := true)];
      MergedByRows(db, source, target, tasks, identities, comments);
      assert State() == merged;
      return Ok(());
    }

    method HealIdentities(email: string) returns (r: Result<(), StoreError>, ghost pick: nat)
      requires Valid(State())
      modifies this
      ensures Valid(State())
      ensures DirtyIds(old(State()), email) != {} ==> pick in DirtyIds(old(State()), email)
      ensures match Heal(old(State()), email, pick)
              case Ok(db) => r == Ok(()) && State() == db
              case Err(e) => r == Err(e) && State() == old(State())
    {
      ghost var db := State();
      pick := 0;
      var dirty := DirtyIds(State(), email);
      if dirty == {} {
        return Ok(()), pick;
      }
      var dirtyId :| dirtyId in dirty;
      pick := dirtyId;
      if cleanId :| cleanId in identities && IsIdentity(State(), cleanId, "email", email) {
        assert cleanId == IdentityOf(db, "email", email) by {
          assert SameKey(identities[cleanId], identities[IdentityOf(db, "email", email)]);
        }
        if identities[dirtyId].owner != identities[cleanId].owner {
          var merged := MergePersons(identities[dirtyId].owner, identities[cleanId].owner);
        }
        identities := identities - dirty;
      } else {
        assert !HasIdentity(db, "email", email);
        if dirty != {dirtyId} {
          HealFailsExactly(db, email, pick);
          return Err(UniqueFailed), pick;
        }
        identities := identities[dirtyId := identities[dirtyId].(value := email)];
      }
      HealedValid(db, email, pick);
      return Ok(()), pick;
    }

    /** Fills the row of the address's owner. */
    method FillRow(i: nat, name: string, email: string) returns (person: nat)
      requires Valid(State()) && IsIdentity(State(), i, "email", email)
      modifies this`persons
      ensures (State(), person) == Finish(old(State()), name, email)
    {
      FinishKnown(State(), i, name, email);
      person := identities[i].owner;
      persons := persons[person := Filled(persons[person], name, IsMachine(email))];
    }

    /** Makes a person with the address. */
    method CreateRow(name: string, email: string) returns (person: nat)
      requires Valid(State()) && !HasIdentity(State(), "email", email)
      modifies this
      ensures (State(), person) == Finish(old(State()), name, email)
    {
      ghost var before := State();
      FinishNew(before, name, email);
      person := nextId;
      persons := persons[person := NewPerson(name, IsMachine(email))];
      identities := identities[nextId + 1 := Identity(person, "email", email, "auto")];
      nextId := nextId + 2;
      assert State() == Created(before, NewPerson(name, IsMachine(email)), email);
    }

    /** Fills the owner's row, or creates person and identity. */
    method FillOrCreate(name: string, email: string) returns (person: nat)
      requires Valid(State())
      modifies this
      ensures (State(), person) == Finish(old(State()), name, email)
    {
      if i :| i in identities && IsIdentity(State(), i, "email", email) {
        person := FillRow(i, name, email);
      } else {
        assert !HasIdentity(State(), "email", email);
        person := CreateRow(name, email);
      }
    }

    /** A sender the code ignores changes nothing; otherwise the specification `Ensure` holds for the
        row the LIMIT 1 query happens to pick. */
    method EnsurePersonFromIncoming(fromName: string, fromEmail: string)
      returns (r: Result<Option<nat>, StoreError>, ghost pick: nat)
      requires Valid(State())
      modifies this
      ensures Valid(State())
      ensures var sender := Sender(fromName, fromEmail, dec);
        if sender.None? then r == Ok(None) && State() == old(State())
        else
          var (name, email) := sender.value;
          (DirtyIds(old(State()), email) != {} ==> pick in DirtyIds(old(State()), email)) &&
          match Ensure(old(State()), name, email, pick)
          case Ok(done) => r == Ok(Some(done.1)) && State() == done.0
          case Err(e) => r == Err(e) && State() == old(State())
      ensures r == Ok(None) <==>
              !ValidPersonEmail(Normalized(ParseFromHeader(fromEmail, dec).email)) && !ValidPersonEmail(Normalized(fromEmail))
      ensures var email := Normalized(fromEmail);
        ValidPersonEmail(email) && UnknownAddress(old(State()), email) ==>
          r.Ok? && r.value.Some? && NewlyNamed(old(State()), State(), r.value.value, TrimSpace(fromName), email)
    {
      IgnoredExactly(fromName, fromEmail, dec);
      if ValidPersonEmail(Normalized(fromEmail)) {
        SenderOfBareAddress(fromName, fromEmail, dec);
        if UnknownAddress(State(), Normalized(fromEmail)) {
          NewSenderIsNamed(State(), TrimSpace(fromName), Normalized(fromEmail), 0);
        }
      }
      pick := 0;
      var sender := Sender(fromName, fromEmail, dec);
      if sender.None? {
        return Ok(None), pick;
      }
      var (name, email) := sender.value;
      var healed;
      healed, pick := HealIdentities(email);
      if healed.Err? {
        return Err(healed.error), pick;
      }
      FinishPairs(State(), name, email);
      var person := FillOrCreate(name, email);
      return Ok(Some(person)), pick;
    }

    method EnsurePersonByEmail(email: string) returns (person: Option<nat>)
      requires Valid(State())
      modifies this
      ensures Valid(State()) && (State(), person) == EnsuredByEmail(old(State()), email)
    {
      EnsuredByEmailValid(State(), email);
      var address := Normalized(email);
      if !ValidPersonEmail(address) {
        return None;
      }
      var p := UpsertPersonByEmail(address);
      return Some(p);
    }

    method UpdatePerson(person: nat, row: Person) returns (r: Result<(), StoreError>)
      requires Valid(State())
      modifies this
      ensures Valid(State())
      ensures match Rewritten(old(State()), person, row)
              case Ok(db) => r == Ok(()) && State() == db
              case Err(e) => r == Err(e) && State() == old(State())
    {
      IdentityRowsValid(State(), 0, person, row);
      if person !in persons {
        return Err(PersonNotFound);
      }
      persons := persons[person := row];
      return Ok(());
    }

    method RemovePersonIdentity(identity: nat) returns (r: Result<(), StoreError>)
      requires Valid(State())
      modifies this
      ensures Valid(State())
      ensures match WithoutIdentity(old(State()), identity)
              case Ok(db) => r == Ok(()) && State() == db
              case Err(e) => r == Err(e) && State() == old(State())
    {
      IdentityRowsValid(State(), identity, 0, NOBODY);
      if identity !in identities {
        return Err(IdentityNotFound);
      }
      identities := identities - {identity};
      return Ok(());
    }

    // ----- roles and matches -----

    /** UPDATE tasks SET requestor_id = ? or assignee_id = ?; refused for a missing person if a row
        is reached, and if the statement does not get through. */
    method UpdateRequestor(id: int, c: RoleChange, through: bool) returns (ok: bool)
      modifies this`tasks
      ensures ok <==> through && !RoleFails(old(State()), id, c)
      ensures State() == if ok then WithRoles(old(State()), id, c, Keep) else old(State())
    {
      if !through || (c.SetTo? && id in tasks && c.person !in persons) {
        return false;
      }
      if id in tasks {
        tasks := tasks[id := tasks[id].(requestor := Changed(tasks[id].requestor, c))];
      }
      return true;
    }

    method UpdateAssignee(id: int, c: RoleChange, through: bool) returns (ok: bool)
      modifies this`tasks
      ensures ok <==> through && !RoleFails(old(State()), id, c)
      ensures State() == if ok then WithRoles(old(State()), id, Keep, c) else old(State())
    {
      if !through || (c.SetTo? && id in tasks && c.person !in persons) {
        return false;
      }
      if id in tasks {
        tasks := tasks[id := tasks[id].(assignee := Changed(tasks[id].assignee, c))];
      }
      return true;
    }

    /** The requestor is written before the assignee is tried, and not in one transaction. */
    method SetTaskPersonRoles(id: int, requestor: RoleChange, assignee: RoleChange, o: RolesOutcome) returns (r: Result<(), StoreError>)
      requires Valid(State())
      modifies this
      ensures Valid(State())
      ensures (State(), r) == SetRoles(old(State()), id, requestor, assignee, o)
    {
      ghost var before := State();
      SetRolesValid(before, id, requestor, assignee, o);
      RolesOneByOne(before, id, requestor, assignee);
      if !o.read {
        return Err(StatementFailed);
      }
      if !requestor.Keep? {
        var ok := UpdateRequestor(id, requestor, o.first);
        if !ok {
          return Err(UpdateError(o.first));
        }
      }
      assert State() == WithRoles(before, id, requestor, Keep);
      if !assignee.Keep? {
        var ok := UpdateAssignee(id, assignee, o.second);
        if !ok {
          return Err(UpdateError(o.second));
        }
      }
      return Ok(());
    }

    method AcceptMatch(identity: nat, person: nat) returns (r: Result<(), StoreError>)
      requires Valid(State())
      modifies this
      ensures Valid(State())
      ensures match Accept(old(State()), identity, person)
              case Ok(db) => r == Ok(()) && State() == db
              case Err(e) => r == Err(e) && State() == old(State())
    {
      AcceptValid(State(), identity, person);
      if identity !in identities {
        return Err(IdentityNotFound);
      }
      if person !in persons {
        return Err(ForeignKeyFailed);
      }
      identities := identities[identity := identities[identity].(owner := person, provenance := "suggested")];
      rejections := rejections - {(identity, person)};
      return Ok(());
    }

    method RejectMatch(identity: nat, person: nat) returns (r: Result<(), StoreError>)
      requires Valid(State())
      modifies this
      ensures Valid(State())
      ensures match Reject(old(State()), identity, person)
              case Ok(db) => r == Ok(()) && State() == db
              case Err(e) => r == Err(e) && State() == old(State())
    {
      if person !in persons {
        return Err(ForeignKeyFailed);
      }
      rejections := rejections + {(identity, person)};
      return Ok(());
    }

    method AddPersonIdentity(owner: nat, kind: string, value: string, provenance: string) returns (r: Result<nat, StoreError>)
      requires Valid(State())
      modifies this
      ensures Valid(State())
      ensures State() == AddIdentity(old(State()), owner, kind, value, provenance)
      ensures r.Ok? ==> IsIdentity(State(), r.value, kind, StoredValue(kind, value))
      ensures r.Err? <==> owner !in persons && !HasIdentity(old(State()), kind, StoredValue(kind, value))
    {
      ghost var db := State();
      AddIdentityValid(db, owner, kind, value, provenance);
      var text := StoredValue(kind, value);
      var id := nextId;
      nextId := nextId + 1;
      if i :| i in identities && IsIdentity(State(), i, kind, text) {
        assert IsIdentity(db, i, kind, text);
        return Ok(i);
      }
      assert !HasIdentity(db, kind, text);
      if owner !in persons {
        return Err(ForeignKeyFailed);
      }
      identities := identities[id := Identity(owner, kind, text, if provenance == "" then "manual" else provenance)];
      return Ok(id);
    }
  }
}
