/** Merging persons, and creating or healing the person behind an incoming address. */
module Persons {
  import opened Wrappers
  import opened Text
  import opened FromHeader
  import opened Database

  // ----- merging -----

  function Subst(source: nat, target: nat, p: nat): nat { if p == source then target else p }

  function SubstRef(source: nat, target: nat, r: Option<nat>): Option<nat> {
    if r.Some? then Some(Subst(source, target, r.value)) else None
  }

  function SubstTask(source: nat, target: nat, t: Task): Task {
    t.(requestor := SubstRef(source, target, t.requestor), assignee := SubstRef(source, target, t.assignee))
  }

  function SubstComment(source: nat, target: nat, c: Comment): Comment {
    c.(authorPerson := SubstRef(source, target, c.authorPerson))
  }

  function SubstIdentity(source: nat, target: nat, i: Identity): Identity {
    i.(owner := Subst(source, target, i.owner))
  }

  /** A merge of two different existing persons: every reference to the source, wherever it stands,
      becomes a reference to the target; the source's rejections go, and the source is archived. */
  function Merged(db: Db, source: nat, target: nat): Db
    requires source in db.persons
  {
    db.(
      identities := map i | i in db.identities :: SubstIdentity(source, target, db.identities[i]),
      tasks := map t | t in db.tasks :: SubstTask(source, target, db.tasks[t]),
      comments := seq(|db.comments|, k requires 0 <= k < |db.comments| => SubstComment(source, target, db.comments[k])),
      rejections := (set r | r in db.rejections && r.1 != source),
      persons := db.persons[source := db.persons[source].(archived := true)])
  }

  /** Tables whose rows are substituted one by one are the merged tables. */
  lemma MergedByRows(db: Db, source: nat, target: nat, tasks: map<int, Task>, identities: map<nat, Identity>, comments: seq<Comment>)
    requires source in db.persons
    requires tasks.Keys == db.tasks.Keys && identities.Keys == db.identities.Keys && |comments| == |db.comments|
    requires forall t :: t in tasks ==> tasks[t] == SubstTask(source, target, db.tasks[t])
    requires forall i :: i in identities ==> identities[i] == SubstIdentity(source, target, db.identities[i])
    requires forall k :: 0 <= k < |comments| ==> comments[k] == SubstComment(source, target, db.comments[k])
    ensures var r := Merged(db, source, target);
      tasks == r.tasks && identities == r.identities && comments == r.comments
  {
    var r := Merged(db, source, target);
    assert forall t :: t in tasks ==> t in r.tasks && r.tasks[t] == tasks[t];
    assert tasks.Keys == r.tasks.Keys;
  }

  /** MergePersons. */
  function Merge(db: Db, source: nat, target: nat): Result<Db, StoreError> {
    if source == target then Ok(db)
    else if source !in db.persons || target !in db.persons then Err(PersonNotFound)
    else Ok(Merged(db, source, target))
  }

  lemma MergedValid(db: Db, source: nat, target: nat)
    requires Valid(db) && source in db.persons && target in db.persons
    ensures Valid(Merged(db, source, target))
  {
    var r := Merged(db, source, target);
    assert r.tasks.Keys == db.tasks.Keys && r.identities.Keys == db.identities.Keys;
    assert forall i :: i in db.identities ==> SameKey(r.identities[i], db.identities[i]);
  }

  predicate Mentions(db: Db, p: nat) {
    || (exists t :: t in db.tasks && (db.tasks[t].requestor == Some(p) || db.tasks[t].assignee == Some(p)))
    || (exists k :: 0 <= k < |db.comments| && db.comments[k].authorPerson == Some(p))
    || (exists i :: i in db.identities && db.identities[i].owner == p)
    || (exists r :: r in db.rejections && r.1 == p)
  }

  lemma MergeForgetsSource(db: Db, source: nat, target: nat)
    requires source in db.persons && source != target
    ensures !Mentions(Merged(db, source, target), source)
  {
    var r := Merged(db, source, target);
    assert forall t :: t in r.tasks ==> r.tasks[t] == SubstTask(source, target, db.tasks[t]);
    assert forall i :: i in r.identities ==> r.identities[i] == SubstIdentity(source, target, db.identities[i]);
    assert forall k :: 0 <= k < |r.comments| ==> r.comments[k] == SubstComment(source, target, db.comments[k]);
  }

  /** A merge loses no identity and no person: keys, kinds and values stay; only owners move. Nothing
      refers to the source any more, and no person but the source changes. */
  lemma MergeConserves(db: Db, source: nat, target: nat)
    requires source in db.persons && source != target
    ensures var r := Merged(db, source, target);
      r.identities.Keys == db.identities.Keys &&
      (forall i :: i in db.identities ==> SameKey(r.identities[i], db.identities[i])) &&
      r.persons.Keys == db.persons.Keys &&
      (forall p :: p in db.persons && p != source ==> r.persons[p] == db.persons[p]) &&
      !Mentions(r, source)
  {
    MergeForgetsSource(db, source, target);
  }

  // ----- sequences of merges -----

  /** What a merge request does to a reference: nothing unless both persons exist. */
  function MergeRef(persons: set<nat>, m: (nat, nat), p: nat): nat {
    if m.0 in persons && m.1 in persons then Subst(m.0, m.1, p) else p
  }

  /** The composed substitution of a list of merge requests. */
  function MergeRefs(persons: set<nat>, ms: seq<(nat, nat)>, p: nat): nat {
    if ms == [] then p else MergeRefs(persons, ms[1..], MergeRef(persons, ms[0], p))
  }

  /** The requests carried out in turn; a failing one leaves the database as it is. */
  function MergeAll(db: Db, ms: seq<(nat, nat)>): Db
    decreases |ms|
  {
    if ms == [] then db
    else MergeAll(AfterMerge(db, ms[0]), ms[1..])
  }

  function MapRef(persons: set<nat>, ms: seq<(nat, nat)>, r: Option<nat>): Option<nat> {
    if r.Some? then Some(MergeRefs(persons, ms, r.value)) else None
  }

  function MapTask(persons: set<nat>, ms: seq<(nat, nat)>, t: Task): Task {
    t.(requestor := MapRef(persons, ms, t.requestor), assignee := MapRef(persons, ms, t.assignee))
  }

  function MapComment(persons: set<nat>, ms: seq<(nat, nat)>, c: Comment): Comment {
    c.(authorPerson := MapRef(persons, ms, c.authorPerson))
  }

  function MapIdentity(persons: set<nat>, ms: seq<(nat, nat)>, i: Identity): Identity {
    i.(owner := MergeRefs(persons, ms, i.owner))
  }

  /** Every reference of r is the composed substitution of the same reference of db. */
  ghost predicate Substituted(db: Db, r: Db, ms: seq<(nat, nat)>) {
    var ps := db.persons.Keys;
    && r.persons.Keys == ps
    && r.tasks.Keys == db.tasks.Keys
    && (forall t :: t in db.tasks ==> r.tasks[t] == MapTask(ps, ms, db.tasks[t]))
    && |r.comments| == |db.comments|
    && (forall k :: 0 <= k < |db.comments| ==> r.comments[k] == MapComment(ps, ms, db.comments[k]))
    && r.identities.Keys == db.identities.Keys
    && (forall i :: i in db.identities ==> r.identities[i] == MapIdentity(ps, ms, db.identities[i]))
    && r.history == db.history && r.born == db.born
  }

  /** The database after a merge request, successful or not. */
  function AfterMerge(db: Db, m: (nat, nat)): Db {
    var r := Merge(db, m.0, m.1);
    if r.Ok? then r.value else db
  }

  lemma OneMergeValid(db: Db, m: (nat, nat))
    requires Valid(db)
    ensures Valid(AfterMerge(db, m))
  {
    if m.0 in db.persons && m.1 in db.persons {
      MergedValid(db, m.0, m.1);
    }
  }

  lemma OneMerge(db: Db, m: (nat, nat))
    requires Sound(db)
    ensures Substituted(db, AfterMerge(db, m), [m])
  {
    var ps := db.persons.Keys;
    assert [m][1..] == [];
    assert forall p :: MergeRefs(ps, [m], p) == MergeRef(ps, m, p);
  }

  lemma ComposeSubstitutions(a: Db, b: Db, c: Db, m: (nat, nat), ms: seq<(nat, nat)>)
    requires Substituted(a, b, [m]) && Substituted(b, c, ms)
    ensures Substituted(a, c, [m] + ms)
  {
    var ps := a.persons.Keys;
    assert [m][1..] == [] && ([m] + ms)[1..] == ms;
    assert forall p :: MergeRefs(ps, [m], p) == MergeRef(ps, m, p);
    assert forall p :: MergeRefs(ps, [m] + ms, p) == MergeRefs(ps, ms, MergeRef(ps, m, p));
    assert forall r :: MapRef(ps, [m] + ms, r) == MapRef(ps, ms, MapRef(ps, [m], r));
  }

  /** Any sequence of merges acts on all references of tasks, comments and identities as one
      substitution, the composition of the single ones in order. */
  lemma {:induction false} MergesCompose(db: Db, ms: seq<(nat, nat)>)
    requires Valid(db)
    ensures Valid(MergeAll(db, ms)) && Substituted(db, MergeAll(db, ms), ms)
    decreases |ms|
  {
    if ms != [] {
      var next := AfterMerge(db, ms[0]);
      OneMergeValid(db, ms[0]);
      OneMerge(db, ms[0]);
      MergesCompose(next, ms[1..]);
      ComposeSubstitutions(db, next, MergeAll(db, ms), ms[0], ms[1..]);
      assert [ms[0]] + ms[1..] == ms;
    }
  }

  // ----- healing identities that contain an address -----

  /** instr(lower(value), lower(email)) > 0 on an e-mail identity whose value is not the address
      itself: the code's test for a left-over raw header. */
  predicate Dirty(x: Identity, email: string) {
    x.kind == "email" && x.value != email && Contains(Lower(x.value), Lower(email))
  }

  function DirtyIds(db: Db, email: string): set<nat> {
    set i | i in db.identities && Dirty(db.identities[i], email)
  }

  function Removed(db: Db, ids: set<nat>): Db { db.(identities := db.identities - ids) }

  function Renamed(db: Db, i: nat, email: string): Db
    requires i in db.identities
  {
    db.(identities := db.identities[i := db.identities[i].(value := email)])
  }

  /** The clean-up before an address is looked up. `pick` is the dirty identity the LIMIT 1 query
      returns. With a clean identity present, the owner of the picked one is merged into the clean
      owner and all dirty ones are deleted; without one, all dirty ones are renamed to the address,
      which breaks UNIQUE as soon as there are two. */
  ghost function Heal(db: Db, email: string, pick: nat): Result<Db, StoreError>
    requires Valid(db) && (DirtyIds(db, email) != {} ==> pick in DirtyIds(db, email))
  {
    var dirty := DirtyIds(db, email);
    if dirty == {} then Ok(db)
    else if HasIdentity(db, "email", email) then
      var source, target := db.identities[pick].owner, db.identities[IdentityOf(db, "email", email)].owner;
      Ok(Removed(if source == target then db else Merged(db, source, target), dirty))
    else if dirty == {pick} then Ok(Renamed(db, pick, email))
    else Err(UniqueFailed)
  }

  // ----- the person's row -----

  const MACHINE := "машина"

  const MACHINE_MARKS := ["no-reply", "noreply", "no_reply", "postmaster", "mailer-daemon", "mailer", "postfix", "bounce", "bot"]

  const SERVICE_NAMES := ["info", "support", "hello", "office", "sales", "admin"]

  /** isMachineEmail. */
  predicate IsMachine(email: string) {
    var text := Lower(TrimSpace(email));
    var at := LastIndexOf(text, '@');
    var local := if at > 0 then text[..at] else text;
    (exists k :: 0 <= k < |MACHINE_MARKS| && Contains(local, MACHINE_MARKS[k])) || local in SERVICE_NAMES
  }

  /** fillPersonNameOrg: an empty name or organisation is filled; the row written carries no flags. */
  function Filled(p: Person, name: string, machine: bool): Person {
    var newName := if p.name == "" && name != "" then name else p.name;
    var newOrg := if p.org == "" && machine then MACHINE else p.org;
    if (p.name != "" && p.org != "") || (newName == p.name && newOrg == p.org) then p
    else Person(newName, newOrg, false, false, false)
  }

  function NewPerson(name: string, machine: bool): Person {
    Person(name, if machine && name == "" then MACHINE else "", false, false, false)
  }

  /** The second half of a call: fill the owner's row, or create person and identity. */
  ghost function Finish(d: Db, name: string, email: string): (Db, nat)
    requires Valid(d)
  {
    if HasIdentity(d, "email", email) then
      var owner := d.identities[IdentityOf(d, "email", email)].owner;
      (d.(persons := d.persons[owner := Filled(d.persons[owner], name, IsMachine(email))]), owner)
    else (Created(d, NewPerson(name, IsMachine(email)), email), d.nextId)
  }

  /** Without one it makes both. */
  lemma FinishNew(d: Db, name: string, email: string)
    requires Valid(d) && !HasIdentity(d, "email", email)
    ensures Finish(d, name, email) == (Created(d, NewPerson(name, IsMachine(email)), email), d.nextId)
  {
  }

  /** With an identity at hand, the second half only fills its owner's row. */
  lemma FinishKnown(d: Db, i: nat, name: string, email: string)
    requires Valid(d) && IsIdentity(d, i, "email", email)
    ensures HasIdentity(d, "email", email) && IdentityOf(d, "email", email) == i
  {
    assert SameKey(d.identities[i], d.identities[IdentityOf(d, "email", email)]);
  }

  /** EnsurePersonFromIncoming after the sender has been read as a trimmed name and an address. */
  ghost function Ensure(db: Db, name: string, email: string, pick: nat): Result<(Db, nat), StoreError>
    requires Valid(db) && (DirtyIds(db, email) != {} ==> pick in DirtyIds(db, email))
  {
    var healed := Heal(db, email, pick);
    if healed.Err? then Err(healed.error)
    else
      HealedValid(db, email, pick);
      Ok(Finish(healed.value, name, email))
  }

  // ----- who counts as a machine, and what a row is filled with -----

  /** The words that mark a machine wherever they stand in the local part, and the service names that
      are the whole of it. */
  predicate MachineLocal(local: string) {
    || Contains(local, "no-reply") || Contains(local, "noreply") || Contains(local, "no_reply")
    || Contains(local, "postmaster") || Contains(local, "mailer-daemon") || Contains(local, "mailer")
    || Contains(local, "postfix") || Contains(local, "bounce") || Contains(local, "bot")
    || local in {"info", "support", "hello", "office", "sales", "admin"}
  }

  lemma MarkedExactly(local: string)
    ensures (exists k :: 0 <= k < |MACHINE_MARKS| && Contains(local, MACHINE_MARKS[k])) || local in SERVICE_NAMES <==>
            MachineLocal(local)
  {
    MarksAre(MACHINE_MARKS, local);
  }

  lemma MarksAre(marks: seq<string>, local: string)
    requires |marks| == 9
    ensures (exists k :: 0 <= k < |marks| && Contains(local, marks[k])) <==>
            Contains(local, marks[0]) || Contains(local, marks[1]) || Contains(local, marks[2]) || Contains(local, marks[3]) ||
            Contains(local, marks[4]) || Contains(local, marks[5]) || Contains(local, marks[6]) || Contains(local, marks[7]) ||
            Contains(local, marks[8])
  {
  }

  lemma MachineIs(email: string, local: string)
    requires TrimSpace(email) == email
    requires var text := Lower(email);
      var at := LastIndexOf(text, '@');
      local == if at > 0 then text[..at] else text
    ensures IsMachine(email) <==> MachineLocal(local)
  {
    MarkedExactly(local);
  }

  /** An address is a machine's if and only if what stands before its last '@', in lower case, is
      marked. */
  lemma MachineExactly(local: string, dom: string)
    requires local != "" && Lacks(dom, '@') && TrimSpace(local + "@" + dom) == local + "@" + dom
    ensures IsMachine(local + "@" + dom) <==> MachineLocal(Lower(local))
  {
    LastAt(local, dom);
    MachineIs(local + "@" + dom, Lower(local));
  }

  /** A text without '@', or with one only at its start, is looked at as a whole. */
  lemma MachineWithoutLocal(text: string)
    requires TrimSpace(text) == text && forall i :: 0 < i < |text| ==> text[i] != '@'
    ensures IsMachine(text) <==> MachineLocal(Lower(text))
  {
    assert forall i :: 0 <= i < |text| ==> Lower(text)[i] == LowerChar(text[i]);
    assert LastIndexOf(Lower(text), '@') <= 0;
    MachineIs(text, Lower(text));
  }

  lemma LastAt(local: string, dom: string)
    requires Lacks(dom, '@')
    ensures var text := Lower(local + "@" + dom);
      LastIndexOf(text, '@') == |local| && text[..|local|] == Lower(local)
  {
    var text := Lower(local + "@" + dom);
    assert text[|local|] == '@';
    assert forall i :: |local| < i < |text| ==> text[i] == LowerChar(dom[i - |local| - 1]);
  }

  /** Filling a row only fills what is empty: the name given, and the organisation "машина" for a
      machine's address. */
  lemma FillOnlyFills(p: Person, name: string, machine: bool)
    ensures var r := Filled(p, name, machine);
      r.name == (if p.name != "" then p.name else name) &&
      r.org == (if p.org != "" then p.org else if machine then "машина" else "")
  {
  }

  /** The address of nobody yet: no e-mail identity contains it. */
  predicate UnknownAddress(db: Db, email: string) {
    forall i :: i in db.identities && db.identities[i].kind == "email" ==> !Contains(Lower(db.identities[i].value), Lower(email))
  }

  /** The person is new, has the name, and owns the address; a nameless machine has the organisation
      "машина". Nobody else's row has changed. */
  ghost predicate NewlyNamed(db: Db, after: Db, person: nat, name: string, email: string) {
    person !in db.persons && OwnsAddress(after, email, person) &&
    (exists i: nat :: i !in db.identities && after.identities == db.identities[i := Identity(person, "email", email, "auto")]) &&
    after.persons == db.persons[person := Person(name, if name == "" && IsMachine(email) then "машина" else "", false, false, false)]
  }

  /** A new sender becomes a new person with exactly the given name, who owns the address. */
  lemma NewSenderIsNamed(db: Db, name: string, email: string, pick: nat)
    requires Valid(db) && UnknownAddress(db, email)
    ensures DirtyIds(db, email) == {}
    ensures var r := Ensure(db, name, email, pick);
      r.Ok? && NewlyNamed(db, r.value.0, r.value.1, name, email)
  {
    assert !HasIdentity(db, "email", email) by {
      if HasIdentity(db, "email", email) {
        var i :| IsIdentity(db, i, "email", email);
        ContainsItself(Lower(email));
      }
    }
    assert Heal(db, email, pick) == Ok(db);
    FinishNew(db, name, email);
    var after := Created(db, NewPerson(name, IsMachine(email)), email);
    assert IsIdentity(after, db.nextId + 1, "email", email);
    assert db.nextId + 1 !in db.identities;
  }

  // ----- what healing does -----

  /** The (kind, value) pairs of the identities. */
  ghost function Pairs(db: Db): set<(string, string)> {
    set i | i in db.identities :: (db.identities[i].kind, db.identities[i].value)
  }

  /** The pair is an e-mail identity that contains the address. */
  predicate Concerns(pair: (string, string), email: string) {
    pair.0 == "email" && Contains(Lower(pair.1), Lower(email))
  }

  lemma ContainsItself(s: string)
    ensures Contains(s, s)
  {
    assert s[0..0 + |s|] == s;
    assert ContainsAt(s, s, 0);
  }

  lemma HealedValid(db: Db, email: string, pick: nat)
    requires Valid(db) && (DirtyIds(db, email) != {} ==> pick in DirtyIds(db, email))
    requires Heal(db, email, pick).Ok?
    ensures Valid(Heal(db, email, pick).value)
  {
    if DirtyIds(db, email) != {} {
      if HasIdentity(db, "email", email) {
        var source, target := db.identities[pick].owner, db.identities[IdentityOf(db, "email", email)].owner;
        MergedValid(db, source, target);
      } else {
        assert forall i :: i in db.identities ==> !IsIdentity(db, i, "email", email);
      }
    }
  }

  /** Healing fails exactly when there is no clean identity and more than one dirty one. */
  lemma HealFailsExactly(db: Db, email: string, pick: nat)
    requires Valid(db) && (DirtyIds(db, email) != {} ==> pick in DirtyIds(db, email))
    ensures Heal(db, email, pick).Err? <==> !HasIdentity(db, "email", email) && |DirtyIds(db, email)| >= 2
  {
    var dirty := DirtyIds(db, email);
    if dirty != {} {
      assert dirty == {pick} <==> |dirty| == 1 by {
        if |dirty| == 1 {
          assert |dirty - {pick}| == 0;
        }
      }
    }
  }

  /** After healing, an identity containing the address is the address itself. */
  lemma HealedIsClean(db: Db, email: string, pick: nat)
    requires Valid(db) && (DirtyIds(db, email) != {} ==> pick in DirtyIds(db, email))
    requires Heal(db, email, pick).Ok?
    ensures DirtyIds(Heal(db, email, pick).value, email) == {}
  {
    var dirty := DirtyIds(db, email);
    var r := Heal(db, email, pick).value;
    forall i | i in r.identities
      ensures !Dirty(r.identities[i], email)
    {
      assert i in db.identities && (Dirty(db.identities[i], email) <==> i in dirty);
      assert SameKey(r.identities[i], db.identities[i]) || r.identities[i].value == email;
    }
  }

  /** Every row healing leaves was there, and every other row that is not dirty stays. */
  lemma HealKeepsRows(db: Db, email: string, pick: nat, i: nat)
    requires Valid(db) && (DirtyIds(db, email) != {} ==> pick in DirtyIds(db, email))
    requires Heal(db, email, pick).Ok?
    ensures var r := Heal(db, email, pick).value.identities;
      (i in r ==> i in db.identities) &&
      (i in db.identities && !Dirty(db.identities[i], email) ==> i in r && SameKey(r[i], db.identities[i])) &&
      (i in r && !Dirty(r[i], email) && r[i].value != email ==> SameKey(r[i], db.identities[i]))
  {
  }

  /** Healing neither adds nor drops a pair that does not contain the address. */
  lemma HealKeepsOtherPairs(db: Db, email: string, pick: nat, q: (string, string))
    requires Valid(db) && (DirtyIds(db, email) != {} ==> pick in DirtyIds(db, email))
    requires Heal(db, email, pick).Ok? && !Concerns(q, email)
    ensures q in Pairs(Heal(db, email, pick).value) <==> q in Pairs(db)
  {
    var r := Heal(db, email, pick).value;
    ContainsItself(Lower(email));
    if q in Pairs(db) {
      var i :| i in db.identities && (db.identities[i].kind, db.identities[i].value) == q;
      HealKeepsRows(db, email, pick, i);
    }
    if q in Pairs(r) {
      var i :| i in r.identities && (r.identities[i].kind, r.identities[i].value) == q;
      HealKeepsRows(db, email, pick, i);
    }
  }

  lemma FillKeepsValid(d: Db, owner: nat, row: Person)
    requires Valid(d) && owner in d.persons
    ensures Valid(d.(persons := d.persons[owner := row]))
  {
  }

  lemma CreatedKeepsValid(db: Db, person: Person, email: string)
    requires Valid(db) && !HasIdentity(db, "email", email)
    ensures Valid(Created(db, person, email))
    ensures forall q :: q in Pairs(Created(db, person, email)) <==> q in Pairs(db) || q == ("email", email)
  {
    CreatedSound(db, person, email);
    var r := Created(db, person, email);
    forall q
      ensures q in Pairs(r) <==> q in Pairs(db) || q == ("email", email)
    {
      if q in Pairs(db) {
        var i :| i in db.identities && (db.identities[i].kind, db.identities[i].value) == q;
        assert i in r.identities && r.identities[i] == db.identities[i];
      }
      if q == ("email", email) {
        assert db.nextId + 1 in r.identities;
      }
    }
  }

  lemma CleanPairs(d: Db, email: string, q: (string, string))
    requires DirtyIds(d, email) == {} && q in Pairs(d) && Concerns(q, email)
    ensures q == ("email", email)
  {
    var i :| i in d.identities && (d.identities[i].kind, d.identities[i].value) == q;
    assert i !in DirtyIds(d, email);
  }

  lemma FinishPairs(d: Db, name: string, email: string)
    requires Valid(d)
    ensures var (r, person) := Finish(d, name, email);
      Valid(r) && person in r.persons && OwnsAddress(r, email, person) &&
      (forall q :: q in Pairs(r) <==> q in Pairs(d) || q == ("email", email))
  {
    var (r, person) := Finish(d, name, email);
    if HasIdentity(d, "email", email) {
      var i := IdentityOf(d, "email", email);
      FillKeepsValid(d, person, r.persons[person]);
      assert IsIdentity(r, i, "email", email);
      assert ("email", email) in Pairs(d);
      assert Pairs(r) == Pairs(d);
    } else {
      CreatedKeepsValid(d, NewPerson(name, IsMachine(email)), email);
      assert IsIdentity(r, d.nextId + 1, "email", email);
    }
  }

  lemma FinishClean(d: Db, name: string, email: string)
    requires Valid(d) && DirtyIds(d, email) == {}
    ensures DirtyIds(Finish(d, name, email).0, email) == {}
  {
    var r := Finish(d, name, email).0;
    forall i | i in r.identities
      ensures !Dirty(r.identities[i], email)
    {
      assert i in d.identities ==> i !in DirtyIds(d, email);
    }
  }

  /** A successful call leaves exactly one identity containing the address: the address itself, owned
      by the returned person. All other pairs are as before. */
  lemma EnsureLeavesOneIdentity(db: Db, name: string, email: string, pick: nat)
    requires Valid(db) && (DirtyIds(db, email) != {} ==> pick in DirtyIds(db, email))
    requires Ensure(db, name, email, pick).Ok?
    ensures var (r, person) := Ensure(db, name, email, pick).value;
      Valid(r) && person in r.persons && OwnsAddress(r, email, person) && DirtyIds(r, email) == {} &&
      (forall q :: q in Pairs(r) && Concerns(q, email) ==> q == ("email", email)) &&
      (forall q :: !Concerns(q, email) ==> (q in Pairs(r) <==> q in Pairs(db)))
  {
    var d := Heal(db, email, pick).value;
    HealedValid(db, email, pick);
    HealedIsClean(db, email, pick);
    FinishPairs(d, name, email);
    FinishClean(d, name, email);
    ContainsItself(Lower(email));
    var r := Finish(d, name, email).0;
    forall q | q in Pairs(r) && Concerns(q, email)
      ensures q == ("email", email)
    {
      CleanPairs(r, email, q);
    }
    forall q | !Concerns(q, email)
      ensures q in Pairs(r) <==> q in Pairs(db)
    {
      HealKeepsOtherPairs(db, email, pick, q);
    }
  }

  lemma EnsureKeepsValid(db: Db, name: string, email: string, pick: nat)
    requires Valid(db) && (DirtyIds(db, email) != {} ==> pick in DirtyIds(db, email))
    ensures Ensure(db, name, email, pick).Ok? ==> Valid(Ensure(db, name, email, pick).value.0)
  {
    if Heal(db, email, pick).Ok? {
      HealedValid(db, email, pick);
      FinishPairs(Heal(db, email, pick).value, name, email);
    }
  }

  /** The call fails exactly when two or more stored values contain the address and none equals it:
      renaming them all breaks UNIQUE, and so does every later attempt. */
  lemma EnsureFailsExactly(db: Db, name: string, email: string, pick: nat)
    requires Valid(db) && (DirtyIds(db, email) != {} ==> pick in DirtyIds(db, email))
    ensures Ensure(db, name, email, pick).Err? <==> !HasIdentity(db, "email", email) && |DirtyIds(db, email)| >= 2
  {
    HealFailsExactly(db, email, pick);
  }

  lemma FilledIsFixed(p: Person, name: string, machine: bool)
    ensures Filled(Filled(p, name, machine), name, machine) == Filled(p, name, machine)
    ensures Filled(NewPerson(name, machine), name, machine) == NewPerson(name, machine) <==> !(machine && name != "")
  {
  }

  /** A fill writes the row exactly when it has something to add, and then the flags are lost. */
  lemma FillClearsFlagsExactly(p: Person, name: string, machine: bool)
    ensures var r := Filled(p, name, machine);
      var writes := (p.name == "" && name != "") || (p.org == "" && machine);
      (r == p <==> !writes) &&
      (writes ==> !r.isInternal && !r.confirmed && !r.archived) &&
      (r.confirmed == p.confirmed && r.archived == p.archived && r.isInternal == p.isInternal <==>
       !writes || !(p.confirmed || p.archived || p.isInternal))
  {
  }

  /** The database with the row of a person filled from a sender. */
  ghost function WithFilled(d: Db, name: string, email: string, person: nat): Db
    requires person in d.persons
  {
    d.(persons := d.persons[person := Filled(d.persons[person], name, IsMachine(email))])
  }

  /** With nothing to heal and the address known, a call only fills the owner's row. */
  lemma EnsureKnown(d: Db, name: string, email: string, person: nat, pick: nat)
    requires Valid(d) && DirtyIds(d, email) == {} && OwnsAddress(d, email, person)
    ensures person in d.persons
    ensures Ensure(d, name, email, pick) == Ok((WithFilled(d, name, email, person), person))
    ensures var r := WithFilled(d, name, email, person);
      Valid(r) && DirtyIds(r, email) == {} && OwnsAddress(r, email, person)
  {
    var i :| IsIdentity(d, i, "email", email) && d.identities[i].owner == person;
    assert HasIdentity(d, "email", email) && SameKey(d.identities[i], d.identities[IdentityOf(d, "email", email)]);
    FillKeepsValid(d, person, Filled(d.persons[person], name, IsMachine(email)));
    assert IsIdentity(WithFilled(d, name, email, person), i, "email", email);
  }

  lemma FillTwice(d: Db, name: string, email: string, person: nat)
    requires person in d.persons
    ensures var r := WithFilled(d, name, email, person);
      person in r.persons && WithFilled(r, name, email, person) == r &&
      (r == d <==> Filled(d.persons[person], name, IsMachine(email)) == d.persons[person])
  {
    var r := WithFilled(d, name, email, person);
    FilledIsFixed(d.persons[person], name, IsMachine(email));
    assert r.persons[person := r.persons[person]] == r.persons;
    assert d.persons[person := d.persons[person]] == d.persons;
  }

  /** Repeating a call returns the same person and changes at most that person's row; the third
      call changes nothing. Already the second changes nothing unless the first created the person
      of a named machine sender. */
  lemma EnsureSettles(db: Db, name: string, email: string, pick: nat, pick2: nat, pick3: nat)
    requires Valid(db) && (DirtyIds(db, email) != {} ==> pick in DirtyIds(db, email))
    requires Ensure(db, name, email, pick).Ok?
    ensures var (r, person) := Ensure(db, name, email, pick).value;
      Valid(r) && DirtyIds(r, email) == {} && person in r.persons &&
      var r2 := WithFilled(r, name, email, person);
      Valid(r2) && DirtyIds(r2, email) == {} &&
      Ensure(r, name, email, pick2) == Ok((r2, person)) && Ensure(r2, name, email, pick3) == Ok((r2, person)) &&
      (r2 == r <==> !(person !in db.persons && IsMachine(email) && name != ""))
  {
    var (r, person) := Ensure(db, name, email, pick).value;
    EnsureLeavesOneIdentity(db, name, email, pick);
    EnsureKnown(r, name, email, person, pick2);
    EnsureKnown(WithFilled(r, name, email, person), name, email, person, pick3);
    FillTwice(r, name, email, person);
    FirstRow(db, name, email, pick);
  }

  lemma HealKeepsPersons(db: Db, email: string, pick: nat)
    requires Valid(db) && (DirtyIds(db, email) != {} ==> pick in DirtyIds(db, email))
    requires Heal(db, email, pick).Ok?
    ensures Heal(db, email, pick).value.persons.Keys == db.persons.Keys
  {
  }

  /** The row after the first call: freshly made for a person that did not exist, else filled. */
  lemma FirstRow(db: Db, name: string, email: string, pick: nat)
    requires Valid(db) && (DirtyIds(db, email) != {} ==> pick in DirtyIds(db, email))
    requires Ensure(db, name, email, pick).Ok?
    ensures var (r, person) := Ensure(db, name, email, pick).value;
      person in r.persons &&
      (Filled(r.persons[person], name, IsMachine(email)) == r.persons[person] <==>
       !(person !in db.persons && IsMachine(email) && name != ""))
  {
    HealedValid(db, email, pick);
    HealKeepsPersons(db, email, pick);
    FinishRow(Heal(db, email, pick).value, name, email);
  }

  lemma FinishRow(d: Db, name: string, email: string)
    requires Valid(d)
    ensures var (r, person) := Finish(d, name, email);
      person in r.persons &&
      (Filled(r.persons[person], name, IsMachine(email)) == r.persons[person] <==>
       !(person !in d.persons && IsMachine(email) && name != ""))
  {
    if HasIdentity(d, "email", email) {
      var owner := d.identities[IdentityOf(d, "email", email)].owner;
      FilledIsFixed(d.persons[owner], name, IsMachine(email));
    } else {
      FilledIsFixed(NOBODY, name, IsMachine(email));
    }
  }

  // ----- whose identity a call touches -----

  /** A successful healing leaves the identities alone if and only if none is dirty. */
  lemma HealChangesIdentitiesExactly(db: Db, email: string, pick: nat)
    requires Valid(db) && (DirtyIds(db, email) != {} ==> pick in DirtyIds(db, email))
    requires Heal(db, email, pick).Ok?
    ensures Heal(db, email, pick).value.identities == db.identities <==> DirtyIds(db, email) == {}
  {
    var r := Heal(db, email, pick).value;
    if DirtyIds(db, email) != {} {
      assert Dirty(db.identities[pick], email);
      assert pick !in r.identities || r.identities[pick].value == email;
    }
  }

  /** The address has no identity of its own, and another value containing it is taken for it. */
  ghost predicate TakesOver(db: Db, email: string) { DirtyIds(db, email) != {} && !HasIdentity(db, "email", email) }

  /** A call returns a person who existed before and did not own the address if and only if another
      value that contains the address is renamed to it; that person's identity is lost. */
  lemma TakesOverExactly(db: Db, name: string, email: string, pick: nat)
    requires Valid(db) && (DirtyIds(db, email) != {} ==> pick in DirtyIds(db, email))
    requires Ensure(db, name, email, pick).Ok?
    ensures var (r, person) := Ensure(db, name, email, pick).value;
      (person in db.persons && !OwnsAddress(db, email, person) <==> TakesOver(db, email)) &&
      (TakesOver(db, email) ==> person == db.identities[pick].owner && pick in r.identities && r.identities[pick].value == email != db.identities[pick].value)
  {
    var d := Heal(db, email, pick).value;
    HealedValid(db, email, pick);
    if HasIdentity(db, "email", email) {
      KnownStays(db, email, pick);
    } else if DirtyIds(db, email) != {} {
      assert IsIdentity(d, pick, "email", email);
      FinishKnown(d, pick, name, email);
      assert Dirty(db.identities[pick], email);
    }
  }

  /** An address that had an owner keeps that owner through the healing. */
  lemma KnownStays(db: Db, email: string, pick: nat)
    requires Valid(db) && (DirtyIds(db, email) != {} ==> pick in DirtyIds(db, email))
    requires HasIdentity(db, "email", email)
    ensures var i, d := IdentityOf(db, "email", email), Heal(db, email, pick).value;
      HasIdentity(d, "email", email) && IdentityOf(d, "email", email) == i && d.identities[i].owner == db.identities[i].owner &&
      OwnsAddress(db, email, db.identities[i].owner)
  {
    var i, d := IdentityOf(db, "email", email), Heal(db, email, pick).value;
    HealedValid(db, email, pick);
    assert i !in DirtyIds(db, email);
    assert IsIdentity(d, i, "email", email);
    FinishKnown(d, i, "", email);
  }

  /** The owner of the picked dirty identity is merged into the owner of the address. */
  ghost predicate MergesAway(db: Db, email: string, pick: nat) {
    pick in DirtyIds(db, email) && HasIdentity(db, "email", email) &&
    db.identities[pick].owner != db.identities[IdentityOf(db, "email", email)].owner
  }

  /** A call archives a person if and only if that person owns the picked dirty identity while somebody
      else owns the address; nothing refers to the archived person afterwards. */
  lemma ArchivesExactly(db: Db, name: string, email: string, pick: nat, p: nat)
    requires Valid(db) && (DirtyIds(db, email) != {} ==> pick in DirtyIds(db, email))
    requires Ensure(db, name, email, pick).Ok? && p in db.persons && !db.persons[p].archived
    ensures var r := Ensure(db, name, email, pick).value.0;
      p in r.persons && (r.persons[p].archived <==> MergesAway(db, email, pick) && p == db.identities[pick].owner) &&
      (r.persons[p].archived ==> !Mentions(r, p))
  {
    var d := Heal(db, email, pick).value;
    HealedValid(db, email, pick);
    FinishArchivesNobody(d, name, email, p);
    HealArchivesExactly(db, email, pick, p);
    if MergesAway(db, email, pick) {
      KnownStays(db, email, pick);
    }
  }

  lemma HealArchivesExactly(db: Db, email: string, pick: nat, p: nat)
    requires Valid(db) && (DirtyIds(db, email) != {} ==> pick in DirtyIds(db, email))
    requires Heal(db, email, pick).Ok? && p in db.persons && !db.persons[p].archived
    ensures var d := Heal(db, email, pick).value;
      p in d.persons && (d.persons[p].archived <==> MergesAway(db, email, pick) && p == db.identities[pick].owner) &&
      (d.persons[p].archived ==> !Mentions(d, p))
  {
    if MergesAway(db, email, pick) {
      MergeForgetsSource(db, db.identities[pick].owner, db.identities[IdentityOf(db, "email", email)].owner);
    }
  }

  lemma FinishArchivesNobody(d: Db, name: string, email: string, p: nat)
    requires Valid(d) && p in d.persons
    ensures var r := Finish(d, name, email).0;
      p in r.persons && (r.persons[p].archived ==> d.persons[p].archived) &&
      (HasIdentity(d, "email", email) && d.identities[IdentityOf(d, "email", email)].owner != p ==>
       r.persons[p] == d.persons[p] && (Mentions(r, p) <==> Mentions(d, p)))
  {
  }

  // ----- when the LIMIT 1 query does not matter -----

  /** Merging the person changes nothing any more but dirty identities, which go anyway. */
  predicate Spent(db: Db, p: nat, dirty: set<nat>)
    requires p in db.persons
  {
    && db.persons[p].archived
    && (forall t :: t in db.tasks ==> db.tasks[t].requestor != Some(p) && db.tasks[t].assignee != Some(p))
    && (forall k :: 0 <= k < |db.comments| ==> db.comments[k].authorPerson != Some(p))
    && (forall r :: r in db.rejections ==> r.1 != p)
    && (forall i :: i in db.identities && i !in dirty ==> db.identities[i].owner != p)
  }

  lemma MergeOfSpent(db: Db, p: nat, target: nat, dirty: set<nat>)
    requires p in db.persons && p != target && Spent(db, p, dirty)
    ensures Removed(Merged(db, p, target), dirty) == Removed(db, dirty)
  {
    var r := Merged(db, p, target);
    assert forall t :: t in db.tasks ==> r.tasks[t] == db.tasks[t];
    assert forall i :: i in db.identities && i !in dirty ==> r.identities[i] == db.identities[i];
    assert r.tasks == db.tasks && r.comments == db.comments && r.rejections == db.rejections;
    assert db.persons[p].(archived := true) == db.persons[p];
    assert r.persons == db.persons;
    assert r.identities - dirty == db.identities - dirty;
  }

  /** The owner of a picked identity merged, if it is not the target itself. */
  function MergedUnless(db: Db, p: nat, target: nat): Db
    requires p in db.persons
  {
    if p == target then db else Merged(db, p, target)
  }

  lemma SameMergeNeedsSpent(db: Db, p: nat, q: nat, target: nat, dirty: set<nat>)
    requires p in db.persons && q in db.persons && p != q && p != target
    requires Removed(Merged(db, p, target), dirty) == Removed(MergedUnless(db, q, target), dirty)
    ensures Spent(db, p, dirty)
  {
    var r, s := Merged(db, p, target), MergedUnless(db, q, target);
    assert r.persons[p].archived && s.persons[p] == db.persons[p];
    forall t | t in db.tasks
      ensures db.tasks[t].requestor != Some(p) && db.tasks[t].assignee != Some(p)
    {
      assert r.tasks[t] == s.tasks[t];
    }
    forall k | 0 <= k < |db.comments|
      ensures db.comments[k].authorPerson != Some(p)
    {
      assert r.comments[k] == s.comments[k];
    }
    forall x | x in db.rejections
      ensures x.1 != p
    {
      assert x.1 == p ==> x in s.rejections && x !in r.rejections;
    }
    forall i | i in db.identities && i !in dirty
      ensures db.identities[i].owner != p
    {
      assert (r.identities - dirty)[i] == (s.identities - dirty)[i];
    }
  }

  /** Whichever dirty identity the query returns, the healed database is the same if and only if both
      belong to one person, or merging either owner changes nothing that stays. */
  lemma PickDoesNotMatterExactly(db: Db, email: string, pick: nat, pick2: nat)
    requires Valid(db) && pick in DirtyIds(db, email) && pick2 in DirtyIds(db, email) && HasIdentity(db, "email", email)
    ensures var dirty, p, q := DirtyIds(db, email), db.identities[pick].owner, db.identities[pick2].owner;
      var target := db.identities[IdentityOf(db, "email", email)].owner;
      Heal(db, email, pick) == Heal(db, email, pick2) <==>
      p == q || ((p == target || Spent(db, p, dirty)) && (q == target || Spent(db, q, dirty)))
  {
    var dirty, p, q := DirtyIds(db, email), db.identities[pick].owner, db.identities[pick2].owner;
    var target := db.identities[IdentityOf(db, "email", email)].owner;
    var a, b := Removed(MergedUnless(db, p, target), dirty), Removed(MergedUnless(db, q, target), dirty);
    assert Heal(db, email, pick) == Ok(a) && Heal(db, email, pick2) == Ok(b);
    if p != q {
      if a == b {
        if p != target { SameMergeNeedsSpent(db, p, q, target, dirty); }
        if q != target { SameMergeNeedsSpent(db, q, p, target, dirty); }
      } else {
        if p != target && Spent(db, p, dirty) { MergeOfSpent(db, p, target, dirty); }
        if q != target && Spent(db, q, dirty) { MergeOfSpent(db, q, target, dirty); }
      }
    }
  }

  lemma AnnaContainsA()
    ensures Dirty(Identity(0, "email", "anna@b.ru", "manual"), "a@b.ru")
  {
    var anna, a := "anna@b.ru", "a@b.ru";
    assert Lower(anna) == anna && Lower(a) == a;
    assert anna[3..3 + |a|] == a;
    assert ContainsAt(Lower(anna), Lower(a), 3);
  }

  lemma OnlyDirty(db: Db, email: string, x: Identity)
    requires Valid(db) && db.identities == map[1 := x] && Dirty(x, email)
    ensures DirtyIds(db, email) == {1} && !HasIdentity(db, "email", email)
    ensures Heal(db, email, 1) == Ok(Renamed(db, 1, email)) && Valid(Renamed(db, 1, email))
  {
    assert DirtyIds(db, email) == {1};
    HealedValid(db, email, 1);
  }

  lemma OnlyDirtyIsTaken(db: Db, email: string, x: Identity)
    requires Valid(db) && db.identities == map[1 := x] && x.kind == "email" && Dirty(x, email)
    ensures DirtyIds(db, email) == {1} && Ensure(db, "", email, 1).Ok?
    ensures Ensure(db, "", email, 1).value.1 == x.owner && Pairs(Ensure(db, "", email, 1).value.0) == {("email", email)}
  {
    OnlyDirty(db, email, x);
    var d := Renamed(db, 1, email);
    assert d.identities == map[1 := x.(value := email)];
    FinishOnRenamed(d, email, x.(value := email));
  }

  lemma FinishOnRenamed(d: Db, a: string, x: Identity)
    requires Valid(d) && d.identities == map[1 := x] && x.kind == "email" && x.value == a
    ensures Finish(d, "", a).1 == x.owner && Pairs(Finish(d, "", a).0) == {("email", a)}
  {
    assert IsIdentity(d, 1, "email", a);
    assert Finish(d, "", a).0.identities == d.identities;
  }

  /** For instance: asking for a@b.ru hands over the person and the identity of anna@b.ru. */
  lemma AnnaIsTakenForA(db: Db)
    requires Valid(db) && db.identities == map[1 := Identity(0, "email", "anna@b.ru", "manual")]
    ensures DirtyIds(db, "a@b.ru") == {1}
    ensures Ensure(db, "", "a@b.ru", 1).Ok? && Ensure(db, "", "a@b.ru", 1).value.1 == 0
    ensures Pairs(Ensure(db, "", "a@b.ru", 1).value.0) == {("email", "a@b.ru")}
  {
    AnnaContainsA();
    OnlyDirtyIsTaken(db, "a@b.ru", Identity(0, "email", "anna@b.ru", "manual"));
  }

  // ----- reading the sender -----

  predicate LocalChar(c: char) {
    'a' <= c <= 'z' || 'A' <= c <= 'Z' || '0' <= c <= '9' || c == '.' || c == '_' || c == '-' || c == '+'
  }

  predicate LabelChar(c: char) { 'a' <= c <= 'z' || 'A' <= c <= 'Z' || '0' <= c <= '9' || c == '-' }

  /** isValidPersonEmail. */
  predicate ValidPersonEmail(s: string) {
    var at := LastIndexOf(s, '@');
    && s != "" && s == TrimSpace(s)
    && 0 < at < |s| - 1
    && (forall i :: 0 <= i < at ==> LocalChar(s[i]))
    && var labels := Split(s[at + 1..], '.');
    |labels| >= 2 &&
    forall k :: 0 <= k < |labels| ==> labels[k] != "" && forall i :: 0 <= i < |labels[k]| ==> LabelChar(labels[k][i])
  }

  /** The name and the address EnsurePersonFromIncoming works with, or none for a sender it ignores;
      f is what the address column parses to. */
  function ReadSender(fromName: string, fromEmail: string, f: From, valid: Validator): (r: Option<(string, string)>)
    ensures r.Some? ==> valid(r.value.1)
  {
    var email := Normalized(if f.email != "" then f.email else fromEmail);
    var name := if f.email != "" && f.name != "" && TrimSpace(fromName) == "" then f.name else fromName;
    if valid(email) then Some((TrimSpace(name), email)) else None
  }

  function Sender(fromName: string, fromEmail: string, dec: Decoder): (r: Option<(string, string)>)
    ensures r.Some? ==> ValidPersonEmail(r.value.1)
  {
    ReadSender(fromName, fromEmail, ParseFromHeader(fromEmail, dec), ValidPersonEmail)
  }

  lemma {:induction false} SplitChars(s: string, c: char, i: nat)
    requires i < |s| && s[i] != c
    ensures exists k :: 0 <= k < |Split(s, c)| && s[i] in Split(s, c)[k]
  {
    var parts := Split(s[1..], c);
    if i == 0 {
      assert s[0] in Split(s, c)[0];
    } else {
      SplitChars(s[1..], c, i - 1);
      var k :| 0 <= k < |parts| && s[1..][i - 1] in parts[k];
      assert s[i] == s[1..][i - 1];
      if s[0] == c {
        assert Split(s, c)[k + 1] == parts[k];
      } else if k > 0 {
        assert Split(s, c)[k] == parts[k];
      } else {
        assert Split(s, c)[0] == [s[0]] + parts[0];
      }
    }
  }

  /** The characters of a valid person e-mail. */
  lemma AddressChars(u: string, i: nat)
    requires ValidPersonEmail(u) && i < |u|
    ensures if i == LastIndexOf(u, '@') then u[i] == '@' else LocalChar(u[i])
  {
    var at := LastIndexOf(u, '@');
    if i > at {
      var dom := u[at + 1..];
      assert dom[i - at - 1] == u[i];
      if u[i] != '.' {
        SplitChars(dom, '.', i - at - 1);
        var k :| 0 <= k < |Split(dom, '.')| && u[i] in Split(dom, '.')[k];
      }
    }
  }

  /** A text of such characters in any case, with nothing else but one '@' in it. */
  predicate AddressLike(v: string, at: int) {
    0 < at < |v| && forall i :: 0 <= i < |v| ==> if i == at then v[i] == '@' else LocalChar(v[i])
  }

  lemma LowersToAddress(v: string)
    requires ValidPersonEmail(Lower(v))
    ensures AddressLike(v, LastIndexOf(Lower(v), '@'))
  {
    forall i | 0 <= i < |v|
      ensures if i == LastIndexOf(Lower(v), '@') then v[i] == '@' else LocalChar(v[i])
    {
      AddressChars(Lower(v), i);
    }
  }

  lemma AddressLikeIsPlain(v: string, at: int)
    requires AddressLike(v, at)
    ensures NoSpace(v) && Trimmed(v) && v != "" && Lacks(v, '=') && Lacks(v, '<') && IndexOf(v, '@') == at
  {
    forall i | 0 <= i < |v|
      ensures !IsSpace(v[i])
    {
      NotSpace(v[i]);
    }
    var r := IndexOf(v, '@');
    assert !LocalChar('@') && v[at] == '@' && v[r] == '@';
  }

  lemma {:induction false} JoinUndoesSplit(s: string, c: char)
    ensures JoinedBy(Split(s, c), c) == s
  {
    if s != [] {
      var parts := Split(s[1..], c);
      JoinUndoesSplit(s[1..], c);
      if s[0] == c {
        assert ([[]] + parts)[1..] == parts;
        assert [] + [c] + JoinedBy(parts, c) == [c] + s[1..];
      } else {
        FrontOfJoined(s[0], parts, c);
      }
    }
  }

  lemma FrontOfJoined(d: char, parts: seq<string>, c: char)
    requires parts != []
    ensures JoinedBy([[d] + parts[0]] + parts[1..], c) == [d] + JoinedBy(parts, c)
  {
    var more := [[d] + parts[0]] + parts[1..];
    assert more[1..] == parts[1..];
    if |parts| > 1 {
      assert [d] + parts[0] + [c] + JoinedBy(parts[1..], c) == [d] + (parts[0] + [c] + JoinedBy(parts[1..], c));
    }
  }

  predicate AllLocal(s: string) { forall i :: 0 <= i < |s| ==> LocalChar(s[i]) }

  predicate AllLabel(s: string) { s != "" && forall i :: 0 <= i < |s| ==> LabelChar(s[i]) }

  /** A local part, '@', and at least two labels with points between them. */
  predicate AddressOfParts(s: string, local: string, labels: seq<string>) {
    s == local + "@" + JoinedBy(labels, '.') && local != "" && AllLocal(local) && |labels| >= 2 && forall l :: l in labels ==> AllLabel(l)
  }

  lemma {:induction false} LabelsAreLocal(labels: seq<string>)
    requires forall l :: l in labels ==> AllLabel(l)
    ensures AllLocal(JoinedBy(labels, '.')) && (labels != [] ==> JoinedBy(labels, '.') != "")
  {
    if labels != [] {
      assert labels[0] in labels;
      LabelsAreLocal(labels[1..]);
    }
  }

  lemma PartsAreLike(s: string, local: string, labels: seq<string>)
    requires AddressOfParts(s, local, labels)
    ensures AddressLike(s, |local|) && LastIndexOf(s, '@') == |local| && s[|local| + 1..] == JoinedBy(labels, '.')
  {
    LabelsAreLocal(labels);
    var dom := JoinedBy(labels, '.');
    assert forall i :: |local| < i < |s| ==> s[i] == dom[i - |local| - 1];
    assert s[|local|] == '@' && !LocalChar('@');
  }

  lemma ValidHasParts(s: string) returns (local: string, labels: seq<string>)
    requires ValidPersonEmail(s)
    ensures AddressOfParts(s, local, labels)
  {
    var at := LastIndexOf(s, '@');
    local, labels := s[..at], Split(s[at + 1..], '.');
    JoinUndoesSplit(s[at + 1..], '.');
    assert s == local + "@" + s[at + 1..];
  }

  lemma PartsTrim(s: string, local: string, labels: seq<string>)
    requires AddressOfParts(s, local, labels)
    ensures s != "" && TrimSpace(s) == s
  {
    PartsAreLike(s, local, labels);
    AddressLikeIsPlain(s, |local|);
    TrimTrimmed(s);
  }

  lemma PartsAreValid(s: string, local: string, labels: seq<string>)
    requires AddressOfParts(s, local, labels)
    ensures ValidPersonEmail(s)
  {
    PartsTrim(s, local, labels);
    PartsAreLike(s, local, labels);
    DomainSplits(s[|local| + 1..], labels);
    assert forall i :: 0 <= i < |local| ==> s[i] == local[i];
  }

  lemma DomainSplits(dom: string, labels: seq<string>)
    requires |labels| >= 2 && dom == JoinedBy(labels, '.') && forall l :: l in labels ==> AllLabel(l)
    ensures dom != "" && Split(dom, '.') == labels
    ensures forall k :: 0 <= k < |labels| ==> labels[k] != "" && forall i :: 0 <= i < |labels[k]| ==> LabelChar(labels[k][i])
  {
    LabelsLackPoints(labels);
    SplitUndoesJoin(labels, '.');
    LabelsAreLocal(labels);
    forall k | 0 <= k < |labels|
      ensures AllLabel(labels[k])
    {
      assert labels[k] in labels;
    }
  }

  /** A valid person e-mail is exactly a local part, '@', and at least two labels. */
  lemma ValidPersonEmailExactly(s: string)
    ensures ValidPersonEmail(s) <==> exists local, labels :: AddressOfParts(s, local, labels)
  {
    if ValidPersonEmail(s) {
      var local, labels := ValidHasParts(s);
    }
    forall local, labels | AddressOfParts(s, local, labels)
      ensures ValidPersonEmail(s)
    {
      PartsAreValid(s, local, labels);
    }
  }

  lemma LabelsLackPoints(labels: seq<string>)
    requires forall l :: l in labels ==> AllLabel(l)
    ensures forall l :: l in labels ==> Lacks(l, '.')
  {
  }

  lemma LikeParses(v: string, at: int, valid: Validator)
    requires AddressLike(v, at)
    ensures ParseDecoded(v, valid) in {From("", ""), From(v, "")}
  {
    AddressLikeIsPlain(v, at);
    TrimTrimmed(v);
  }

  lemma LikeIsRead(g: string, at: int, dec: Decoder)
    requires AddressLike(TrimSpace(g), at)
    ensures ParseFromHeader(g, dec) in {From("", ""), From(TrimSpace(g), "")}
  {
    AddressLikeIsPlain(TrimSpace(g), at);
    BareDecodes(g, dec);
    LikeParses(TrimSpace(g), at, ValidAddress);
  }

  lemma NormalizedTwice(g: string)
    ensures Normalized(g) == Lower(TrimSpace(g)) && Normalized(TrimSpace(g)) == Normalized(g)
  {
    TrimLower(g);
    TrimLower(TrimSpace(g));
    TrimTrimmed(TrimSpace(g));
  }

  lemma NormalizedIsFixed(e: string)
    requires NoSpace(e) && Lower(e) == e
    ensures Normalized(e) == e && TrimSpace(e) == e
  {
    TrimTrimmed(e);
  }

  /** A text that, trimmed and in lower case, is a valid person e-mail is read without a name, and as
      itself if as any address. */
  lemma BareIsRead(g: string, dec: Decoder)
    requires ValidPersonEmail(Normalized(g))
    ensures ParseFromHeader(g, dec) in {From("", ""), From(TrimSpace(g), "")}
  {
    NormalizedTwice(g);
    LowersToAddress(TrimSpace(g));
    LikeIsRead(g, LastIndexOf(Normalized(g), '@'), dec);
  }

  /** A valid person e-mail in lower case. */
  lemma AddressShape(e: string)
    requires ValidPersonEmail(e) && Lower(e) == e
    ensures NoSpace(e) && Normal(e) && e != "" && Lacks(e, ',') && Lacks(e, '<') && Normalized(e) == e && TrimSpace(e) == e
  {
    LowersToAddress(e);
    var at := LastIndexOf(e, '@');
    AddressLikeIsPlain(e, at);
    LikeLacksComma(e, at);
    NormalizedIsFixed(e);
  }

  lemma LikeLacksComma(v: string, at: int)
    requires AddressLike(v, at)
    ensures Lacks(v, ',')
  {
  }

  lemma BareDecodes(g: string, dec: Decoder)
    requires var v := TrimSpace(g); v != "" && NoSpace(v) && Lacks(v, '=')
    ensures Decoded(g, dec) == TrimSpace(g)
  {
    var v := TrimSpace(g);
    var a, b := TrimSplits(g);
    SpacesLack(a, '=');
    SpacesLack(b, '=');
    assert forall i :: 0 <= i < |g| ==> g[i] != '=' by {
      assert g == a + v + b;
    }
    assert !Contains(g, "=?") by {
      forall i
        ensures !ContainsAt(g, "=?", i)
      {
        PairAt(g, "=?", i);
      }
    }
    NoWordsToDecode(g, dec);
    assert Gapped([a, b], [v]) == g by {
      assert [a, b][1..] == [b] && [v][1..] == [];
    }
    FieldsAreJoined([a, b], [v]);
    TrimTrimmed(v);
  }

  lemma SpacesLack(s: string, c: char)
    requires AllSpace(s) && '!' <= c <= '~'
    ensures Lacks(s, c)
  {
    NotSpace(c);
  }

  /** The usual call with a separate name: the sender's address is the given one, trimmed and in lower
      case, and the name the given one, trimmed. */
  lemma SenderOfBareAddress(fromName: string, fromEmail: string, dec: Decoder)
    requires ValidPersonEmail(Normalized(fromEmail))
    ensures Sender(fromName, fromEmail, dec) == Some((TrimSpace(fromName), Normalized(fromEmail)))
  {
    BareIsRead(fromEmail, dec);
    NormalizedTwice(fromEmail);
  }

  lemma HeaderParses(n: string, e: string, dec: Decoder)
    requires ValidAddress(e) && Normal(e) && Lacks(e, ',')
    requires Normal(n) && n != "" && Lacks(n, '<') && !Contains(n + " <" + e + ">", "=?")
    ensures ParseFromHeader(n + " <" + e + ">", dec) == From(e, Unquoted(n))
  {
    PrintedParse(From(e, n), dec);
  }

  /** A printed header: the address is the header's, and its name, freed of quotes, counts only if no
      other is given. */
  lemma SenderOfHeader(fromName: string, n: string, e: string, dec: Decoder)
    requires ValidAddress(e) && ValidPersonEmail(e) && Lower(e) == e
    requires Normal(n) && n != "" && Lacks(n, '<') && !Contains(n + " <" + e + ">", "=?")
    ensures Sender(fromName, n + " <" + e + ">", dec) ==
            Some((if TrimSpace(fromName) == "" then Unquoted(n) else TrimSpace(fromName), e))
  {
    AddressShape(e);
    HeaderParses(n, e, dec);
    TrimTrimmed(Unquoted(n));
    SenderIs(fromName, n + " <" + e + ">", From(e, Unquoted(n)), ValidPersonEmail);
  }

  lemma SenderIs(fromName: string, fromEmail: string, f: From, valid: Validator)
    requires f.email != "" && Normalized(f.email) == f.email && valid(f.email) && TrimSpace(f.name) == f.name
    ensures ReadSender(fromName, fromEmail, f, valid) ==
            Some((if TrimSpace(fromName) == "" then f.name else TrimSpace(fromName), f.email))
  {
  }

  /** A sender is ignored if and only if neither the address in the header nor the text itself is,
      trimmed and in lower case, a valid person e-mail. */
  lemma IgnoredExactly(fromName: string, fromEmail: string, dec: Decoder)
    ensures Sender(fromName, fromEmail, dec).None? <==>
            !ValidPersonEmail(Normalized(ParseFromHeader(fromEmail, dec).email)) && !ValidPersonEmail(Normalized(fromEmail))
  {
    if ValidPersonEmail(Normalized(fromEmail)) {
      SenderOfBareAddress(fromName, fromEmail, dec);
    } else if ParseFromHeader(fromEmail, dec).email == "" {
      assert Normalized("") == "" && !ValidPersonEmail("");
    }
  }

  /** A given name goes before the header's. */
  lemma GivenNameWins(fromName: string, fromEmail: string, dec: Decoder)
    requires Sender(fromName, fromEmail, dec).Some? && TrimSpace(fromName) != ""
    ensures Sender(fromName, fromEmail, dec).value.0 == TrimSpace(fromName)
  {
  }

  /** The text that says who confirmed a task stands for the address it is, or for the one in its
      header. */
  lemma ConfirmerIsAddress(e: string, dec: Decoder)
    requires ValidPersonEmail(e) && Lower(e) == e
    ensures AddressOf(e, dec) == e
  {
    AddressShape(e);
    BareIsRead(e, dec);
  }

  lemma ConfirmerInHeader(n: string, e: string, dec: Decoder)
    requires ValidAddress(e) && ValidPersonEmail(e) && Lower(e) == e
    requires Normal(n) && n != "" && Lacks(n, '<') && Lower(n) == n && !Contains(n + " <" + e + ">", "=?")
    ensures AddressOf(n + " <" + e + ">", dec) == e
  {
    AddressShape(e);
    HeaderParses(n, e, dec);
    HeaderIsLower(n, e);
  }

  lemma HeaderIsLower(n: string, e: string)
    requires Normal(n) && Normal(e) && n != "" && e != "" && Lower(n) == n && Lower(e) == e
    ensures var s := n + " <" + e + ">"; Lower(TrimSpace(s)) == s
  {
    LowerHeader(n, e);
    PrintIsNormal(e, n);
    NormalIsFixed(n + " <" + e + ">");
  }

  lemma LowerHeader(n: string, e: string)
    requires Lower(n) == n && Lower(e) == e
    ensures Lower(n + " <" + e + ">") == n + " <" + e + ">"
  {
    LowerParts(n + " <" + e + ">", n, " <" + e, ">");
    LowerParts(" <" + e, " <", e, "");
  }

  /** Closing a task adds an identity with some property of its value if and only if the task is still
      unassigned, the text that says who confirmed it resolves to one with that property, and the
      resolved text has no identity. */
  lemma ClosingAddsExactly(db: Db, id: int, to: string, actor: string, addr: Resolver, author: string, p: string -> bool)
    requires Sound(db) && id in db.tasks && Confirmed(db, id, author)
    ensures var r, text := Transition(db, id, to, actor, addr), addr(author);
      (exists i :: i in r.identities && i !in db.identities && p(r.identities[i].value)) <==>
      to in {"completed", "closed"} && db.tasks[id].assignee.None? && text != "" && p(text) && !HasIdentity(db, "email", text)
  {
    ConfirmerExactly(db, id, author);
    var r, text := Transition(db, id, to, actor, addr), addr(author);
    var moved := WithStatus(db, id, to);
    StatusFrame(db, id, to);
    assert HasIdentity(db, "email", text) <==> HasIdentity(moved, "email", text) by {
      assert forall i :: IsIdentity(db, i, "email", text) <==> IsIdentity(moved, i, "email", text);
    }
    if Closed(to) && db.tasks[id].assignee.None? && text != "" && !HasIdentity(db, "email", text) {
      assert r.identities == Created(moved, NOBODY, text).identities;
      assert db.nextId + 1 in r.identities && db.nextId + 1 !in db.identities;
    } else {
      assert r.identities == db.identities;
    }
  }

  /** So what closing stores as an e-mail identity is no valid address if and only if the text that
      says who confirmed the task names none and is new. */
  lemma ClosingStoresNonAddressExactly(db: Db, id: int, to: string, actor: string, dec: Decoder, author: string)
    requires Sound(db) && id in db.tasks && Confirmed(db, id, author)
    ensures var r, text := Transition(db, id, to, actor, Resolve(dec)), AddressOf(author, dec);
      (exists i :: i in r.identities && i !in db.identities && !ValidPersonEmail(r.identities[i].value)) <==>
      to in {"completed", "closed"} && db.tasks[id].assignee.None? &&
      text != "" && !ValidPersonEmail(text) && !HasIdentity(db, "email", text)
  {
    ClosingAddsExactly(db, id, to, actor, Resolve(dec), author, (s: string) => !ValidPersonEmail(s));
  }

  /** For instance: an incoming comment written under the name "ai", as the verdicts are, makes a
      person whose e-mail identity is "ai". */
  lemma ClosingMayStoreNonAddress(db: Db, id: int, to: string, actor: string, dec: Decoder)
    requires Valid(db) && id in db.tasks && to in {"completed", "closed"} && db.tasks[id].assignee.None?
    requires db.comments == [Comment(id, "ai", true, 0, None)] && !HasIdentity(db, "email", "ai")
    ensures !ValidPersonEmail("ai")
    ensures HasIdentity(Transition(db, id, to, actor, Resolve(dec)), "email", "ai")
  {
    var s := "ai";
    assert LastIndexOf(s, '@') == -1;
    assert LatestIncoming(db.comments, id, 0) && db.comments[0].author == s;
    NotSpace('a');
    NotSpace('i');
    TrimTrimmed(s);
    assert Lower(s) == s;
    assert !Contains(s, "=?") by {
      assert !ContainsAt(s, "=?", 0);
    }
    DecodedIsFixed(s, dec);
    assert IndexOf(s, '<') == -1 && IndexOf(s, '@') == -1;
    assert ParseFromHeader(s, dec) == From("", "");
    assert Resolve(dec)(s) == AddressOf(s, dec) == s;
    ClosingAssignsConfirmer(db, id, to, actor, Resolve(dec));
    assert Confirmed(db, id, s);
  }
}
