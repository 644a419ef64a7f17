/** Callers that look up a new sender's address and create its person, interleaved: the lookup and the
    inserting transaction are separate, and the inserts ignore a row whose key is taken. */
module SenderRace {
  import opened Wrappers
  import opened Database
  import opened Persons
  import opened Operations

  /** What a caller whose lookup missed is about to insert. */
  datatype Sender = Sender(name: string, email: string)

  /** The database, the callers whose lookup missed, and the person each finished call returned. */
  datatype Race = Race(db: Db, missed: map<nat, Sender>, given: map<nat, nat>)

  datatype Event =
    | Look(caller: nat, name: string, email: string)
    | Insert(caller: nat)
    | Other(op: Op)

  /** INSERT OR IGNORE of a person, then of an identity: the person's key is new, the address may be
      taken. */
  ghost function Inserted(db: Db, s: Sender): Db {
    var person := NewPerson(s.name, IsMachine(s.email));
    if HasIdentity(db, "email", s.email) then db.(persons := db.persons[db.nextId := person], nextId := db.nextId + 2)
    else Created(db, person, s.email)
  }

  /** A lookup that finds the address returns its owner; the inserts return the person they drew. */
  ghost function After(w: Race, e: Event, addr: Resolver): Race
    requires Valid(w.db)
  {
    match e
    case Look(c, name, email) =>
      if c in w.missed then w
      else if HasIdentity(w.db, "email", email) then w.(given := w.given[c := w.db.identities[IdentityOf(w.db, "email", email)].owner])
      else w.(missed := w.missed[c := Sender(name, email)])
    case Insert(c) =>
      if c !in w.missed then w
      else Race(Inserted(w.db, w.missed[c]), w.missed - {c}, w.given[c := w.db.nextId])
    case Other(op) => w.(db := Step(w.db, op, addr))
  }

  lemma InsertedValid(db: Db, s: Sender)
    requires Valid(db)
    ensures Valid(Inserted(db, s)) && HasIdentity(Inserted(db, s), "email", s.email)
  {
    if HasIdentity(db, "email", s.email) {
      var i :| IsIdentity(db, i, "email", s.email);
      assert IsIdentity(Inserted(db, s), i, "email", s.email);
    } else {
      CreatedSound(db, NewPerson(s.name, IsMachine(s.email)), s.email);
      assert IsIdentity(Inserted(db, s), db.nextId + 1, "email", s.email);
    }
  }

  /** Whatever the events, the constraints hold. */
  lemma EventKeepsValid(w: Race, e: Event, addr: Resolver)
    requires Valid(w.db)
    ensures Valid(After(w, e, addr).db)
  {
    match e
    case Look(_, _, _) =>
    case Insert(c) => if c in w.missed { InsertedValid(w.db, w.missed[c]); }
    case Other(op) => StepKeepsValid(w.db, op, addr);
  }

  ghost function Run(w: Race, events: seq<Event>, addr: Resolver): Race
    requires Valid(w.db)
    decreases |events|
  {
    if events == [] then w
    else
      EventKeepsValid(w, events[0], addr);
      Run(After(w, events[0], addr), events[1..], addr)
  }

  lemma {:induction false} RunStaysValid(w: Race, events: seq<Event>, addr: Resolver)
    requires Valid(w.db)
    ensures Valid(Run(w, events, addr).db)
    decreases |events|
  {
    if events != [] {
      EventKeepsValid(w, events[0], addr);
      RunStaysValid(After(w, events[0], addr), events[1..], addr);
    }
  }

  /** No identity names the person. */
  predicate Orphan(db: Db, person: nat) { forall i :: i in db.identities ==> db.identities[i].owner != person }

  /** In whatever state the inserts come, the person they return owns the address if and only if the
      address had no identity then; otherwise no identity names that person. */
  lemma InsertOwnsExactly(w: Race, c: nat, addr: Resolver)
    requires Valid(w.db) && c in w.missed
    ensures var r, email := After(w, Insert(c), addr), w.missed[c].email;
      c in r.given && r.given[c] in r.db.persons &&
      (OwnsAddress(r.db, email, r.given[c]) <==> !HasIdentity(w.db, "email", email)) &&
      (Orphan(r.db, r.given[c]) <==> HasIdentity(w.db, "email", email))
  {
    var email := w.missed[c].email;
    var db := Inserted(w.db, w.missed[c]);
    if !HasIdentity(w.db, "email", email) {
      assert IsIdentity(db, w.db.nextId + 1, "email", email) && db.identities[w.db.nextId + 1].owner == w.db.nextId;
    } else {
      assert db.identities == w.db.identities;
      assert forall i :: i in db.identities ==> db.identities[i].owner in w.db.persons;
    }
  }

  // ----- between a lookup and its inserts -----

  predicate Inserts(w: Race, e: Event, email: string) { e.Insert? && e.caller in w.missed && w.missed[e.caller].email == email }

  lemma CreatedAddress(db: Db, person: Person, added: string, email: string)
    requires FreshOk(db)
    ensures HasIdentity(Created(db, person, added), "email", email) <==> HasIdentity(db, "email", email) || added == email
  {
    var r, n := Created(db, person, added), db.nextId + 1;
    assert n !in db.identities && r.identities[n] == Identity(db.nextId, "email", added, "auto");
    assert forall i :: i != n ==> (IsIdentity(r, i, "email", email) <==> IsIdentity(db, i, "email", email));
    assert IsIdentity(r, n, "email", email) <==> added == email;
  }

  lemma InsertedAddress(db: Db, s: Sender, email: string)
    requires Valid(db)
    ensures HasIdentity(Inserted(db, s), "email", email) <==> HasIdentity(db, "email", email) || s.email == email
  {
    if HasIdentity(db, "email", s.email) {
      var r := Inserted(db, s);
      assert forall i :: IsIdentity(r, i, "email", email) <==> IsIdentity(db, i, "email", email);
    } else {
      CreatedAddress(db, NewPerson(s.name, IsMachine(s.email)), s.email, email);
    }
  }

  lemma AddressAfter(w: Race, e: Event, email: string, addr: Resolver)
    requires Valid(w.db) && !e.Other?
    ensures HasIdentity(After(w, e, addr).db, "email", email) <==> HasIdentity(w.db, "email", email) || Inserts(w, e, email)
  {
    if e.Insert? && e.caller in w.missed {
      InsertedAddress(w.db, w.missed[e.caller], email);
    }
  }

  /** Some caller that missed the address inserts it during the run. */
  ghost predicate InsertedMeanwhile(w: Race, events: seq<Event>, email: string, addr: Resolver)
    requires Valid(w.db)
    decreases |events|
  {
    events != [] &&
    (EventKeepsValid(w, events[0], addr);
     Inserts(w, events[0], email) || InsertedMeanwhile(After(w, events[0], addr), events[1..], email, addr))
  }

  lemma MissedStays(w: Race, e: Event, c: nat, email: string, addr: Resolver) returns (next: Race)
    requires Valid(w.db) && c in w.missed && !e.Other? && e != Insert(c)
    ensures next == After(w, e, addr) && Valid(next.db) && c in next.missed && next.missed[c] == w.missed[c]
    ensures HasIdentity(next.db, "email", email) <==> HasIdentity(w.db, "email", email) || Inserts(w, e, email)
  {
    EventKeepsValid(w, e, addr);
    AddressAfter(w, e, email, addr);
    next := After(w, e, addr);
  }

  lemma {:induction false} Meanwhile(w: Race, events: seq<Event>, c: nat, email: string, addr: Resolver)
    requires Valid(w.db) && c in w.missed && forall k :: 0 <= k < |events| ==> !events[k].Other? && events[k] != Insert(c)
    ensures var t := Run(w, events, addr);
      Valid(t.db) && c in t.missed && t.missed[c] == w.missed[c] &&
      (HasIdentity(t.db, "email", email) <==> HasIdentity(w.db, "email", email) || InsertedMeanwhile(w, events, email, addr))
    decreases |events|
  {
    if events != [] {
      var next := MissedStays(w, events[0], c, email, addr);
      Meanwhile(next, events[1..], c, email, addr);
    }
  }

  /** A caller that missed an address ends up with a person who owns it if and only if no other caller
      that missed it inserted it meanwhile, however lookups and inserts of all callers interleave. */
  lemma RaceExactly(w: Race, c: nat, name: string, email: string, events: seq<Event>, addr: Resolver)
    requires Valid(w.db) && c !in w.missed && !HasIdentity(w.db, "email", email)
    requires forall k :: 0 <= k < |events| ==> !events[k].Other? && events[k] != Insert(c)
    ensures var looked := After(w, Look(c, name, email), addr);
      var t := Run(looked, events, addr);
      Valid(t.db) && c in t.missed &&
      var r := After(t, Insert(c), addr);
      c in r.given && (OwnsAddress(r.db, email, r.given[c]) <==> !InsertedMeanwhile(looked, events, email, addr))
  {
    var looked := After(w, Look(c, name, email), addr);
    Meanwhile(looked, events, c, email, addr);
    InsertOwnsExactly(Run(looked, events, addr), c, addr);
  }

  /** So of two callers that both miss one address, the one that inserts later gets an orphan. */
  lemma LaterOfTwoIsOrphan(w: Race, c: nat, d: nat, name: string, other: string, email: string, addr: Resolver)
    requires Valid(w.db) && c != d && c !in w.missed && d !in w.missed && !HasIdentity(w.db, "email", email)
    ensures var looked := After(w, Look(c, name, email), addr);
      var t := Run(looked, [Look(d, other, email), Insert(d)], addr);
      Valid(t.db) && c in t.missed &&
      var r := After(t, Insert(c), addr);
      c in r.given && Orphan(r.db, r.given[c])
  {
    var looked := After(w, Look(c, name, email), addr);
    var events := [Look(d, other, email), Insert(d)];
    assert events[1..] == [Insert(d)];
    assert Inserts(After(looked, events[0], addr), Insert(d), email);
    assert InsertedMeanwhile(After(looked, events[0], addr), events[1..], email, addr);
    Meanwhile(looked, events, c, email, addr);
    InsertOwnsExactly(Run(looked, events, addr), c, addr);
  }
}
