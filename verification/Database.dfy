/** The task and person tables, their constraints, and what a status change does to them. */
module Database {
  import opened Wrappers
  import opened Text
  import opened FromHeader

  datatype Task = Task(status: string, fromEmail: string, requestor: Option<nat>, assignee: Option<nat>)

  datatype Comment = Comment(task: int, author: string, incoming: bool, at: int, authorPerson: Option<nat>)

  datatype HistoryRow = HistoryRow(task: int, from: Option<string>, to: string, actor: string)

  datatype Person = Person(name: string, org: string, isInternal: bool, confirmed: bool, archived: bool)

  datatype Identity = Identity(owner: nat, kind: string, value: string, provenance: string)

  /** A database state. Person and identity keys come from one supply of fresh numbers; `born`
      records the status each task was inserted with. */
  datatype Db = Db(
    tasks: map<int, Task>, born: map<int, string>, comments: seq<Comment>, history: seq<HistoryRow>,
    persons: map<nat, Person>, identities: map<nat, Identity>, rejections: set<(nat, nat)>, nextId: nat)

  // ----- constraints -----

  /** A reference is NULL or names a person. */
  predicate RefOk(r: Option<nat>, persons: map<nat, Person>) { r.Some? ==> r.value in persons }

  predicate ReferencesOk(db: Db) {
    && (forall t :: t in db.tasks ==> RefOk(db.tasks[t].requestor, db.persons) && RefOk(db.tasks[t].assignee, db.persons))
    && (forall c :: 0 <= c < |db.comments| ==> RefOk(db.comments[c].authorPerson, db.persons))
    && (forall i :: i in db.identities ==> db.identities[i].owner in db.persons)
    && (forall r :: r in db.rejections ==> r.1 in db.persons)
  }

  predicate SameKey(a: Identity, b: Identity) { a.kind == b.kind && a.value == b.value }

  /** UNIQUE(kind, value). */
  predicate UniqueIdentities(identities: map<nat, Identity>) {
    forall i, j :: i in identities && j in identities && SameKey(identities[i], identities[j]) ==> i == j
  }

  predicate FreshOk(db: Db) {
    (forall p :: p in db.persons ==> p < db.nextId) && (forall i :: i in db.identities ==> i < db.nextId)
  }

  // ----- status history -----

  function FromColumn(status: string): Option<string> { if status == "" then None else Some(status) }

  /** The history rows of one task, oldest first. */
  function RowsOf(history: seq<HistoryRow>, id: int): seq<HistoryRow> {
    if history == [] then []
    else if history[0].task == id then [history[0]] + RowsOf(history[1..], id)
    else RowsOf(history[1..], id)
  }

  /** The rows lead from one status to another: the first starts at `start`, each later one where
      the one before it ended, the last ends at `end`, and none stands still. */
  predicate Linked(start: string, rows: seq<HistoryRow>, end: string)
    decreases rows
  {
    if rows == [] then start == end
    else rows[0].from == FromColumn(start) && rows[0].to != start && Linked(rows[0].to, rows[1..], end)
  }

  predicate HistoryOk(db: Db) {
    db.born.Keys == db.tasks.Keys &&
    (forall k :: 0 <= k < |db.history| ==> db.history[k].task in db.tasks) &&
    forall id :: id in db.tasks ==> Linked(db.born[id], RowsOf(db.history, id), db.tasks[id].status)
  }

  /** Everything but the history. */
  predicate Sound(db: Db) { ReferencesOk(db) && UniqueIdentities(db.identities) && FreshOk(db) }

  predicate Valid(db: Db) { Sound(db) && HistoryOk(db) }

  lemma {:induction false} RowsAppend(history: seq<HistoryRow>, row: HistoryRow, id: int)
    ensures RowsOf(history + [row], id) == if row.task == id then RowsOf(history, id) + [row] else RowsOf(history, id)
  {
    if history == [] {
      assert history + [row] == [row] && [row][1..] == [];
    } else {
      var rest := RowsOf(history[1..], id);
      assert (history + [row])[1..] == history[1..] + [row];
      RowsAppend(history[1..], row, id);
      assert ([history[0]] + rest) + [row] == [history[0]] + (rest + [row]);
    }
  }

  lemma {:induction false} LinkedAppend(start: string, rows: seq<HistoryRow>, mid: string, row: HistoryRow)
    requires Linked(start, rows, mid) && row.from == FromColumn(mid) && row.to != mid
    ensures Linked(start, rows + [row], row.to)
    decreases rows
  {
    if rows == [] {
      assert rows + [row] == [row] && [row][1..] == [];
    } else {
      assert (rows + [row])[1..] == rows[1..] + [row];
      LinkedAppend(rows[0].to, rows[1..], mid, row);
    }
  }

  // ----- finding and creating the person behind an address -----

  /** normalizeEmail. */
  function Normalized(email: string): string { TrimSpace(Lower(email)) }

  /** Turns the text of an author column into an e-mail address, or into the empty string. */
  type Resolver = string -> string

  /** The address an author column stands for: the one in a From header, else the text itself. */
  function AddressOf(raw: string, dec: Decoder): string {
    var text := Lower(TrimSpace(raw));
    var parsed := ParseFromHeader(text, dec).email;
    if text == "" then "" else if parsed != "" then Normalized(Lower(TrimSpace(parsed))) else Normalized(text)
  }

  function Resolve(dec: Decoder): Resolver { raw => AddressOf(raw, dec) }

  predicate IsIdentity(db: Db, i: nat, kind: string, value: string) {
    i in db.identities && db.identities[i].kind == kind && db.identities[i].value == value
  }

  ghost predicate HasIdentity(db: Db, kind: string, value: string) { exists i :: IsIdentity(db, i, kind, value) }

  /** The key of an identity, unique by constraint. */
  ghost function IdentityOf(db: Db, kind: string, value: string): (i: nat)
    requires HasIdentity(db, kind, value)
    ensures IsIdentity(db, i, kind, value)
  {
    var i :| IsIdentity(db, i, kind, value);
    i
  }

  /** A new person with one e-mail identity. */
  function Created(db: Db, person: Person, email: string): Db {
    db.(persons := db.persons[db.nextId := person],
        identities := db.identities[db.nextId + 1 := Identity(db.nextId, "email", email, "auto")],
        nextId := db.nextId + 2)
  }

  const NOBODY := Person("", "", false, false, false)

  /** upsertPersonByEmailInTx: the owner of the address, created if there is none. */
  ghost function Upsert(db: Db, email: string): (r: (Db, nat))
    requires Sound(db)
    ensures Sound(r.0) && r.1 in r.0.persons
    ensures exists i :: IsIdentity(r.0, i, "email", email) && r.0.identities[i].owner == r.1
    ensures r.0 == if HasIdentity(db, "email", email) then db else Created(db, NOBODY, email)
  {
    if HasIdentity(db, "email", email) then (db, db.identities[IdentityOf(db, "email", email)].owner)
    else
      CreatedSound(db, NOBODY, email);
      assert IsIdentity(Created(db, NOBODY, email), db.nextId + 1, "email", email);
      (Created(db, NOBODY, email), db.nextId)
  }

  /** An address nobody has makes one person, with neither name nor organisation, and one automatic
      identity; an address somebody has makes nothing. */
  lemma UpsertExactly(db: Db, email: string)
    requires Sound(db)
    ensures var (r, person) := Upsert(db, email);
      if HasIdentity(db, "email", email) then r == db && OwnsAddress(db, email, person)
      else
        person !in db.persons && r.persons == db.persons[person := Person("", "", false, false, false)] &&
        (exists i: nat :: i !in db.identities && r.identities == db.identities[i := Identity(person, "email", email, "auto")]) &&
        r.tasks == db.tasks && r.history == db.history && r.comments == db.comments && r.rejections == db.rejections
  {
    assert db.nextId + 1 !in db.identities;
    if HasIdentity(db, "email", email) {
      assert IsIdentity(db, IdentityOf(db, "email", email), "email", email);
    }
  }

  lemma CreatedSound(db: Db, person: Person, email: string)
    requires Sound(db) && !HasIdentity(db, "email", email)
    ensures Sound(Created(db, person, email))
  {
    assert forall i :: i in db.identities ==> !IsIdentity(db, i, "email", email);
  }

  // ----- closing a task -----

  predicate Closed(status: string) { status == "completed" || status == "closed" }

  /** The author of the latest incoming comment on a task (of several equally late, the first). */
  function LastIncoming(comments: seq<Comment>, id: int): Option<Comment> {
    if comments == [] then None
    else
      var best := LastIncoming(comments[..|comments| - 1], id);
      var c := comments[|comments| - 1];
      if c.task == id && c.incoming && (best.None? || c.at > best.value.at) then Some(c) else best
  }

  /** lastIncomingConfirmationEmail: the comment's author, else the task's own sender. */
  function Confirmer(db: Db, id: int): string
    requires id in db.tasks
  {
    var last := LastIncoming(db.comments, id);
    if last.Some? && last.value.author != "" then last.value.author else db.tasks[id].fromEmail
  }

  // ----- who confirmed a task -----

  predicate IncomingOn(comments: seq<Comment>, id: int, k: int) {
    0 <= k < |comments| && comments[k].task == id && comments[k].incoming
  }

  /** The k-th comment came in on the task, none that came in on it is later, and none as late stands
      before it. */
  ghost predicate LatestIncoming(comments: seq<Comment>, id: int, k: int) {
    IncomingOn(comments, id, k) &&
    forall j :: IncomingOn(comments, id, j) ==>
                  comments[j].at < comments[k].at || (comments[j].at == comments[k].at && k <= j)
  }

  /** The text that says who confirmed the task: the author of the latest comment that came in on it;
      if that author is empty, or none came in, the task's own sender. */
  ghost predicate Confirmed(db: Db, id: int, author: string)
    requires id in db.tasks
  {
    (exists k :: LatestIncoming(db.comments, id, k) && db.comments[k].author == author && author != "") ||
    ((forall k :: LatestIncoming(db.comments, id, k) ==> db.comments[k].author == "") && author == db.tasks[id].fromEmail)
  }

  lemma {:induction false} LastIncomingIsLatest(comments: seq<Comment>, id: int)
    ensures var last := LastIncoming(comments, id);
      if last.Some? then exists k :: LatestIncoming(comments, id, k) && comments[k] == last.value
      else forall k :: !IncomingOn(comments, id, k)
  {
    if comments != [] {
      var n := |comments| - 1;
      var front := comments[..n];
      LastIncomingIsLatest(front, id);
      var best := LastIncoming(front, id);
      assert forall j :: IncomingOn(comments, id, j) <==> IncomingOn(front, id, j) || (j == n && IncomingOn(comments, id, n));
      if best.Some? {
        var k :| LatestIncoming(front, id, k) && front[k] == best.value;
        assert LatestIncoming(comments, id, k) || LatestIncoming(comments, id, n);
      } else if IncomingOn(comments, id, n) {
        assert LatestIncoming(comments, id, n);
      }
    }
  }

  /** The text the statements find is the one that says who confirmed the task, and no other does. */
  lemma ConfirmerExactly(db: Db, id: int, author: string)
    requires id in db.tasks
    ensures Confirmed(db, id, author) <==> author == Confirmer(db, id)
  {
    LastIncomingIsLatest(db.comments, id);
    assert forall j, k :: LatestIncoming(db.comments, id, j) && LatestIncoming(db.comments, id, k) ==> j == k;
  }

  function Assigned(db: Db, id: int, person: nat): Db
    requires id in db.tasks
  {
    db.(tasks := db.tasks[id := db.tasks[id].(assignee := Some(person))])
  }

  /** autoAssignLastConfirmer. */
  ghost function AutoAssign(db: Db, id: int, addr: Resolver): (r: Db)
    requires Sound(db) && id in db.tasks
  {
    var email := addr(Confirmer(db, id));
    if db.tasks[id].assignee.Some? || email == "" then db
    else
      var (made, person) := Upsert(db, email);
      Assigned(made, id, person)
  }

  function WithStatus(db: Db, id: int, to: string): Db
    requires id in db.tasks
  {
    db.(tasks := db.tasks[id := db.tasks[id].(status := to)])
  }

  /** The first two steps of a status change. */
  ghost function Moved(db: Db, id: int, to: string, addr: Resolver): Db
    requires Sound(db) && id in db.tasks
  {
    if Closed(to) then AutoAssign(WithStatus(db, id, to), id, addr) else WithStatus(db, id, to)
  }

  /** The statements of a status change for one row, `from` being the status read for it: the new
      status, the automatic assignment on closing, and a history row if the status is to differ. */
  ghost function Written(db: Db, id: int, from: string, to: string, actor: string, addr: Resolver): (r: Db)
    requires Sound(db) && id in db.tasks
  {
    var moved := Moved(db, id, to, addr);
    if from == to then moved
    else moved.(history := moved.history + [HistoryRow(id, FromColumn(from), to, actor)])
  }

  /** A status change of an existing task in one transaction: the status read is the current one. */
  ghost function Transition(db: Db, id: int, to: string, actor: string, addr: Resolver): (r: Db)
    requires Sound(db) && id in db.tasks
  {
    Written(db, id, db.tasks[id].status, to, actor, addr)
  }

  datatype StoreError = TaskNotFound(id: int) | PersonNotFound | IdentityNotFound | ForeignKeyFailed | UniqueFailed
    | StatementFailed

  /** SetTaskStatus. */
  ghost function SetStatus(db: Db, id: int, to: string, actor: string, addr: Resolver): Result<Db, StoreError>
    requires Sound(db)
  {
    if id in db.tasks then Ok(Transition(db, id, to, actor, addr)) else Err(TaskNotFound(id))
  }

  // ----- what a transition changes -----

  /** r differs from db in nothing but the row of task id, appended history, and added persons and
      identities. */
  ghost predicate OnlyTouches(db: Db, r: Db, id: int) {
    && r.tasks.Keys == db.tasks.Keys && r.born == db.born && r.comments == db.comments
    && r.rejections == db.rejections && db.nextId <= r.nextId
    && (forall t :: t in db.tasks && t != id ==> r.tasks[t] == db.tasks[t])
    && (forall p :: p in db.persons ==> p in r.persons && r.persons[p] == db.persons[p])
    && (forall i :: i in db.identities ==> i in r.identities && r.identities[i] == db.identities[i])
  }

  lemma UpsertFrame(db: Db, email: string, id: int)
    requires Sound(db)
    ensures var r := Upsert(db, email).0;
      OnlyTouches(db, r, id) && r.history == db.history && r.tasks == db.tasks
  {
  }

  lemma AssignedFrame(db: Db, id: int, person: nat)
    requires Sound(db) && id in db.tasks && person in db.persons
    ensures Sound(Assigned(db, id, person)) && OnlyTouches(db, Assigned(db, id, person), id)
  {
  }

  lemma AutoAssignFrame(db: Db, id: int, addr: Resolver)
    requires Sound(db) && id in db.tasks
    ensures var r := AutoAssign(db, id, addr);
      Sound(r) && OnlyTouches(db, r, id) && r.history == db.history &&
      r.tasks[id] == db.tasks[id].(assignee := r.tasks[id].assignee) &&
      (db.tasks[id].assignee.Some? ==> r.tasks[id].assignee == db.tasks[id].assignee)
  {
    var email := addr(Confirmer(db, id));
    var (made, person) := Upsert(db, email);
    UpsertFrame(db, email, id);
    AssignedFrame(made, id, person);
  }

  lemma StatusFrame(db: Db, id: int, to: string)
    requires Sound(db) && id in db.tasks
    ensures Sound(WithStatus(db, id, to)) && OnlyTouches(db, WithStatus(db, id, to), id)
    ensures Confirmer(WithStatus(db, id, to), id) == Confirmer(db, id)
  {
  }

  lemma MovedFrame(db: Db, id: int, to: string, addr: Resolver)
    requires Sound(db) && id in db.tasks
    ensures var r := Moved(db, id, to, addr);
      Sound(r) && OnlyTouches(db, r, id) && r.history == db.history &&
      r.tasks[id] == db.tasks[id].(status := to, assignee := r.tasks[id].assignee) &&
      (db.tasks[id].assignee.Some? ==> r.tasks[id].assignee == db.tasks[id].assignee)
  {
    StatusFrame(db, id, to);
    if Closed(to) {
      AutoAssignFrame(WithStatus(db, id, to), id, addr);
      TouchesTwice(db, WithStatus(db, id, to), Moved(db, id, to, addr), id);
    }
  }

  lemma TouchesTwice(a: Db, b: Db, c: Db, id: int)
    requires OnlyTouches(a, b, id) && OnlyTouches(b, c, id)
    ensures OnlyTouches(a, c, id)
  {
  }

  lemma HistoryFrame(db: Db, r: Db, id: int, history: seq<HistoryRow>)
    requires Sound(r) && OnlyTouches(db, r, id)
    ensures Sound(r.(history := history)) && OnlyTouches(db, r.(history := history), id)
  {
  }

  lemma WrittenFrame(db: Db, id: int, from: string, to: string, actor: string, addr: Resolver)
    requires Sound(db) && id in db.tasks
    ensures var r := Written(db, id, from, to, actor, addr);
      Sound(r) && OnlyTouches(db, r, id) &&
      r.tasks[id] == db.tasks[id].(status := to, assignee := r.tasks[id].assignee) &&
      (db.tasks[id].assignee.Some? ==> r.tasks[id].assignee == db.tasks[id].assignee)
    ensures Written(db, id, from, to, actor, addr).history ==
            if from == to then db.history else db.history + [HistoryRow(id, FromColumn(from), to, actor)]
  {
    MovedFrame(db, id, to, addr);
    HistoryFrame(db, Moved(db, id, to, addr), id, Written(db, id, from, to, actor, addr).history);
  }

  lemma TransitionFrame(db: Db, id: int, to: string, actor: string, addr: Resolver)
    requires Sound(db) && id in db.tasks
    ensures var r := Transition(db, id, to, actor, addr);
      Sound(r) && OnlyTouches(db, r, id) &&
      r.tasks[id] == db.tasks[id].(status := to, assignee := r.tasks[id].assignee) &&
      (db.tasks[id].assignee.Some? ==> r.tasks[id].assignee == db.tasks[id].assignee)
  {
    WrittenFrame(db, id, db.tasks[id].status, to, actor, addr);
  }

  /** The history after a transition, and each task's rows of it. */
  lemma TransitionRows(db: Db, id: int, to: string, actor: string, addr: Resolver, t: int)
    requires Sound(db) && id in db.tasks
    ensures var r, from := Transition(db, id, to, actor, addr), db.tasks[id].status;
      r.history == (if from == to then db.history else db.history + [HistoryRow(id, FromColumn(from), to, actor)]) &&
      RowsOf(r.history, t) ==
        RowsOf(db.history, t) + (if t == id && from != to then [HistoryRow(id, FromColumn(from), to, actor)] else [])
  {
    MovedFrame(db, id, to, addr);
    RowsAppend(db.history, HistoryRow(id, FromColumn(db.tasks[id].status), to, actor), t);
    assert RowsOf(db.history, t) + [] == RowsOf(db.history, t);
  }

  lemma TransitionKeepsChain(db: Db, id: int, to: string, actor: string, addr: Resolver, t: int)
    requires Valid(db) && id in db.tasks && t in db.tasks
    ensures var r := Transition(db, id, to, actor, addr);
      t in r.born && t in r.tasks && Linked(r.born[t], RowsOf(r.history, t), r.tasks[t].status)
  {
    TransitionFrame(db, id, to, actor, addr);
    TransitionRows(db, id, to, actor, addr, t);
    var from := db.tasks[id].status;
    assert RowsOf(db.history, t) + [] == RowsOf(db.history, t);
    if t == id && from != to {
      LinkedAppend(db.born[t], RowsOf(db.history, t), from, HistoryRow(id, FromColumn(from), to, actor));
    }
  }

  /** A transition extends the task's history chain by one link to the new status, or by none when
      the status stays; every other task's chain is unchanged. */
  lemma TransitionKeepsHistory(db: Db, id: int, to: string, actor: string, addr: Resolver)
    requires Valid(db) && id in db.tasks
    ensures Valid(Transition(db, id, to, actor, addr))
    ensures RowsOf(Transition(db, id, to, actor, addr).history, id) == RowsOf(db.history, id) + (
              var from := db.tasks[id].status;
              if from == to then [] else [HistoryRow(id, if from == "" then None else Some(from), to, actor)])
    ensures forall t :: t != id ==> RowsOf(Transition(db, id, to, actor, addr).history, t) == RowsOf(db.history, t)
  {
    TransitionFrame(db, id, to, actor, addr);
    TransitionRows(db, id, to, actor, addr, id);
    forall t | t != id
      ensures RowsOf(Transition(db, id, to, actor, addr).history, t) == RowsOf(db.history, t)
    {
      TransitionRows(db, id, to, actor, addr, t);
      assert RowsOf(db.history, t) + [] == RowsOf(db.history, t);
    }
    forall t | t in db.tasks
      ensures var r := Transition(db, id, to, actor, addr);
        t in r.born && t in r.tasks && Linked(r.born[t], RowsOf(r.history, t), r.tasks[t].status)
    {
      TransitionKeepsChain(db, id, to, actor, addr, t);
    }
    HistoryTasks(db, id, to, actor, addr);
  }

  lemma HistoryTasks(db: Db, id: int, to: string, actor: string, addr: Resolver)
    requires Valid(db) && id in db.tasks
    ensures var r := Transition(db, id, to, actor, addr);
      r.born.Keys == r.tasks.Keys && forall k :: 0 <= k < |r.history| ==> r.history[k].task in r.tasks
  {
    TransitionFrame(db, id, to, actor, addr);
    TransitionRows(db, id, to, actor, addr, id);
  }

  ghost predicate OwnsAddress(db: Db, email: string, person: nat) {
    exists i :: IsIdentity(db, i, "email", email) && db.identities[i].owner == person
  }

  /** The task is its owner's if the address is one, and nobody's if it is empty. */
  ghost predicate AssignedTo(r: Db, id: int, email: string) {
    id in r.tasks &&
    if email == "" then r.tasks[id].assignee.None?
    else r.tasks[id].assignee.Some? && OwnsAddress(r, email, r.tasks[id].assignee.value)
  }

  lemma AutoAssignToConfirmer(db: Db, id: int, addr: Resolver)
    requires Sound(db) && id in db.tasks && db.tasks[id].assignee.None?
    ensures AssignedTo(AutoAssign(db, id, addr), id, addr(Confirmer(db, id)))
    ensures addr(Confirmer(db, id)) == "" ==> AutoAssign(db, id, addr) == db
  {
    var email := addr(Confirmer(db, id));
    if email != "" {
      var (made, person) := Upsert(db, email);
      var i :| IsIdentity(made, i, "email", email) && made.identities[i].owner == person;
      assert IsIdentity(AutoAssign(db, id, addr), i, "email", email);
    }
  }

  /** The automatic assignment of an unassigned task gives it to the confirmer. */
  lemma AutoAssignGivesConfirmer(db: Db, id: int, addr: Resolver)
    requires Sound(db) && id in db.tasks && db.tasks[id].assignee.None?
    ensures exists author :: Confirmed(db, id, author) && AssignedTo(AutoAssign(db, id, addr), id, addr(author))
  {
    ConfirmerExactly(db, id, Confirmer(db, id));
    AutoAssignToConfirmer(db, id, addr);
  }

  /** Closing an unassigned task, by one of the two statuses "completed" and "closed", gives it to the
      owner of the confirmer's address, if there is one. In every other case nobody is assigned, and no
      person or identity made. */
  ghost predicate GoesToConfirmer(db: Db, r: Db, id: int, to: string, addr: Resolver)
    requires id in db.tasks
  {
    id in r.tasks &&
    forall author :: Confirmed(db, id, author) ==>
      if to in {"completed", "closed"} && db.tasks[id].assignee.None? && addr(author) != "" then AssignedTo(r, id, addr(author))
      else r.tasks[id].assignee == db.tasks[id].assignee && r.persons == db.persons && r.identities == db.identities
  }

  /** Closing assigns the confirmer, an assignee is never replaced, and no other status assigns anybody;
      there is exactly one text that says who confirmed the task. */
  lemma ClosingAssignsConfirmer(db: Db, id: int, to: string, actor: string, addr: Resolver)
    requires Sound(db) && id in db.tasks
    ensures GoesToConfirmer(db, Transition(db, id, to, actor, addr), id, to, addr)
    ensures exists author :: Confirmed(db, id, author)
  {
    StatusFrame(db, id, to);
    ConfirmerExactly(db, id, Confirmer(db, id));
    if Closed(to) && db.tasks[id].assignee.None? && addr(Confirmer(db, id)) != "" {
      ClosingAssigns(db, id, to, actor, addr);
    }
    forall author | Confirmed(db, id, author)
      ensures author == Confirmer(db, id)
    {
      ConfirmerExactly(db, id, author);
    }
  }

  lemma ClosingAssigns(db: Db, id: int, to: string, actor: string, addr: Resolver)
    requires Sound(db) && id in db.tasks && Closed(to) && db.tasks[id].assignee.None? && addr(Confirmer(db, id)) != ""
    ensures var r := Transition(db, id, to, actor, addr);
      AssignedTo(r, id, addr(Confirmer(db, id)))
  {
    var moved := WithStatus(db, id, to);
    StatusFrame(db, id, to);
    AutoAssignToConfirmer(moved, id, addr);
    var r, half := Transition(db, id, to, actor, addr), AutoAssign(moved, id, addr);
    assert r.identities == half.identities && r.tasks == half.tasks && r.persons == half.persons;
    var email := addr(Confirmer(db, id));
    var i :| IsIdentity(half, i, "email", email) && half.identities[i].owner == half.tasks[id].assignee.value;
    assert IsIdentity(r, i, "email", email);
  }

  // ----- many transitions -----

  predicate AllExist(db: Db, ids: seq<int>) { forall k :: 0 <= k < |ids| ==> ids[k] in db.tasks }

  /** SetTaskStatus called on each id in turn. */
  ghost function SetEach(db: Db, ids: seq<int>, to: string, actor: string, addr: Resolver): (r: Db)
    requires Sound(db) && AllExist(db, ids)
    ensures Sound(r) && r.tasks.Keys == db.tasks.Keys
    decreases |ids|
  {
    if ids == [] then db
    else
      TransitionFrame(db, ids[0], to, actor, addr);
      SetEach(Transition(db, ids[0], to, actor, addr), ids[1..], to, actor, addr)
  }

  lemma {:induction false} SetEachAppend(db: Db, ids: seq<int>, id: int, to: string, actor: string, addr: Resolver)
    requires Sound(db) && AllExist(db, ids) && id in db.tasks
    ensures SetEach(db, ids + [id], to, actor, addr) == Transition(SetEach(db, ids, to, actor, addr), id, to, actor, addr)
    decreases |ids|
  {
    if ids == [] {
      assert ids + [id] == [id] && [id][1..] == [];
      TransitionFrame(db, id, to, actor, addr);
    } else {
      TransitionFrame(db, ids[0], to, actor, addr);
      assert (ids + [id])[1..] == ids[1..] + [id];
      SetEachAppend(Transition(db, ids[0], to, actor, addr), ids[1..], id, to, actor, addr);
    }
  }

  lemma {:induction false} SetEachFrame(db: Db, ids: seq<int>, to: string, actor: string, addr: Resolver)
    requires Sound(db) && AllExist(db, ids)
    ensures var r := SetEach(db, ids, to, actor, addr);
      r.comments == db.comments &&
      (forall t :: t in db.tasks && t !in ids ==> r.tasks[t] == db.tasks[t]) &&
      (forall t :: t in ids ==> t in r.tasks && r.tasks[t].status == to) &&
      (forall t :: t in db.tasks && db.tasks[t].assignee.Some? ==> r.tasks[t].assignee == db.tasks[t].assignee)
    decreases |ids|
  {
    if ids != [] {
      TransitionFrame(db, ids[0], to, actor, addr);
      SetEachFrame(Transition(db, ids[0], to, actor, addr), ids[1..], to, actor, addr);
      assert forall t :: t in ids <==> t == ids[0] || t in ids[1..];
    }
  }

  lemma {:induction false} SetEachKeepsValid(db: Db, ids: seq<int>, to: string, actor: string, addr: Resolver)
    requires Valid(db) && AllExist(db, ids)
    ensures Valid(SetEach(db, ids, to, actor, addr))
    decreases |ids|
  {
    if ids != [] {
      TransitionFrame(db, ids[0], to, actor, addr);
      TransitionKeepsHistory(db, ids[0], to, actor, addr);
      SetEachKeepsValid(Transition(db, ids[0], to, actor, addr), ids[1..], to, actor, addr);
    }
  }

  // ----- repeated ids -----

  /** The ids in order of first appearance. */
  function Dedup(ids: seq<int>): (r: seq<int>)
    ensures forall x :: x in r <==> x in ids
    ensures forall i, j :: 0 <= i < j < |r| ==> r[i] != r[j]
  {
    if ids == [] then []
    else
      var rest := Dedup(ids[..|ids| - 1]);
      var last := ids[|ids| - 1];
      assert ids == ids[..|ids| - 1] + [last];
      if last in rest then rest else rest + [last]
  }

  /** A task a further change to the same status leaves alone. */
  predicate Settled(db: Db, id: int, to: string, addr: Resolver)
    requires id in db.tasks
  {
    db.tasks[id].status == to &&
    (Closed(to) ==> db.tasks[id].assignee.Some? || addr(Confirmer(db, id)) == "")
  }

  lemma TransitionSettles(db: Db, id: int, to: string, actor: string, addr: Resolver)
    requires Sound(db) && id in db.tasks
    ensures Transition(db, id, to, actor, addr).tasks.Keys == db.tasks.Keys
    ensures Settled(Transition(db, id, to, actor, addr), id, to, addr)
    ensures Settled(db, id, to, addr) ==> Transition(db, id, to, actor, addr) == db
  {
    TransitionFrame(db, id, to, actor, addr);
    var moved := WithStatus(db, id, to);
    StatusFrame(db, id, to);
    if db.tasks[id].status == to {
      assert db.tasks[id].(status := to) == db.tasks[id];
      assert moved.tasks == db.tasks && moved == db;
    }
  }

  lemma OthersStaySettled(db: Db, id: int, other: int, to: string, actor: string, addr: Resolver)
    requires Sound(db) && id in db.tasks && other in db.tasks && Settled(db, other, to, addr)
    ensures Transition(db, id, to, actor, addr).tasks.Keys == db.tasks.Keys
    ensures Settled(Transition(db, id, to, actor, addr), other, to, addr)
  {
    TransitionFrame(db, id, to, actor, addr);
    TransitionSettles(db, id, to, actor, addr);
  }

  lemma {:induction false} SetEachSettles(db: Db, ids: seq<int>, to: string, actor: string, addr: Resolver)
    requires Sound(db) && AllExist(db, ids)
    ensures forall t :: t in ids ==> t in SetEach(db, ids, to, actor, addr).tasks && Settled(SetEach(db, ids, to, actor, addr), t, to, addr)
    decreases |ids|
  {
    if ids != [] {
      var front, last := ids[..|ids| - 1], ids[|ids| - 1];
      assert ids == front + [last];
      SetEachAppend(db, front, last, to, actor, addr);
      SetEachSettles(db, front, to, actor, addr);
      var mid := SetEach(db, front, to, actor, addr);
      TransitionSettles(mid, last, to, actor, addr);
      forall t | t in front
        ensures Settled(Transition(mid, last, to, actor, addr), t, to, addr)
      {
        OthersStaySettled(mid, last, t, to, actor, addr);
      }
    }
  }

  /** Repeating ids changes nothing: the loop over the list as given and the loop over its distinct
      ids end in the same database, history rows included. */
  lemma {:induction false} DuplicatesDoNotMatter(db: Db, ids: seq<int>, to: string, actor: string, addr: Resolver)
    requires Sound(db) && AllExist(db, ids)
    ensures AllExist(db, Dedup(ids))
    ensures SetEach(db, ids, to, actor, addr) == SetEach(db, Dedup(ids), to, actor, addr)
    decreases |ids|
  {
    assert forall k :: 0 <= k < |Dedup(ids)| ==> Dedup(ids)[k] in ids;
    if ids != [] {
      var front, last := ids[..|ids| - 1], ids[|ids| - 1];
      assert ids == front + [last];
      DuplicatesDoNotMatter(db, front, to, actor, addr);
      SetEachAppend(db, front, last, to, actor, addr);
      if last in Dedup(front) {
        SetEachSettles(db, front, to, actor, addr);
        TransitionSettles(SetEach(db, front, to, actor, addr), last, to, actor, addr);
      } else {
        SetEachAppend(db, Dedup(front), last, to, actor, addr);
      }
    }
  }

  // ----- a bulk change: statuses read first, written later -----

  /** The tasks of a bulk change, each once, with the statuses read for them. */
  type Changes = seq<(int, string)>

  predicate ChangesOk(db: Db, changes: Changes) {
    && (forall k :: 0 <= k < |changes| ==> changes[k].0 in db.tasks)
    && (forall j, k :: 0 <= j < k < |changes| ==> changes[j].0 != changes[k].0)
  }

  /** Every task still has the status that was read. */
  predicate Unmoved(db: Db, changes: Changes)
    requires ChangesOk(db, changes)
  {
    forall k :: 0 <= k < |changes| ==> db.tasks[changes[k].0].status == changes[k].1
  }

  /** The transaction of BulkUpdateTasks: the statements for each row in turn. */
  ghost function WriteEach(db: Db, changes: Changes, to: string, actor: string, addr: Resolver): (r: Db)
    requires Sound(db) && ChangesOk(db, changes)
    ensures Sound(r) && r.tasks.Keys == db.tasks.Keys && r.born == db.born
    decreases |changes|
  {
    if changes == [] then db
    else
      WrittenFrame(db, changes[0].0, changes[0].1, to, actor, addr);
      WriteEach(Written(db, changes[0].0, changes[0].1, to, actor, addr), changes[1..], to, actor, addr)
  }

  lemma WriteNext(db: Db, changes: Changes, i: nat, to: string, actor: string, addr: Resolver)
    requires Sound(db) && i < |changes| && ChangesOk(db, changes[i..])
    ensures var next := Written(db, changes[i].0, changes[i].1, to, actor, addr);
      changes[i].0 in db.tasks && Sound(next) && ChangesOk(next, changes[i + 1..]) &&
      WriteEach(db, changes[i..], to, actor, addr) == WriteEach(next, changes[i + 1..], to, actor, addr)
  {
    assert changes[i..][0] == changes[i] && changes[i..][1..] == changes[i + 1..];
    WrittenFrame(db, changes[i].0, changes[i].1, to, actor, addr);
  }

  function Ids(changes: Changes): seq<int> { seq(|changes|, k requires 0 <= k < |changes| => changes[k].0) }

  /** If nothing moved in between, the bulk form is the single form called on each task in turn. */
  lemma {:induction false} WriteUnmoved(db: Db, changes: Changes, to: string, actor: string, addr: Resolver)
    requires Sound(db) && ChangesOk(db, changes) && Unmoved(db, changes)
    ensures AllExist(db, Ids(changes))
    ensures WriteEach(db, changes, to, actor, addr) == SetEach(db, Ids(changes), to, actor, addr)
    decreases |changes|
  {
    if changes != [] {
      var next := Written(db, changes[0].0, changes[0].1, to, actor, addr);
      UnmovedNext(db, changes, to, actor, addr);
      WriteUnmoved(next, changes[1..], to, actor, addr);
      assert Ids(changes)[0] == changes[0].0 && Ids(changes)[1..] == Ids(changes[1..]);
    }
  }

  lemma UnmovedNext(db: Db, changes: Changes, to: string, actor: string, addr: Resolver)
    requires Sound(db) && ChangesOk(db, changes) && changes != [] && Unmoved(db, changes)
    ensures var next := Written(db, changes[0].0, changes[0].1, to, actor, addr);
      && next == Transition(db, changes[0].0, to, actor, addr)
      && Sound(next) && next.tasks.Keys == db.tasks.Keys && ChangesOk(next, changes[1..]) && Unmoved(next, changes[1..])
  {
    WrittenFrame(db, changes[0].0, changes[0].1, to, actor, addr);
  }

  /** The rows one write adds to a task's history. */
  function Added(id: int, from: string, to: string, actor: string): seq<HistoryRow> {
    if from == to then [] else [HistoryRow(id, FromColumn(from), to, actor)]
  }

  lemma WrittenRows(db: Db, id: int, from: string, to: string, actor: string, addr: Resolver, other: int)
    requires Sound(db) && id in db.tasks && other in db.tasks
    ensures var r := Written(db, id, from, to, actor, addr);
      Sound(r) && r.tasks.Keys == db.tasks.Keys &&
      RowsOf(r.history, other) == RowsOf(db.history, other) + (if other == id then Added(id, from, to, actor) else []) &&
      (other != id ==> r.tasks[other] == db.tasks[other]) && r.tasks[id].status == to
  {
    WrittenFrame(db, id, from, to, actor, addr);
    RowsAppend(db.history, HistoryRow(id, FromColumn(from), to, actor), other);
    assert RowsOf(db.history, other) + [] == RowsOf(db.history, other);
  }

  /** A bulk change leaves the rows and the status of every other task alone. */
  lemma {:induction false} WriteLeaves(db: Db, changes: Changes, id: int, to: string, actor: string, addr: Resolver)
    requires Sound(db) && ChangesOk(db, changes) && id in db.tasks && forall k :: 0 <= k < |changes| ==> changes[k].0 != id
    ensures var r := WriteEach(db, changes, to, actor, addr);
      RowsOf(r.history, id) == RowsOf(db.history, id) && r.tasks[id] == db.tasks[id]
    decreases |changes|
  {
    if changes != [] {
      WrittenRows(db, changes[0].0, changes[0].1, to, actor, addr, id);
      assert RowsOf(db.history, id) + [] == RowsOf(db.history, id);
      WriteLeaves(Written(db, changes[0].0, changes[0].1, to, actor, addr), changes[1..], id, to, actor, addr);
    }
  }

  lemma WriteAddsFirst(db: Db, changes: Changes, id: int, from: string, to: string, actor: string, addr: Resolver)
    requires Sound(db) && ChangesOk(db, changes) && changes != [] && changes[0] == (id, from)
    ensures var r := WriteEach(db, changes, to, actor, addr);
      r.tasks[id].status == to && RowsOf(r.history, id) == RowsOf(db.history, id) + Added(id, from, to, actor)
  {
    WrittenRows(db, id, from, to, actor, addr, id);
    WriteLeaves(Written(db, id, from, to, actor, addr), changes[1..], id, to, actor, addr);
  }

  /** It gives each of its tasks the new status, and a row from the status read if they differ. */
  lemma {:induction false} WriteAdds(db: Db, changes: Changes, k: nat, to: string, actor: string, addr: Resolver)
    requires Sound(db) && ChangesOk(db, changes) && k < |changes|
    ensures var r := WriteEach(db, changes, to, actor, addr);
      var (id, from) := changes[k];
      r.tasks[id].status == to && RowsOf(r.history, id) == RowsOf(db.history, id) + Added(id, from, to, actor)
    decreases |changes|
  {
    var (id, from) := changes[k];
    if k == 0 {
      WriteAddsFirst(db, changes, id, from, to, actor, addr);
    } else {
      var next := Written(db, changes[0].0, changes[0].1, to, actor, addr);
      WrittenRows(db, changes[0].0, changes[0].1, to, actor, addr, id);
      assert RowsOf(db.history, id) + [] == RowsOf(db.history, id);
      assert changes[1..][k - 1] == (id, from) && ChangesOk(next, changes[1..]);
      assert WriteEach(db, changes, to, actor, addr) == WriteEach(next, changes[1..], to, actor, addr);
      WriteAdds(next, changes[1..], k - 1, to, actor, addr);
    }
  }

  /** A chain has one end. */
  lemma {:induction false} LinkedEnd(start: string, rows: seq<HistoryRow>, end: string, other: string)
    requires Linked(start, rows, end) && Linked(start, rows, other)
    ensures end == other
    decreases rows
  {
    if rows != [] {
      LinkedEnd(rows[0].to, rows[1..], end, other);
    }
  }

  /** The last link of a chain starts where the chain before it ended. */
  lemma {:induction false} LinkedLast(start: string, rows: seq<HistoryRow>, mid: string, row: HistoryRow, end: string)
    requires Linked(start, rows, mid) && Linked(start, rows + [row], end)
    ensures row.from == FromColumn(mid)
    decreases rows
  {
    if rows == [] {
      assert rows + [row] == [row];
    } else {
      assert (rows + [row])[1..] == rows[1..] + [row];
      LinkedLast(rows[0].to, rows[1..], mid, row, end);
    }
  }

  lemma MovedTaskBreaksChain(db: Db, changes: Changes, k: nat, to: string, actor: string, addr: Resolver)
    requires Valid(db) && ChangesOk(db, changes) && k < |changes|
    requires db.tasks[changes[k].0].status != changes[k].1
    ensures !HistoryOk(WriteEach(db, changes, to, actor, addr))
  {
    var r := WriteEach(db, changes, to, actor, addr);
    var (id, from) := changes[k];
    var rows, status := RowsOf(db.history, id), db.tasks[id].status;
    WriteAdds(db, changes, k, to, actor, addr);
    assert Linked(db.born[id], rows, status);
    if Linked(r.born[id], RowsOf(r.history, id), r.tasks[id].status) {
      if from == to {
        assert rows + [] == rows;
        LinkedEnd(db.born[id], rows, status, to);
      } else {
        LinkedLast(db.born[id], rows, status, HistoryRow(id, FromColumn(from), to, actor), to);
      }
    }
  }

  /** The history chains survive the transaction of a bulk change if and only if every task it changes
      still has the status read for it before the transaction. */
  lemma BulkWriteKeepsChainsExactly(db: Db, changes: Changes, to: string, actor: string, addr: Resolver)
    requires Valid(db) && ChangesOk(db, changes)
    ensures Valid(WriteEach(db, changes, to, actor, addr)) <==> Unmoved(db, changes)
  {
    if Unmoved(db, changes) {
      WriteUnmoved(db, changes, to, actor, addr);
      SetEachKeepsValid(db, Ids(changes), to, actor, addr);
    } else {
      var k: nat :| k < |changes| && db.tasks[changes[k].0].status != changes[k].1;
      MovedTaskBreaksChain(db, changes, k, to, actor, addr);
    }
  }
}
