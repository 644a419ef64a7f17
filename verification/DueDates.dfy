/** A task's due and plan dates: what people set, what the AI proposes, and who decides. */
module DueDates {
  import opened Wrappers
  import opened Text
  import opened Calendar

  // ----- a proposal in the text of a verdict -----

  predicate DigitAt(s: string, i: nat) { i < |s| && IsDigit(s[i]) }

  /** One or two digits below 24: where the hour ends. */
  function HourEnd(s: string, i: nat): (r: Option<nat>)
    ensures r.Some? ==> i < r.value <= |s|
  {
    if !DigitAt(s, i) then None
    else if !DigitAt(s, i + 1) then Some(i + 1)
    else if Number(s[i..i + 2]) < 24 then Some(i + 2) else None
  }

  /** ":" and two digits below 60. */
  predicate SixtiethAt(s: string, i: nat) {
    i + 3 <= |s| && s[i] == ':' && DigitAt(s, i + 1) && DigitAt(s, i + 2) && Number(s[i + 1..i + 3]) < 60
  }

  /** Nothing more, or a fraction of a second: a point or comma and digits. */
  predicate FractionFrom(s: string, i: nat) {
    i == |s| || (i + 2 <= |s| && (s[i] == '.' || s[i] == ',') && AllDigits(s[i + 1..]))
  }

  /** The rest of the text from i is a time of day as time.Parse reads "15:04:05". */
  predicate ClockFrom(s: string, i: nat) {
    HourEnd(s, i).Some? &&
    var h := HourEnd(s, i).value;
    SixtiethAt(s, h) && SixtiethAt(s, h + 3) && FractionFrom(s, h + 6)
  }

  function SkipBlanks(s: string, i: nat): (k: nat)
    requires i <= |s|
    ensures i <= k <= |s|
    decreases |s| - i
  {
    if i < |s| && s[i] == ' ' then SkipBlanks(s, i + 1) else i
  }

  /** The three layouts in turn: date, blanks and time; date, "T" and time; date. */
  predicate ReadsAsDue(s: string) {
    && |s| >= 10 && ParsesAsDate(s[..10])
    && (|s| == 10 || (s[10] == ' ' && ClockFrom(s, SkipBlanks(s, 10))) || (s[10] == 'T' && ClockFrom(s, 11)))
  }

  datatype Proposal = NotSaid | Unreadable | Day(date: string)

  /** normalizeDueDate: an empty text says there is no date; what does not read as a date proposes
      nothing; else the calendar day, the time dropped. */
  function NormalizeDueDate(raw: string): Proposal {
    var s := TrimSpace(raw);
    if s == "" then NotSaid
    else if ReadsAsDue(s) then Day(Format(ReadDate(s[..10])))
    else Unreadable
  }

  /** What is proposed is always a canonical existing day, and one that is already canonical is
      proposed as it stands, whatever white space surrounds it. */
  lemma ProposalsAreCanonical(raw: string)
    ensures NormalizeDueDate(raw) == NotSaid <==> TrimSpace(raw) == ""
    ensures NormalizeDueDate(raw).Day? ==>
              Canonical(NormalizeDueDate(raw).date) && HasPrefix(TrimSpace(raw), NormalizeDueDate(raw).date)
    ensures Canonical(TrimSpace(raw)) ==> NormalizeDueDate(raw) == Day(TrimSpace(raw))
  {
    var s := TrimSpace(raw);
    if ReadsAsDue(s) {
      ReadThenFormat(s[..10]);
      ValidTaskDateExact(s[..10]);
    }
    ValidTaskDateExact(s);
    if Canonical(s) {
      assert s[..10] == s;
    }
  }

  /** A time of day: two digits each of hours, minutes and seconds. */
  predicate PlainClock(c: string) {
    && |c| == 8 && c[2] == ':' && c[5] == ':'
    && AllDigits(c[0..2]) && AllDigits(c[3..5]) && AllDigits(c[6..8])
    && Number(c[0..2]) < 24 && Number(c[3..5]) < 60 && Number(c[6..8]) < 60
  }

  lemma PlainClockReads(s: string, i: nat)
    requires i + 8 == |s| && PlainClock(s[i..])
    ensures ClockFrom(s, i)
  {
    var c := s[i..];
    assert forall k :: 0 <= k < 8 ==> c[k] == s[i + k];
    assert c[0..2] == s[i..i + 2] && c[3..5] == s[i + 3..i + 5] && c[6..8] == s[i + 6..i + 8];
    DigitsAt(c, 0);
    DigitsAt(c, 3);
    DigitsAt(c, 6);
  }

  lemma DigitsAt(c: string, k: nat)
    requires k + 2 <= |c| && AllDigits(c[k..k + 2])
    ensures IsDigit(c[k]) && IsDigit(c[k + 1])
  {
    assert c[k..k + 2][0] == c[k] && c[k..k + 2][1] == c[k + 1];
  }

  lemma ClockBehind(day: string, sep: char, clock: string)
    requires |day| == 10 && IsDigit(day[0]) && sep in {' ', 'T'} && PlainClock(clock)
    ensures var s := day + [sep] + clock;
      TrimSpace(s) == s && s[..10] == day && s[10] == sep && ClockFrom(s, 11)
  {
    var s := day + [sep] + clock;
    assert s[11..] == clock && s[18] == clock[7];
    DigitsAt(clock, 0);
    DigitsAt(clock, 6);
    NotSpace(s[0]);
    NotSpace(s[18]);
    TrimTrimmed(s);
    PlainClockReads(s, 11);
  }

  lemma OneBlank(s: string)
    requires |s| > 11 && s[10] == ' ' && IsDigit(s[11])
    ensures SkipBlanks(s, 10) == 11
  {
    assert SkipBlanks(s, 11) == 11;
  }

  /** A day with a time of day behind it, after a blank or a T, proposes that day. */
  lemma TimeIsDropped(day: string, sep: char, clock: string)
    requires ValidTaskDate(day) && sep in {' ', 'T'} && PlainClock(clock)
    ensures NormalizeDueDate(day + [sep] + clock) == Day(day)
  {
    var s := day + [sep] + clock;
    FirstIsDigit(day);
    ClockBehind(day, sep, clock);
    DigitsAt(clock, 0);
    assert s[11] == clock[0];
    if sep == ' ' {
      OneBlank(s);
    }
  }

  lemma FirstIsDigit(day: string)
    requires ValidTaskDate(day)
    ensures |day| == 10 && IsDigit(day[0])
  {
    assert day[..4][0] == day[0];
  }

  // ----- the row and the request -----

  datatype Row = Row(due: Option<string>, source: Option<string>, aiDue: Option<string>, pending: bool,
                     scheduled: Option<string>, status: string, others: map<Key, Json>)

  /** A decoded JSON value; numbers, lists and objects are kept apart by a tag only. */
  datatype Json = Null | Str(text: string) | Other(tag: int)

  /** The names of a request's fields and of the table's columns. */
  datatype Key =
    | Status | DueDate | DueSource | AiDueDate | DueAiPending | ScheduledDate | DueAiResolve | DueAiSet
    | Project | Assignee | TaskType | Priority | EpicId | Unknown(name: string)

  /** Stored as they come. */
  predicate Plain(k: Key) { k.Project? || k.Assignee? || k.TaskType? || k.Priority? || k.EpicId? }

  const ZERO := Other(0)
  const ONE := Other(1)

  function StringOf(v: Json): string { if v.Str? then v.text else "" }

  function TextOf(v: Json): Option<string> { if v.Str? then Some(v.text) else None }

  /** UPDATE tasks SET ...: the columns the statement names get its values. */
  function Updated(row: Row, columns: map<Key, Json>): Row {
    Row(if DueDate in columns then TextOf(columns[DueDate]) else row.due,
        if DueSource in columns then TextOf(columns[DueSource]) else row.source,
        if AiDueDate in columns then TextOf(columns[AiDueDate]) else row.aiDue,
        if DueAiPending in columns then columns[DueAiPending] == ONE else row.pending,
        if ScheduledDate in columns then TextOf(columns[ScheduledDate]) else row.scheduled,
        if Status in columns && columns[Status].Str? then columns[Status].text else row.status,
        row.others + (map k | k in columns && Plain(k) :: columns[k]))
  }

  datatype Reply = Done | BadRequest | NotFound | Unprocessable | Failed

  // ----- what a PATCH means, key by key and in no order -----

  predicate DateOrNull(v: Json) { v.Null? || (v.Str? && ValidTaskDate(v.text)) }

  predicate Decision(v: Json) { v == Str("accept") || v == Str("reject") }

  predicate Seed(v: Json) { v.Str? && (v.text == "" || ValidTaskDate(v.text)) }

  predicate FieldOk(k: Key, v: Json) {
    match k
    case DueDate => DateOrNull(v)
    case ScheduledDate => DateOrNull(v)
    case DueAiResolve => Decision(v)
    case _ => true
  }

  /** Every date and decision in the request is well formed. */
  predicate WellFormed(u: map<Key, Json>) { forall k :: k in u ==> FieldOk(k, u[k]) }

  predicate Accepts(u: map<Key, Json>) { DueAiResolve in u && u[DueAiResolve] == Str("accept") }

  function NewStatus(u: map<Key, Json>): string {
    if Status in u then StringOf(u[Status]) else ""
  }

  /** The row after a PATCH that succeeds; `ai` is the AI's day when the decision was looked at.
      Accepting it beats a day in the same request; any day or decision in the request settles the
      pending proposal; the test seed reopens it. */
  function Patched(row: Row, ai: Option<string>, u: map<Key, Json>): Row {
    Row(if Accepts(u) then ai else if DueDate in u then TextOf(u[DueDate]) else row.due,
        if Accepts(u) then Some("ai") else if DueDate in u then Some("manual") else row.source,
        if DueAiSet !in u then row.aiDue else if u[DueAiSet] == Str("") then None else TextOf(u[DueAiSet]),
        DueAiSet in u || (row.pending && DueAiResolve !in u && DueDate !in u),
        if ScheduledDate in u then TextOf(u[ScheduledDate]) else row.scheduled,
        if NewStatus(u) != "" then NewStatus(u) else row.status,
        row.others + (map k | k in u && Plain(k) :: u[k]))
  }

  /** The request names a column to write, so that there is an UPDATE at all. */
  predicate Writes(u: map<Key, Json>) { Kept(u) != map[] || DueAiResolve in u }

  /** What reading the row for the decision gives: an error, no row, or the row as it is then. */
  datatype Lookup = Unread | NoRow | Found(row: Row)

  function AiDay(found: Lookup): Option<string> { if found.Found? then found.row.aiDue else None }

  /** The answer to a request that gets as far as no write; `found` is what the decision was looked up
      in. Some(Done) is never such an answer. */
  function Refusal(u: map<Key, Json>, found: Lookup): Option<Reply> {
    if !WellFormed(u) then Some(BadRequest)
    else if DueAiResolve in u && found.Unread? then Some(Failed)
    else if DueAiResolve in u && found.NoRow? then Some(NotFound)
    else if Accepts(u) && AiDay(found).None? then Some(Unprocessable)
    else if DueAiSet in u && !Seed(u[DueAiSet]) then Some(BadRequest)
    else None
  }

  /** How the two writes turn out: the UPDATE, which the database may refuse because of the other
      columns, and the status change in a transaction of its own, which may fail as well. */
  datatype Outcome = Outcome(stored: bool, moved: bool)

  /** The UPDATE is made, or there is none to make. */
  predicate Committed(u: map<Key, Json>, found: Lookup, o: Outcome) {
    Refusal(u, found).None? && (Writes(u) ==> o.stored)
  }

  /** The reply to a PATCH whose writes meet the given row, if there is one. */
  function ReplyTo(u: map<Key, Json>, found: Lookup, row: Option<Row>, o: Outcome): Reply {
    if Refusal(u, found).Some? then Refusal(u, found).value
    else if !Committed(u, found, o) || (NewStatus(u) != "" && (row.None? || !o.moved)) then Failed
    else Done
  }

  /** The row afterwards. The two writes are not one transaction. */
  function After(u: map<Key, Json>, found: Lookup, row: Row, o: Outcome): Row {
    if !Committed(u, found, o) then row
    else if o.moved then Patched(row, AiDay(found), u)
    else Patched(row, AiDay(found), u).(status := row.status)
  }

  predicate Collects(k: Key) { Plain(k) || k.DueDate? || k.ScheduledDate? || k.DueAiSet? }

  function Kept(u: map<Key, Json>): map<Key, Json> { map k | k in u && Collects(k) :: u[k] }

  /** The columns the loop over the request's keys collects. */
  function Collected(u: map<Key, Json>): map<Key, Json> {
    if DueDate in u then Kept(u)[DueSource := Str("manual")] else Kept(u)
  }

  lemma CollectedOne(done: map<Key, Json>, k: Key, v: Json)
    requires k !in done
    ensures var before, after := Collected(done), Collected(done[k := v]);
      after == (if k == DueDate then before[k := v][DueSource := Str("manual")]
                else if Collects(k) then before[k := v] else before)
  {
    assert Kept(done[k := v]) == if Collects(k) then Kept(done)[k := v] else Kept(done);
  }

  /** What the handler's loop knows after some fields. */
  datatype Gathered = Gathered(columns: map<Key, Json>, newStatus: string, resolve: string, manualDue: bool)

  function Gather(done: map<Key, Json>): Gathered {
    Gathered(Collected(done), NewStatus(done), if DueAiResolve in done then StringOf(done[DueAiResolve]) else "",
             DueDate in done)
  }

  /** The loop's body: one field of the request. */
  method VisitField(ghost done: map<Key, Json>, k: Key, v: Json, g: Gathered) returns (ok: bool, r: Gathered)
    requires g == Gather(done) && k !in done
    ensures ok <==> FieldOk(k, v)
    ensures ok ==> r == Gather(done[k := v])
  {
    CollectedOne(done, k, v);
    ok, r := true, g;
    if k == Status {
      if v.Str? && v.text != "" { r := r.(newStatus := v.text); }
    } else if k == DueDate {
      if !DateOrNull(v) { return false, g; }
      r := r.(columns := r.columns[k := v][DueSource := Str("manual")], manualDue := true);
    } else if k == ScheduledDate {
      if !DateOrNull(v) { return false, g; }
      r := r.(columns := r.columns[k := v]);
    } else if k == DueAiResolve {
      if !Decision(v) { return false, g; }
      r := r.(resolve := v.text);
    } else if Plain(k) || k == DueAiSet {
      r := r.(columns := r.columns[k := v]);
    }
  }

  /** The loop of the PATCH handler over the fields of the request, in whatever order they come: it
      fails exactly on a request that is not well formed, else gathers the same. */
  method GatherFields(u: map<Key, Json>) returns (ok: bool, g: Gathered)
    ensures ok <==> WellFormed(u)
    ensures ok ==> g == Gather(u)
  {
    g := Gathered(map[], "", "", false);
    var left := u.Keys;
    ghost var done: map<Key, Json> := map[];
    assert Collected(done) == map[];
    while left != {}
      invariant left <= u.Keys && done.Keys == u.Keys - left
      invariant forall k :: k in done ==> done[k] == u[k]
      invariant WellFormed(done) && g == Gather(done)
      decreases left
    {
      var k :| k in left;
      var good, next := VisitField(done, k, u[k], g);
      if !good { return false, g; }
      left, done, g := left - {k}, done[k := u[k]], next;
    }
    assert done == u;
    ok := true;
  }

  /** The columns with the decision on the AI's proposal. */
  function Decided(columns: map<Key, Json>, u: map<Key, Json>, found: Lookup): map<Key, Json> {
    var day := if Accepts(u) && AiDay(found).Some?
      then columns[DueDate := Str(AiDay(found).value)][DueSource := Str("ai")] else columns;
    if DueAiResolve in u || DueDate in u then day[DueAiPending := ZERO] else day
  }

  /** The columns with the test seed in place of its key. */
  function Seeded(columns: map<Key, Json>, u: map<Key, Json>): map<Key, Json> {
    if DueAiSet !in u then columns
    else (columns - {DueAiSet})[AiDueDate := if u[DueAiSet] == Str("") then Null else u[DueAiSet]][DueAiPending := ONE]
  }

  function Columns(found: Lookup, u: map<Key, Json>): map<Key, Json> { Seeded(Decided(Collected(u), u, found), u) }

  lemma CollectedAt(u: map<Key, Json>, k: Key)
    ensures k != DueSource ==> (k in Collected(u) <==> k in u && Collects(k))
    ensures k != DueSource && k in Collected(u) ==> Collected(u)[k] == u[k]
    ensures DueSource in Collected(u) <==> DueDate in u
    ensures DueSource in Collected(u) ==> Collected(u)[DueSource] == Str("manual")
  {
  }

  lemma OthersMean(found: Lookup, u: map<Key, Json>)
    ensures (map k | k in Columns(found, u) && Plain(k) :: Columns(found, u)[k]) == (map k | k in u && Plain(k) :: u[k])
  {
    var c := Columns(found, u);
    forall k | Plain(k)
      ensures k in c <==> k in u
      ensures k in u ==> c[k] == u[k]
    {
      CollectedAt(u, k);
    }
  }

  /** What the columns say of the due date and its source. */
  lemma DueColumnsMean(found: Lookup, u: map<Key, Json>)
    requires Accepts(u) ==> AiDay(found).Some?
    ensures var c := Columns(found, u);
      (DueDate in c <==> Accepts(u) || DueDate in u) && (DueSource in c <==> Accepts(u) || DueDate in u) &&
      (DueDate in c ==> TextOf(c[DueDate]) == if Accepts(u) then AiDay(found) else TextOf(u[DueDate])) &&
      (DueSource in c ==> c[DueSource] == if Accepts(u) then Str("ai") else Str("manual"))
  {
    CollectedAt(u, DueDate);
  }

  /** What they say of the proposal, the plan and the status. */
  lemma OtherColumnsMean(found: Lookup, u: map<Key, Json>)
    ensures var c := Columns(found, u);
      (AiDueDate in c <==> DueAiSet in u) && (AiDueDate in c ==> c[AiDueDate] == if u[DueAiSet] == Str("") then Null else u[DueAiSet]) &&
      (DueAiPending in c <==> DueAiSet in u || DueAiResolve in u || DueDate in u) &&
      (DueAiPending in c ==> c[DueAiPending] == if DueAiSet in u then ONE else ZERO) &&
      (ScheduledDate in c <==> ScheduledDate in u) && (ScheduledDate in c ==> c[ScheduledDate] == u[ScheduledDate]) && Status !in c
  {
    CollectedAt(u, AiDueDate);
    CollectedAt(u, DueAiPending);
    CollectedAt(u, ScheduledDate);
    CollectedAt(u, Status);
  }

  /** Writing the collected, decided and seeded columns is what a PATCH means, the status apart. */
  lemma ColumnsMean(row: Row, found: Lookup, u: map<Key, Json>)
    requires Refusal(u, found).None?
    ensures Updated(row, Columns(found, u)) == Patched(row, AiDay(found), u).(status := row.status)
  {
    OthersMean(found, u);
    DueColumnsMean(found, u);
    OtherColumnsMean(found, u);
    UpdatedAsPatched(row, found, u, Columns(found, u));
  }

  lemma UpdatedAsPatched(row: Row, found: Lookup, u: map<Key, Json>, c: map<Key, Json>)
    requires (map k | k in c && Plain(k) :: c[k]) == (map k | k in u && Plain(k) :: u[k])
    requires (DueDate in c <==> Accepts(u) || DueDate in u) && (DueSource in c <==> Accepts(u) || DueDate in u)
    requires DueDate in c ==> TextOf(c[DueDate]) == if Accepts(u) then AiDay(found) else TextOf(u[DueDate])
    requires DueSource in c ==> c[DueSource] == if Accepts(u) then Str("ai") else Str("manual")
    requires (AiDueDate in c <==> DueAiSet in u) && (AiDueDate in c ==> c[AiDueDate] == if u[DueAiSet] == Str("") then Null else u[DueAiSet])
    requires DueAiPending in c <==> DueAiSet in u || DueAiResolve in u || DueDate in u
    requires DueAiPending in c ==> c[DueAiPending] == if DueAiSet in u then ONE else ZERO
    requires (ScheduledDate in c <==> ScheduledDate in u) && (ScheduledDate in c ==> c[ScheduledDate] == u[ScheduledDate]) && Status !in c
    ensures Updated(row, c) == Patched(row, AiDay(found), u).(status := row.status)
  {
  }

  lemma WritesSomething(u: map<Key, Json>, found: Lookup)
    ensures Writes(u) <==> Columns(found, u) != map[]
  {
    if Kept(u) != map[] {
      var k :| k in Kept(u);
      assert k in Kept(u) && (k == DueAiSet ==> DueAiPending in Columns(found, u));
      assert k != DueAiSet ==> k in Columns(found, u);
    } else {
      assert DueDate !in u by { assert DueDate in u ==> DueDate in Kept(u); }
      assert DueAiSet !in u by { assert DueAiSet in u ==> DueAiSet in Kept(u); }
      assert DueAiResolve in u ==> DueAiPending in Columns(found, u);
    }
  }

  /** From the gathered fields to the columns of the UPDATE, or to a refusal. */
  method DecideColumns(u: map<Key, Json>, g: Gathered, found: Lookup) returns (refusal: Option<Reply>, columns: map<Key, Json>)
    requires WellFormed(u) && g == Gather(u)
    ensures refusal == Refusal(u, found)
    ensures refusal.None? ==> columns == Columns(found, u)
  {
    columns := g.columns;
    if g.resolve != "" {
      if found.Unread? { return Some(Failed), columns; }
      if found.NoRow? { return Some(NotFound), columns; }
      if g.resolve == "accept" {
        if found.row.aiDue.None? { return Some(Unprocessable), columns; }
        columns := columns[DueDate := Str(found.row.aiDue.value)][DueSource := Str("ai")];
      }
      columns := columns[DueAiPending := ZERO];
    }
    if g.manualDue { columns := columns[DueAiPending := ZERO]; }
    if DueAiSet in u {
      columns := columns - {DueAiSet};
      var v := u[DueAiSet];
      if !Seed(v) { return Some(BadRequest), columns; }
      columns := columns[AiDueDate := if v.text == "" then Null else v][DueAiPending := ONE];
    }
    refusal := None;
  }

  /** The whole handler: the fields, the decision on the AI's proposal in the row found then, the
      UPDATE of the row as it is by then, and the status change after it. */
  method Patch(u: map<Key, Json>, found: Lookup, row: Option<Row>, o: Outcome) returns (reply: Reply, after: Option<Row>)
    ensures reply == ReplyTo(u, found, row, o)
    ensures after == if row.Some? then Some(After(u, found, row.value, o)) else None
  {
    after := row;
    var ok, g := GatherFields(u);
    if !ok { return BadRequest, row; }
    var refusal, columns := DecideColumns(u, g, found);
    if refusal.Some? { return refusal.value, row; }
    WritesSomething(u, found);
    if columns != map[] {
      if !o.stored { return Failed, row; }
    }
    if row.Some? {
      ColumnsMean(row.value, found, u);
      after := Some(Updated(row.value, columns));
    }
    if g.newStatus != "" {
      if row.None? || !o.moved { return Failed, after; }
      after := Some(after.value.(status := g.newStatus));
    }
    reply := Done;
  }

  /** A refused request leaves the row alone; a failed one does so if and only if the row could not be
      read for the decision, the UPDATE was not made, or what it wrote was there already. */
  lemma FailureKeepsRowExactly(u: map<Key, Json>, found: Lookup, row: Row, o: Outcome)
    ensures ReplyTo(u, found, Some(row), o) !in {Done, Failed} ==> After(u, found, row, o) == row
    ensures ReplyTo(u, found, Some(row), o) == Failed ==>
      (After(u, found, row, o) == row <==>
       (DueAiResolve in u && found.Unread?) || (Writes(u) && !o.stored) || Patched(row, AiDay(found), u).(status := row.status) == row)
  {
  }

  // ----- creation, the AI's step, and whole runs -----

  /** A day given at creation; blank means none. */
  function Given(text: Option<string>): Option<string> {
    if text.Some? && TrimSpace(text.value) != "" then text else None
  }

  predicate GivenOk(text: Option<string>) { Given(text).Some? ==> ValidTaskDate(text.value) }

  /** POST /api/tasks: refused when a day is not valid. */
  function Created(due: Option<string>, scheduled: Option<string>, others: map<Key, Json>): Option<Row> {
    if !GivenOk(due) || !GivenOk(scheduled) then None
    else Some(Row(Given(due), if Given(due).Some? then Some("manual") else None, None, false, Given(scheduled), "new", others))
  }

  /** applyDueDate: a readable day is stored as the AI's and put before a person; with auto-apply it
      becomes the due date at once. */
  function AiStep(autoApply: bool, row: Row, due: Option<string>): Row {
    if due.None? || !NormalizeDueDate(due.value).Day? then row
    else
      var day := Some(NormalizeDueDate(due.value).date);
      if autoApply then row.(aiDue := day, due := day, source := Some("ai"), pending := false)
      else row.(aiDue := day, pending := true)
  }

  /** A day that is read is kept as the AI's proposal. Without auto-apply it waits for a person, and the
      due date and its source stay; with it, it is the due date. A text without a day changes nothing. */
  lemma AiStepExactly(autoApply: bool, row: Row, due: Option<string>)
    ensures var r := AiStep(autoApply, row, due);
      if due.None? || !NormalizeDueDate(due.value).Day? then r == row
      else
        var day := Some(NormalizeDueDate(due.value).date);
        r.aiDue == day && r.scheduled == row.scheduled && r.status == row.status && r.others == row.others &&
        if autoApply then r.due == day && r.source == Some("ai") && !r.pending
        else r.due == row.due && r.source == row.source && r.pending
  {
  }

  /** A task made by hand: refused exactly for a day that is neither blank nor valid. Its due day and its
      plan day are those given, each in its place, blank meaning none; a due day is manual; the AI has
      proposed nothing. */
  lemma CreatedExactly(due: Option<string>, scheduled: Option<string>, others: map<Key, Json>)
    ensures var blank := (t: Option<string>) => t.None? || TrimSpace(t.value) == "";
      var r := Created(due, scheduled, others);
      (r.None? <==> (!blank(due) && !ValidTaskDate(due.value)) || (!blank(scheduled) && !ValidTaskDate(scheduled.value))) &&
      (r.Some? ==>
         && r.value.due == (if blank(due) then None else due)
         && r.value.scheduled == (if blank(scheduled) then None else scheduled)
         && r.value.source == (if blank(due) then None else Some("manual"))
         && r.value.aiDue == None && !r.value.pending && r.value.status == "new" && r.value.others == others)
  {
  }

  /** The AI's step leaves the due date to people exactly when it does not apply it itself, reads no
      day, or finds its own day already there. */
  lemma AiStepKeepsHumanDate(autoApply: bool, row: Row, due: Option<string>)
    ensures AiStep(autoApply, row, due).due == row.due && AiStep(autoApply, row, due).source == row.source <==>
            !autoApply || due.None? || !NormalizeDueDate(due.value).Day? || (row.due == Some(NormalizeDueDate(due.value).date) && row.source == Some("ai"))
  {
  }

  /** A request, with what it saw when it looked at the decision, or a verdict of the AI. */
  datatype Op = Edit(u: map<Key, Json>, seen: Lookup, o: Outcome) | Propose(due: Option<string>)

  function Act(autoApply: bool, row: Row, op: Op): Row {
    match op
    case Edit(u, seen, o) => After(u, seen, row, o)
    case Propose(due) => AiStep(autoApply, row, due)
  }

  function Run(autoApply: bool, row: Row, ops: seq<Op>): Row
    decreases |ops|
  {
    if ops == [] then row else Run(autoApply, Act(autoApply, row, ops[0]), ops[1..])
  }

  /** The days the AI proposed. */
  ghost predicate ProposedIn(ops: seq<Op>, day: string) {
    exists k :: 0 <= k < |ops| && ops[k].Propose? && ops[k].due.Some? && NormalizeDueDate(ops[k].due.value) == Day(day)
  }

  ghost predicate DayOrNone(d: Option<string>) { d.Some? ==> Canonical(d.value) }

  /** Stored days are canonical; a pending decision has a proposal to decide on; what counts as the
      AI's due date was once proposed. */
  ghost predicate DatesOk(row: Row, proposed: string -> bool) {
    && DayOrNone(row.due) && DayOrNone(row.aiDue) && DayOrNone(row.scheduled)
    && (row.pending ==> row.aiDue.Some?)
    && (row.aiDue.Some? ==> proposed(row.aiDue.value))
    && (row.source == Some("ai") ==> row.due.Some? && proposed(row.due.value))
  }

  predicate NoSeed(op: Op) { op.Edit? ==> DueAiSet !in op.u }

  /** Days that reach the row come from proposals. */
  ghost predicate FromProposals(op: Op, proposed: string -> bool) {
    match op
    case Edit(u, seen, o) => DayOrNone(AiDay(seen)) && (AiDay(seen).Some? ==> proposed(AiDay(seen).value))
    case Propose(due) => due.Some? && NormalizeDueDate(due.value).Day? ==> proposed(NormalizeDueDate(due.value).date)
  }

  lemma EditKeepsDates(row: Row, u: map<Key, Json>, seen: Lookup, ai: Option<string>, proposed: string -> bool)
    requires DatesOk(row, proposed) && Refusal(u, seen).None? && DueAiSet !in u
    requires ai == AiDay(seen) && DayOrNone(ai) && (ai.Some? ==> proposed(ai.value))
    ensures DatesOk(Patched(row, ai, u), proposed)
  {
    if DueDate in u && u[DueDate].Str? { ValidTaskDateExact(u[DueDate].text); }
    if ScheduledDate in u && u[ScheduledDate].Str? { ValidTaskDateExact(u[ScheduledDate].text); }
    assert DueDate in u ==> FieldOk(DueDate, u[DueDate]);
    assert ScheduledDate in u ==> FieldOk(ScheduledDate, u[ScheduledDate]);
  }

  lemma ActKeepsDates(row: Row, op: Op, proposed: string -> bool)
    requires DatesOk(row, proposed) && NoSeed(op) && FromProposals(op, proposed)
    ensures DatesOk(Act(false, row, op), proposed)
  {
    match op
    case Edit(u, seen, o) =>
      if Committed(u, seen, o) { EditKeepsDates(row, u, seen, AiDay(seen), proposed); }
    case Propose(due) =>
      if due.Some? { ProposalsAreCanonical(due.value); }
  }

  lemma {:induction false} RunKeepsDates(row: Row, ops: seq<Op>, proposed: string -> bool)
    requires DatesOk(row, proposed) && forall k :: 0 <= k < |ops| ==> NoSeed(ops[k]) && FromProposals(ops[k], proposed)
    ensures DatesOk(Run(false, row, ops), proposed)
    decreases |ops|
  {
    if ops != [] {
      ActKeepsDates(row, ops[0], proposed);
      RunKeepsDates(Act(false, row, ops[0]), ops[1..], proposed);
    }
  }

  /** A request looks at a day the AI proposed before it. */
  ghost predicate LooksBack(ops: seq<Op>) {
    forall k :: 0 <= k < |ops| && ops[k].Edit? && AiDay(ops[k].seen).Some? ==> ProposedIn(ops[..k], AiDay(ops[k].seen).value)
  }

  lemma EarlierProposal(ops: seq<Op>, k: nat, day: string)
    requires k <= |ops| && ProposedIn(ops[..k], day)
    ensures ProposedIn(ops, day) && Canonical(day)
  {
    var front := ops[..k];
    var j :| 0 <= j < |front| && front[j].Propose? && front[j].due.Some? && NormalizeDueDate(front[j].due.value) == Day(day);
    assert ops[j] == front[j];
    ProposalsAreCanonical(ops[j].due.value);
  }

  lemma OpsAreFromProposals(ops: seq<Op>, k: nat, proposed: string -> bool)
    requires LooksBack(ops) && k < |ops| && forall day :: proposed(day) <==> ProposedIn(ops, day)
    ensures FromProposals(ops[k], proposed)
  {
    if ops[k].Edit? && AiDay(ops[k].seen).Some? {
      EarlierProposal(ops, k, AiDay(ops[k].seen).value);
    }
  }

  lemma CreatedDates(due: Option<string>, scheduled: Option<string>, others: map<Key, Json>, proposed: string -> bool)
    requires Created(due, scheduled, others).Some?
    ensures DatesOk(Created(due, scheduled, others).value, proposed)
  {
    if due.Some? { ValidTaskDateExact(due.value); }
    if scheduled.Some? { ValidTaskDateExact(scheduled.value); }
  }

  /** From its creation on, without auto-apply and the test seed, a task's stored days are canonical,
      a pending decision has a proposal, and an AI due date is one the AI proposed in that run, even if
      a request decides on a day that has been replaced meanwhile. */
  lemma EveryRunKeepsDates(due: Option<string>, scheduled: Option<string>, others: map<Key, Json>, ops: seq<Op>)
    requires Created(due, scheduled, others).Some? && LooksBack(ops) && forall k :: 0 <= k < |ops| ==> NoSeed(ops[k])
    ensures var row := Run(false, Created(due, scheduled, others).value, ops);
      DayOrNone(row.due) && DayOrNone(row.aiDue) && DayOrNone(row.scheduled) && (row.pending ==> row.aiDue.Some?)
      && (row.source == Some("ai") ==> row.due.Some? && ProposedIn(ops, row.due.value))
  {
    ghost var proposed := (day: string) => ProposedIn(ops, day);
    var row := Created(due, scheduled, others).value;
    CreatedDates(due, scheduled, others, proposed);
    forall k | 0 <= k < |ops|
      ensures FromProposals(ops[k], proposed)
    {
      OpsAreFromProposals(ops, k, proposed);
    }
    RunKeepsDates(row, ops, proposed);
    assert DatesOk(Run(false, row, ops), proposed);
  }

  // ----- a proposal and a person's decision -----

  lemma AcceptMoves(row: Row)
    requires row.aiDue.Some?
    ensures Act(false, row, Edit(map[DueAiResolve := Str("accept")], Found(row), Outcome(true, true))) ==
            row.(due := row.aiDue, source := Some("ai"), pending := false)
  {
    var u := map[DueAiResolve := Str("accept")];
    assert DueAiResolve in u && FieldOk(DueAiResolve, u[DueAiResolve]) && WellFormed(u);
  }

  lemma RejectKeeps(row: Row)
    requires row.aiDue.Some?
    ensures Act(false, row, Edit(map[DueAiResolve := Str("reject")], Found(row), Outcome(true, true))) ==
            row.(pending := false)
  {
    var u := map[DueAiResolve := Str("reject")];
    assert DueAiResolve in u && FieldOk(DueAiResolve, u[DueAiResolve]) && WellFormed(u);
  }

  /** A proposed day that is then accepted is the due date, as the AI's; one that is rejected leaves the
      due date that was there, and its source. Either way nothing is pending. */
  lemma ProposedThenDecided(row: Row, day: string)
    requires Canonical(day) && TrimSpace(day) == day
    ensures var proposed := AiStep(false, row, Some(day));
      proposed == row.(aiDue := Some(day), pending := true) &&
      Act(false, proposed, Edit(map[DueAiResolve := Str("accept")], Found(proposed), Outcome(true, true))) ==
        row.(aiDue := Some(day), due := Some(day), source := Some("ai"), pending := false) &&
      Act(false, proposed, Edit(map[DueAiResolve := Str("reject")], Found(proposed), Outcome(true, true))) ==
        row.(aiDue := Some(day), pending := false)
  {
    ProposalsAreCanonical(day);
    var proposed := row.(aiDue := Some(day), pending := true);
    assert AiStep(false, row, Some(day)) == proposed;
    AcceptMoves(proposed);
    RejectKeeps(proposed);
  }

  // ----- how long a manual day lasts -----

  predicate NoManualDay(op: Op) { op.Edit? ==> DueDate !in op.u }

  /** The request accepts the AI's day and its UPDATE is made. */
  predicate AcceptsNow(op: Op) { op.Edit? && Accepts(op.u) && Committed(op.u, op.seen, op.o) }

  lemma {:induction false} AcceptedStays(row: Row, ops: seq<Op>)
    requires row.source == Some("ai") && forall k :: 0 <= k < |ops| ==> NoManualDay(ops[k])
    ensures Run(false, row, ops).source == Some("ai")
    decreases |ops|
  {
    if ops != [] {
      AcceptedStays(Act(false, row, ops[0]), ops[1..]);
    }
  }

  /** Over every run without auto-apply and without another manual day, a manual day and its source
      last if and only if no accepting request gets its UPDATE made, pending decision or not. */
  lemma {:induction false} ManualDayLastsExactly(row: Row, ops: seq<Op>)
    requires row.source == Some("manual") && forall k :: 0 <= k < |ops| ==> NoManualDay(ops[k])
    ensures Run(false, row, ops).due == row.due && Run(false, row, ops).source == row.source <==>
            forall k :: 0 <= k < |ops| ==> !AcceptsNow(ops[k])
    decreases |ops|
  {
    if ops != [] {
      var next := Act(false, row, ops[0]);
      if AcceptsNow(ops[0]) {
        AcceptedStays(next, ops[1..]);
      } else {
        assert next.due == row.due && next.source == row.source;
        ManualDayLastsExactly(next, ops[1..]);
      }
    }
  }

  // ----- where the code does more than its comments promise -----

  /** The test seed does not look at the pending flag, and with an empty text it is exactly what
      leaves a decision pending with nothing to decide on. */
  lemma SeedBreaksPendingExactly(row: Row, u: map<Key, Json>)
    requires row.pending ==> row.aiDue.Some?
    requires Refusal(u, Found(row)).None?
    ensures Patched(row, row.aiDue, u).pending && Patched(row, row.aiDue, u).aiDue.None? <==> DueAiSet in u && u[DueAiSet] == Str("")
    ensures Refusal(u, Found(row.(pending := false))).None?
  {
  }

  /** Accepting does not look at it either. For instance, a proposal settled long ago replaces a later
      manual day. */
  lemma StaleProposalReturns(row: Row, day: string)
    requires row.aiDue.Some? && ValidTaskDate(day)
    ensures var edited := Act(false, row, Edit(map[DueDate := Str(day)], Found(row), Outcome(true, true)));
      edited.due == Some(day) && edited.source == Some("manual") && !edited.pending &&
      Act(false, edited, Edit(map[DueAiResolve := Str("accept")], Found(edited), Outcome(true, true))).due == row.aiDue
  {
    var u, v := map[DueDate := Str(day)], map[DueAiResolve := Str("accept")];
    assert DueDate in u && FieldOk(DueDate, u[DueDate]) && WellFormed(u);
    assert DueAiResolve in v && FieldOk(DueAiResolve, v[DueAiResolve]) && WellFormed(v);
    assert Refusal(u, Found(row)).None? && Refusal(v, Found(row.(due := Some(day)))).None?;
  }
}
