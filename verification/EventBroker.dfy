/** The event broker: per-user and common subscriptions over bounded channels. Publishers hold a read
    lock, so several may be sending at once; subscribing and unsubscribing take the write lock. */
module Broker {
  import opened Wrappers

  datatype Event = Event(kind: string, username: string, message: string)

  const CAPACITY := 64
  const ALL := "*"

  type Subscribers = map<string, set<nat>>

  // ----- the subscription table and one send -----

  function Channels(subs: Subscribers, user: string): set<nat> { if user in subs then subs[user] else {} }

  function Subscribed(subs: Subscribers, user: string, ch: nat): Subscribers {
    subs[user := Channels(subs, user) + {ch}][ALL := Channels(subs, ALL) + {ch}]
  }

  /** A user's set that becomes empty is dropped; the common set is only ever dropped by a user
      whose name is that of the common set. */
  function Unsubscribed(subs: Subscribers, user: string, ch: nat): Subscribers {
    var own := Channels(subs, user) - {ch};
    var rest := if user !in subs then subs else if own == {} then subs - {user} else subs[user := own];
    if ALL in rest then rest[ALL := rest[ALL] - {ch}] else rest
  }

  /** A send that does not block: a full channel loses the event. */
  function Offered<T>(buffer: seq<T>, e: T): seq<T> { if |buffer| < CAPACITY then buffer + [e] else buffer }

  /** The channels still to be offered an event, first as addressee, then as one of all. */
  datatype Flight = Flight(addressed: set<nat>, everyone: set<nat>)

  function Audience(subs: Subscribers, e: Event): Flight {
    Flight(if e.username == "" then {} else Channels(subs, e.username), Channels(subs, ALL))
  }

  function Copies(f: Flight, ch: nat): nat {
    (if ch in f.addressed then 1 else 0) + (if ch in f.everyone then 1 else 0)
  }

  // ----- all interleavings -----

  /** An event whose sending began: its audience then, and the publications being sent beside it. */
  datatype Publication = Publication(event: Event, audience: Flight, beside: set<nat>)

  /** A channel: the name it joined with, what it holds, and a record of what its consumer took and
      what it lost to a full buffer. */
  datatype Channel = Channel(user: string, buffer: seq<nat>, taken: seq<nat>, lost: seq<nat>)

  /** What a channel was given so far, oldest first. */
  function Given(c: Channel): seq<nat> { c.taken + c.buffer }

  /** Publications are numbered in the order they began; `channels` holds every channel ever made. */
  datatype State = State(
    subscribers: Subscribers, channels: map<nat, Channel>, flights: map<nat, Flight>, begun: seq<Publication>)

  const EMPTY := State(map[], map[], map[], [])

  datatype Input =
    | Join(ch: nat, user: string)
    | Leave(ch: nat)
    | Begin(event: Event)
    | Send(p: nat, ch: nat)
    | End(p: nat)
    | Take(ch: nat)

  /** The publication takes one channel off its list: addressees come before the others. */
  function Tick(f: Flight, ch: nat): Flight {
    if f.addressed != {} then f.(addressed := f.addressed - {ch}) else f.(everyone := f.everyone - {ch})
  }

  predicate MaySend(s: State, p: nat, ch: nat) {
    && p in s.flights && ch in s.channels
    && ch in (if s.flights[p].addressed != {} then s.flights[p].addressed else s.flights[p].everyone)
  }

  /** A send that does not block: a full channel loses the event. */
  function Offer(c: Channel, p: nat): Channel {
    if |c.buffer| < CAPACITY then c.(buffer := c.buffer + [p]) else c.(lost := c.lost + [p])
  }

  function Begun(s: State, e: Event): State {
    var audience := Audience(s.subscribers, e);
    s.(flights := s.flights[|s.begun| := audience],
       begun := s.begun + [Publication(e, audience, s.flights.Keys)])
  }

  /** Joining and leaving wait until nothing is being sent; a channel leaves under the name it
      joined with. Inputs that cannot occur change nothing. */
  function Step(s: State, i: Input): State {
    match i
    case Join(ch, user) =>
      if s.flights != map[] || ch in s.channels then s
      else s.(subscribers := Subscribed(s.subscribers, user, ch), channels := s.channels[ch := Channel(user, [], [], [])])
    case Leave(ch) =>
      if s.flights != map[] || ch !in s.channels then s
      else s.(subscribers := Unsubscribed(s.subscribers, s.channels[ch].user, ch))
    case Begin(e) => Begun(s, e)
    case Send(p, ch) =>
      if !MaySend(s, p, ch) then s
      else s.(flights := s.flights[p := Tick(s.flights[p], ch)], channels := s.channels[ch := Offer(s.channels[ch], p)])
    case End(p) => if p in s.flights && s.flights[p] == Flight({}, {}) then s.(flights := s.flights - {p}) else s
    case Take(ch) =>
      if ch !in s.channels || s.channels[ch].buffer == [] then s else s.(channels := s.channels[ch := Taken(s.channels[ch])])
  }

  function Taken(c: Channel): Channel
    requires c.buffer != []
  {
    c.(taken := c.taken + [c.buffer[0]], buffer := c.buffer[1..])
  }

  function Run(s: State, inputs: seq<Input>): State
    decreases |inputs|
  {
    if inputs == [] then s else Run(Step(s, inputs[0]), inputs[1..])
  }

  // ----- the invariant -----

  /** A channel sits in its user's set and the common set, in both or in neither; no user but the
      common one has an empty set. `users` gives every channel's user. */
  predicate SetsOk(subs: Subscribers, users: map<nat, string>) {
    && (forall u, ch :: u in subs && ch in subs[u] ==> ch in users && (u == ALL || users[ch] == u))
    && (forall u, ch :: u in subs && ch in subs[u] ==> ch in Channels(subs, ALL))
    && (forall ch :: ch in Channels(subs, ALL) ==> ch in users && ch in Channels(subs, users[ch]))
    && (forall u :: u in subs && u != ALL ==> subs[u] != {})
  }

  function Users(channels: map<nat, Channel>): map<nat, string> { map ch | ch in channels :: channels[ch].user }

  predicate Within(f: Flight, channels: set<nat>) { f.addressed <= channels && f.everyone <= channels }

  predicate FlightsOk(begun: seq<Publication>, flights: map<nat, Flight>, channels: set<nat>) {
    && (forall p :: p in flights ==> p < |begun|)
    && (forall p, q :: p in flights && p < q < |begun| ==> p in begun[q].beside)
    && (forall p :: 0 <= p < |begun| ==> Within(begun[p].audience, channels))
  }

  function Left(flights: map<nat, Flight>, p: nat, ch: nat): nat { if p in flights then Copies(flights[p], ch) else 0 }

  predicate Known(begun: seq<Publication>, log: seq<nat>) { forall k :: 0 <= k < |log| ==> log[k] < |begun| }

  /** A later publication overtakes an earlier one only if the earlier was still being sent when the
      later began. */
  predicate Ordered(begun: seq<Publication>, log: seq<nat>)
    requires Known(begun, log)
  {
    forall i, j :: 0 <= i < j < |log| && log[j] < log[i] ==> log[j] in begun[log[i]].beside
  }

  /** What a publication still owes, gave and failed to give a channel adds up to the copies it set
      out with: two for an addressee, one for any other subscriber, none for the rest. */
  predicate Balanced(begun: seq<Publication>, flights: map<nat, Flight>, c: Channel, ch: nat) {
    forall p :: 0 <= p < |begun| ==>
      multiset(Given(c))[p] + multiset(c.lost)[p] + Left(flights, p, ch) == Copies(begun[p].audience, ch)
  }

  /** The books of one channel. */
  predicate Books(begun: seq<Publication>, flights: map<nat, Flight>, c: Channel, ch: nat) {
    && Known(begun, Given(c)) && Known(begun, c.lost) && Ordered(begun, Given(c))
    && Balanced(begun, flights, c, ch)
    && |c.buffer| <= CAPACITY
  }

  predicate AllBooks(begun: seq<Publication>, flights: map<nat, Flight>, channels: map<nat, Channel>) {
    forall ch :: ch in channels ==> Books(begun, flights, channels[ch], ch)
  }

  predicate Inv(s: State) {
    && SetsOk(s.subscribers, Users(s.channels))
    && FlightsOk(s.begun, s.flights, s.channels.Keys)
    && AllBooks(s.begun, s.flights, s.channels)
  }

  // ----- every step keeps it -----

  lemma JoinKeepsSets(subs: Subscribers, users: map<nat, string>, user: string, ch: nat)
    requires SetsOk(subs, users) && ch !in users
    ensures SetsOk(Subscribed(subs, user, ch), users[ch := user])
  {
  }

  /** Leaving under the name it joined with takes the channel out of every set. */
  lemma LeaveKeepsSets(subs: Subscribers, users: map<nat, string>, ch: nat)
    requires SetsOk(subs, users) && ch in users
    ensures SetsOk(Unsubscribed(subs, users[ch], ch), users)
    ensures forall u :: u in Unsubscribed(subs, users[ch], ch) ==> ch !in Unsubscribed(subs, users[ch], ch)[u]
  {
  }

  /** Leaving under any other name leaves a subscribed channel in its user's set. */
  lemma LeavesOnlyUnderItsName(subs: Subscribers, users: map<nat, string>, user: string, ch: nat)
    requires SetsOk(subs, users) && ch in Channels(subs, ALL)
    ensures ch in Channels(Unsubscribed(subs, user, ch), users[ch]) <==> user != users[ch] && users[ch] != ALL
  {
  }

  lemma NewBooks(begun: seq<Publication>, channels: set<nat>, user: string, ch: nat)
    requires FlightsOk(begun, map[], channels) && ch !in channels
    ensures Books(begun, map[], Channel(user, [], [], []), ch)
  {
    forall p | 0 <= p < |begun|
      ensures Copies(begun[p].audience, ch) == 0
    {
      assert Within(begun[p].audience, channels);
    }
  }

  lemma BooksBegin(begun: seq<Publication>, flights: map<nat, Flight>, c: Channel, ch: nat, pub: Publication)
    requires Books(begun, flights, c, ch) && |begun| !in flights
    ensures Books(begun + [pub], flights[|begun| := pub.audience], c, ch)
  {
    assert |begun| !in Given(c) && |begun| !in c.lost;
  }

  lemma GivenAppend(begun: seq<Publication>, flights: map<nat, Flight>, channels: set<nat>, given: seq<nat>, p: nat)
    requires FlightsOk(begun, flights, channels) && p in flights && Known(begun, given) && Ordered(begun, given)
    ensures Known(begun, given + [p]) && Ordered(begun, given + [p])
  {
  }

  /** One send moves one owed copy to what the channel was given or to what it lost. */
  lemma BooksSend(begun: seq<Publication>, flights: map<nat, Flight>, c: Channel, ch: nat, channels: set<nat>, p: nat)
    requires Books(begun, flights, c, ch) && FlightsOk(begun, flights, channels) && p in flights
    requires ch in (if flights[p].addressed != {} then flights[p].addressed else flights[p].everyone)
    ensures Books(begun, flights[p := Tick(flights[p], ch)], Offer(c, p), ch)
  {
    GivenAppend(begun, flights, channels, Given(c), p);
    assert Given(Offer(c, p)) == if |c.buffer| < CAPACITY then Given(c) + [p] else Given(c);
  }

  lemma BooksOfOthers(begun: seq<Publication>, flights: map<nat, Flight>, c: Channel, k: nat, p: nat, ch: nat)
    requires Books(begun, flights, c, k) && p in flights && k != ch
    ensures Books(begun, flights[p := Tick(flights[p], ch)], c, k)
  {
  }

  lemma BooksEnd(begun: seq<Publication>, flights: map<nat, Flight>, c: Channel, ch: nat, p: nat)
    requires Books(begun, flights, c, ch) && p in flights && flights[p] == Flight({}, {})
    ensures Books(begun, flights - {p}, c, ch)
  {
  }

  lemma BooksTaken(begun: seq<Publication>, flights: map<nat, Flight>, c: Channel, ch: nat)
    requires Books(begun, flights, c, ch) && c.buffer != []
    ensures Books(begun, flights, Taken(c), ch)
  {
    assert Given(Taken(c)) == Given(c);
  }

  lemma JoinKeepsFlights(begun: seq<Publication>, channels: set<nat>, ch: nat)
    requires FlightsOk(begun, map[], channels)
    ensures FlightsOk(begun, map[], channels + {ch})
  {
    forall p | 0 <= p < |begun|
      ensures Within(begun[p].audience, channels + {ch})
    {
      assert Within(begun[p].audience, channels);
    }
  }

  lemma JoinKeepsInv(s: State, ch: nat, user: string)
    requires Inv(s) && s.flights == map[] && ch !in s.channels
    ensures Inv(Step(s, Join(ch, user)))
  {
    var t := Step(s, Join(ch, user));
    JoinKeepsSets(s.subscribers, Users(s.channels), user, ch);
    assert Users(t.channels) == Users(s.channels)[ch := user];
    assert t.channels.Keys == s.channels.Keys + {ch};
    JoinKeepsFlights(s.begun, s.channels.Keys, ch);
    NewBooks(s.begun, s.channels.Keys, user, ch);
    OneChanged(s.begun, s.flights, s.channels, ch, Channel(user, [], [], []));
  }

  /** If one channel's books are in order and the others' too, all are. */
  lemma OneChanged(begun: seq<Publication>, flights: map<nat, Flight>,
                   channels: map<nat, Channel>, ch: nat, c: Channel)
    requires Books(begun, flights, c, ch)
    requires forall k :: k in channels && k != ch ==> Books(begun, flights, channels[k], k)
    ensures AllBooks(begun, flights, channels[ch := c])
  {
  }

  lemma BeginKeepsFlights(begun: seq<Publication>, flights: map<nat, Flight>, channels: set<nat>, pub: Publication)
    requires FlightsOk(begun, flights, channels) && Within(pub.audience, channels) && pub.beside == flights.Keys
    ensures FlightsOk(begun + [pub], flights[|begun| := pub.audience], channels)
  {
    forall p | 0 <= p < |begun + [pub]|
      ensures Within((begun + [pub])[p].audience, channels)
    {
      if p < |begun| {
        assert Within(begun[p].audience, channels);
      }
    }
  }

  lemma BeginKeepsInv(s: State, e: Event)
    requires Inv(s)
    ensures Inv(Begun(s, e))
  {
    var pub := Publication(e, Audience(s.subscribers, e), s.flights.Keys);
    BeginKeepsFlights(s.begun, s.flights, s.channels.Keys, pub);
    forall c | c in s.channels
      ensures Books(s.begun + [pub], s.flights[|s.begun| := pub.audience], s.channels[c], c)
    {
      BooksBegin(s.begun, s.flights, s.channels[c], c, pub);
    }
  }

  lemma SendKeepsFlights(begun: seq<Publication>, flights: map<nat, Flight>, channels: set<nat>, p: nat, f: Flight)
    requires FlightsOk(begun, flights, channels) && p in flights
    ensures FlightsOk(begun, flights[p := f], channels)
  {
  }

  lemma SendKeepsBooks(begun: seq<Publication>, flights: map<nat, Flight>, channels: map<nat, Channel>, p: nat, ch: nat)
    requires AllBooks(begun, flights, channels) && FlightsOk(begun, flights, channels.Keys)
    requires p in flights && ch in channels
    requires ch in (if flights[p].addressed != {} then flights[p].addressed else flights[p].everyone)
    ensures AllBooks(begun, flights[p := Tick(flights[p], ch)], channels[ch := Offer(channels[ch], p)])
  {
    BooksSend(begun, flights, channels[ch], ch, channels.Keys, p);
    forall k | k in channels && k != ch
      ensures Books(begun, flights[p := Tick(flights[p], ch)], channels[k], k)
    {
      BooksOfOthers(begun, flights, channels[k], k, p, ch);
    }
    OneChanged(begun, flights[p := Tick(flights[p], ch)], channels, ch, Offer(channels[ch], p));
  }

  /** A channel's books change, not its user. */
  lemma SameUsers(channels: map<nat, Channel>, ch: nat, c: Channel)
    requires ch in channels && c.user == channels[ch].user
    ensures Users(channels[ch := c]) == Users(channels) && channels[ch := c].Keys == channels.Keys
  {
  }

  lemma SendKeepsInv(s: State, p: nat, ch: nat)
    requires Inv(s) && MaySend(s, p, ch)
    ensures Inv(Step(s, Send(p, ch)))
  {
    var flights, channels := s.flights[p := Tick(s.flights[p], ch)], s.channels[ch := Offer(s.channels[ch], p)];
    assert Step(s, Send(p, ch)) == State(s.subscribers, channels, flights, s.begun);
    assert SetsOk(s.subscribers, Users(channels)) by { SameUsers(s.channels, ch, Offer(s.channels[ch], p)); }
    assert FlightsOk(s.begun, flights, channels.Keys) by {
      SendKeepsFlights(s.begun, s.flights, s.channels.Keys, p, Tick(s.flights[p], ch));
      SameUsers(s.channels, ch, Offer(s.channels[ch], p));
    }
    assert AllBooks(s.begun, flights, channels) by { SendKeepsBooks(s.begun, s.flights, s.channels, p, ch); }
  }

  lemma EndKeepsInv(s: State, p: nat)
    requires Inv(s) && p in s.flights && s.flights[p] == Flight({}, {})
    ensures Inv(Step(s, End(p)))
  {
    forall c | c in s.channels
      ensures Books(s.begun, s.flights - {p}, s.channels[c], c)
    {
      BooksEnd(s.begun, s.flights, s.channels[c], c, p);
    }
  }

  lemma TakeKeepsInv(s: State, ch: nat)
    requires Inv(s) && ch in s.channels && s.channels[ch].buffer != []
    ensures Inv(Step(s, Take(ch)))
  {
    var c := Taken(s.channels[ch]);
    assert Step(s, Take(ch)) == s.(channels := s.channels[ch := c]);
    assert AllBooks(s.begun, s.flights, s.channels[ch := c]) by {
      BooksTaken(s.begun, s.flights, s.channels[ch], ch);
      OneChanged(s.begun, s.flights, s.channels, ch, c);
    }
    SameUsers(s.channels, ch, c);
  }

  lemma StepKeepsInv(s: State, i: Input)
    requires Inv(s)
    ensures Inv(Step(s, i))
  {
    if Step(s, i) != s {
      match i
      case Join(ch, user) => JoinKeepsInv(s, ch, user);
      case Leave(ch) => LeaveKeepsSets(s.subscribers, Users(s.channels), ch);
      case Begin(e) => BeginKeepsInv(s, e);
      case Send(p, ch) => SendKeepsInv(s, p, ch);
      case End(p) => EndKeepsInv(s, p);
      case Take(ch) => TakeKeepsInv(s, ch);
    }
  }

  lemma {:induction false} RunKeepsInv(s: State, inputs: seq<Input>)
    requires Inv(s)
    ensures Inv(Run(s, inputs))
    decreases |inputs|
  {
    if inputs != [] {
      StepKeepsInv(s, inputs[0]);
      RunKeepsInv(Step(s, inputs[0]), inputs[1..]);
    }
  }

  // ----- what the invariant says of a run -----

  /** After any interleaving, a publication that is over reached every channel of its audience once,
      an addressed one twice, except for the copies that channel lost to a full buffer, and no other
      channel; no buffer is over its capacity. */
  lemma EveryRunDelivers(inputs: seq<Input>, s: State, p: nat, ch: nat)
    requires s == Run(EMPTY, inputs) && p < |s.begun| && p !in s.flights && ch in s.channels
    ensures |s.channels[ch].buffer| <= 64
    ensures multiset(Given(s.channels[ch]))[p] + multiset(s.channels[ch].lost)[p] == Copies(s.begun[p].audience, ch) <= 2
  {
    RunKeepsInv(EMPTY, inputs);
    assert Books(s.begun, s.flights, s.channels[ch], ch);
  }

  /** A channel is given publications in the order they began, except that one may overtake another
      that was still being sent when it began. */
  lemma EveryRunKeepsOrder(inputs: seq<Input>, s: State, ch: nat)
    requires s == Run(EMPTY, inputs) && ch in s.channels
    ensures Known(s.begun, Given(s.channels[ch])) && Ordered(s.begun, Given(s.channels[ch]))
  {
    RunKeepsInv(EMPTY, inputs);
    assert Books(s.begun, s.flights, s.channels[ch], ch);
  }

  /** A channel loses a copy only by a send that finds 64 events in it. */
  lemma LossNeedsFullChannel(s: State, i: Input, ch: nat)
    requires ch in s.channels
    ensures ch in Step(s, i).channels
    ensures Step(s, i).channels[ch].lost != s.channels[ch].lost ==>
              i.Send? && i.ch == ch && |s.channels[ch].buffer| >= 64 && Step(s, i).channels[ch].lost == s.channels[ch].lost + [i.p]
  {
  }

  // ----- who is reached, told from the run alone -----

  /** Those who have joined and not left: nobody joins twice, and neither happens while something is
      being sent. */
  function Members(s: State, joined: set<nat>, inputs: seq<Input>): set<nat>
    decreases |inputs|
  {
    if inputs == [] then joined else Members(Step(s, inputs[0]), MembersAfter(s, joined, inputs[0]), inputs[1..])
  }

  function MembersAfter(s: State, joined: set<nat>, i: Input): set<nat> {
    match i
    case Join(ch, _) => if s.flights == map[] && ch !in s.channels then joined + {ch} else joined
    case Leave(ch) => if s.flights == map[] then joined - {ch} else joined
    case _ => joined
  }

  lemma MembersStep(s: State, i: Input)
    requires Inv(s)
    ensures Channels(Step(s, i).subscribers, ALL) == MembersAfter(s, Channels(s.subscribers, ALL), i)
  {
    if i.Leave? && i.ch !in s.channels {
      assert i.ch !in Channels(s.subscribers, ALL);
    }
  }

  lemma {:induction false} MembersAre(s: State, inputs: seq<Input>)
    requires Inv(s)
    ensures Channels(Run(s, inputs).subscribers, ALL) == Members(s, Channels(s.subscribers, ALL), inputs)
    decreases |inputs|
  {
    if inputs != [] {
      StepKeepsInv(s, inputs[0]);
      MembersStep(s, inputs[0]);
      MembersAre(Step(s, inputs[0]), inputs[1..]);
    }
  }

  lemma {:induction false} RunAppend(s: State, a: seq<Input>, b: seq<Input>)
    ensures Run(s, a + b) == Run(Run(s, a), b)
    decreases |a|
  {
    if a == [] {
      assert a + b == b;
    } else {
      assert (a + b)[1..] == a[1..] + b;
      RunAppend(Step(s, a[0]), a[1..], b);
    }
  }

  /** Publications are not forgotten, and a channel keeps its user. */
  lemma {:induction false} RunKeepsRecord(s: State, inputs: seq<Input>)
    ensures s.begun <= Run(s, inputs).begun
    ensures forall ch :: ch in s.channels ==> ch in Run(s, inputs).channels && Run(s, inputs).channels[ch].user == s.channels[ch].user
    decreases |inputs|
  {
    if inputs != [] {
      RunKeepsRecord(Step(s, inputs[0]), inputs[1..]);
    }
  }

  lemma CopiesExactly(subs: Subscribers, users: map<nat, string>, e: Event, ch: nat)
    requires SetsOk(subs, users)
    ensures Copies(Audience(subs, e), ch) ==
            if ch !in Channels(subs, ALL) then 0
            else if e.username != "" && (e.username == ALL || users[ch] == e.username) then 2 else 1
  {
  }

  /** After any interleaving: a publication that is over was offered once to every channel that had
      joined and not left when it began, twice if it is addressed to that channel's user, and to no
      other channel. What was offered is given, in the order of EveryRunKeepsOrder, or lost to a full
      buffer. */
  lemma ReachedExactly(before: seq<Input>, e: Event, after: seq<Input>, ch: nat)
    ensures var s := Run(EMPTY, before + [Begin(e)] + after);
      var p := |Run(EMPTY, before).begun|;
      p < |s.begun| && s.begun[p].event == e &&
      (ch in s.channels && p !in s.flights ==>
         multiset(Given(s.channels[ch]))[p] + multiset(s.channels[ch].lost)[p] ==
         if ch !in Members(EMPTY, {}, before) then 0
         else if e.username != "" && e.username in {"*", s.channels[ch].user} then 2 else 1)
  {
    var t := Run(EMPTY, before);
    var s := Run(EMPTY, before + [Begin(e)] + after);
    RunKeepsInv(EMPTY, before);
    RunAppend(EMPTY, before + [Begin(e)], after);
    RunAppend(EMPTY, before, [Begin(e)]);
    assert Run(t, [Begin(e)]) == Begun(t, e) by {
      assert [Begin(e)][1..] == [];
    }
    RunKeepsRecord(Begun(t, e), after);
    MembersAre(EMPTY, before);
    CopiesExactly(t.subscribers, Users(t.channels), e, ch);
    if ch in s.channels && |t.begun| !in s.flights {
      EveryRunDelivers(before + [Begin(e)] + after, s, |t.begun|, ch);
    }
  }

  // ----- no loss with room -----

  /** The copies the first n publications still owe a channel. */
  function Owed(flights: map<nat, Flight>, ch: nat, n: nat): nat {
    if n == 0 then 0 else Owed(flights, ch, n - 1) + Left(flights, n - 1, ch)
  }

  lemma {:induction false} OwedAfterSend(flights: map<nat, Flight>, p: nat, ch: nat, c: nat, n: nat)
    requires p in flights
    requires ch in (if flights[p].addressed != {} then flights[p].addressed else flights[p].everyone)
    ensures Owed(flights, c, n) == Owed(flights[p := Tick(flights[p], ch)], c, n) + (if c == ch && p < n then 1 else 0)
  {
    if n > 0 {
      OwedAfterSend(flights, p, ch, c, n - 1);
    }
  }

  lemma {:induction false} OwedAfterBegin(flights: map<nat, Flight>, f: Flight, q: nat, c: nat, n: nat)
    requires n <= q
    ensures Owed(flights[q := f], c, n) == Owed(flights, c, n)
  {
    if n > 0 {
      OwedAfterBegin(flights, f, q, c, n - 1);
    }
  }

  lemma {:induction false} OwedAfterEnd(flights: map<nat, Flight>, p: nat, c: nat, n: nat)
    requires p in flights && flights[p] == Flight({}, {})
    ensures Owed(flights - {p}, c, n) == Owed(flights, c, n)
  {
    if n > 0 {
      OwedAfterEnd(flights, p, c, n - 1);
    }
  }

  /** The channel's buffer has room for all it is still owed and for `spare` copies more. */
  predicate Roomy(s: State, ch: nat, spare: nat) {
    ch in s.channels && |s.channels[ch].buffer| + Owed(s.flights, ch, |s.begun|) + spare <= 64
  }

  lemma RoomyBegin(s: State, e: Event, ch: nat)
    requires Roomy(s, ch, 2)
    ensures Roomy(Begun(s, e), ch, 0)
  {
    var f := Audience(s.subscribers, e);
    OwedAfterBegin(s.flights, f, |s.begun|, ch, |s.begun|);
    assert Owed(s.flights[|s.begun| := f], ch, |s.begun| + 1) == Owed(s.flights, ch, |s.begun|) + Copies(f, ch);
  }

  lemma RoomySend(s: State, p: nat, k: nat, ch: nat)
    requires Roomy(s, ch, 0) && MaySend(s, p, k) && p < |s.begun|
    ensures Roomy(Step(s, Send(p, k)), ch, 0) && Step(s, Send(p, k)).channels[ch].lost == s.channels[ch].lost
  {
    OwedAfterSend(s.flights, p, k, ch, |s.begun|);
  }

  lemma RoomyStep(s: State, i: Input, ch: nat)
    requires Inv(s) && Roomy(s, ch, 0) && (i.Begin? ==> Roomy(s, ch, 2))
    ensures Roomy(Step(s, i), ch, 0) && Step(s, i).channels[ch].lost == s.channels[ch].lost
  {
    if Step(s, i) != s {
      match i
      case Join(k, user) => assert Step(s, i).channels[ch] == s.channels[ch];
      case Leave(k) => assert Step(s, i).channels == s.channels;
      case Begin(e) => RoomyBegin(s, e, ch);
      case Send(p, k) => RoomySend(s, p, k, ch);
      case End(p) => OwedAfterEnd(s.flights, p, ch, |s.begun|);
      case Take(k) =>
    }
  }

  /** Whenever a publication begins, the channel has two free places beyond what it is owed. */
  predicate TwoFreeAtEachBegin(s: State, inputs: seq<Input>, ch: nat)
    decreases |inputs|
  {
    inputs == [] || ((inputs[0].Begin? ==> Roomy(s, ch, 2)) && TwoFreeAtEachBegin(Step(s, inputs[0]), inputs[1..], ch))
  }

  /** Such a channel loses nothing, however the publications and its consumer interleave. */
  lemma {:induction false} NothingLostWithRoom(s: State, inputs: seq<Input>, ch: nat)
    requires Inv(s) && Roomy(s, ch, 0) && TwoFreeAtEachBegin(s, inputs, ch)
    ensures ch in Run(s, inputs).channels && Run(s, inputs).channels[ch].lost == s.channels[ch].lost
    decreases |inputs|
  {
    if inputs != [] {
      RoomyStep(s, inputs[0], ch);
      StepKeepsInv(s, inputs[0]);
      NothingLostWithRoom(Step(s, inputs[0]), inputs[1..], ch);
    }
  }

  // ----- one publication on its own -----

  function OfferedTimes<T>(buffer: seq<T>, e: T, n: nat): seq<T>
    decreases n
  {
    if n == 0 then buffer else OfferedTimes(Offered(buffer, e), e, n - 1)
  }

  /** The channels' contents after one whole publication. */
  function Published(subs: Subscribers, buffers: map<nat, seq<Event>>, e: Event): map<nat, seq<Event>> {
    map ch | ch in buffers :: OfferedTimes(buffers[ch], e, Copies(Audience(subs, e), ch))
  }

  /** An addressee with two free places gets the event twice, any other subscriber with one free
      place once, and nobody else anything. */
  lemma RoomForTwo(subs: Subscribers, users: map<nat, string>, buffers: map<nat, seq<Event>>, e: Event, ch: nat)
    requires SetsOk(subs, users) && ch in buffers && |buffers[ch]| + 2 <= 64
    ensures Published(subs, buffers, e)[ch] == buffers[ch] + (
      if ch !in Channels(subs, ALL) then []
      else if e.username != "" && (e.username == ALL || users[ch] == e.username) then [e, e] else [e])
  {
    var b := buffers[ch];
    assert OfferedTimes(b, e, 2) == OfferedTimes(b + [e], e, 1) == OfferedTimes(b + [e] + [e], e, 0);
    assert OfferedTimes(b, e, 1) == OfferedTimes(b + [e], e, 0);
    assert b + [e] + [e] == b + [e, e] && b + [] == b;
  }

  // ----- a publication nothing comes between, in the state machine -----

  function OfferTimes(c: Channel, p: nat, n: nat): Channel
    decreases n
  {
    if n == 0 then c else OfferTimes(Offer(c, p), p, n - 1)
  }

  predicate OnlySends(p: nat, inputs: seq<Input>) {
    forall k :: 0 <= k < |inputs| ==> inputs[k].Send? && inputs[k].p == p
  }

  /** A stretch of sends of one publication offers each channel the copies it takes off the list. */
  lemma {:induction false} SendsOffer(s: State, p: nat, sends: seq<Input>, ch: nat)
    requires OnlySends(p, sends) && p in s.flights && ch in s.channels
    ensures var t := Run(s, sends);
      t.subscribers == s.subscribers && t.begun == s.begun && t.channels.Keys == s.channels.Keys && p in t.flights &&
      Copies(t.flights[p], ch) <= Copies(s.flights[p], ch) &&
      t.channels[ch] == OfferTimes(s.channels[ch], p, Copies(s.flights[p], ch) - Copies(t.flights[p], ch))
    decreases |sends|
  {
    if sends != [] {
      var u := Step(s, sends[0]);
      SendsOffer(u, p, sends[1..], ch);
      var n := Copies(u.flights[p], ch) - Copies(Run(u, sends[1..]).flights[p], ch);
      assert OfferTimes(s.channels[ch], p, n + 1) == OfferTimes(Offer(s.channels[ch], p), p, n);
    }
  }

  function Events(begun: seq<Publication>, log: seq<nat>): (es: seq<Event>)
    requires Known(begun, log)
  {
    seq(|log|, k requires 0 <= k < |log| => begun[log[k]].event)
  }

  lemma {:induction false} OfferedEvents(begun: seq<Publication>, c: Channel, p: nat, n: nat)
    requires Known(begun, c.buffer) && p < |begun|
    ensures Known(begun, OfferTimes(c, p, n).buffer)
    ensures Events(begun, OfferTimes(c, p, n).buffer) == OfferedTimes(Events(begun, c.buffer), begun[p].event, n)
    decreases n
  {
    if n > 0 {
      OfferedEvents(begun, Offer(c, p), p, n - 1);
      assert Events(begun, Offer(c, p).buffer) == Offered(Events(begun, c.buffer), begun[p].event);
    }
  }

  predicate Readable(s: State) { forall ch :: ch in s.channels ==> Known(s.begun, s.channels[ch].buffer) }

  /** The events the channels hold. */
  function Contents(s: State): map<nat, seq<Event>>
    requires Readable(s)
  {
    map ch | ch in s.channels :: Events(s.begun, s.channels[ch].buffer)
  }

  lemma ReachedIsReadable(s: State)
    requires Inv(s)
    ensures Readable(s)
  {
    forall ch | ch in s.channels
      ensures Known(s.begun, s.channels[ch].buffer)
    {
      var c := s.channels[ch];
      assert Books(s.begun, s.flights, c, ch);
      assert forall k :: 0 <= k < |c.buffer| ==> c.buffer[k] == Given(c)[|c.taken| + k];
    }
  }

  lemma {:induction false} SendsKeepTable(s: State, p: nat, sends: seq<Input>)
    requires OnlySends(p, sends) && p in s.flights
    ensures var t := Run(s, sends);
      t.subscribers == s.subscribers && t.channels.Keys == s.channels.Keys && p in t.flights
    decreases |sends|
  {
    if sends != [] {
      SendsKeepTable(Step(s, sends[0]), p, sends[1..]);
    }
  }

  /** What is begun later does not change the events of a log. */
  lemma SameEvents(begun: seq<Publication>, pub: Publication, log: seq<nat>)
    requires Known(begun, log)
    ensures Known(begun + [pub], log) && Events(begun + [pub], log) == Events(begun, log)
  {
    assert forall k :: 0 <= k < |log| ==> (begun + [pub])[log[k]] == begun[log[k]];
  }

  lemma OneChannelPublished(s: State, e: Event, sends: seq<Input>, r: State, ch: nat)
    requires OnlySends(|s.begun|, sends) && ch in s.channels && Known(s.begun, s.channels[ch].buffer)
    requires r == Run(Begun(s, e), sends) && |s.begun| in r.flights && r.flights[|s.begun|] == Flight({}, {})
    ensures ch in r.channels && Known(r.begun, r.channels[ch].buffer)
    ensures Events(r.begun, r.channels[ch].buffer) ==
            OfferedTimes(Events(s.begun, s.channels[ch].buffer), e, Copies(Audience(s.subscribers, e), ch))
  {
    var p, u, c := |s.begun|, Begun(s, e), s.channels[ch];
    SendsOffer(u, p, sends, ch);
    SameEvents(s.begun, u.begun[p], c.buffer);
    OfferedEvents(u.begun, c, p, Copies(Audience(s.subscribers, e), ch));
  }

  lemma PublicationAlone(s: State, e: Event, sends: seq<Input>, t: State)
    requires Readable(s) && OnlySends(|s.begun|, sends)
    requires t == Step(Run(Begun(s, e), sends), End(|s.begun|)) && |s.begun| !in t.flights
    ensures t.subscribers == s.subscribers
    ensures Readable(t) && Contents(t) == Published(s.subscribers, Contents(s), e)
  {
    var p, u := |s.begun|, Begun(s, e);
    SendsKeepTable(u, p, sends);
    forall ch | ch in s.channels
      ensures Known(t.begun, t.channels[ch].buffer)
      ensures Events(t.begun, t.channels[ch].buffer) ==
        OfferedTimes(Events(s.begun, s.channels[ch].buffer), e, Copies(Audience(s.subscribers, e), ch))
    {
      OneChannelPublished(s, e, sends, Run(u, sends), ch);
    }
  }

  /** After any interleaving: a publication that begins and ends with only its own sends in between, in
      whatever order they come, leaves the channels with what one whole publication puts there. */
  lemma SerialPublication(inputs: seq<Input>, s: State, e: Event, sends: seq<Input>, t: State)
    requires s == Run(EMPTY, inputs) && OnlySends(|s.begun|, sends)
    requires t == Step(Run(Begun(s, e), sends), End(|s.begun|)) && |s.begun| !in t.flights
    ensures t.subscribers == s.subscribers
    ensures Readable(s) && Readable(t) && Contents(t) == Published(s.subscribers, Contents(s), e)
  {
    RunKeepsInv(EMPTY, inputs);
    ReachedIsReadable(s);
    PublicationAlone(s, e, sends, t);
  }
}

/** The broker object, one lock holder at a time. */
module WebSocketServer {
  import opened Broker

  class EventBroker {
    var subscribers: Subscribers
    /** What every channel ever made holds. */
    var channels: map<nat, seq<Event>>
    var nextChannel: nat

    ghost predicate Valid()
      reads this
    {
      && (forall ch :: ch in channels ==> |channels[ch]| <= CAPACITY && ch < nextChannel)
      && (forall u, ch :: u in subscribers && ch in subscribers[u] ==> ch in channels)
    }

    constructor ()
      ensures Valid() && subscribers == map[] && channels == map[]
    {
      subscribers, channels, nextChannel := map[], map[], 0;
    }

    method Subscribe(username: string) returns (ch: nat)
      requires Valid()
      modifies this
      ensures Valid() && ch !in old(channels) && channels == old(channels)[ch := []]
      ensures subscribers == Subscribed(old(subscribers), username, ch)
    {
      ch, nextChannel := nextChannel, nextChannel + 1;
      channels := channels[ch := []];
      Enlist(username, ch);
      if username != "*" { Enlist("*", ch); }
    }

    /** Puts a channel in a user's set, made if missing. */
    method Enlist(username: string, ch: nat)
      modifies this`subscribers
      ensures subscribers == old(subscribers)[username := Channels(old(subscribers), username) + {ch}]
    {
      if username !in subscribers { subscribers := subscribers[username := {}]; }
      subscribers := subscribers[username := subscribers[username] + {ch}];
    }

    method Unsubscribe(username: string, ch: nat)
      requires Valid()
      modifies this`subscribers
      ensures Valid() && subscribers == Unsubscribed(old(subscribers), username, ch)
    {
      if username in subscribers {
        subscribers := subscribers[username := subscribers[username] - {ch}];
        if subscribers[username] == {} { subscribers := subscribers - {username}; }
      }
      if "*" in subscribers {
        subscribers := subscribers["*" := subscribers["*"] - {ch}];
      }
    }

    /** Offers the event to each of some channels once, in any order. */
    method SendTo(targets: set<nat>, event: Event)
      requires Valid() && targets <= channels.Keys
      modifies this`channels
      ensures Valid() && channels.Keys == old(channels).Keys
      ensures forall ch :: ch in channels ==>
        channels[ch] == if ch in targets then Offered(old(channels)[ch], event) else old(channels)[ch]
    {
      var left := targets;
      while left != {}
        invariant left <= targets && Valid() && channels.Keys == old(channels).Keys
        invariant forall ch :: ch in channels ==>
          channels[ch] == if ch in targets - left then Offered(old(channels)[ch], event) else old(channels)[ch]
        decreases left
      {
        var ch :| ch in left;
        if |channels[ch]| < CAPACITY { channels := channels[ch := channels[ch] + [event]]; }
        left := left - {ch};
      }
    }

    method Publish(event: Event)
      requires Valid()
      modifies this`channels
      ensures Valid() && channels == Published(subscribers, old(channels), event)
    {
      ghost var before := channels;
      if event.username != "" && event.username in subscribers {
        SendTo(subscribers[event.username], event);
      }
      if "*" in subscribers {
        SendTo(subscribers["*"], event);
      }
      forall ch | ch in channels
        ensures channels[ch] == OfferedTimes(before[ch], event, Copies(Audience(subscribers, event), ch))
      {
        var b := before[ch];
        assert OfferedTimes(b, event, 1) == OfferedTimes(Offered(b, event), event, 0);
        assert OfferedTimes(b, event, 2) == OfferedTimes(Offered(b, event), event, 1);
        assert OfferedTimes(Offered(b, event), event, 1) == OfferedTimes(Offered(Offered(b, event), event), event, 0);
      }
    }
  }
}
