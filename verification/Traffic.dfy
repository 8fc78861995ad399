/** Traffic accounting: the counters of the live sessions are folded, poll by poll, into one row per user and month. */
module Traffic {
  import opened Wrappers

  datatype Counters = Counters(rx: nat, tx: nat)

  /** One live connection: a name may hold several at once. */
  datatype Sid = Sid(user: string, since: string, address: string)

  /** A line of a poll; a counter that does not parse reads as 0. */
  datatype Client = Client(sid: Sid, counters: Counters)

  datatype Row = Row(user: string, month: string, bytes: Counters)

  /** The table of monthly rows and the counters that each live session had at the last poll. */
  datatype Ledger = Ledger(rows: seq<Row>, sessions: map<Sid, Counters>)

  const ZERO := Counters(0, 0)

  function Plus(a: Counters, b: Counters): Counters { Counters(a.rx + b.rx, a.tx + b.tx) }

  predicate IsPhantom(user: string) { user == "" || user == "UNDEF" }

  // ---- session ids ----

  function SessionId(s: Sid): string { s.user + ['\0'] + s.since + ['\0'] + s.address }

  lemma PrefixBeforeNul(a: string, b: string, x: string, y: string)
    requires a + ['\0'] + x == b + ['\0'] + y && '\0' !in a && '\0' !in b
    ensures a == b && x == y
  {
    var s, t := a + ['\0'] + x, b + ['\0'] + y;
    assert s[|a|] == '\0' && t[|b|] == '\0';
    assert forall i :: 0 <= i < |a| ==> s[i] == a[i];
    assert forall i :: 0 <= i < |b| ==> t[i] == b[i];
    assert a == s[..|a|] && b == t[..|b|] && x == s[|a| + 1..] && y == t[|b| + 1..];
  }

  /** The id names one connection: it is injective, since names and times hold no NUL. */
  lemma SessionIdInjective(s: Sid, t: Sid)
    requires '\0' !in s.user && '\0' !in t.user && '\0' !in s.since && '\0' !in t.since
    ensures SessionId(s) == SessionId(t) <==> s == t
  {
    if SessionId(s) == SessionId(t) {
      var x, y := s.since + ['\0'] + s.address, t.since + ['\0'] + t.address;
      assert SessionId(s) == s.user + ['\0'] + x && SessionId(t) == t.user + ['\0'] + y;
      PrefixBeforeNul(s.user, t.user, x, y);
      PrefixBeforeNul(s.since, t.since, s.address, t.address);
    }
  }

  // ---- one poll ----

  function Above(now: nat, prev: nat): nat { if now > prev then now - prev else 0 }

  /** A first sighting counts whole, a later one counts its growth. */
  function Growth(prev: Option<Counters>, now: Counters): Counters {
    match prev
    case None => now
    case Some(p) => Counters(Above(now.rx, p.rx), Above(now.tx, p.tx))
  }

  function RowAt(rows: seq<Row>, user: string, month: string): (n: nat)
    ensures n <= |rows| && (n < |rows| ==> rows[n].user == user && rows[n].month == month)
  {
    if rows == [] || (rows[0].user == user && rows[0].month == month) then 0 else 1 + RowAt(rows[1..], user, month)
  }

  /** Inserts the row or adds to it. */
  function AddTo(rows: seq<Row>, user: string, month: string, add: Counters): seq<Row> {
    var i := RowAt(rows, user, month);
    if i < |rows| then rows[i := Row(user, month, Plus(rows[i].bytes, add))] else rows + [Row(user, month, add)]
  }

  function LastOf(sessions: map<Sid, Counters>, s: Sid): Option<Counters> {
    if s in sessions then Some(sessions[s]) else None
  }

  function See(l: Ledger, month: string, c: Client): Ledger {
    if IsPhantom(c.sid.user) then l
    else
      var prev := LastOf(l.sessions, c.sid);
      var add := Growth(prev, c.counters);
      var rows := if add != ZERO || prev.None? then AddTo(l.rows, c.sid.user, month, add) else l.rows;
      Ledger(rows, l.sessions[c.sid := c.counters])
  }

  function SeeAll(l: Ledger, month: string, clients: seq<Client>): Ledger {
    if clients == [] then l else See(SeeAll(l, month, clients[..|clients| - 1]), month, clients[|clients| - 1])
  }

  function SeenIn(clients: seq<Client>): set<Sid> {
    if clients == [] then {}
    else
      var c := clients[|clients| - 1];
      SeenIn(clients[..|clients| - 1]) + if IsPhantom(c.sid.user) then {} else {c.sid}
  }

  function Kept(sessions: map<Sid, Counters>, seen: set<Sid>): map<Sid, Counters> {
    map s | s in sessions && s in seen :: sessions[s]
  }

  function Updated(l: Ledger, month: string, clients: seq<Client>): Ledger {
    var l1 := SeeAll(l, month, clients);
    l1.(sessions := Kept(l1.sessions, SeenIn(clients)))
  }

  class Accountant {
    var session: map<Sid, Counters>
    var rows: seq<Row>
    var sessionTable: map<Sid, Counters>
    /** Database writes that failed; they are only logged. */
    ghost var lost: nat

    ghost function View(): Ledger
      reads this
    {
      Ledger(rows, session)
    }

    /** While no write failed the durable baselines are the live ones. */
    ghost predicate Valid()
      reads this
    {
      lost == 0 ==> sessionTable == session
    }

    constructor ()
      ensures Valid() && View() == Ledger([], map[]) && lost == 0
    {
      session, rows, sessionTable, lost := map[], [], map[], 0;
    }

    method UpsertMonthly(user: string, month: string, add: Counters)
      modifies this`rows, this`lost
      ensures lost >= old(lost) && (lost == old(lost) ==> rows == AddTo(old(rows), user, month, add))
    {
      var ok: bool := *;
      if ok { rows := AddTo(rows, user, month, add); } else { lost := lost + 1; }
    }

    method UpsertSession(s: Sid, c: Counters)
      modifies this`sessionTable, this`lost
      ensures lost >= old(lost) && (lost == old(lost) ==> sessionTable == old(sessionTable)[s := c])
    {
      var ok: bool := *;
      if ok { sessionTable := sessionTable[s := c]; } else { lost := lost + 1; }
    }

    method DeleteSession(s: Sid)
      modifies this`sessionTable, this`lost
      ensures lost >= old(lost) && (lost == old(lost) ==> sessionTable == old(sessionTable) - {s})
    {
      var ok: bool := *;
      if ok { sessionTable := sessionTable - {s}; } else { lost := lost + 1; }
    }

    method SeeClient(c: Client, month: string)
      requires Valid()
      modifies this
      ensures Valid() && lost >= old(lost) && (lost == 0 ==> View() == See(old(View()), month, c))
    {
      if IsPhantom(c.sid.user) { return; }
      var add := c.counters;
      if c.sid in session {
        var prev := session[c.sid];
        add := Counters(if c.counters.rx > prev.rx then c.counters.rx - prev.rx else 0,
                        if c.counters.tx > prev.tx then c.counters.tx - prev.tx else 0);
      }
      if add.rx > 0 || add.tx > 0 || c.sid !in session {
        UpsertMonthly(c.sid.user, month, add);
      }
      session := session[c.sid := c.counters];
      UpsertSession(c.sid, c.counters);
    }

    /** Forgets the sessions that are gone. */
    method ForgetUnseen(seen: set<Sid>)
      requires Valid()
      modifies this
      ensures Valid() && lost >= old(lost) && rows == old(rows) && session == Kept(old(session), seen)
    {
      var todo := session.Keys;
      ghost var before := session;
      while todo != {}
        invariant todo <= before.Keys && rows == old(rows) && lost >= old(lost) && Valid()
        invariant session == map s | s in before && (s in todo || s in seen) :: before[s]
        decreases |todo|
      {
        var s :| s in todo;
        if s !in seen {
          session := session - {s};
          DeleteSession(s);
        }
        todo := todo - {s};
      }
    }

    method Update(clients: seq<Client>, month: string)
      requires Valid()
      modifies this
      ensures Valid() && lost >= old(lost) && (lost == 0 ==> View() == Updated(old(View()), month, clients))
    {
      var seen := {};
      for i := 0 to |clients|
        invariant Valid() && lost >= old(lost) && seen == SeenIn(clients[..i])
        invariant lost == 0 ==> View() == SeeAll(old(View()), month, clients[..i])
      {
        assert clients[..i + 1][..i] == clients[..i];
        if !IsPhantom(clients[i].sid.user) { seen := seen + {clients[i].sid}; }
        SeeClient(clients[i], month);
      }
      assert clients[..|clients|] == clients;
      ForgetUnseen(seen);
    }

    /** A restart reads the baselines back. */
    method LoadSessions()
      requires Valid()
      modifies this`session
      ensures Valid() && (lost == 0 ==> View() == old(View()))
    {
      session := sessionTable;
    }
  }

  // ---- the reference: each session metered on its own ----

  datatype Event = Seen(month: string, client: Client) | Swept(seen: set<Sid>) | Restarted

  function Apply(l: Ledger, e: Event): Ledger {
    match e
    case Seen(month, c) => See(l, month, c)
    case Swept(seen) => l.(sessions := Kept(l.sessions, seen))
    case Restarted => l
  }

  function Init(events: seq<Event>): seq<Event> requires events != [] { events[..|events| - 1] }

  function Last(events: seq<Event>): Event requires events != [] { events[|events| - 1] }

  function After(events: seq<Event>): Ledger {
    if events == [] then Ledger([], map[]) else Apply(After(Init(events)), Last(events))
  }

  datatype Direction = Received | Sent

  function Of(c: Counters, dir: Direction): nat { if dir.Received? then c.rx else c.tx }

  /** What is asked for: one direction, and one month or all. */
  datatype Query = Query(dir: Direction, only: Option<string>)

  predicate InMonth(month: string, q: Query) { q.only.None? || q.only.value == month }

  /** What one session has been metered, and its last counters while it is live. */
  datatype Meter = Meter(total: nat, last: Option<Counters>)

  function Metered(m: Meter, e: Event, s: Sid, q: Query): Meter {
    match e
    case Seen(month, c) =>
      if c.sid != s || IsPhantom(s.user) then m
      else Meter(m.total + if InMonth(month, q) then Of(Growth(m.last, c.counters), q.dir) else 0, Some(c.counters))
    case Swept(seen) => if s in seen then m else m.(last := None)
    case Restarted => m
  }

  function MeterOf(events: seq<Event>, s: Sid, q: Query): Meter {
    if events == [] then Meter(0, None) else Metered(MeterOf(Init(events), s, q), Last(events), s, q)
  }

  function WithSighting(sids: seq<Sid>, e: Event, user: string): seq<Sid> {
    if e.Seen? && e.client.sid.user == user && e.client.sid !in sids then sids + [e.client.sid] else sids
  }

  /** The sessions of a user in the order of their first sighting. */
  function SidsOf(events: seq<Event>, user: string): seq<Sid> {
    if events == [] then [] else WithSighting(SidsOf(Init(events), user), Last(events), user)
  }

  function MeterSum(sids: seq<Sid>, events: seq<Event>, q: Query): nat {
    if sids == [] then 0
    else MeterSum(sids[..|sids| - 1], events, q) + MeterOf(events, sids[|sids| - 1], q).total
  }

  /** A user's bytes in the rows. */
  function Billed(rows: seq<Row>, user: string, q: Query): nat {
    if rows == [] then 0
    else Billed(rows[..|rows| - 1], user, q) + RowShare(rows[|rows| - 1], user, q)
  }

  function RowShare(r: Row, user: string, q: Query): nat {
    if r.user == user && InMonth(r.month, q) then Of(r.bytes, q.dir) else 0
  }

  lemma {:induction false} BilledUpdate(rows: seq<Row>, i: nat, r: Row, user: string, q: Query)
    requires i < |rows|
    ensures Billed(rows[i := r], user, q) == Billed(rows, user, q) - RowShare(rows[i], user, q) + RowShare(r, user, q)
  {
    var n, after := |rows| - 1, rows[i := r];
    if i < n {
      BilledUpdate(rows[..n], i, r, user, q);
      assert after[..n] == rows[..n][i := r];
    } else {
      assert after[..n] == rows[..n];
    }
  }

  function Share(who: string, month: string, add: Counters, user: string, q: Query): nat {
    if who == user && InMonth(month, q) then Of(add, q.dir) else 0
  }

  lemma BilledAddTo(rows: seq<Row>, who: string, month: string, add: Counters, user: string, q: Query)
    ensures Billed(AddTo(rows, who, month, add), user, q) == Billed(rows, user, q) + Share(who, month, add, user, q)
  {
    var i := RowAt(rows, who, month);
    if i < |rows| {
      BilledUpdate(rows, i, Row(who, month, Plus(rows[i].bytes, add)), user, q);
    } else {
      assert (rows + [Row(who, month, add)])[..|rows|] == rows;
    }
  }

  lemma BilledSee(l: Ledger, month: string, c: Client, user: string, q: Query)
    requires !IsPhantom(c.sid.user)
    ensures Billed(See(l, month, c).rows, user, q) ==
            Billed(l.rows, user, q) + Share(c.sid.user, month, Growth(LastOf(l.sessions, c.sid), c.counters), user, q)
  {
    BilledAddTo(l.rows, c.sid.user, month, Growth(LastOf(l.sessions, c.sid), c.counters), user, q);
  }

  /** The live baselines are exactly those of the meters: concurrent sessions of one name never touch each other's. */
  lemma {:induction false} BaselinesAreOwn(events: seq<Event>, s: Sid, q: Query)
    ensures LastOf(After(events).sessions, s) == MeterOf(events, s, q).last
  {
    if events != [] { BaselinesAreOwn(Init(events), s, q); }
  }

  lemma {:induction false} SidsAreDistinct(events: seq<Event>, user: string)
    ensures forall i, j :: 0 <= i < j < |SidsOf(events, user)| ==> SidsOf(events, user)[i] != SidsOf(events, user)[j]
    ensures forall i :: 0 <= i < |SidsOf(events, user)| ==> SidsOf(events, user)[i].user == user
  {
    if events != [] {
      SidsAreDistinct(Init(events), user);
      WithSightingDistinct(SidsOf(Init(events), user), Last(events), user);
    }
  }

  lemma WithSightingDistinct(sids: seq<Sid>, e: Event, user: string)
    requires (forall i, j :: 0 <= i < j < |sids| ==> sids[i] != sids[j]) && forall i :: 0 <= i < |sids| ==>
        sids[i].user == user
    ensures var after := WithSighting(sids, e, user);
            (forall i, j :: 0 <= i < j < |after| ==> after[i] != after[j]) && forall i :: 0 <= i < |after| ==>
                after[i].user == user
  {}

  /** Sums over the same sessions, when the last event meters at most the session at k. */
  lemma {:induction false} SumStep(sids: seq<Sid>, events: seq<Event>, q: Query, k: nat, add: nat)
    requires events != [] && k <= |sids|
    requires forall i :: 0 <= i < |sids| ==>
               MeterOf(events, sids[i], q).total == MeterOf(Init(events), sids[i], q).total + if i == k then add else 0
    ensures MeterSum(sids, events, q) == MeterSum(sids, Init(events), q) + if k < |sids| then add else 0
  {
    if sids != [] {
      var n := |sids| - 1;
      if k < n { SumStep(sids[..n], events, q, k, add); } else { SumStep(sids[..n], events, q, n, add); }
    }
  }

  lemma {:induction false} UnseenMetersNothing(events: seq<Event>, s: Sid, q: Query)
    requires s !in SidsOf(events, s.user)
    ensures MeterOf(events, s, q).total == 0
  {
    if events != [] { UnseenMetersNothing(Init(events), s, q); }
  }

  /** Connections without a name yet are never billed. */
  lemma {:induction false} NamelessAreUnbilled(events: seq<Event>, user: string, q: Query)
    requires user == "" || user == "UNDEF"
    ensures Billed(After(events).rows, user, q) == 0
  {
    if events != [] {
      var l, e := After(Init(events)), Last(events);
      NamelessAreUnbilled(Init(events), user, q);
      if e.Seen? && !IsPhantom(e.client.sid.user) { BilledSee(l, e.month, e.client, user, q); }
    }
  }

  /** The first sighting of anyone else bills the whole counters, received and sent apart, in its month. */
  lemma FirstSightingBilled(s: Sid, month: string, rx: nat, tx: nat, other: string)
    requires s.user != "" && s.user != "UNDEF" && other != month
    ensures var rows := After([Seen(month, Client(s, Counters(rx, tx)))]).rows;
            && Billed(rows, s.user, Query(Received, None)) == Billed(rows, s.user, Query(Received, Some(month))) == rx
            && Billed(rows, s.user, Query(Sent, None)) == Billed(rows, s.user, Query(Sent, Some(month))) == tx
            && Billed(rows, s.user, Query(Received, Some(other))) == Billed(rows, s.user, Query(Sent, Some(other))) == 0
  {
    var c := Client(s, Counters(rx, tx));
    var events := [Seen(month, c)];
    assert Init(events) == [] && After([]) == Ledger([], map[]);
    forall q: Query ensures Billed(After(events).rows, s.user, q) == Share(s.user, month, c.counters, s.user, q) {
      BilledSee(After([]), month, c, s.user, q);
    }
  }

  /** What one event meters for a user. */
  function Step(events: seq<Event>, user: string, q: Query): nat
    requires events != []
  {
    var e := Last(events);
    if e.Seen? && e.client.sid.user == user && !IsPhantom(user) && InMonth(e.month, q)
    then Of(Growth(MeterOf(Init(events), e.client.sid, q).last, e.client.counters), q.dir) else 0
  }

  lemma MeterOfStep(events: seq<Event>, s: Sid, q: Query)
    requires events != []
    ensures MeterOf(events, s, q).total == MeterOf(Init(events), s, q).total +
            if Last(events).Seen? && Last(events).client.sid == s then Step(events, s.user, q) else 0
  {}

  lemma KnownSessionStep(events: seq<Event>, s: Sid, q: Query, k: nat)
    requires events != [] && Last(events).Seen? && Last(events).client.sid == s
    requires k < |SidsOf(Init(events), s.user)| && SidsOf(Init(events), s.user)[k] == s
    ensures var before := SidsOf(Init(events), s.user);
            SidsOf(events, s.user) == before &&
                MeterSum(before, events, q) == MeterSum(before, Init(events), q) + Step(events, s.user, q)
  {
    var before := SidsOf(Init(events), s.user);
    SidsAreDistinct(Init(events), s.user);
    forall i | 0 <= i < |before|
      ensures MeterOf(events, before[i], q).total == MeterOf(Init(events), before[i], q).total +
          if i == k then Step(events, s.user, q) else 0
    {
      MeterOfStep(events, before[i], q);
    }
    SumStep(before, events, q, k, Step(events, s.user, q));
  }

  lemma OtherSessionsStep(events: seq<Event>, user: string, q: Query)
    requires events != []
    requires Last(events).Seen? ==> Last(events).client.sid !in SidsOf(Init(events), user)
    ensures var before := SidsOf(Init(events), user); MeterSum(before, events, q) == MeterSum(before, Init(events), q)
  {
    var before := SidsOf(Init(events), user);
    forall i | 0 <= i < |before|
        ensures MeterOf(events, before[i], q).total == MeterOf(Init(events), before[i], q).total {
      MeterOfStep(events, before[i], q);
      assert before[i] in before;
    }
    SumStep(before, events, q, |before|, 0);
  }

  lemma NewSessionStep(events: seq<Event>, s: Sid, q: Query)
    requires events != [] && Last(events).Seen? && Last(events).client.sid == s && s !in SidsOf(Init(events), s.user)
    ensures MeterSum(SidsOf(events, s.user), events, q) == MeterSum(SidsOf(Init(events), s.user), Init(events), q) +
        Step(events, s.user, q)
  {
    var before := SidsOf(Init(events), s.user);
    OtherSessionsStep(events, s.user, q);
    UnseenMetersNothing(Init(events), s, q);
    MeterOfStep(events, s, q);
    assert SidsOf(events, s.user) == before + [s] && (before + [s])[..|before|] == before;
  }

  /** One event, on the side of the meters. */
  lemma MetersStep(events: seq<Event>, user: string, q: Query)
    requires events != []
    ensures MeterSum(SidsOf(events, user), events, q) == MeterSum(SidsOf(Init(events), user), Init(events), q) +
        Step(events, user, q)
  {
    var e, before := Last(events), SidsOf(Init(events), user);
    SidsAreDistinct(Init(events), user);
    if e.Seen? && e.client.sid.user == user {
      if e.client.sid in before {
        var k :| 0 <= k < |before| && before[k] == e.client.sid;
        KnownSessionStep(events, e.client.sid, q, k);
      } else {
        NewSessionStep(events, e.client.sid, q);
      }
    } else {
      OtherSessionsStep(events, user, q);
    }
  }

  /** Conservation: over any polls, month changes and restarts, what the rows bill a user, over all months or in any
      one, is the sum over the user's sessions of the first counter plus all positive growth. */
  lemma {:induction false} BilledIsMetered(events: seq<Event>, user: string, q: Query)
    ensures Billed(After(events).rows, user, q) == MeterSum(SidsOf(events, user), events, q)
  {
    if events != [] {
      BilledIsMetered(Init(events), user, q);
      MetersStep(events, user, q);
      BilledStep(events, user, q);
    }
  }

  /** One event, on the side of the rows. */
  lemma BilledStep(events: seq<Event>, user: string, q: Query)
    requires events != []
    ensures Billed(After(events).rows, user, q) == Billed(After(Init(events)).rows, user, q) + Step(events, user, q)
  {
    var e := Last(events);
    if e.Seen? && !IsPhantom(e.client.sid.user) {
      BilledSee(After(Init(events)), e.month, e.client, user, q);
      BaselinesAreOwn(Init(events), e.client.sid, q);
    }
  }

  // ---- telescoping ----

  /** Counters of a session never fall between sightings, and a session that was forgotten never comes back. */
  predicate RegularStep(last: Option<Counters>, met: bool, e: Event, s: Sid) {
    e.Seen? && e.client.sid == s ==>
      match last
      case None => !met
      case Some(p) => p.rx <= e.client.counters.rx && p.tx <= e.client.counters.tx
  }

  predicate Regular(events: seq<Event>, s: Sid, q: Query) {
    events == [] || (Regular(Init(events), s, q)
                     && RegularStep(MeterOf(Init(events), s, q).last, s in SidsOf(Init(events), s.user), Last(events),
                          s))
  }

  /** The last counters that were seen of a session, live or gone. */
  function LastSeen(events: seq<Event>, s: Sid): Counters {
    if events == [] then ZERO
    else if Last(events).Seen? && Last(events).client.sid == s then Last(events).client.counters
    else LastSeen(Init(events), s)
  }

  lemma {:induction false} LiveIsLastSeen(events: seq<Event>, s: Sid, q: Query)
    requires !IsPhantom(s.user)
    ensures MeterOf(events, s, q).last.Some? ==> MeterOf(events, s, q).last.value == LastSeen(events, s)
  {
    if events != [] { LiveIsLastSeen(Init(events), s, q); }
  }

  /** A session whose counters are monotone and that does not reappear is metered exactly its last counters. */
  lemma {:induction false} RegularMetersLastSeen(events: seq<Event>, s: Sid, dir: Direction)
    requires Regular(events, s, Query(dir, None)) && !IsPhantom(s.user)
    ensures MeterOf(events, s, Query(dir, None)).total == Of(LastSeen(events, s), dir)
  {
    var q := Query(dir, None);
    if events != [] {
      RegularMetersLastSeen(Init(events), s, dir);
      LiveIsLastSeen(Init(events), s, q);
      if s !in SidsOf(Init(events), s.user) { UnseenMetersNothing(Init(events), s, q); }
    }
  }

  function LastSeenSum(sids: seq<Sid>, events: seq<Event>, dir: Direction): nat {
    if sids == [] then 0 else LastSeenSum(sids[..|sids| - 1], events, dir) + Of(LastSeen(events, sids[|sids| - 1]), dir)
  }

  lemma {:induction false} RegularSum(sids: seq<Sid>, events: seq<Event>, dir: Direction)
    requires forall i :: 0 <= i < |sids| ==> Regular(events, sids[i], Query(dir, None)) && !IsPhantom(sids[i].user)
    ensures MeterSum(sids, events, Query(dir, None)) == LastSeenSum(sids, events, dir)
  {
    if sids != [] {
      RegularSum(sids[..|sids| - 1], events, dir);
      RegularMetersLastSeen(events, sids[|sids| - 1], dir);
    }
  }

  /** With monotone counters and no id that reappears, a user's all-month total telescopes to the sum of the last
      counters of the user's sessions. */
  lemma BilledTelescopes(events: seq<Event>, user: string, dir: Direction)
    requires !IsPhantom(user) && forall s :: s in SidsOf(events, user) ==> Regular(events, s, Query(dir, None))
    ensures Billed(After(events).rows, user, Query(dir, None)) == LastSeenSum(SidsOf(events, user), events, dir)
  {
    BilledIsMetered(events, user, Query(dir, None));
    SidsAreDistinct(events, user);
    RegularSum(SidsOf(events, user), events, dir);
  }

  // ---- a poll as a run of events, and a repeated poll ----

  function PollEvents(month: string, clients: seq<Client>): seq<Event> {
    seq(|clients|, i requires 0 <= i < |clients| => Seen(month, clients[i])) + [Swept(SeenIn(clients))]
  }

  lemma {:induction false} SightingsOf(events: seq<Event>, month: string, clients: seq<Client>)
    ensures After(events + seq(|clients|, i requires 0 <= i < |clients| => Seen(month, clients[i]))) ==
            SeeAll(After(events), month, clients)
  {
    var all := events + seq(|clients|, i requires 0 <= i < |clients| => Seen(month, clients[i]));
    if clients == [] {
      assert all == events;
    } else {
      var n := |clients| - 1;
      SightingsOf(events, month, clients[..n]);
      assert Init(all) == events + seq(n, i requires 0 <= i < n => Seen(month, clients[..n][i]));
    }
  }

  /** A poll of the accountant is its sightings and a sweep, so that everything above holds of polls. */
  lemma PollIsEvents(events: seq<Event>, month: string, clients: seq<Client>)
    ensures After(events + PollEvents(month, clients)) == Updated(After(events), month, clients)
  {
    var sightings := seq(|clients|, i requires 0 <= i < |clients| => Seen(month, clients[i]));
    var all := events + PollEvents(month, clients);
    assert all == events + sightings + [Swept(SeenIn(clients))];
    assert Init(all) == events + sightings;
    SightingsOf(events, month, clients);
  }

  /** Each connection appears at most once in a poll. */
  ghost predicate OncePerPoll(clients: seq<Client>) {
    forall i, j :: 0 <= i < j < |clients| ==> clients[i].sid != clients[j].sid
  }

  lemma {:induction false} SeeAllSessions(l: Ledger, month: string, clients: seq<Client>, i: nat)
    requires OncePerPoll(clients) && i < |clients| && !IsPhantom(clients[i].sid.user)
    ensures LastOf(SeeAll(l, month, clients).sessions, clients[i].sid) == Some(clients[i].counters)
    ensures clients[i].sid in SeenIn(clients)
  {
    var n := |clients| - 1;
    if i < n { SeeAllSessions(l, month, clients[..n], i); }
  }

  /** Sightings at unchanged counters change nothing, in whatever month. */
  lemma {:induction false} SeeAllAgain(l: Ledger, month: string, clients: seq<Client>)
    requires forall i :: 0 <= i < |clients| && !IsPhantom(clients[i].sid.user) ==>
               LastOf(l.sessions, clients[i].sid) == Some(clients[i].counters)
    ensures SeeAll(l, month, clients) == l
  {
    if clients != [] {
      var n := |clients| - 1;
      SeeAllAgain(l, month, clients[..n]);
      assert !IsPhantom(clients[n].sid.user) ==> l.sessions[clients[n].sid := clients[n].counters] == l.sessions;
    }
  }

  /** Repeating a poll adds nothing to any row, even when the month has turned in between. */
  lemma RepeatedPollAddsNothing(l: Ledger, month: string, again: string, clients: seq<Client>)
    requires OncePerPoll(clients)
    ensures Updated(Updated(l, month, clients), again, clients) == Updated(l, month, clients)
  {
    var l1 := Updated(l, month, clients);
    forall i | 0 <= i < |clients| && !IsPhantom(clients[i].sid.user)
      ensures LastOf(l1.sessions, clients[i].sid) == Some(clients[i].counters)
    {
      SeeAllSessions(l, month, clients, i);
    }
    SeeAllAgain(l1, again, clients);
    assert Kept(l1.sessions, SeenIn(clients)) == l1.sessions;
  }
}
