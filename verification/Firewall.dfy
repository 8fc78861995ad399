/** The per-client firewall: which ACCEPT rules each live VPN session has, and how events converge them. */
module Firewall {
  import opened Wrappers
  import opened Ipv4
  import opened RoutePolicy
  import opened FirewallChain

  /** The stored routes, as the controller reads them. */
  datatype Routes = Routes(ccds: map<string, seq<CcdRoute>>, common: seq<CommonRoute>)
  {
    function CustomRoutes(cn: string): seq<CcdRoute> {
      if cn in ccds then ccds[cn] else []
    }

    function Policy(cn: string): set<Cidr> {
      AllowedCidrs(CustomRoutes(cn), common)
    }
  }

  class CcdReader {
    var routes: Routes
  }

  datatype Event =
    | Connect(key: SessionKey)
    | Disconnect(cn: string, ip: TunnelIp)
    | UserChanged(cn: string)
    | CommonChanged
    | Reconcile

  /** A disconnect without a tunnel address ends every session of the common name. */
  predicate Ends(cn: string, ip: TunnelIp, key: SessionKey) {
    key.cn == cn && (ip == NoAddress || key.ip == ip)
  }

  // ---- what one operation may do to the bookkeeping and the chain ----

  /** The bookkeeping of one session: destinations it tracks, and those whose delete must be retried. */
  datatype Entry = Entry(allowed: set<Cidr>, pending: set<Cidr>)

  /** The controller's sessions beside the installed rules, with how many commands ran and how many failed. */
  datatype FwState = FwState(
    book: map<SessionKey, Entry>, rules: set<Rule>, jumps: nat, commands: nat, failures: nat, shaped: bool)

  /** Every live ACCEPT belongs to a tracked session that lists its destination. */
  ghost predicate Accounted(s: FwState) {
    forall r :: r in s.rules && r.Accept? ==> r.key in s.book && r.dst in s.book[r.key].allowed
  }

  /** The rules of sessions outside `keys` are untouched. */
  ghost predicate SameElsewhere(before: set<Rule>, after: set<Rule>, keys: set<SessionKey>) {
    forall r: Rule :: (r.Accept? ==> r.key !in keys) ==> (r in after <==> r in before)
  }

  /** `dst` is tracked for the session but not live. */
  predicate Phantom(s: FwState, k: SessionKey, dst: Cidr) {
    k in s.book && dst in s.book[k].allowed && Accept(k, dst) !in s.rules
  }

  /** No tracked destination without a rule is ever repaired or forgotten. */
  ghost predicate PhantomsStay(a: FwState, b: FwState) {
    forall k, dst :: Phantom(a, k, dst) ==> Phantom(b, k, dst)
  }

  /** Only sessions in `keys` changed; the jump is untouched and the chain was complete after every command. */
  ghost predicate Only(a: FwState, b: FwState, keys: set<SessionKey>) {
    && (forall k :: k !in keys ==> (k in b.book <==> k in a.book) && (k in a.book ==> b.book[k] == a.book[k]))
    && SameElsewhere(a.rules, b.rules, keys)
    && PhantomsStay(a, b)
    && b.jumps == a.jumps
    && a.failures <= b.failures
    && (a.shaped ==> b.shaped)
  }

  /** A session converged to `desired`. */
  ghost predicate OnPolicy(s: FwState, k: SessionKey, desired: set<Cidr>) {
    k in s.book && s.book[k].allowed == desired && s.book[k].pending <= desired
  }

  function TrackedFor(s: FwState, k: SessionKey): set<Cidr> {
    if k in s.book then s.book[k].allowed else {}
  }

  /** The live rules of `k` that a failure-free convergence leaves: those kept, and those inserted because untracked. */
  ghost predicate ConvergedLive(a: FwState, b: FwState, k: SessionKey, desired: set<Cidr>) {
    forall c :: Accept(k, c) in b.rules <==> c in desired && (Accept(k, c) in a.rules || c !in TrackedFor(a, k))
  }

  /** applyDiff of session `k`: a destination stays tracked unless its delete succeeded, and is tracked anew only if its
      insert succeeded; a stuck delete is remembered; without a difference no command runs. */
  ghost predicate Diffs(a: FwState, b: FwState, k: SessionKey, desired: set<Cidr>)
    requires k in a.book
  {
    && k in b.book && b.book == a.book[k := b.book[k]]
    && Only(a, b, {k})
    && (forall c :: Accept(k, c) in b.rules ==> c in b.book[k].allowed)
    && a.book[k].allowed * desired <= b.book[k].allowed <= desired + a.book[k].allowed + a.book[k].pending
    && (b.failures == a.failures ==> OnPolicy(b, k, desired) && ConvergedLive(a, b, k, desired))
    && (b.failures != a.failures ==> b.book[k].pending == b.book[k].allowed - desired)
    && (OnPolicy(a, k, desired) ==> b == a)
  }

  /** The sessions of `gone` are dropped unless a delete failed; one that stays tracks what may still be live. */
  ghost predicate Closes(a: FwState, b: FwState, gone: set<SessionKey>) {
    && Only(a, b, gone) && b.book.Keys <= a.book.Keys
    && (b.failures == a.failures ==> b.book == a.book - gone)
    && (forall k :: k in gone && k in b.book ==> {} < b.book[k].allowed <= a.book[k].allowed)
    && (gone == {} ==> b == a)
  }

  // ---- the commands of one session ----

  /** How the commands of one session turn out: the destinations whose rule a delete removed, the deletes and the
      inserts that report failure. A delete may do both. */
  datatype Outcomes = Outcomes(removed: set<Cidr>, refused: set<Cidr>, missed: set<Cidr>)

  ghost predicate Live(rules: set<Rule>, k: SessionKey, cidrs: set<Cidr>) {
    forall c :: c in cidrs ==> Accept(k, c) in rules
  }

  /** The rules `after` are `before` without those of `removed` and with those of `added`. */
  ghost predicate Changed(before: set<Rule>, after: set<Rule>, k: SessionKey, removed: set<Cidr>, added: set<Cidr>) {
    && SameElsewhere(before, after, {k})
    && forall c :: Accept(k, c) in after <==> (Accept(k, c) in before && c !in removed) || c in added
  }

  /** What deletes can do: only a live rule is removed, so the delete of an absent one is refused. */
  ghost predicate Deletable(rules: set<Rule>, k: SessionKey, cidrs: set<Cidr>, o: Outcomes) {
    o.removed <= cidrs && o.refused <= cidrs && cidrs <= o.removed + o.refused && Live(rules, k, o.removed)
  }

  ghost predicate Insertable(k: SessionKey, cidrs: set<Cidr>, missed: set<Cidr>) {
    missed <= cidrs && forall c :: c in cidrs && c !in missed ==> Expressible(Accept(k, c))
  }

  /** The jump stays, the chain is complete after every command, and failures are counted. */
  ghost predicate Ran(s: FwState, t: FwState, o: Outcomes) {
    && t.jumps == s.jumps && t.shaped == s.shaped && s.commands <= t.commands && s.failures <= t.failures
    && (t.failures == s.failures <==> o.refused == {} && o.missed == {})
  }

  /** The destinations to delete include the stuck ones of an earlier diff. */
  function ToDelete(e: Entry, desired: set<Cidr>): set<Cidr> {
    (e.allowed - desired) + (e.pending - desired - e.allowed)
  }

  function ToInsert(e: Entry, desired: set<Cidr>): set<Cidr> {
    desired - e.allowed
  }

  /** applyDiff with the outcomes `o` takes `s` to `t`. */
  ghost predicate DiffStep(s: FwState, k: SessionKey, desired: set<Cidr>, o: Outcomes, t: FwState)
    requires k in s.book
  {
    var toDelete, toInsert := ToDelete(s.book[k], desired), ToInsert(s.book[k], desired);
    && Deletable(s.rules, k, toDelete, o) && Insertable(k, toInsert, o.missed)
    && if toDelete == {} && toInsert == {} then t == s
       else
         && Changed(s.rules, t.rules, k, o.removed, toInsert - o.missed) && Ran(s, t, o)
         && t.book == s.book[k := Entry(desired - o.missed + o.refused, o.refused)]
  }

  /** The end of a session with the outcomes `o`: with a refused delete it stays, stuck deletes of earlier diffs
      included. */
  ghost predicate CloseStep(s: FwState, k: SessionKey, o: Outcomes, t: FwState) {
    && k in s.book && Deletable(s.rules, k, s.book[k].allowed, o) && Changed(s.rules, t.rules, k, o.removed, {})
    && Ran(s, t, o)
    && t.book == if o.refused == {} then s.book - {k} else s.book[k := Entry(o.refused, s.book[k].pending)]
  }

  // ---- runs of session operations ----

  /** One operation on one session. */
  datatype Move = Converge(key: SessionKey, desired: set<Cidr>, o: Outcomes) | Close(key: SessionKey, o: Outcomes)

  /** A session that is not tracked yet starts with nothing. */
  function Registered(s: FwState, k: SessionKey): FwState {
    if k in s.book then s else s.(book := s.book[k := Entry({}, {})])
  }

  /** The move takes `s` to `t`. */
  ghost predicate Moves(s: FwState, m: Move, t: FwState) {
    match m
    case Converge(key, desired, o) => DiffStep(Registered(s, key), key, desired, o, t)
    case Close(key, o) => CloseStep(s, key, o, t)
  }

  /** Each move takes one state to the next. */
  ghost predicate Trace(states: seq<FwState>, moves: seq<Move>) {
    |states| == |moves| + 1 && forall i :: 0 <= i < |moves| ==> Moves(states[i], moves[i], states[i + 1])
  }

  lemma TraceOn(states: seq<FwState>, moves: seq<Move>, m: Move, t: FwState)
    requires Trace(states, moves) && Moves(states[|moves|], m, t)
    ensures Trace(states + [t], moves + [m])
  {
    var after, more := states + [t], moves + [m];
    forall i | 0 <= i < |more| ensures Moves(after[i], more[i], after[i + 1]) {
      if i < |moves| { assert after[i] == states[i] && more[i] == moves[i] && after[i + 1] == states[i + 1]; }
    }
  }

  /** The session tracks exactly its live rules. */
  ghost predicate ExactFor(s: FwState, k: SessionKey) {
    forall c :: Accept(k, c) in s.rules <==> c in TrackedFor(s, k)
  }

  /** The bookkeeping is exactly the live rules. */
  ghost predicate Exact(s: FwState) {
    forall k :: ExactFor(s, k)
  }

  /** After a convergence the session tracks exactly its live rules just when no refused delete removed its rule or
      found none, and what it keeps was live. */
  lemma ConvergeExactly(s: FwState, k: SessionKey, desired: set<Cidr>, o: Outcomes, t: FwState)
    requires Accounted(s) && k in s.book && DiffStep(s, k, desired, o, t)
    ensures ExactFor(t, k) <==> Live(s.rules, k, s.book[k].allowed * desired + o.refused) && o.removed !! o.refused
  {
  }

  /** After the end of a session it tracks exactly its live rules under the same condition. */
  lemma CloseExactly(s: FwState, k: SessionKey, o: Outcomes, t: FwState)
    requires Accounted(s) && CloseStep(s, k, o, t)
    ensures ExactFor(t, k) <==> Live(s.rules, k, o.refused) && o.removed !! o.refused
  {
  }

  lemma MoveKeepsPhantom(s: FwState, m: Move, t: FwState, k: SessionKey, dst: Cidr)
    requires Phantom(s, k, dst) && Moves(s, m, t)
    ensures Phantom(t, k, dst)
  {
    if m.key != k { assert Accept(k, dst) in t.rules <==> Accept(k, dst) in s.rules; }
  }

  lemma PhantomsStayOn(s: FwState, m: Move, t: FwState)
    requires Moves(s, m, t)
    ensures PhantomsStay(s, t)
  {
    forall k, dst | Phantom(s, k, dst) ensures Phantom(t, k, dst) { MoveKeepsPhantom(s, m, t, k, dst); }
  }

  /** A tracked destination without a rule stays so in every run: it is never inserted, its delete is always refused,
      and so its session is never forgotten. */
  lemma {:induction false} PhantomForever(states: seq<FwState>, moves: seq<Move>, i: nat, n: nat, k: SessionKey,
                                          dst: Cidr)
    requires Trace(states, moves) && i <= n <= |moves| && Phantom(states[i], k, dst)
    ensures Phantom(states[n], k, dst)
  {
    if i < n {
      PhantomForever(states, moves, i, n - 1, k, dst);
      MoveKeepsPhantom(states[n - 1], moves[n - 1], states[n], k, dst);
    }
  }

  /** Every refused delete left a live rule. */
  ghost predicate Harmless(s: FwState, m: Move) {
    m.o.removed !! m.o.refused && Live(s.rules, m.key, m.o.refused)
  }

  lemma MoveKeepsAccounted(s: FwState, m: Move, t: FwState)
    requires Accounted(s) && Moves(s, m, t)
    ensures Accounted(t)
  {
    AccountedAfter(Registered(s, m.key), t, m.key);
  }

  /** A move from exact bookkeeping keeps it exact just when it is harmless. */
  lemma MoveExactly(s: FwState, m: Move, t: FwState)
    requires Accounted(s) && Exact(s) && Moves(s, m, t)
    ensures Exact(t) <==> Harmless(s, m)
  {
    assert ExactFor(s, m.key);
    match m {
      case Converge(key, desired, o) => ConvergeExactly(Registered(s, key), key, desired, o, t);
      case Close(key, o) => CloseExactly(s, key, o, t);
    }
    forall k | k != m.key ensures ExactFor(t, k) { OthersStayExact(s, m, t, k); }
  }

  lemma OthersStayExact(s: FwState, m: Move, t: FwState, k: SessionKey)
    requires Exact(s) && Moves(s, m, t) && k != m.key
    ensures ExactFor(t, k)
  {
    assert ExactFor(s, k) && TrackedFor(t, k) == TrackedFor(s, k);
    forall c ensures Accept(k, c) in t.rules <==> Accept(k, c) in s.rules {}
  }

  /** Bookkeeping that is not exact, though every live rule is tracked, has a destination without a rule. */
  lemma InexactHasPhantom(s: FwState) returns (k: SessionKey, dst: Cidr)
    requires Accounted(s) && !Exact(s)
    ensures Phantom(s, k, dst)
  {
    k :| !ExactFor(s, k);
    dst :| !(Accept(k, dst) in s.rules <==> dst in TrackedFor(s, k));
  }

  /** Over a whole run from exact bookkeeping, whatever failed: the bookkeeping equals the live rules at the end exactly
      when every refused delete of the run left a live rule. */
  lemma {:induction false} ExactRunExactly(states: seq<FwState>, moves: seq<Move>, n: nat)
    requires Trace(states, moves) && n <= |moves| && Accounted(states[0]) && Exact(states[0])
    ensures Accounted(states[n]) && (Exact(states[n]) <==> forall i :: 0 <= i < n ==> Harmless(states[i], moves[i]))
  {
    if n > 0 {
      var s, m, t := states[n - 1], moves[n - 1], states[n];
      ExactRunExactly(states, moves, n - 1);
      MoveKeepsAccounted(s, m, t);
      if Exact(s) {
        MoveExactly(s, m, t);
      } else {
        var k, dst := InexactHasPhantom(s);
        MoveKeepsPhantom(s, m, t, k, dst);
        assert !ExactFor(t, k);
      }
    }
  }

  /** No refused delete has removed anything. */
  predicate Honest(moves: seq<Move>) {
    forall i :: 0 <= i < |moves| ==> moves[i].o.removed !! moves[i].o.refused
  }

  /** One session, with its live rules beside the two that every chain has. */
  function Alone(k: SessionKey, e: Entry, live: set<Rule>, commands: nat, failures: nat): FwState {
    FwState(map[k := e], {StatefulReturn, Drop} + live, 1, commands, failures, true)
  }

  function Refused(removed: set<Cidr>, refused: set<Cidr>): Outcomes {
    Outcomes(removed, refused, {})
  }

  /** No refused delete of these operations removed anything: the delete of `c` is refused, the end of the session
      removes it but not `d`, and the stuck delete that the session kept is refused because the rule is gone. */
  function PhantomMoves(k: SessionKey, c: Cidr, d: Cidr): seq<Move> {
    [Converge(k, {c, d}, Refused({}, {})), Converge(k, {d}, Refused({}, {c})), Close(k, Refused({c}, {d})),
     Converge(k, {d}, Refused({}, {c})), Converge(k, {c, d}, Refused({}, {}))]
  }

  function PhantomStates(k: SessionKey, c: Cidr, d: Cidr): seq<FwState> {
    var both, one := {Accept(k, c), Accept(k, d)}, {Accept(k, d)};
    [FwState(map[], {StatefulReturn, Drop}, 1, 0, 0, true), Alone(k, Entry({c, d}, {}), both, 2, 0),
     Alone(k, Entry({c, d}, {c}), both, 3, 1), Alone(k, Entry({d}, {c}), one, 5, 2),
         Alone(k, Entry({c, d}, {c}), one, 6, 3),
     Alone(k, Entry({c, d}, {c}), one, 6, 3)]
  }

  lemma PhantomSteps(k: SessionKey, c: Cidr, d: Cidr, i: nat)
    requires c != d && Expressible(Accept(k, c)) && Expressible(Accept(k, d)) && i < 5
    ensures Moves(PhantomStates(k, c, d)[i], PhantomMoves(k, c, d)[i], PhantomStates(k, c, d)[i + 1])
  {
    var s, m, t := PhantomStates(k, c, d)[i], PhantomMoves(k, c, d)[i], PhantomStates(k, c, d)[i + 1];
    if m.Converge? {
      var e := Registered(s, k).book[k];
      assert ToDelete(e, m.desired) == if i == 1 || i == 3 then {c} else {};
      assert ToInsert(e, m.desired) == if i == 0 then {c, d} else {};
      assert m.desired - m.o.missed + m.o.refused == t.book[k].allowed;
    }
  }

  /** A run from an empty book in which every refused delete did nothing ends with `c` allowed, tracked and not live; a
      reconcile then has nothing to do. */
  lemma PhantomReached(k: SessionKey, c: Cidr, d: Cidr, policy: Policy)
    requires c != d && Expressible(Accept(k, c)) && Expressible(Accept(k, d)) && policy(k.cn) == {c, d}
    ensures Trace(PhantomStates(k, c, d), PhantomMoves(k, c, d)) && Honest(PhantomMoves(k, c, d))
    ensures PhantomStates(k, c, d)[0] == FwState(map[], {StatefulReturn, Drop}, 1, 0, 0, true)
    ensures var last := PhantomStates(k, c, d)[5]; Phantom(last, k, c) && Settled(last, {k}, policy)
  {
    forall i | 0 <= i < 5
        ensures Moves(PhantomStates(k, c, d)[i], PhantomMoves(k, c, d)[i], PhantomStates(k, c, d)[i + 1]) {
      PhantomSteps(k, c, d, i);
    }
  }

  /** A policy names the destinations of each common name. */
  type Policy = string -> set<Cidr>

  /** Sessions of `keys` are converged to their policy, except where a command failed. */
  ghost predicate Refreshes(a: FwState, b: FwState, keys: set<SessionKey>, policy: Policy) {
    && Only(a, b, keys) && b.book.Keys == a.book.Keys + keys
    && (b.failures == a.failures ==>
          forall k :: k in keys ==> OnPolicy(b, k, policy(k.cn)) && ConvergedLive(a, b, k, policy(k.cn)))
    && ((forall k :: k in keys ==> OnPolicy(a, k, policy(k.cn))) ==> b == a)
  }

  /** The bookkeeping already is what a reconcile would make it. */
  ghost predicate Settled(s: FwState, live: set<SessionKey>, policy: Policy) {
    s.book.Keys == live && forall k :: k in live ==> OnPolicy(s, k, policy(k.cn))
  }

  /** A reconcile against the sessions that are up. */
  ghost predicate Reconciles(a: FwState, b: FwState, live: set<SessionKey>, policy: Policy) {
    && live <= b.book.Keys <= a.book.Keys + live
    && b.jumps == a.jumps && a.failures <= b.failures && (a.shaped ==> b.shaped) && PhantomsStay(a, b)
    && (b.failures == a.failures ==>
          Settled(b, live, policy) && forall k :: k in live ==> ConvergedLive(a, b, k, policy(k.cn)))
    && (Settled(a, live, policy) ==> b == a)
  }

  /** What each event does, given the policy and the management snapshot (None when the poll failed). */
  ghost predicate Effect(a: FwState, b: FwState, ev: Event, policy: Policy, snapshot: Option<set<SessionKey>>) {
    match ev
    case Connect(key) => Refreshes(a, b, {key}, policy)
    case Disconnect(cn, ip) => Closes(a, b, set k | k in a.book && Ends(cn, ip, k))
    case UserChanged(cn) => Refreshes(a, b, (set k | k in a.book && k.cn == cn), policy)
    case CommonChanged => Refreshes(a, b, a.book.Keys, policy)
    case Reconcile => if snapshot.Some? then Reconciles(a, b, snapshot.value, policy) else b == a
  }

  /** The three passes of a reconcile compose: close what is gone, converge what stayed, install what is new. */
  lemma ReconcilePasses(a: FwState, b: FwState, c: FwState, d: FwState, live: set<SessionKey>, policy: Policy)
    requires Closes(a, b, a.book.Keys - live)
    requires Refreshes(b, c, a.book.Keys * live, policy) && Refreshes(c, d, live - a.book.Keys, policy)
    ensures Reconciles(a, d, live, policy)
  {
    if Settled(a, live, policy) {
      assert a.book.Keys - live == {} && live - a.book.Keys == {};
    }
    if d.failures == a.failures {
      forall k | k in live ensures OnPolicy(d, k, policy(k.cn)) && ConvergedLive(a, d, k, policy(k.cn)) {
        if k in a.book { assert k in a.book.Keys * live && b.book[k] == a.book[k]; }
      }
    }
  }

  /** Without a failed command between them, exact bookkeeping stays exact; what is lost stays lost. */
  ghost predicate KeepsExact(a: FwState, b: FwState) {
    a.failures <= b.failures && PhantomsStay(a, b) && (Exact(a) && b.failures == a.failures ==> Exact(b))
  }

  /** No event loses exactness without a failed command. */
  lemma EventKeepsExact(a: FwState, b: FwState, ev: Event, policy: Policy, snapshot: Option<set<SessionKey>>)
    requires Effect(a, b, ev, policy, snapshot) && Accounted(b)
    ensures KeepsExact(a, b)
  {
    if Exact(a) && b.failures == a.failures {
      forall k ensures ExactFor(b, k) {
        assert ExactFor(a, k);
      }
    }
  }

  /** After a failure-free reconcile the live rules of a session are its policy exactly when every destination that
      the policy keeps and the bookkeeping already tracked was really live. */
  lemma ReconcileInstallsPolicy(a: FwState, b: FwState, live: set<SessionKey>, policy: Policy, k: SessionKey)
    requires Reconciles(a, b, live, policy) && b.failures == a.failures && k in live
    ensures (forall c :: Accept(k, c) in b.rules <==> c in policy(k.cn)) <==>
            (forall c :: c in TrackedFor(a, k) && c in policy(k.cn) ==> Accept(k, c) in a.rules)
  {
    assert ConvergedLive(a, b, k, policy(k.cn));
  }

  /** If the bookkeeping equalled the live rules, one failure-free reconcile makes the ACCEPTs equal the policy. */
  lemma ReconcileFromExactBookkeeping(a: FwState, b: FwState, live: set<SessionKey>, policy: Policy)
    requires Reconciles(a, b, live, policy) && b.failures == a.failures && Accounted(b)
    requires Exact(a)
    ensures forall k, c :: Accept(k, c) in b.rules <==> k in live && c in policy(k.cn)
  {
    forall k, c ensures Accept(k, c) in b.rules <==> k in live && c in policy(k.cn) {
      assert ExactFor(a, k);
      if k in live { assert ConvergedLive(a, b, k, policy(k.cn)); }
    }
  }

  /** With the ACCEPTs equal to the policy, a new connection passes exactly when some session that is up on its source
      address has a stored route, its own or common, that covers the destination. */
  lemma EnforcementIsExact(s: FwState, chain: seq<Rule>, live: set<SessionKey>, routes: Routes, vpnNet: Cidr, p: Packet)
    requires Shaped(chain) && s.rules == RulesOf(chain) && !p.established
    requires forall k, c :: Accept(k, c) in s.rules <==> k in live && c in routes.Policy(k.cn)
    ensures Evaluate(chain, vpnNet, p) == Accepted <==>
            exists k :: k in live && k.ip == Tunnel(p.src) && RoutesCover(routes, k.cn, p.dst)
  {
    NewConnectionVerdict(chain, vpnNet, p);
    if r :| r in chain && r.Accept? && Matches(r, vpnNet, p) {
      RulesOfMember(chain, r);
      assert Accept(r.key, r.dst) in s.rules;
      AllowedIsUnionOfRoutes(routes.CustomRoutes(r.key.cn), routes.common, p.dst);
      assert RoutesCover(routes, r.key.cn, p.dst);
    }
    if k :| k in live && k.ip == Tunnel(p.src) && RoutesCover(routes, k.cn, p.dst) {
      AllowedIsUnionOfRoutes(routes.CustomRoutes(k.cn), routes.common, p.dst);
      var c :| c in routes.Policy(k.cn) && Contains(c, p.dst);
      RulesOfMember(chain, Accept(k, c));
      assert Matches(Accept(k, c), vpnNet, p);
    }
  }

  ghost predicate RoutesCover(routes: Routes, cn: string, x: Addr) {
    || (cn in routes.ccds && exists r :: r in routes.ccds[cn] && CcdRouteCovers(r, x))
    || (exists r :: r in routes.common && CommonRouteCovers(r, x))
  }

  /** One reconcile without failures, from exact bookkeeping, enforces the stored routes of the sessions that are up. */
  lemma ReconcileEnforces(a: FwState, b: FwState, chain: seq<Rule>, live: set<SessionKey>, routes: Routes, vpnNet: Cidr,
                          p: Packet)
    requires Exact(a) && Reconciles(a, b, live, cn => routes.Policy(cn)) && b.failures == a.failures && Accounted(b)
    requires Shaped(chain) && b.rules == RulesOf(chain) && !p.established
    ensures Evaluate(chain, vpnNet, p) == Accepted <==>
            exists k :: k in live && k.ip == Tunnel(p.src) && RoutesCover(routes, k.cn, p.dst)
  {
    ReconcileFromExactBookkeeping(a, b, live, cn => routes.Policy(cn));
    EnforcementIsExact(b, chain, live, routes, vpnNet, p);
  }

  lemma ClosesStep(a: FwState, b: FwState, c: FwState, done: set<SessionKey>, key: SessionKey)
    requires Closes(a, b, done) && Closes(b, c, {key}) && key !in done
    ensures Closes(a, c, done + {key})
  {
    if c.failures == a.failures {
      assert c.book == a.book - (done + {key});
    }
  }

  lemma RefreshesStep(a: FwState, b: FwState, c: FwState, done: set<SessionKey>, key: SessionKey, policy: Policy)
    requires Refreshes(a, b, done, policy) && Refreshes(b, c, {key}, policy) && key !in done
    ensures Refreshes(a, c, done + {key}, policy)
  {}

  /** Under an accounted chain a new connection is accepted only for a destination tracked for its source address. */
  lemma AcceptedOnlyIfTracked(s: FwState, chain: seq<Rule>, vpnNet: Cidr, p: Packet)
    requires Accounted(s) && s.rules == RulesOf(chain) && Shaped(chain) && !p.established
    ensures Evaluate(chain, vpnNet, p) == Accepted ==>
            exists key, c :: key in s.book && key.ip == Tunnel(p.src) && c in s.book[key].allowed && Contains(c, p.dst)
    ensures Contains(vpnNet, p.src) ==> Evaluate(chain, vpnNet, p) != FallThrough
  {
    NewConnectionVerdict(chain, vpnNet, p);
    if r :| r in chain && r.Accept? && Matches(r, vpnNet, p) {
      RulesOfMember(chain, r);
      assert r.key in s.book && r.dst in s.book[r.key].allowed;
    }
  }

  class FwSession {
    const key: SessionKey
    var allowed: set<Cidr>
    var pendingDeletes: set<Cidr>
    var rulesInstalled: bool

    constructor (key: SessionKey)
      ensures this.key == key && allowed == {} && pendingDeletes == {}
    {
      this.key := key;
      allowed, pendingDeletes, rulesInstalled := {}, {}, false;
    }
  }

  class Controller {
    const ipt: Iptables
    const reader: CcdReader
    var sessions: map<SessionKey, FwSession>
    ghost var book: map<SessionKey, Entry>
    ghost const start: FwState
    /** The moves made since the start, with the states between them. */
    ghost var moves: seq<Move>
    ghost var states: seq<FwState>
    ghost var objects: set<FwSession>

    ghost function Installed(): set<Rule>
      reads ipt
    {
      RulesOf(ipt.table.chain)
    }

    ghost function State(): FwState
      reads this`book, ipt
    {
      FwState(book, Installed(), ipt.table.jumps, |ipt.history|, ipt.failures, AlwaysShaped(ipt.history))
    }

    /** Session `k` is tracked by an object of its own whose fields are what `book` says. */
    ghost predicate Tracks(k: SessionKey)
      reads this`sessions, this`book, this`objects, objects
    {
      && k in sessions && k in book && sessions[k] in objects && sessions[k].key == k
      && book[k] == Entry(sessions[k].allowed, sessions[k].pendingDeletes)
    }

    ghost predicate AllTracked()
      reads this`sessions, this`book, this`objects, objects
    {
      forall k :: k in sessions || k in book ==> Tracks(k)
    }

    /** Bookkeeping and chain agree. */
    ghost predicate Kept()
      reads this`sessions, this`book, this`objects, ipt, objects
    {
      AllTracked() && Sound(ipt.table.chain) && Accounted(State())
    }

    ghost predicate FromExact()
    {
      Accounted(start) && Exact(start)
    }

    ghost predicate Traced(s: FwState)
      reads this`moves, this`states
    {
      Trace(states, moves) && states[0] == start && states[|moves|] == s
    }

    /** ... and the state is the outcome of the moves made since a start at which they did so exactly. */
    ghost predicate Valid()
      reads this, ipt, objects
    {
      Kept() && Traced(State()) && FromExact()
    }

    constructor (ipt: Iptables, reader: CcdReader)
      requires ipt.table.chain == [StatefulReturn, Drop]
      ensures Valid() && sessions == map[] && objects == {} && this.ipt == ipt && this.reader == reader
      ensures Exact(State())
    {
      this.ipt, this.reader := ipt, reader;
      sessions, book, objects := map[], map[], {};
      start := FwState(map[], RulesOf(ipt.table.chain), ipt.table.jumps, |ipt.history|, ipt.failures,
                       AlwaysShaped(ipt.history));
      moves, states := [], [FwState(map[], RulesOf(ipt.table.chain), ipt.table.jumps, |ipt.history|, ipt.failures,
                                    AlwaysShaped(ipt.history))];
      new;
      RulesOfChain(ipt.table.chain);
      assert Inner(ipt.table.chain) == [];
    }

    /** One `-D`: only a live rule leaves the chain, also when failure is reported. */
    method UninstallRule(r: Rule) returns (ok: bool, ghost left: bool)
      requires Sound(ipt.table.chain) && r.Accept?
      modifies ipt
      ensures Sound(ipt.table.chain) && ipt.table == old(ipt.table).(chain := ipt.table.chain)
      ensures (ok ==> left) && (left ==> r in old(Installed()))
      ensures Installed() == if left then old(Installed()) - {r} else old(Installed())
      ensures Ran(old(State()), State(), Outcomes({}, if ok then {} else {r.dst}, {}))
    {
      left := r in Installed();
      RulesOfMember(ipt.table.chain, r);
      if r in ipt.table.chain { RemoveKeepsSound(ipt.table.chain, r); }
      ok := ipt.DeleteRule(r);
      left := left && r !in Installed();
    }

    /** The `-D` loop: `remaining` holds the destinations whose delete failed, `removed` those whose rule is gone. */
    method UninstallRulesFor(key: SessionKey, cidrs: set<Cidr>) returns (remaining: set<Cidr>, ghost removed: set<Cidr>)
      requires Sound(ipt.table.chain)
      modifies ipt
      ensures Sound(ipt.table.chain) && ipt.table == old(ipt.table).(chain := ipt.table.chain)
      ensures Deletable(old(Installed()), key, cidrs, Outcomes(removed, remaining, {}))
      ensures Changed(old(Installed()), Installed(), key, removed, {})
      ensures Ran(old(State()), State(), Outcomes(removed, remaining, {}))
      ensures cidrs == {} ==> ipt.history == old(ipt.history) && ipt.table == old(ipt.table)
    {
      remaining, removed := {}, {};
      ghost var before := Installed();
      var done := {};
      while cidrs - done != {}
        invariant done <= cidrs && remaining <= done && removed <= done && done <= removed + remaining
        invariant Sound(ipt.table.chain) && ipt.table == old(ipt.table).(chain := ipt.table.chain)
        invariant Live(before, key, removed) && Changed(before, Installed(), key, removed, {})
        invariant Ran(old(State()), State(), Outcomes(removed, remaining, {}))
        invariant done == {} ==> ipt.history == old(ipt.history) && ipt.table == old(ipt.table)
        decreases cidrs - done
      {
        var c :| c in cidrs - done;
        var ok;
        ghost var left;
        ok, left := UninstallRule(Accept(key, c));
        if !ok { remaining := remaining + {c}; }
        if left { removed := removed + {c}; }
        done := done + {c};
      }
      assert done == cidrs;
    }

    /** The `-I chain 2` loop: `missing` holds the destinations whose insert failed, whose rules are not live. */
    method InsertRules(key: SessionKey, cidrs: set<Cidr>) returns (missing: set<Cidr>)
      requires Sound(ipt.table.chain) && forall c :: c in cidrs ==> Accept(key, c) !in Installed()
      modifies ipt
      ensures Sound(ipt.table.chain) && ipt.table == old(ipt.table).(chain := ipt.table.chain)
      ensures Insertable(key, cidrs, missing) && Changed(old(Installed()), Installed(), key, {}, cidrs - missing)
      ensures Ran(old(State()), State(), Outcomes({}, {}, missing))
    {
      missing := {};
      ghost var before := Installed();
      var done := {};
      while cidrs - done != {}
        invariant done <= cidrs && missing <= done
        invariant Sound(ipt.table.chain) && ipt.table == old(ipt.table).(chain := ipt.table.chain)
        invariant Insertable(key, done, missing) && Changed(before, Installed(), key, {}, done - missing)
        invariant Ran(old(State()), State(), Outcomes({}, {}, missing))
        decreases cidrs - done
      {
        var c :| c in cidrs - done;
        var r := Accept(key, c);
        InsertKeepsSound(ipt.table.chain, r);
        var ok := ipt.InsertAccept(r);
        if !ok { missing := missing + {c}; }
        done := done + {c};
      }
      assert cidrs <= done + (cidrs - done);
      assert done == cidrs;
    }

    /** Converges one session to `desired`. A destination whose delete failed stays tracked and is retried; one whose
        insert failed is not tracked. */
    method ApplyDiff(s: FwSession, desired: set<Cidr>) returns (ok: bool, ghost o: Outcomes)
      requires Sound(ipt.table.chain) && s.key in book && book[s.key] == Entry(s.allowed, s.pendingDeletes)
      requires forall c :: Accept(s.key, c) in Installed() ==> c in s.allowed
      modifies s, ipt, this`book
      ensures Sound(ipt.table.chain) && s.key in book && book[s.key] == Entry(s.allowed, s.pendingDeletes)
      ensures DiffStep(old(State()), s.key, desired, o, State())
      ensures ok <==> o.refused == {} && o.missed == {}
    {
      o := Outcomes({}, {}, {});
      var toDel := (s.allowed - desired) + (s.pendingDeletes - desired - s.allowed);
      var toAdd := desired - s.allowed;
      if toDel == {} && toAdd == {} { return true, o; }
      var remaining;
      ghost var removed;
      remaining, removed := UninstallRulesFor(s.key, toDel);
      var missing := InsertRules(s.key, toAdd);
      s.allowed := desired - missing + remaining;
      s.pendingDeletes := remaining;
      book := book[s.key := Entry(s.allowed, s.pendingDeletes)];
      ok := remaining == {} && missing == {};
      o := Outcomes(removed, remaining, missing);
    }

    /** Removes the rules of one session, which is forgotten unless a delete fails. */
    method UninstallSession(key: SessionKey) returns (ghost o: Outcomes)
      requires AllTracked() && Sound(ipt.table.chain) && key in book
      modifies this`sessions, this`book, ipt, sessions[key]
      ensures AllTracked() && Sound(ipt.table.chain) && CloseStep(old(State()), key, o, State())
    {
      assert Tracks(key);
      var s := sessions[key];
      var remaining;
      ghost var removed;
      remaining, removed := UninstallRulesFor(s.key, s.allowed);
      if remaining != {} {
        s.allowed := remaining;
        book := book[key := Entry(remaining, s.pendingDeletes)];
      } else {
        sessions := sessions - {key};
        book := book - {key};
      }
      o := Outcomes(removed, remaining, {});
      forall k | k in sessions || k in book ensures Tracks(k) {
        if k != key { assert old(Tracks(k)); }
      }
    }

    ghost method RecordMove(a: FwState, m: Move, b: FwState)
      requires Traced(a) && Moves(a, m, b)
      modifies this`moves, this`states
      ensures moves == old(moves) + [m] && states == old(states) + [b] && Traced(b)
    {
      TraceOn(states, moves, m, b);
      moves, states := moves + [m], states + [b];
    }

    method CloseSession(key: SessionKey)
      requires Valid() && key in book
      modifies this, ipt, sessions[key]
      ensures Valid() && objects == old(objects)
      ensures Closes(old(State()), State(), {key})
    {
      ghost var a := State();
      ghost var o := UninstallSession(key);
      CloseIsMove(a, key, o, State());
      RecordMove(a, Close(key, o), State());
    }

    method CloseSessions(gone: set<SessionKey>)
      requires Valid() && gone <= book.Keys
      modifies this, ipt, objects
      ensures Valid() && objects == old(objects)
      ensures Closes(old(State()), State(), gone)
    {
      ghost var a := State();
      var done := {};
      while gone - done != {}
        invariant done <= gone && gone - done <= book.Keys
        invariant objects == old(objects) && Valid() && Closes(a, State(), done)
        decreases gone - done
      {
        var key :| key in gone - done;
        ghost var b := State();
        CloseSession(key);
        ClosesStep(a, b, State(), done, key);
        done := done + {key};
      }
      assert done == gone;
    }

    /** installSessionRules: registers the session if it is new and converges its rules. */
    method InstallSessionRules(key: SessionKey, cidrs: set<Cidr>, ghost policy: Policy)
      requires Valid() && policy(key.cn) == cidrs
      modifies this, ipt, objects
      ensures Valid() && forall o :: o in objects ==> o in old(objects) || fresh(o)
      ensures Refreshes(old(State()), State(), {key}, policy)
    {
      ghost var a := State();
      if key !in sessions { Register(key); }
      assert Tracks(key);
      ConvergeSession(a, key, cidrs, policy);
    }

    method Register(key: SessionKey)
      requires Kept() && key !in sessions
      modifies this`sessions, this`book, this`objects
      ensures Kept() && fresh(objects - old(objects)) && old(objects) <= objects
      ensures book == old(book)[key := Entry({}, {})] && key !in old(book)
    {
      assert key in book ==> Tracks(key);
      var s := new FwSession(key);
      objects := objects + {s};
      sessions := sessions[key := s];
      book := book[key := Entry({}, {})];
      assert forall k :: k in old(book) ==> old(Tracks(k));
    }

    /** applyDiff on a tracked session. */
    method DiffSession(key: SessionKey, cidrs: set<Cidr>) returns (ghost o: Outcomes)
      requires Kept() && key in book
      modifies this`book, ipt, sessions[key]
      ensures AllTracked() && Sound(ipt.table.chain) && DiffStep(old(State()), key, cidrs, o, State())
    {
      assert Tracks(key);
      var s := sessions[key];
      var ok;
      ok, o := ApplyDiff(s, cidrs);
      s.rulesInstalled := true;
      forall k | k in sessions || k in book ensures Tracks(k) {
        if k != key { assert old(Tracks(k)); }
      }
    }

    /** The same, seen from `a`, the state before the session was looked up. */
    method ConvergeSession(ghost a: FwState, key: SessionKey, cidrs: set<Cidr>, ghost policy: Policy)
      requires Kept() && key in book && policy(key.cn) == cidrs
      requires State() == Registered(a, key) && Traced(a) && FromExact()
      modifies this`book, this`moves, this`states, ipt, sessions[key]
      ensures Valid() && Refreshes(a, State(), {key}, policy)
    {
      ghost var o := DiffSession(key, cidrs);
      ConvergeIsMove(a, key, policy, o, State());
      RecordMove(a, Converge(key, cidrs, o), State());
    }

    /** Recomputes the policy of every session in `keys` and converges it. */
    method RefreshSessions(keys: set<SessionKey>, ghost policy: Policy)
      requires Valid() && forall cn :: policy(cn) == reader.routes.Policy(cn)
      modifies this, ipt, objects
      ensures Valid() && forall o :: o in objects ==> o in old(objects) || fresh(o)
      ensures Refreshes(old(State()), State(), keys, policy)
    {
      ghost var a := State();
      var done := {};
      while keys - done != {}
        invariant done <= keys && forall o :: o in objects ==> o in old(objects) || fresh(o)
        invariant Valid() && Refreshes(a, State(), done, policy)
        decreases keys - done
      {
        var key :| key in keys - done;
        ghost var b := State();
        var desired := ComputeAllowedCidrs(reader.routes.CustomRoutes(key.cn), reader.routes.common);
        InstallSessionRules(key, desired, policy);
        ghost var c := State();
        RefreshesStep(a, b, c, done, key, policy);
        done := done + {key};
      }
      assert done == keys;
    }

    /** The three passes of reconcileLocked, against the sessions that are up. */
    method ReconcileLive(live: set<SessionKey>, ghost policy: Policy)
      requires Valid() && forall cn :: policy(cn) == reader.routes.Policy(cn)
      modifies this, ipt, objects
      ensures Valid() && forall o :: o in objects ==> o in old(objects) || fresh(o)
      ensures Reconciles(old(State()), State(), live, policy)
    {
      ghost var a := State();
      var tracked := TrackedKeys();
      var gone, stayed, added := tracked - live, tracked * live, live - tracked;
      CloseSessions(gone);
      ghost var b := State();
      RefreshSessions(stayed, policy);
      ghost var c := State();
      RefreshSessions(added, policy);
      ghost var d := State();
      ReconcilePasses(a, b, c, d, live, policy);
    }

    method TrackedKeys() returns (keys: set<SessionKey>)
      requires Valid()
      ensures keys == sessions.Keys == book.Keys
    {
      keys := sessions.Keys;
      forall k ensures k in sessions <==> k in book {
        if k in sessions || k in book { assert Tracks(k); }
      }
    }

    /** reconcileLocked; None means that the management poll failed, so nothing is known about who is connected. */
    method ReconcileLocked(snapshot: Option<set<SessionKey>>, ghost policy: Policy)
      requires Valid() && forall cn :: policy(cn) == reader.routes.Policy(cn)
      modifies this, ipt, objects
      ensures Valid() && forall o :: o in objects ==> o in old(objects) || fresh(o)
      ensures Effect(old(State()), State(), Reconcile, policy, snapshot)
    {
      if snapshot.Some? { ReconcileLive(snapshot.value, policy); }
    }

    /** After a reconcile without a failed command, a second one against the same sessions and routes runs no
        command. */
    method ReconcileTwice(live: set<SessionKey>, ghost policy: Policy) returns (ghost between: FwState)
      requires Valid() && forall cn :: policy(cn) == reader.routes.Policy(cn)
      modifies this, ipt, objects
      ensures Valid() && Effect(old(State()), between, Reconcile, policy, Some(live))
      ensures between.failures == old(ipt.failures) ==> State() == between
    {
      ReconcileLocked(Some(live), policy);
      between := State();
      ReconcileLocked(Some(live), policy);
    }

    method HandleEvent(ev: Event, snapshot: Option<set<SessionKey>>, ghost policy: Policy)
      requires Valid() && forall cn :: policy(cn) == reader.routes.Policy(cn)
      modifies this, ipt, objects
      ensures Valid() && forall o :: o in objects ==> o in old(objects) || fresh(o)
      ensures Effect(old(State()), State(), ev, policy, snapshot)
    {
      var tracked := TrackedKeys();
      match ev
      case Connect(key) =>
        var cidrs := ComputeAllowedCidrs(reader.routes.CustomRoutes(key.cn), reader.routes.common);
        InstallSessionRules(key, cidrs, policy);
      case Disconnect(cn, ip) =>
        CloseSessions(set k | k in tracked && Ends(cn, ip, k));
      case UserChanged(cn) =>
        RefreshSessions((set k | k in tracked && k.cn == cn), policy);
      case CommonChanged =>
        RefreshSessions(tracked, policy);
      case Reconcile =>
        ReconcileLocked(snapshot, policy);
    }

    /** eventHandlerLoop over any number of batches: events come in any order, the stored routes and the management
        snapshot change at will between them, and any command may fail. */
    method EventHandlerLoop(batches: seq<map<string, Event>>)
      requires Valid() && AlwaysShaped(ipt.history)
      modifies this, ipt, objects, reader
      ensures Valid() && AlwaysShaped(ipt.history)
      ensures ipt.table.jumps == old(ipt.table.jumps) && KeepsExact(old(State()), State())
      ensures Exact(State()) <==> forall i :: 0 <= i < |moves| ==> Harmless(states[i], moves[i])
    {
      ghost var a := State();
      for i := 0 to |batches|
        invariant Valid() && AlwaysShaped(ipt.history) && ipt.table.jumps == old(ipt.table.jumps)
        invariant KeepsExact(a, State())
        invariant forall o :: o in objects ==> o in old(objects) || fresh(o)
      {
        var batch := batches[i];
        while batch.Keys != {}
          invariant Valid() && AlwaysShaped(ipt.history) && ipt.table.jumps == old(ipt.table.jumps)
          invariant KeepsExact(a, State())
          invariant forall o :: o in objects ==> o in old(objects) || fresh(o)
          decreases batch.Keys
        {
          var key :| key in batch.Keys;
          reader.routes := *;
          var snapshot: Option<set<SessionKey>> := *;
          ghost var routes := reader.routes;
          ghost var b := State();
          HandleEvent(batch[key], snapshot, cn => routes.Policy(cn));
          EventKeepsExact(b, State(), batch[key], cn => routes.Policy(cn), snapshot);
          batch := batch - {key};
        }
      }
      ExactRunExactly(states, moves, |moves|);
    }
  }

  /** Every outcome of a convergence is within what one session may do. */
  lemma DiffStepDiffs(a: FwState, k: SessionKey, desired: set<Cidr>, o: Outcomes, b: FwState)
    requires k in a.book && DiffStep(a, k, desired, o, b)
    requires forall c :: Accept(k, c) in a.rules ==> c in a.book[k].allowed
    ensures Diffs(a, b, k, desired)
  {
    var toDelete, toInsert := ToDelete(a.book[k], desired), ToInsert(a.book[k], desired);
    PhantomsStayOn(a, Converge(k, desired, o), b);
    if toDelete == {} && toInsert == {} { NothingToDo(a.book[k], desired); } else { assert !OnPolicy(a, k, desired); }
  }

  lemma CloseIsMove(a: FwState, k: SessionKey, o: Outcomes, b: FwState)
    requires CloseStep(a, k, o, b) && Accounted(a)
    ensures Closes(a, b, {k}) && Accounted(b) && Moves(a, Close(k, o), b)
  {
    AccountedAfter(a, b, k);
    PhantomsStayOn(a, Close(k, o), b);
  }

  lemma ConvergeIsMove(a: FwState, k: SessionKey, policy: Policy, o: Outcomes, b: FwState)
    requires Accounted(Registered(a, k)) && DiffStep(Registered(a, k), k, policy(k.cn), o, b)
    ensures Refreshes(a, b, {k}, policy) && Accounted(b) && Moves(a, Converge(k, policy(k.cn), o), b)
  {
    DiffStepDiffs(Registered(a, k), k, policy(k.cn), o, b);
    DiffRefreshes(a, Registered(a, k), b, k, policy);
  }

  /** What applyDiff did to one session is a refresh of that session. */
  lemma DiffRefreshes(a: FwState, b: FwState, c: FwState, key: SessionKey, policy: Policy)
    requires b == Registered(a, key)
    requires Diffs(b, c, key, policy(key.cn)) && Accounted(b)
    ensures Refreshes(a, c, {key}, policy) && Accounted(c)
  {
    AccountedAfter(b, c, key);
    if c.failures == a.failures { assert ConvergedLive(a, c, key, policy(key.cn)); }
  }

  /** Accounting survives a change of one session whose live rules stay within what it tracks. */
  lemma AccountedAfter(a: FwState, b: FwState, key: SessionKey)
    requires Accounted(a) && SameElsewhere(a.rules, b.rules, {key})
    requires forall k :: k in a.book && k != key ==> k in b.book && b.book[k] == a.book[k]
    requires forall c :: Accept(key, c) in b.rules ==> c in TrackedFor(b, key)
    ensures Accounted(b)
  {
    forall r | r in b.rules && r.Accept? ensures r.key in b.book && r.dst in b.book[r.key].allowed {
      if r.key == key { assert Accept(key, r.dst) in b.rules; }
    }
  }

  lemma NothingToDo(e: Entry, desired: set<Cidr>)
    requires ToDelete(e, desired) == {} && ToInsert(e, desired) == {}
    ensures e.allowed == desired && e.pending <= desired
  {
    forall c ensures (c in e.allowed || c in e.pending) ==> c in desired { assert c !in ToDelete(e, desired); }
    forall c | c in desired ensures c in e.allowed { assert c !in ToInsert(e, desired); }
  }
}
