/** What each event means for the sessions and for the destinations they reach. The statements name no helper of the
    controller: which sessions an event concerns is written out here. */
module FirewallEvents {
  import opened Wrappers
  import opened Ipv4
  import opened RoutePolicy
  import opened FirewallChain
  import opened Firewall

  /** Some live rule of the session covers the destination. */
  ghost predicate LetsThrough(s: FwState, k: SessionKey, x: Addr) {
    exists c :: Accept(k, c) in s.rules && Contains(c, x)
  }

  /** Entry and rules of the session are what they were. */
  ghost predicate Untouched(a: FwState, b: FwState, k: SessionKey) {
    && (k in b.book <==> k in a.book) && (k in a.book ==> b.book[k] == a.book[k])
    && forall c :: Accept(k, c) in b.rules <==> Accept(k, c) in a.rules
  }

  /** A disconnect ends the sessions of the common name on that tunnel address, or all of its sessions when it carries
      none. Without a failed command exactly those are forgotten; with one, a session that stays still tracks
      something; all others keep their entry and their rules, whatever fails. */
  lemma DisconnectEndsExactly(a: FwState, b: FwState, cn: string, ip: TunnelIp, policy: Policy,
                              snapshot: Option<set<SessionKey>>, k: SessionKey)
    requires Effect(a, b, Disconnect(cn, ip), policy, snapshot)
    ensures k.cn != cn || (ip.Tunnel? && k.ip != ip) ==> Untouched(a, b, k)
    ensures k.cn == cn && (ip.Tunnel? ==> k.ip == ip) && k in b.book ==>
              k in a.book && b.failures > a.failures && {} < b.book[k].allowed <= a.book[k].allowed
  {
    if k.cn != cn || (ip.Tunnel? && k.ip != ip) { OutsideUntouched(a, b, k, set s | s in a.book && Ends(cn, ip, s)); }
  }

  lemma OutsideUntouched(a: FwState, b: FwState, k: SessionKey, keys: set<SessionKey>)
    requires Only(a, b, keys) && k !in keys
    ensures Untouched(a, b, k)
  {
    forall c ensures Accept(k, c) in b.rules <==> Accept(k, c) in a.rules {}
  }

  /** Whatever fails, an event leaves the sessions that it does not concern alone; a reconcile without a snapshot leaves
      all of them alone. */
  lemma OthersUntouched(a: FwState, b: FwState, ev: Event, policy: Policy, snapshot: Option<set<SessionKey>>,
                        k: SessionKey)
    requires Effect(a, b, ev, policy, snapshot)
    requires match ev
             case Connect(key) => k != key
             case Disconnect(cn, ip) => k.cn != cn || (ip.Tunnel? && k.ip != ip)
             case UserChanged(cn) => k.cn != cn
             case CommonChanged => false
             case Reconcile => snapshot.None?
    ensures Untouched(a, b, k)
  {
    match ev
    case Connect(key) => OutsideUntouched(a, b, k, {key});
    case Disconnect(cn, ip) => DisconnectEndsExactly(a, b, cn, ip, policy, snapshot, k);
    case UserChanged(cn) => OutsideUntouched(a, b, k, set s | s in a.book && s.cn == cn);
    case CommonChanged =>
    case Reconcile =>
  }

  /** The live rules of the session are a set of prefixes that covers just what the stored routes cover. */
  lemma PolicyLetsThrough(s: FwState, k: SessionKey, routes: Routes, x: Addr)
    requires forall c :: Accept(k, c) in s.rules <==> c in routes.Policy(k.cn)
    ensures LetsThrough(s, k, x) <==> RoutesCover(routes, k.cn, x)
  {
    AllowedIsUnionOfRoutes(routes.CustomRoutes(k.cn), routes.common, x);
    if LetsThrough(s, k, x) {
      var c :| Accept(k, c) in s.rules && Contains(c, x);
      assert c in AllowedCidrs(routes.CustomRoutes(k.cn), routes.common);
    }
    if c :| c in AllowedCidrs(routes.CustomRoutes(k.cn), routes.common) && Contains(c, x) {
      assert Accept(k, c) in s.rules;
    }
  }

  lemma UntouchedLetsThrough(a: FwState, b: FwState, k: SessionKey, x: Addr)
    requires Untouched(a, b, k)
    ensures LetsThrough(b, k, x) <==> LetsThrough(a, k, x)
  {
    if c :| Accept(k, c) in a.rules && Contains(c, x) { assert Accept(k, c) in b.rules; }
    if c :| Accept(k, c) in b.rules && Contains(c, x) { assert Accept(k, c) in a.rules; }
  }

  /** An untracked session has no rules. */
  lemma ForgottenLetsNothing(s: FwState, k: SessionKey, x: Addr)
    requires Accounted(s) && k !in s.book
    ensures !LetsThrough(s, k, x)
  {
    if c :| Accept(k, c) in s.rules && Contains(c, x) { assert false; }
  }

  /** From exact bookkeeping a convergence without a failed command makes the live rules the policy. */
  lemma ConvergedToPolicy(a: FwState, b: FwState, k: SessionKey, routes: Routes, x: Addr)
    requires Exact(a) && ConvergedLive(a, b, k, routes.Policy(k.cn))
    ensures LetsThrough(b, k, x) <==> RoutesCover(routes, k.cn, x)
  {
    assert ExactFor(a, k);
    PolicyLetsThrough(b, k, routes, x);
  }

  /** What a session reaches after an event without a failed command, from exact bookkeeping: the stored routes of its
      common name and the common ones, where the event concerns it; nothing, where the event ends it; otherwise what it
      reached before. */
  lemma EventOpensExactly(a: FwState, b: FwState, ev: Event, routes: Routes, snapshot: Option<set<SessionKey>>,
                          k: SessionKey, x: Addr)
    requires Exact(a) && Accounted(b) && b.failures == a.failures
    requires Effect(a, b, ev, cn => routes.Policy(cn), snapshot)
    ensures LetsThrough(b, k, x) <==>
            match ev
            case Connect(key) => if k == key then RoutesCover(routes, k.cn, x) else LetsThrough(a, k, x)
            case Disconnect(cn, ip) => LetsThrough(a, k, x) && (k.cn != cn || (ip.Tunnel? && k.ip != ip))
            case UserChanged(cn) =>
              if k in a.book && k.cn == cn then RoutesCover(routes, k.cn, x) else LetsThrough(a, k, x)
            case CommonChanged => k in a.book && RoutesCover(routes, k.cn, x)
            case Reconcile =>
              if snapshot.Some? then k in snapshot.value && RoutesCover(routes, k.cn, x) else LetsThrough(a, k, x)
  {
    var policy: Policy := cn => routes.Policy(cn);
    match ev
    case Connect(key) => RefreshOpens(a, b, {key}, routes, k, x);
    case Disconnect(cn, ip) =>
      DisconnectEndsExactly(a, b, cn, ip, policy, snapshot, k);
      if k.cn != cn || (ip.Tunnel? && k.ip != ip) {
        UntouchedLetsThrough(a, b, k, x);
      } else {
        ForgottenLetsNothing(b, k, x);
      }
    case UserChanged(cn) => RefreshOpens(a, b, (set s | s in a.book && s.cn == cn), routes, k, x);
    case CommonChanged =>
      RefreshOpens(a, b, a.book.Keys, routes, k, x);
      if k !in a.book { ForgottenLetsNothing(b, k, x); }
    case Reconcile =>
      if snapshot.None? {
        UntouchedLetsThrough(a, b, k, x);
      } else if k in snapshot.value {
        ConvergedToPolicy(a, b, k, routes, x);
      } else {
        ForgottenLetsNothing(b, k, x);
      }
  }

  lemma RefreshOpens(a: FwState, b: FwState, keys: set<SessionKey>, routes: Routes, k: SessionKey, x: Addr)
    requires Exact(a) && Refreshes(a, b, keys, cn => routes.Policy(cn)) && b.failures == a.failures
    ensures LetsThrough(b, k, x) <==> if k in keys then RoutesCover(routes, k.cn, x) else LetsThrough(a, k, x)
  {
    if k in keys {
      ConvergedToPolicy(a, b, k, routes, x);
    } else {
      OutsideUntouched(a, b, k, keys);
      UntouchedLetsThrough(a, b, k, x);
    }
  }

  /** A new connection passes exactly when some session on its source address lets its destination through. */
  lemma VerdictIsLetsThrough(s: FwState, chain: seq<Rule>, vpnNet: Cidr, p: Packet)
    requires Shaped(chain) && s.rules == RulesOf(chain) && !p.established
    ensures Evaluate(chain, vpnNet, p) == Accepted <==>
            exists k: SessionKey :: k.ip == Tunnel(p.src) && LetsThrough(s, k, p.dst)
  {
    NewConnectionVerdict(chain, vpnNet, p);
    if r :| r in chain && r.Accept? && Matches(r, vpnNet, p) {
      RulesOfMember(chain, r);
      assert Accept(r.key, r.dst) in s.rules;
      assert LetsThrough(s, r.key, p.dst);
    }
    if k: SessionKey :| k.ip == Tunnel(p.src) && LetsThrough(s, k, p.dst) {
      var c :| Accept(k, c) in s.rules && Contains(c, p.dst);
      RulesOfMember(chain, Accept(k, c));
      assert Matches(Accept(k, c), vpnNet, p);
    }
  }

  /** A session that has no tunnel address yet, or whose address is not IPv4, never gets a rule, and no rule has an IPv6
      destination: iptables refuses them in every run. */
  lemma {:induction false} LiveAreExpressible(states: seq<FwState>, moves: seq<Move>, n: nat, k: SessionKey, c: Cidr)
    requires Trace(states, moves) && n <= |moves|
    requires Accept(k, c) in states[0].rules ==> k.ip.Tunnel? && c.Prefix?
    ensures Accept(k, c) in states[n].rules ==> k.ip.Tunnel? && c.Prefix?
  {
    if n > 0 {
      LiveAreExpressible(states, moves, n - 1, k, c);
      var s, m, t := states[n - 1], moves[n - 1], states[n];
      assert Moves(s, m, t);
      if k != m.key { assert Accept(k, c) in t.rules <==> Accept(k, c) in s.rules; }
    }
  }
}
