/** The packet-filter chain that the firewall drives, its first-match meaning, and its construction. */
module FirewallChain {
  import opened Wrappers
  import opened Ipv4

  /** The tunnel address of a session; a client that has no routing row yet is listed with an empty one. */
  datatype TunnelIp = Tunnel(a: Addr) | NoAddress

  /** One common name may hold several sessions on distinct tunnel addresses. */
  datatype SessionKey = SessionKey(cn: string, ip: TunnelIp)

  /** The rule comment carries the common name, so a rule determines its session. */
  datatype Rule = StatefulReturn | Accept(key: SessionKey, dst: Cidr) | Drop

  /** The three shapes of rule that iptables can hold: an ACCEPT needs an IPv4 source and destination. */
  predicate Expressible(r: Rule) {
    r.Accept? ==> r.key.ip.Tunnel? && r.dst.Prefix?
  }

  // ---- rule lists ----

  function InsertSecond(chain: seq<Rule>, r: Rule): seq<Rule>
    requires chain != []
  {
    [chain[0], r] + chain[1..]
  }

  /** `-D` removes the first exact match. */
  function RemoveFirst(chain: seq<Rule>, r: Rule): seq<Rule> {
    if chain == [] then []
    else if chain[0] == r then chain[1..]
    else [chain[0]] + RemoveFirst(chain[1..], r)
  }

  ghost predicate NoDuplicates(rules: seq<Rule>) {
    rules == [] || (rules[0] !in rules[1..] && NoDuplicates(rules[1..]))
  }

  ghost predicate AllAccepts(rules: seq<Rule>) {
    rules == [] || (rules[0].Accept? && AllAccepts(rules[1..]))
  }

  /** The rules between the first and the last. */
  function Inner(chain: seq<Rule>): seq<Rule>
    requires |chain| >= 2
  {
    chain[1..|chain| - 1]
  }

  /** stateful-return first, the catch-all DROP last, only ACCEPTs between them. */
  ghost predicate Shaped(chain: seq<Rule>) {
    |chain| >= 2 && chain[0] == StatefulReturn && chain[|chain| - 1] == Drop && AllAccepts(Inner(chain))
  }

  /** The rule list is well formed: shaped, and each rule occurs once. */
  ghost predicate Sound(chain: seq<Rule>) {
    Shaped(chain) && NoDuplicates(Inner(chain))
  }

  function RulesOf(rules: seq<Rule>): set<Rule> {
    if rules == [] then {} else {rules[0]} + RulesOf(rules[1..])
  }

  lemma {:induction false} RulesOfMember(rules: seq<Rule>, r: Rule)
    ensures r in RulesOf(rules) <==> r in rules
  {
    if rules != [] { RulesOfMember(rules[1..], r); }
  }

  lemma {:induction false} RemoveAmongAccepts(rules: seq<Rule>, r: Rule)
    requires NoDuplicates(rules) && AllAccepts(rules) && r in rules
    ensures var out := RemoveFirst(rules, r);
            NoDuplicates(out) && AllAccepts(out) && RulesOf(out) == RulesOf(rules) - {r}
  {
    var tail := rules[1..];
    RulesOfMember(tail, r);
    if rules[0] != r {
      RemoveAmongAccepts(tail, r);
      RulesOfMember(tail, rules[0]);
      RulesOfMember(RemoveFirst(tail, r), rules[0]);
    }
  }

  lemma {:induction false} RemoveFirstFromChain(accepts: seq<Rule>, r: Rule)
    requires r in accepts
    ensures RemoveFirst(accepts + [Drop], r) == RemoveFirst(accepts, r) + [Drop]
  {
    assert (accepts + [Drop])[1..] == accepts[1..] + [Drop];
    if accepts[0] != r { RemoveFirstFromChain(accepts[1..], r); }
  }

  lemma {:induction false} RulesOfAppend(rules: seq<Rule>, last: Rule)
    ensures RulesOf(rules + [last]) == RulesOf(rules) + {last}
  {
    if rules == [] {
      assert ([] + [last])[1..] == [];
    } else {
      assert (rules + [last])[1..] == rules[1..] + [last];
      RulesOfAppend(rules[1..], last);
    }
  }

  lemma RulesOfChain(chain: seq<Rule>)
    requires Shaped(chain)
    ensures chain == [StatefulReturn] + (Inner(chain) + [Drop])
    ensures RulesOf(chain) == {StatefulReturn, Drop} + RulesOf(Inner(chain))
  {
    var rest := Inner(chain) + [Drop];
    assert chain == [StatefulReturn] + rest && chain[1..] == rest;
    RulesOfAppend(Inner(chain), Drop);
  }

  /** Deleting an ACCEPT that is present keeps the chain sound and removes exactly that rule. */
  lemma RemoveKeepsSound(chain: seq<Rule>, r: Rule)
    requires Sound(chain) && r.Accept? && r in chain
    ensures Sound(RemoveFirst(chain, r)) && RulesOf(RemoveFirst(chain, r)) == RulesOf(chain) - {r}
  {
    var accepts := Inner(chain);
    RulesOfChain(chain);
    assert r in accepts;
    RemoveFirstFromChain(accepts, r);
    RemoveAmongAccepts(accepts, r);
    var out := RemoveFirst(chain, r);
    assert chain[1..] == accepts + [Drop];
    assert out == [StatefulReturn] + (RemoveFirst(accepts, r) + [Drop]);
    assert Inner(out) == RemoveFirst(accepts, r);
    RulesOfChain(out);
    RulesOfMember(RemoveFirst(accepts, r), Drop);
  }

  /** Inserting an absent ACCEPT at position 2 keeps the chain sound and adds exactly that rule. */
  lemma InsertKeepsSound(chain: seq<Rule>, r: Rule)
    requires Sound(chain) && r.Accept? && r !in RulesOf(chain)
    ensures Sound(InsertSecond(chain, r)) && RulesOf(InsertSecond(chain, r)) == RulesOf(chain) + {r}
  {
    var out := InsertSecond(chain, r);
    RulesOfChain(chain);
    RulesOfMember(Inner(chain), r);
    assert Inner(out) == [r] + Inner(chain);
    assert Inner(out)[1..] == Inner(chain);
    RulesOfChain(out);
  }

  // ---- packets ----

  datatype Packet = Packet(src: Addr, dst: Addr, established: bool)

  datatype Verdict = Accepted | Dropped | FallThrough

  predicate Matches(r: Rule, vpnNet: Cidr, p: Packet) {
    match r
    case StatefulReturn => p.established
    case Accept(key, dst) => key.ip == Tunnel(p.src) && Contains(dst, p.dst)
    case Drop => Contains(vpnNet, p.src)
  }

  /** First match wins; a packet that matches nothing returns to FORWARD. */
  function Evaluate(chain: seq<Rule>, vpnNet: Cidr, p: Packet): Verdict {
    if chain == [] then FallThrough
    else if Matches(chain[0], vpnNet, p) then (if chain[0].Drop? then Dropped else Accepted)
    else Evaluate(chain[1..], vpnNet, p)
  }

  lemma {:induction false} EvaluateAccepts(accepts: seq<Rule>, vpnNet: Cidr, p: Packet)
    requires AllAccepts(accepts)
    ensures Evaluate(accepts + [Drop], vpnNet, p) ==
            if exists r :: r in accepts && Matches(r, vpnNet, p) then Accepted
            else if Contains(vpnNet, p.src) then Dropped else FallThrough
  {
    assert (accepts + [Drop])[0] == if accepts == [] then Drop else accepts[0];
    if accepts != [] {
      assert (accepts + [Drop])[1..] == accepts[1..] + [Drop];
      EvaluateAccepts(accepts[1..], vpnNet, p);
      assert accepts == [accepts[0]] + accepts[1..];
    } else {
      assert (accepts + [Drop])[1..] == [];
    }
  }

  /** Under a shaped chain a new connection is accepted exactly when a live ACCEPT matches it; any other new
      connection from the VPN subnet is dropped. */
  lemma NewConnectionVerdict(chain: seq<Rule>, vpnNet: Cidr, p: Packet)
    requires Shaped(chain) && !p.established
    ensures Evaluate(chain, vpnNet, p) ==
            if exists r :: r in chain && r.Accept? && Matches(r, vpnNet, p) then Accepted
            else if Contains(vpnNet, p.src) then Dropped else FallThrough
  {
    var accepts := Inner(chain);
    RulesOfChain(chain);
    assert chain[1..] == accepts + [Drop];
    EvaluateAccepts(accepts, vpnNet, p);
    forall r | r in accepts ensures r.Accept? { MemberAccepts(accepts, r); }
    assert forall r :: r in chain && r.Accept? <==> r in accepts;
  }

  lemma {:induction false} MemberAccepts(rules: seq<Rule>, r: Rule)
    requires AllAccepts(rules) && r in rules
    ensures r.Accept?
  {
    if rules[0] != r { MemberAccepts(rules[1..], r); }
  }

  // ---- the kernel table ----

  /** What packets see of the filter: the chain and how many FORWARD jumps lead to it. */
  datatype Table = Table(present: bool, jumps: nat, chain: seq<Rule>)

  /** FORWARD leads to the chain only while it is complete. */
  ghost predicate Guarded(t: Table) {
    t.jumps > 0 ==> t.present && Shaped(t.chain)
  }

  /** FORWARD never led to an incomplete chain. */
  ghost predicate NeverExposed(history: seq<Table>) {
    history == [] || (NeverExposed(history[..|history| - 1]) && Guarded(history[|history| - 1]))
  }

  /** The chain was complete after every command. */
  ghost predicate AlwaysShaped(history: seq<Table>) {
    history == [] || (AlwaysShaped(history[..|history| - 1]) && Shaped(history[|history| - 1].chain))
  }

  /** The iptables command line. Any command may fail; `history` holds the table after every command and
      `failures` counts the commands that reported an error. */
  class Iptables {
    var table: Table
    ghost var history: seq<Table>
    ghost var failures: nat

    constructor (present: bool, chain: seq<Rule>, jumps: nat)
      ensures table == Table(present, jumps, chain) && history == [] && failures == 0
    {
      table := Table(present, jumps, chain);
      history, failures := [], 0;
    }

    /** Every command ends here: it appends the table it leaves behind and counts an error. */
    ghost method Record(ok: bool)
      modifies this`history, this`failures
      ensures history == old(history) + [table]
      ensures failures == old(failures) + (if ok then 0 else 1)
      ensures NeverExposed(history) <==> NeverExposed(old(history)) && Guarded(table)
      ensures AlwaysShaped(history) <==> AlwaysShaped(old(history)) && Shaped(table.chain)
    {
      assert (history + [table])[..|history|] == history;
      history := history + [table];
      failures := failures + (if ok then 0 else 1);
    }

    /** `-N`: fails when the chain exists. */
    method NewChain() returns (ok: bool)
      modifies this
      ensures history == old(history) + [table] && failures == old(failures) + (if ok then 0 else 1)
      ensures NeverExposed(history) <==> NeverExposed(old(history)) && Guarded(table)
      ensures ok ==> !old(table).present
      ensures table == if ok then old(table).(present := true, chain := []) else old(table)
    {
      ok := *;
      ok := ok && !table.present;
      if ok { table := table.(present := true, chain := []); }
      Record(ok);
    }

    /** `-F`: a failure may have emptied the chain. */
    method Flush() returns (ok: bool, ghost emptied: bool)
      modifies this
      ensures history == old(history) + [table] && failures == old(failures) + (if ok then 0 else 1)
      ensures NeverExposed(history) <==> NeverExposed(old(history)) && Guarded(table)
      ensures (ok ==> emptied) && (emptied ==> old(table).present)
      ensures table == if emptied then old(table).(chain := []) else old(table)
    {
      var effective: bool := *;
      ok := *;
      ok := ok && table.present;
      emptied := (ok || effective) && table.present;
      if (ok || effective) && table.present { table := table.(chain := []); }
      Record(ok);
    }

    /** `-A`, for the catch-all DROP. */
    method AppendDrop() returns (ok: bool)
      modifies this
      ensures history == old(history) + [table] && failures == old(failures) + (if ok then 0 else 1)
      ensures NeverExposed(history) <==> NeverExposed(old(history)) && Guarded(table)
      ensures table == if ok then old(table).(chain := old(table).chain + [Drop]) else old(table)
    {
      ok := *;
      ok := ok && table.present;
      if ok { table := table.(chain := table.chain + [Drop]); }
      Record(ok);
    }

    /** `-I chain 1`, for stateful-return. */
    method InsertStatefulReturn() returns (ok: bool)
      modifies this
      ensures history == old(history) + [table] && failures == old(failures) + (if ok then 0 else 1)
      ensures NeverExposed(history) <==> NeverExposed(old(history)) && Guarded(table)
      ensures table == if ok then old(table).(chain := [StatefulReturn] + old(table).chain) else old(table)
    {
      ok := *;
      ok := ok && table.present;
      if ok { table := table.(chain := [StatefulReturn] + table.chain); }
      Record(ok);
    }

    /** `-I chain 2`: a failed insert adds nothing. */
    method InsertAccept(r: Rule) returns (ok: bool)
      requires r.Accept? && table.chain != []
      modifies this
      ensures history == old(history) + [table] && failures == old(failures) + (if ok then 0 else 1)
      ensures NeverExposed(history) <==> NeverExposed(old(history)) && Guarded(table)
      ensures AlwaysShaped(history) <==> AlwaysShaped(old(history)) && Shaped(table.chain)
      ensures ok ==> Expressible(r)
      ensures table == if ok then old(table).(chain := InsertSecond(old(table).chain, r)) else old(table)
    {
      ok := *;
      ok := ok && Expressible(r);
      if ok { table := table.(chain := InsertSecond(table.chain, r)); }
      Record(ok);
    }

    /** `-D chain rule`: fails when no rule matches; a failure may leave the rule live or removed. */
    method DeleteRule(r: Rule) returns (ok: bool)
      modifies this
      ensures history == old(history) + [table] && failures == old(failures) + (if ok then 0 else 1)
      ensures NeverExposed(history) <==> NeverExposed(old(history)) && Guarded(table)
      ensures AlwaysShaped(history) <==> AlwaysShaped(old(history)) && Shaped(table.chain)
      ensures ok ==> r in old(table).chain && table == old(table).(chain := RemoveFirst(old(table).chain, r))
      ensures !ok ==> table == old(table) ||
                      (r in old(table).chain && table == old(table).(chain := RemoveFirst(old(table).chain, r)))
    {
      var removed: bool := *;
      ok := *;
      if r in table.chain {
        if ok || removed { table := table.(chain := RemoveFirst(table.chain, r)); }
      } else {
        ok := false;
      }
      Record(ok);
    }

    /** `-D FORWARD -j chain`: fails when there is no such jump; a failure may leave the jump or have removed it. */
    method DeleteJump() returns (ok: bool, ghost removed: bool)
      modifies this
      ensures history == old(history) + [table] && failures == old(failures) + (if ok then 0 else 1)
      ensures NeverExposed(history) <==> NeverExposed(old(history)) && Guarded(table)
      ensures (ok ==> removed) && (removed ==> old(table).jumps > 0)
      ensures table == if removed then old(table).(jumps := old(table).jumps - 1) else old(table)
    {
      var effective: bool := *;
      ok := *;
      ok := ok && table.jumps > 0;
      removed := (ok || effective) && table.jumps > 0;
      if (ok || effective) && table.jumps > 0 { table := table.(jumps := table.jumps - 1); }
      Record(ok);
    }

    /** `-C FORWARD -j chain`: success proves that a jump exists. */
    method CheckJump() returns (ok: bool)
      modifies this
      ensures history == old(history) + [table] && failures == old(failures) + (if ok then 0 else 1)
      ensures NeverExposed(history) <==> NeverExposed(old(history)) && Guarded(table)
      ensures table == old(table) && (ok ==> table.jumps > 0)
    {
      ok := *;
      ok := ok && table.jumps > 0;
      Record(ok);
    }

    /** `-I FORWARD 1 -j chain`. */
    method InsertJump() returns (ok: bool)
      modifies this
      ensures history == old(history) + [table] && failures == old(failures) + (if ok then 0 else 1)
      ensures NeverExposed(history) <==> NeverExposed(old(history)) && Guarded(table)
      ensures table == if ok then old(table).(jumps := old(table).jumps + 1) else old(table)
    {
      ok := *;
      ok := ok && table.present;
      if ok { table := table.(jumps := table.jumps + 1); }
      Record(ok);
    }
  }

  // ---- building the chain ----

  /** What the first commands of a start-up do: create the chain, remove the old jump, empty the chain; `flushed` is
      what the flush reports. A delete or flush that reports failure may have had its effect. */
  datatype TearDown = TearDown(created: bool, unlinked: bool, emptied: bool, flushed: bool)

  /** What the later commands report: append DROP, insert stateful-return, find a jump, insert one. */
  datatype BuildUp = BuildUp(dropped: bool, returned: bool, checked: bool, linked: bool)

  function JumpsLeft(t: Table, d: TearDown): nat {
    if d.unlinked && t.jumps > 0 then t.jumps - 1 else t.jumps
  }

  /** Which outcomes the commands can have on a table. */
  predicate Possible(t: Table, d: TearDown, u: BuildUp) {
    && (d.created ==> !t.present) && (d.unlinked ==> t.jumps > 0)
    && (d.emptied ==> t.present || d.created) && (d.flushed ==> d.emptied)
    && (u.checked ==> JumpsLeft(t, d) > 0)
  }

  function Created(t: Table, d: TearDown): Table { if d.created then t.(present := true, chain := []) else t }

  function Emptied(t: Table, d: TearDown): Table {
    var unlinked := Created(t, d).(jumps := JumpsLeft(t, d));
    if d.emptied then unlinked.(chain := []) else unlinked
  }

  function TornTables(t: Table, d: TearDown): seq<Table> {
    [Created(t, d), Created(t, d).(jumps := JumpsLeft(t, d)), Emptied(t, d)]
  }

  function WithDrop(t: Table): Table { t.(chain := t.chain + [Drop]) }

  function WithReturn(t: Table): Table { t.(chain := [StatefulReturn] + t.chain) }

  /** The tables after each later command, up to the first that stops the start-up. */
  function BuiltTables(t: Table, u: BuildUp): seq<Table> {
    if !u.dropped then [t]
    else if !u.returned then [WithDrop(t), WithDrop(t)]
    else
      var full := WithReturn(WithDrop(t));
      [WithDrop(t), full, full] +
          if u.checked then [] else if u.linked then [full.(jumps := full.jumps + 1)] else [full]
  }

  /** What FORWARD sees during one start-up. */
  function StartUpTables(t: Table, d: TearDown, u: BuildUp): seq<Table> {
    TornTables(t, d) + if d.flushed then BuiltTables(Emptied(t, d), u) else []
  }

  predicate Succeeds(d: TearDown, u: BuildUp) {
    d.flushed && u.dropped && u.returned && (u.checked || u.linked)
  }

  method TearDownChain(ipt: Iptables) returns (flushed: bool, ghost d: TearDown)
    modifies ipt
    ensures flushed == d.flushed && Possible(old(ipt.table), d, BuildUp(false, false, false, false))
    ensures ipt.history == old(ipt.history) + TornTables(old(ipt.table), d) && ipt.table == Emptied(old(ipt.table), d)
  {
    var created := ipt.NewChain();
    ghost var removed, emptied;
    var deleted;
    deleted, removed := ipt.DeleteJump();
    flushed, emptied := ipt.Flush();
    d := TearDown(created, removed, emptied, flushed);
  }

  method BuildUpChain(ipt: Iptables) returns (ok: bool, ghost u: BuildUp)
    requires ipt.table.present
    modifies ipt
    ensures ok == (u.dropped && u.returned && (u.checked || u.linked)) && (u.checked ==> old(ipt.table).jumps > 0)
    ensures ipt.history == old(ipt.history) + BuiltTables(old(ipt.table), u)
    ensures ipt.table == BuiltTables(old(ipt.table), u)[|BuiltTables(old(ipt.table), u)| - 1]
  {
    u := BuildUp(false, false, false, false);
    ok := ipt.AppendDrop();
    u := u.(dropped := ok);
    if !ok { return; }
    ok := ipt.InsertStatefulReturn();
    u := u.(returned := ok);
    if !ok { return; }
    var linked := ipt.CheckJump();
    u := u.(checked := linked);
    if !linked {
      ok := ipt.InsertJump();
      u := u.(linked := ok);
    }
  }

  /** initChain: FORWARD sees exactly the tables of its command outcomes. */
  method InitChain(ipt: Iptables) returns (ok: bool, ghost d: TearDown, ghost u: BuildUp)
    modifies ipt
    ensures Possible(old(ipt.table), d, u) && ok == Succeeds(d, u)
    ensures ipt.history == old(ipt.history) + StartUpTables(old(ipt.table), d, u)
    ensures ipt.table == StartUpTables(old(ipt.table), d, u)[|StartUpTables(old(ipt.table), d, u)| - 1]
  {
    u := BuildUp(false, false, false, false);
    ok, d := TearDownChain(ipt);
    if !ok { return; }
    ok, u := BuildUpChain(ipt);
  }

  lemma {:induction false} NeverExposedAll(history: seq<Table>)
    ensures NeverExposed(history) <==> forall i :: 0 <= i < |history| ==> Guarded(history[i])
  {
    if history != [] { NeverExposedAll(history[..|history| - 1]); }
  }

  /** FORWARD leads to an incomplete chain at some point exactly when the chain was emptied while a jump was left. */
  lemma ExposedExactly(t: Table, d: TearDown, u: BuildUp)
    requires Guarded(t) && Possible(t, d, u)
    ensures NeverExposed(StartUpTables(t, d, u)) <==> JumpsLeft(t, d) == 0 || !d.emptied
  {
    var tables := StartUpTables(t, d, u);
    NeverExposedAll(tables);
    FreshChain();
    assert tables[2] == Emptied(t, d);
    if JumpsLeft(t, d) == 0 || !d.emptied {
      forall i | 0 <= i < |tables| ensures Guarded(tables[i]) {
        if i >= 3 { BuiltGuarded(Emptied(t, d), u); assert tables[i] == BuiltTables(Emptied(t, d), u)[i - 3]; }
      }
    }
  }

  lemma BuiltGuarded(t: Table, u: BuildUp)
    requires t.present && t.chain == [] && t.jumps == 0
    ensures forall i :: 0 <= i < |BuiltTables(t, u)| ==> Guarded(BuiltTables(t, u)[i])
  {
    FreshChain();
    assert WithReturn(WithDrop(t)).chain == [StatefulReturn, Drop];
  }

  lemma FreshChain()
    ensures Shaped([StatefulReturn, Drop]) && !Shaped([]) && !Shaped([Drop])
  {
    assert Inner([StatefulReturn, Drop]) == [];
  }

  /** With no jump left, success ends with one jump into the fresh chain, and failure with none. */
  lemma StartUpResult(t: Table, d: TearDown, u: BuildUp)
    requires Possible(t, d, u) && JumpsLeft(t, d) == 0
    ensures var last := StartUpTables(t, d, u)[|StartUpTables(t, d, u)| - 1];
            if Succeeds(d, u) then last == Table(true, 1, [StatefulReturn, Drop]) else last.jumps == 0
  {
    if Succeeds(d, u) { assert WithReturn(WithDrop(Emptied(t, d))).chain == [StatefulReturn, Drop]; }
  }

  /** The usual start-up is safe: with at most one old jump, which the delete removes, no packet ever meets an
      incomplete chain, whatever else fails, and success ends with one jump into the fresh chain. */
  lemma UsualStartUpIsSafe(t: Table, d: TearDown, u: BuildUp)
    requires Guarded(t) && Possible(t, d, u) && t.jumps <= 1 && (t.jumps == 1 ==> d.unlinked)
    ensures NeverExposed(StartUpTables(t, d, u))
    ensures Succeeds(d, u) ==>
              StartUpTables(t, d, u)[|StartUpTables(t, d, u)| - 1] == Table(true, 1, [StatefulReturn, Drop])
  {
    ExposedExactly(t, d, u);
    StartUpResult(t, d, u);
  }

  /** Two jumps, or one whose removal has no effect: every other command works, and packets meet an empty chain. */
  lemma ExposedRun(jumps: nat)
    requires 1 <= jumps <= 2
    ensures var t := Table(true, jumps, [StatefulReturn, Drop]);
            var d, u := TearDown(false, jumps == 2, true, true), BuildUp(true, true, true, false);
            Guarded(t) && Possible(t, d, u) && Succeeds(d, u) && StartUpTables(t, d, u)[2] == Table(true, 1, [])
            && !NeverExposed(StartUpTables(t, d, u))
  {
    FreshChain();
    ExposedExactly(Table(true, jumps, [StatefulReturn, Drop]), TearDown(false, jumps == 2, true, true),
                   BuildUp(true, true, true, false));
  }
}
