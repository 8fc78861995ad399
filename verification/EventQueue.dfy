/** The firewall's event queue: pushers store into a map and wake one handler through a one-slot channel. The steps of
    different pushers and of the handler interleave freely. */
module EventQueue {
  import opened Firewall

  /** A pushed event with the position of its push in the order of all pushes. */
  datatype Stamped = Stamped(ev: Event, stamp: nat)

  datatype Handler = Waiting | Swapping | Handling(batch: map<string, Stamped>)

  /** `token` is the one-slot kick channel, `sending` the pushers that stored but did not kick yet. `log` records every
      push, `latest` and `handled`, for each key, the stamps of the last push and of the last handled event. */
  datatype State = State(
    pending: map<string, Stamped>, token: bool, sending: nat, handler: Handler,
    log: seq<Event>, latest: map<string, nat>, handled: map<string, nat>)

  /** Events of one common name share a key; the two global kinds have fixed keys. */
  function Key(ev: Event): string {
    match ev
    case Connect(key) => key.cn
    case Disconnect(cn, _) => cn
    case UserChanged(cn) => cn
    case CommonChanged => "__common__"
    case Reconcile => "__reconcile__"
  }

  predicate Init(s: State) {
    s == State(map[], false, 0, Waiting, [], map[], map[])
  }

  /** push, first part: store under the lock, replacing an event of the same key. */
  predicate Store(s: State, t: State, ev: Event) {
    t == s.(pending := s.pending[Key(ev) := Stamped(ev, |s.log|)], sending := s.sending + 1,
            log := s.log + [ev], latest := s.latest[Key(ev) := |s.log|])
  }

  /** push, second part: a non-blocking send, dropped when the slot is full. */
  predicate Kick(s: State, t: State) {
    s.sending > 0 && t == s.(sending := s.sending - 1, token := true)
  }

  predicate Wake(s: State, t: State) {
    s.handler.Waiting? && s.token && t == s.(token := false, handler := Swapping)
  }

  predicate Swap(s: State, t: State) {
    s.handler.Swapping? && t == s.(pending := map[], handler := Handling(s.pending))
  }

  /** The batch is handled in any order. */
  predicate Handle(s: State, t: State, key: string) {
    && s.handler.Handling? && key in s.handler.batch
    && t == s.(handler := Handling(s.handler.batch - {key}), handled := s.handled[key := s.handler.batch[key].stamp])
  }

  predicate Finish(s: State, t: State) {
    s.handler.Handling? && s.handler.batch == map[] && t == s.(handler := Waiting)
  }

  ghost predicate HandlerStep(s: State, t: State) {
    Wake(s, t) || Swap(s, t) || Finish(s, t) || exists key :: Handle(s, t, key)
  }

  ghost predicate Next(s: State, t: State) {
    (exists ev :: Store(s, t, ev)) || Kick(s, t) || HandlerStep(s, t)
  }

  ghost predicate IsRun(run: seq<State>) {
    run != [] && Init(run[0]) && forall i :: 0 <= i < |run| - 1 ==> Next(run[i], run[i + 1])
  }

  /** A stored event will be seen: the token is in the slot, or its pusher is about to send, or the handler is about
      to swap. */
  predicate WakeupPending(s: State) {
    s.pending != map[] ==> s.token || s.sending > 0 || s.handler.Swapping?
  }

  /** Where the latest event of a key is. */
  predicate LatestAt(s: State, key: string)
    requires key in s.latest
  {
    if key in s.pending then s.pending[key].stamp == s.latest[key]
    else if s.handler.Handling? && key in s.handler.batch then s.handler.batch[key].stamp == s.latest[key]
    else key in s.handled && s.handled[key] == s.latest[key]
  }

  /** `stamp` is the position of the last push under the key. */
  ghost predicate LastPush(s: State, key: string, stamp: nat) {
    stamp < |s.log| && Key(s.log[stamp]) == key && forall i :: stamp < i < |s.log| ==> Key(s.log[i]) != key
  }

  /** A stored event is the one that was pushed at its position. */
  predicate Genuine(s: State, e: Stamped) {
    e.stamp < |s.log| && s.log[e.stamp] == e.ev
  }

  ghost predicate Logged(s: State) {
    && (forall key :: key in s.latest ==> LastPush(s, key, s.latest[key]))
    && (forall i :: 0 <= i < |s.log| ==> Key(s.log[i]) in s.latest)
    && (forall key :: key in s.pending ==> Genuine(s, s.pending[key]))
    && (s.handler.Handling? ==> forall key :: key in s.handler.batch ==> Genuine(s, s.handler.batch[key]))
  }

  ghost predicate Inv(s: State) {
    && WakeupPending(s) && Logged(s)
    && (forall key :: key in s.latest ==> LatestAt(s, key))
    && (forall key :: key in s.pending ==> key in s.latest && Key(s.pending[key].ev) == key)
    && s.handled.Keys <= s.latest.Keys
    && (s.handler.Handling? ==> forall key :: key in s.handler.batch ==> key in s.latest)
  }

  lemma StoreIsLogged(s: State, t: State, ev: Event)
    requires Logged(s) && Store(s, t, ev)
    ensures Logged(t)
  {
    forall key | key in t.latest ensures LastPush(t, key, t.latest[key]) {
      if key != Key(ev) { assert LastPush(s, key, s.latest[key]); }
    }
    forall key | key in t.pending ensures Genuine(t, t.pending[key]) {
      if key != Key(ev) { assert Genuine(s, s.pending[key]); }
    }
    if t.handler.Handling? {
      forall key | key in t.handler.batch ensures Genuine(t, t.handler.batch[key]) {
        assert Genuine(s, s.handler.batch[key]);
      }
    }
  }

  lemma StoreKeepsInv(s: State, t: State, ev: Event)
    requires Inv(s) && Store(s, t, ev)
    ensures Inv(t)
  {
    StoreIsLogged(s, t, ev);
    forall key | key in t.latest ensures LatestAt(t, key) {
      if key != Key(ev) { assert LatestAt(s, key); }
    }
  }

  /** A handler step pushes nothing. */
  lemma LogStays(s: State, t: State)
    requires Logged(s) && t.log == s.log && t.latest == s.latest
    requires forall key :: key in t.pending ==> Genuine(s, t.pending[key])
    requires t.handler.Handling? ==> forall key :: key in t.handler.batch ==> Genuine(s, t.handler.batch[key])
    ensures Logged(t)
  {
    forall key | key in t.latest ensures LastPush(t, key, t.latest[key]) { assert LastPush(s, key, s.latest[key]); }
    forall key | key in t.pending ensures Genuine(t, t.pending[key]) { assert Genuine(s, t.pending[key]); }
  }

  lemma HandleKeepsInv(s: State, t: State, key: string)
    requires Inv(s) && Handle(s, t, key)
    ensures Inv(t)
  {
    LogStays(s, t);
    forall k | k in t.latest ensures LatestAt(t, k) { assert LatestAt(s, k); }
  }

  lemma SwapKeepsInv(s: State, t: State)
    requires Inv(s) && Swap(s, t)
    ensures Inv(t)
  {
    LogStays(s, t);
    forall k | k in t.latest ensures LatestAt(t, k) { assert LatestAt(s, k); }
  }

  lemma StepKeepsInv(s: State, t: State)
    requires Inv(s) && Next(s, t)
    ensures Inv(t)
  {
    if ev :| Store(s, t, ev) {
      StoreKeepsInv(s, t, ev);
    } else if key :| Handle(s, t, key) {
      HandleKeepsInv(s, t, key);
    } else if Swap(s, t) {
      SwapKeepsInv(s, t);
    } else {
      LogStays(s, t);
      forall key | key in t.latest ensures LatestAt(t, key) { assert LatestAt(s, key); }
    }
  }

  lemma {:induction false} RunKeepsInv(run: seq<State>, i: nat)
    requires IsRun(run) && i < |run|
    ensures Inv(run[i])
  {
    if i > 0 {
      RunKeepsInv(run, i - 1);
      StepKeepsInv(run[i - 1], run[i]);
    }
  }

  /** No wakeup is lost: under every interleaving, once no pusher is mid-push, no token waits and the handler is idle,
      nothing is pending and the last event pushed under each key has been handled. */
  lemma QuiescentMeansHandled(run: seq<State>, i: nat)
    requires IsRun(run) && i < |run|
    requires run[i].sending == 0 && !run[i].token && run[i].handler.Waiting?
    ensures run[i].pending == map[] && run[i].latest == run[i].handled
  {
    RunKeepsInv(run, i);
    var s := run[i];
    forall key | key in s.latest ensures key in s.handled && s.handled[key] == s.latest[key] {
      assert LatestAt(s, key);
    }
  }

  // ---- which events stand for which ----

  /** Both events concern the sessions of one common name, or both concern all sessions in the same way. */
  predicate SameSubject(a: Event, b: Event) {
    match (a, b)
    case (CommonChanged, CommonChanged) => true
    case (Reconcile, Reconcile) => true
    case (CommonChanged, _) => false
    case (Reconcile, _) => false
    case (_, CommonChanged) => false
    case (_, Reconcile) => false
    case (_, _) => NameIn(a) == NameIn(b)
  }

  function NameIn(ev: Event): string
    requires !ev.CommonChanged? && !ev.Reconcile?
  {
    match ev
    case Connect(key) => key.cn
    case Disconnect(cn, _) => cn
    case UserChanged(cn) => cn
  }

  /** A user's event whose common name is one of the two fixed keys. */
  predicate NamedLikeGlobal(ev: Event) {
    !ev.CommonChanged? && !ev.Reconcile? && (NameIn(ev) == "__common__" || NameIn(ev) == "__reconcile__")
  }

  lemma FixedKeysDiffer()
    ensures "__common__" != "__reconcile__"
  {
    assert "__common__"[2] == 'c' && "__reconcile__"[2] == 'r';
  }

  /** Two events share a slot exactly when they concern the same, unless a user is named like a fixed key. */
  lemma SlotIsSubject(a: Event, b: Event)
    requires !NamedLikeGlobal(a) && !NamedLikeGlobal(b)
    ensures Key(a) == Key(b) <==> SameSubject(a, b)
  {
    FixedKeysDiffer();
  }

  /** At rest every event that was ever pushed has been handled, or a later one about the same has. */
  lemma NothingIsForgotten(run: seq<State>, i: nat, n: nat) returns (m: nat)
    requires IsRun(run) && i < |run|
    requires run[i].sending == 0 && !run[i].token && run[i].handler.Waiting?
    requires n < |run[i].log| && forall k :: 0 <= k < |run[i].log| ==> !NamedLikeGlobal(run[i].log[k])
    ensures n <= m < |run[i].log| && SameSubject(run[i].log[n], run[i].log[m])
    ensures m in run[i].handled.Values
  {
    RunKeepsInv(run, i);
    QuiescentMeansHandled(run, i);
    var s := run[i];
    var key := Key(s.log[n]);
    m := s.latest[key];
    assert LastPush(s, key, m);
    SlotIsSubject(s.log[n], s.log[m]);
    assert key in s.handled;
  }

  /** The run in which a user is called __common__: both events are pushed before the handler wakes, the user's event
      takes the slot of the change of the common routes, and at rest that change was never handled. */
  function CollidingRun(): seq<State> {
    var a, b := CommonChanged, UserChanged("__common__");
    var latest := map["__common__" := 1];
    var stored := map["__common__" := Stamped(b, 1)];
    [State(map[], false, 0, Waiting, [], map[], map[]),
     State(map["__common__" := Stamped(a, 0)], false, 1, Waiting, [a], map["__common__" := 0], map[]),
     State(stored, false, 2, Waiting, [a, b], latest, map[]),
     State(stored, true, 1, Waiting, [a, b], latest, map[]),
     State(stored, true, 0, Waiting, [a, b], latest, map[]),
     State(stored, false, 0, Swapping, [a, b], latest, map[]),
     State(map[], false, 0, Handling(stored), [a, b], latest, map[]),
     State(map[], false, 0, Handling(map[]), [a, b], latest, latest),
     State(map[], false, 0, Waiting, [a, b], latest, latest)]
  }

  lemma CollidingSteps(i: nat)
    requires i < 8
    ensures Next(CollidingRun()[i], CollidingRun()[i + 1])
  {
    var s, t := CollidingRun()[i], CollidingRun()[i + 1];
    if i == 0 {
      assert Store(s, t, CommonChanged);
    } else if i == 1 {
      assert s.latest["__common__" := 1] == t.latest;
      assert Store(s, t, UserChanged("__common__"));
    } else if i == 6 {
      assert s.handler.batch - {"__common__"} == map[];
      assert Handle(s, t, "__common__");
    }
  }

  lemma NameHidesCommonChange()
    ensures IsRun(CollidingRun())
    ensures var s := CollidingRun()[8];
            && s.sending == 0 && !s.token && s.handler.Waiting?
            && s.log == [CommonChanged, UserChanged("__common__")] && 0 !in s.handled.Values
  {
    forall i | 0 <= i < 8 ensures Next(CollidingRun()[i], CollidingRun()[i + 1]) { CollidingSteps(i); }
  }

  /** A pusher that stored can always send. */
  lemma PusherNeverStuck(s: State)
    requires s.sending > 0
    ensures exists t :: Kick(s, t)
  {
    assert Kick(s, s.(sending := s.sending - 1, token := true));
  }

  /** While something is pending and every pusher has sent, the handler can always move toward it. */
  lemma HandlerNeverStuck(run: seq<State>, i: nat)
    requires IsRun(run) && i < |run| && run[i].pending != map[] && run[i].sending == 0
    ensures exists t :: HandlerStep(run[i], t)
  {
    RunKeepsInv(run, i);
    var s := run[i];
    match s.handler
    case Waiting => assert HandlerStep(s, s.(token := false, handler := Swapping));
    case Swapping => assert HandlerStep(s, s.(pending := map[], handler := Handling(s.pending)));
    case Handling(batch) =>
      if batch == map[] {
        assert HandlerStep(s, s.(handler := Waiting));
      } else {
        var key :| key in batch;
        var t := s.(handler := Handling(batch - {key}), handled := s.handled[key := batch[key].stamp]);
        assert Handle(s, t, key) && HandlerStep(s, t);
      }
  }
}
