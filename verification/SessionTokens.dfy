/** Session tokens over issue, logout, epoch bumps, the passing of time and restarts, with file writes that may fail. A
    signature determines its payload and nobody else can produce one, so a signed token is its payload. */
module SessionTokens {
  const TTL: nat := 12 * 60 * 60
  const MAX_REVOKED: nat := 10000

  datatype Purpose = Session | OtherPurpose

  datatype Payload = Payload(user: string, exp: int, purpose: Purpose, mfa: bool, epoch: nat)

  datatype Token = Signed(payload: Payload) | Unsigned(text: string)

  /** The blacklist is keyed by signature. `issued` records every session payload ever signed. */
  datatype State = State(
    now: int, epochs: map<string, nat>, epochsFile: map<string, nat>,
    revoked: map<Payload, int>, revokedFile: map<Payload, int>, issued: set<Payload>)

  function EpochOf(epochs: map<string, nat>, user: string): nat {
    if user in epochs then epochs[user] else 0
  }

  function SessionFor(s: State, user: string, mfa: bool): Payload {
    Payload(user, s.now + TTL, Session, mfa, EpochOf(s.epochs, user))
  }

  /** The checks of a genuine, currently valid session. */
  predicate Accepts(s: State, token: Token) {
    && token.Signed? && token.payload.purpose == Session && s.now <= token.payload.exp
    && token.payload.epoch == EpochOf(s.epochs, token.payload.user) && token.payload !in s.revoked
  }

  function Unexpired(revoked: map<Payload, int>, now: int): map<Payload, int> {
    map p | p in revoked && now <= revoked[p] :: revoked[p]
  }

  function Clamped(exp: int, now: int): int {
    if exp > now + TTL then now + TTL else exp
  }

  predicate AtCap(s: State, p: Payload) {
    |Unexpired(s.revoked, s.now)| >= MAX_REVOKED && p !in Unexpired(s.revoked, s.now)
  }

  datatype Step =
    | Issue(user: string, mfa: bool)
    | Logout(token: Token, written: bool)
    | Bump(user: string, written: bool)
    | Pass(seconds: nat)
    | Restart

  /** Signatures cannot be forged: a signed session payload was issued. */
  predicate Possible(s: State, step: Step) {
    step.Logout? && step.token.Signed? && step.token.payload.purpose == Session ==> step.token.payload in s.issued
  }

  /** A logout records nothing for a token that is not valid, and nothing at the cap; both report success. A failed
      write keeps the entry in memory and is reported. */
  function LogoutState(s: State, token: Token, written: bool): State {
    if !Accepts(s, token) then s
    else
      var pruned := Unexpired(s.revoked, s.now);
      if AtCap(s, token.payload) then s.(revoked := pruned)
      else
        var next := pruned[token.payload := Clamped(token.payload.exp, s.now)];
        s.(revoked := next, revokedFile := if written then next else s.revokedFile)
  }

  predicate LogoutReportsSuccess(s: State, token: Token, written: bool) {
    !Accepts(s, token) || AtCap(s, token.payload) || written
  }

  /** A logout tries to write exactly when the token is valid and the blacklist has room for it. */
  predicate LogoutWrites(s: State, token: Token) {
    Accepts(s, token) && !AtCap(s, token.payload)
  }

  /** A bump that cannot be written is undone. */
  function BumpState(s: State, user: string, written: bool): State {
    if user == "" then s
    else if written then
      var next := s.epochs[user := EpochOf(s.epochs, user) + 1];
      s.(epochs := next, epochsFile := next)
    else s.(epochs := s.epochs[user := EpochOf(s.epochs, user)])
  }

  function Apply(s: State, step: Step): State {
    match step
    case Issue(user, mfa) => s.(issued := s.issued + {SessionFor(s, user, mfa)})
    case Logout(token, written) => LogoutState(s, token, written)
    case Bump(user, written) => BumpState(s, user, written)
    case Pass(seconds) => s.(now := s.now + seconds)
    case Restart => s.(epochs := s.epochsFile, revoked := Unexpired(s.revokedFile, s.now))
  }

  predicate IsRun(s: State, steps: seq<Step>)
    decreases |steps|
  {
    steps == [] || (Possible(s, steps[0]) && IsRun(Apply(s, steps[0]), steps[1..]))
  }

  function After(s: State, steps: seq<Step>): State
    decreases |steps|
  {
    if steps == [] then s else After(Apply(s, steps[0]), steps[1..])
  }

  /** A process without files. */
  function Start(time: int): State {
    State(time, map[], map[], map[], map[], {})
  }

  // ---- the code ----

  class SessionStore {
    var now: int
    var sessionEpochs: map<string, nat>
    var epochsFile: map<string, nat>
    var revokedTokens: map<Payload, int>
    var revokedFile: map<Payload, int>
    ghost var issued: set<Payload>
    /** The outcome of every file write so far. */
    ghost var writes: seq<bool>

    ghost function View(): State
      reads this
    {
      State(now, sessionEpochs, epochsFile, revokedTokens, revokedFile, issued)
    }

    constructor (time: int)
      ensures View() == Start(time)
    {
      now, sessionEpochs, epochsFile, revokedTokens, revokedFile, issued := time, map[], map[], map[], map[], {};
      writes := [];
    }

    /** Files are replaced by renaming: a failed write leaves the old file. */
    method WriteEpochs() returns (ok: bool)
      modifies this`epochsFile, this`writes
      ensures epochsFile == if ok then sessionEpochs else old(epochsFile)
      ensures writes == old(writes) + [ok]
    {
      ok := *;
      writes := writes + [ok];
      if ok { epochsFile := sessionEpochs; }
    }

    method WriteRevoked() returns (ok: bool)
      modifies this`revokedFile, this`writes
      ensures revokedFile == if ok then revokedTokens else old(revokedFile)
      ensures writes == old(writes) + [ok]
    {
      ok := *;
      writes := writes + [ok];
      if ok { revokedFile := revokedTokens; }
    }

    method BumpUserEpoch(user: string) returns (ok: bool)
      modifies this
      ensures View() == Apply(old(View()), Bump(user, ok))
      ensures if user == "" then ok && writes == old(writes) else writes == old(writes) + [ok]
    {
      if user == "" { return true; }
      sessionEpochs := sessionEpochs[user := EpochOf(sessionEpochs, user) + 1];
      ok := WriteEpochs();
      if !ok {
        sessionEpochs := sessionEpochs[user := sessionEpochs[user] - 1];
        assert sessionEpochs == old(sessionEpochs)[user := EpochOf(old(sessionEpochs), user)];
      }
    }

    method SignSession(user: string, mfaSatisfied: bool) returns (token: Token)
      modifies this`issued
      ensures View() == Apply(old(View()), Issue(user, mfaSatisfied))
      ensures token == Signed(SessionFor(old(View()), user, mfaSatisfied)) && token.payload in issued
    {
      token := Signed(Payload(user, now + TTL, Session, mfaSatisfied, EpochOf(sessionEpochs, user)));
      issued := issued + {token.payload};
    }

    method VerifySessionPayload(token: Token) returns (ok: bool)
      ensures ok == Accepts(View(), token)
    {
      if token.Unsigned? { return false; }
      var p := token.payload;
      if p.purpose != Session { return false; }
      if now > p.exp { return false; }
      if p.epoch != EpochOf(sessionEpochs, p.user) { return false; }
      return p !in revokedTokens;
    }

    method DropExpired()
      modifies this`revokedTokens
      ensures revokedTokens == Unexpired(old(revokedTokens), now)
    {
      var todo := revokedTokens.Keys;
      ghost var before := revokedTokens;
      while todo != {}
        invariant todo <= before.Keys
        invariant revokedTokens == map p | p in before && (p in todo || now <= before[p]) :: before[p]
        decreases |todo|
      {
        var k :| k in todo;
        if now > revokedTokens[k] { revokedTokens := revokedTokens - {k}; }
        todo := todo - {k};
      }
    }

    method RevokeToken(token: Token) returns (ok: bool)
      modifies this
      ensures View() == Apply(old(View()), Logout(token, ok)) && ok == LogoutReportsSuccess(old(View()), token, ok)
      ensures writes == old(writes) + if LogoutWrites(old(View()), token) then [ok] else []
    {
      var valid := VerifySessionPayload(token);
      if !valid { return true; }
      var p := token.payload;
      var exp := if p.exp > now + TTL then now + TTL else p.exp;
      DropExpired();
      if |revokedTokens| >= MAX_REVOKED && p !in revokedTokens { return true; }
      revokedTokens := revokedTokens[p := exp];
      ok := WriteRevoked();
    }

    /** A new process reads both files. */
    method Load()
      modifies this
      ensures View() == Apply(old(View()), Restart)
    {
      sessionEpochs := epochsFile;
      revokedTokens := revokedFile;
      DropExpired();
    }
  }

  // ---- every run ----

  ghost predicate Inv(s: State) {
    && (forall user :: EpochOf(s.epochs, user) == EpochOf(s.epochsFile, user))
    && (forall p :: p in s.issued ==>
         p.purpose == Session && p.exp <= s.now + TTL && p.epoch <= EpochOf(s.epochs, p.user))
    && (forall p :: p in s.revoked ==> p in s.issued && s.revoked[p] == p.exp)
    && (forall p :: p in s.revokedFile ==>
         p in s.issued && s.revokedFile[p] == p.exp && (p in s.revoked || p.exp < s.now))
  }

  lemma LogoutKeepsInv(s: State, token: Token, written: bool)
    requires Inv(s) && Possible(s, Logout(token, written))
    ensures Inv(LogoutState(s, token, written))
  {
    if Accepts(s, token) { assert token.payload in s.issued && Clamped(token.payload.exp, s.now) == token.payload.exp; }
  }

  lemma StepKeepsInv(s: State, step: Step)
    requires Inv(s) && Possible(s, step)
    ensures Inv(Apply(s, step))
  {
    match step
    case Issue(user, mfa) =>
    case Logout(token, written) => LogoutKeepsInv(s, token, written);
    case Bump(user, written) =>
    case Pass(seconds) =>
    case Restart =>
  }

  lemma {:induction false} RunKeepsInv(s: State, steps: seq<Step>)
    requires Inv(s) && IsRun(s, steps)
    ensures Inv(After(s, steps))
    decreases |steps|
  {
    if steps != [] {
      StepKeepsInv(s, steps[0]);
      RunKeepsInv(Apply(s, steps[0]), steps[1..]);
    }
  }

  predicate Outdated(s: State, p: Payload) {
    p.epoch < EpochOf(s.epochs, p.user)
  }

  /** Dead for good: expired, from an older epoch, or on the blacklist that a restart reads. */
  predicate Dead(s: State, p: Payload) {
    s.now > p.exp || Outdated(s, p) || p in s.revokedFile
  }

  lemma DeadIsRejected(s: State, p: Payload)
    requires Inv(s) && Dead(s, p)
    ensures !Accepts(s, Signed(p))
  {}

  lemma StepKeepsDead(s: State, step: Step, p: Payload)
    requires Inv(s) && Possible(s, step) && Dead(s, p)
    ensures Dead(Apply(s, step), p)
  {
    match step
    case Logout(token, written) =>
      if Accepts(s, token) && p in s.revokedFile && s.now <= p.exp { assert p in Unexpired(s.revoked, s.now); }
    case _ =>
  }

  lemma {:induction false} RunKeepsDead(s: State, steps: seq<Step>, p: Payload)
    requires Inv(s) && IsRun(s, steps) && Dead(s, p)
    ensures Inv(After(s, steps)) && Dead(After(s, steps), p)
    decreases |steps|
  {
    if steps != [] {
      StepKeepsInv(s, steps[0]);
      StepKeepsDead(s, steps[0], p);
      RunKeepsDead(Apply(s, steps[0]), steps[1..], p);
    }
  }

  /** A session issued before a successful epoch bump of its user is never accepted after it, through any failures and
      restarts. (The empty user name cannot be bumped.) */
  lemma BumpEndsSessions(s: State, p: Payload, steps: seq<Step>)
    requires Inv(s) && p in s.issued && p.user != ""
    requires IsRun(Apply(s, Bump(p.user, true)), steps)
    ensures !Accepts(After(Apply(s, Bump(p.user, true)), steps), Signed(p))
  {
    var bumped := Apply(s, Bump(p.user, true));
    StepKeepsInv(s, Bump(p.user, true));
    assert Outdated(bumped, p);
    RunKeepsDead(bumped, steps, p);
    DeadIsRejected(After(bumped, steps), p);
  }

  /** A session is never accepted again, in any continuation, exactly when it is dead now. */
  lemma NeverAgainIffDead(s: State, p: Payload)
    requires Inv(s) && p in s.issued
    ensures Dead(s, p) <==> forall steps :: IsRun(s, steps) ==> !Accepts(After(s, steps), Signed(p))
  {
    if Dead(s, p) {
      forall steps | IsRun(s, steps) ensures !Accepts(After(s, steps), Signed(p)) {
        RunKeepsDead(s, steps, p);
        DeadIsRejected(After(s, steps), p);
      }
    } else {
      var steps := [Restart];
      assert steps[1..] == [];
      assert IsRun(s, steps) && After(s, steps) == Apply(s, Restart);
      assert Accepts(After(s, steps), Signed(p));
    }
  }

  /** Two logouts report success and yet leave the session alive: one at the cap, and one of a session that is already
      blacklisted in memory while an earlier write of that entry failed. */
  predicate LogoutIsLost(s: State, p: Payload) {
    !Dead(s, p) && (p in s.revoked || AtCap(s, p))
  }

  /** A logout that reported success ends the session for good, except exactly in those two cases. */
  lemma LogoutEndsSessionExactly(s: State, p: Payload, written: bool)
    requires Inv(s) && p in s.issued && LogoutReportsSuccess(s, Signed(p), written)
    ensures var t := Apply(s, Logout(Signed(p), written));
            (forall steps :: IsRun(t, steps) ==> !Accepts(After(t, steps), Signed(p))) <==> !LogoutIsLost(s, p)
  {
    var t := Apply(s, Logout(Signed(p), written));
    StepKeepsInv(s, Logout(Signed(p), written));
    NeverAgainIffDead(t, p);
    if Dead(s, p) { DeadIsRejected(s, p); }
  }

  /** The second case is reachable: a logout whose write fails, repeated, reports success; a restart revives the
      token. */
  lemma RetriedLogoutRevives(user: string, time: int)
    ensures var start := Start(time);
            var token := Signed(SessionFor(start, user, true));
            var issued := Apply(start, Issue(user, true));
            var tried := Apply(issued, Logout(token, false));
            var retried := Apply(tried, Logout(token, true));
            && Inv(start) && Possible(issued, Logout(token, false)) && Possible(tried, Logout(token, true))
            && !LogoutReportsSuccess(issued, token, false) && LogoutReportsSuccess(tried, token, true)
            && !Accepts(retried, token) && Accepts(Apply(retried, Restart), token)
  {
    var start := Start(time);
    var p := SessionFor(start, user, true);
    var issued := Apply(start, Issue(user, true));
    assert Unexpired(issued.revoked, issued.now) == map[];
    assert Apply(issued, Logout(Signed(p), false)) == issued.(revoked := map[p := p.exp]);
  }

  lemma {:induction false} RunAppend(s: State, steps: seq<Step>, last: Step)
    requires IsRun(s, steps) && Possible(After(s, steps), last)
    ensures IsRun(s, steps + [last]) && After(s, steps + [last]) == Apply(After(s, steps), last)
    decreases |steps|
  {
    if steps == [] {
      assert [last][1..] == [];
    } else {
      assert (steps + [last])[1..] == steps[1..] + [last];
      RunAppend(Apply(s, steps[0]), steps[1..], last);
    }
  }

  function UserName(i: nat): string { seq(i, _ => 'u') }

  function FirstSession(time: int, i: nat): Payload {
    Payload(UserName(i), time + TTL, Session, true, 0)
  }

  /** The first n users log in and out, one after the other. */
  function Filling(time: int, n: nat): seq<Step> {
    if n == 0 then []
    else
      Filling(time, n - 1) + [Issue(UserName(n - 1), true)] + [Logout(Signed(FirstSession(time, n - 1)), true)]
  }

  /** The sessions of n users are blacklisted, and no other. */
  ghost predicate Filled(s: State, time: int, n: nat) {
    && s.now == time && s.epochs == map[] && |s.revoked| == n && s.revokedFile == s.revoked
    && forall p :: p in s.revoked ==> |p.user| < n && s.revoked[p] == time + TTL
  }

  lemma LogoutFills(s: State, time: int, n: nat)
    requires Filled(s, time, n) && n < MAX_REVOKED && FirstSession(time, n) in s.issued
    ensures Filled(Apply(s, Logout(Signed(FirstSession(time, n)), true)), time, n + 1)
  {
    var p := FirstSession(time, n);
    assert |p.user| == n && p !in s.revoked;
    assert Unexpired(s.revoked, s.now) == s.revoked;
    assert s.revoked[p := p.exp].Keys == s.revoked.Keys + {p};
  }

  lemma {:induction false} FillingRuns(time: int, n: nat)
    requires n <= MAX_REVOKED
    ensures IsRun(Start(time), Filling(time, n)) && Filled(After(Start(time), Filling(time, n)), time, n)
  {
    if n > 0 {
      FillingRuns(time, n - 1);
      var steps := Filling(time, n - 1);
      RunAppend(Start(time), steps, Issue(UserName(n - 1), true));
      var t := After(Start(time), steps + [Issue(UserName(n - 1), true)]);
      RunAppend(Start(time), steps + [Issue(UserName(n - 1), true)], Logout(Signed(FirstSession(time, n - 1)), true));
      LogoutFills(t, time, n - 1);
    }
  }

  /** The first case is reachable: once MAX_REVOKED users have logged in and out, the next user's logout reports success
      and leaves the session accepted. */
  lemma CappedLogoutIsLost(time: int, written: bool) returns (s: State)
    ensures var next := Issue(UserName(MAX_REVOKED), true);
            IsRun(Start(time), Filling(time, MAX_REVOKED) + [next]) &&
            s == After(Start(time), Filling(time, MAX_REVOKED) + [next])
    ensures var token := Signed(FirstSession(time, MAX_REVOKED));
            && Possible(s, Logout(token, written)) && Accepts(s, token) && AtCap(s, token.payload)
            && LogoutReportsSuccess(s, token, written) && Accepts(Apply(s, Logout(token, written)), token)
  {
    FillingRuns(time, MAX_REVOKED);
    RunAppend(Start(time), Filling(time, MAX_REVOKED), Issue(UserName(MAX_REVOKED), true));
    s := After(Start(time), Filling(time, MAX_REVOKED) + [Issue(UserName(MAX_REVOKED), true)]);
    var p := FirstSession(time, MAX_REVOKED);
    assert |p.user| == MAX_REVOKED && p !in s.revoked;
    assert Unexpired(s.revoked, s.now) == s.revoked;
  }

  // ---- sessions that live ----

  /** The step neither logs the session out nor bumps its user's epoch. */
  predicate Spares(step: Step, p: Payload) {
    match step
    case Bump(user, written) => user != p.user || user == "" || !written
    case Logout(token, _) => token != Signed(p)
    case _ => true
  }

  lemma StepSpares(s: State, step: Step, p: Payload)
    requires Inv(s) && Accepts(s, Signed(p)) && Possible(s, step) && Spares(step, p) && Apply(s, step).now <= p.exp
    ensures Accepts(Apply(s, step), Signed(p))
  {
    match step
    case Restart => assert EpochOf(s.epochs, p.user) == EpochOf(s.epochsFile, p.user);
    case _ =>
  }

  lemma {:induction false} TimePasses(s: State, steps: seq<Step>)
    ensures s.now <= After(s, steps).now
    decreases |steps|
  {
    if steps != [] { TimePasses(Apply(s, steps[0]), steps[1..]); }
  }

  /** An accepted session stays accepted until it expires, over any logins, other logouts, failed bumps and restarts,
      unless it is logged out or its user's epoch is bumped. */
  lemma {:induction false} SessionLasts(s: State, steps: seq<Step>, p: Payload)
    requires Inv(s) && Accepts(s, Signed(p)) && IsRun(s, steps) && After(s, steps).now <= p.exp
    requires forall i :: 0 <= i < |steps| ==> Spares(steps[i], p)
    ensures Accepts(After(s, steps), Signed(p))
    decreases |steps|
  {
    if steps != [] {
      var t, rest := Apply(s, steps[0]), steps[1..];
      TimePasses(t, rest);
      StepKeepsInv(s, steps[0]);
      StepSpares(s, steps[0], p);
      forall i | 0 <= i < |rest| ensures Spares(rest[i], p) { assert rest[i] == steps[i + 1]; }
      SessionLasts(t, rest, p);
    }
  }

  /** A new session is accepted unless the same one was logged out before: tokens carry whole seconds and nothing
      random, so a login repeats the token of another in the same second. */
  lemma NewSessionAcceptedExactly(s: State, user: string, mfa: bool)
    ensures var p := SessionFor(s, user, mfa); var t := Apply(s, Issue(user, mfa));
            && p.user == user && p.exp == s.now + 43200
            && (Accepts(t, Signed(p)) <==> p !in s.revoked)
  {}

  /** Logging in, out and in again within one second leaves the second session dead for good. */
  lemma SameSecondLoginIsDead(user: string, mfa: bool, time: int, steps: seq<Step>)
    ensures var start := Start(time);
            var token := Signed(SessionFor(start, user, mfa));
            var first := Apply(start, Issue(user, mfa));
            var out := Apply(first, Logout(token, true));
            var second := Apply(out, Issue(user, mfa));
            && Accepts(first, token) && LogoutReportsSuccess(first, token, true)
            && Signed(SessionFor(out, user, mfa)) == token
            && (IsRun(second, steps) ==> !Accepts(After(second, steps), token))
  {
    var start := Start(time);
    var p := SessionFor(start, user, mfa);
    var first := Apply(start, Issue(user, mfa));
    var out := Apply(first, Logout(Signed(p), true));
    assert Unexpired(first.revoked, first.now) == map[];
    assert out.revokedFile == map[p := p.exp];
    var second := Apply(out, Issue(user, mfa));
    assert Inv(start);
    StepKeepsInv(start, Issue(user, mfa));
    StepKeepsInv(first, Logout(Signed(p), true));
    StepKeepsInv(out, Issue(user, mfa));
    if IsRun(second, steps) {
      RunKeepsDead(second, steps, p);
      DeadIsRejected(After(second, steps), p);
    }
  }

  /** A token of another purpose, such as that of a half-finished login, is never a session. */
  lemma OnlySessionsAreAccepted(s: State, token: Token)
    requires token.Unsigned? || token.payload.purpose != Session
    ensures !Accepts(s, token) && forall written :: Apply(s, Logout(token, written)) == s
  {}
}
