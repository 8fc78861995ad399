/** One-time codes: time-step codes (section 5.2 of RFC 6238) of which each step is spent at most once, and backup codes
    that are spent by use. Hashing and encryption are parameters. */
module OneTimeCodes {
  import opened Wrappers

  const PERIOD := 30

  /** Seconds since 1970; the first half minute is left out so that the window never starts before it. */
  type Clock = t: int | t >= PERIOD witness PERIOD

  /** The code of a secret at a time step, the check of a code against a stored hash, and decryption. */
  datatype Crypto = Crypto(hotp: (string, int) -> string, checks: (string, string) -> bool,
                           decrypt: string -> Option<string>)

  datatype Record = Record(
    secret: string, enabled: bool, backupCodes: seq<string>, version: nat,
    lastUsedCode: string, lastUsedAt: int, usedSteps: seq<int>)

  datatype Outcome = Reject | OkTotp(step: int) | OkBackup

  function StepAt(t: Clock): int { t / PERIOD }

  // ---- matching and pruning ----

  /** The step that a code matches: the previous one, the current one or the next one, in this order. */
  function Matched(c: Crypto, secret: string, code: string, now: Clock): Option<int> {
    var cur := StepAt(now);
    if code == c.hotp(secret, cur - 1) then Some(cur - 1)
    else if code == c.hotp(secret, cur) then Some(cur)
    else if code == c.hotp(secret, cur + 1) then Some(cur + 1)
    else None
  }

  method MatchTotpStep(c: Crypto, secret: string, code: string, now: Clock) returns (step: int, matched: bool)
    ensures matched == Matched(c, secret, code, now).Some? && (matched ==> step == Matched(c, secret, code, now).value)
  {
    var cur := StepAt(now);
    for d := -1 to 2
      invariant forall k :: cur - 1 <= k < cur + d ==> !IsCodeOf(c, secret, code, k)
    {
      StepShift(now, d);
      var t := now + d * PERIOD;
      assert d >= 0 ==> !IsCodeOf(c, secret, code, cur - 1);
      assert d >= 1 ==> !IsCodeOf(c, secret, code, cur);
      if IsCodeOf(c, secret, code, t / PERIOD) { return t / PERIOD, true; }
    }
    assert !IsCodeOf(c, secret, code, cur - 1) && !IsCodeOf(c, secret, code, cur) &&
        !IsCodeOf(c, secret, code, cur + 1);
    return 0, false;
  }

  predicate IsCodeOf(c: Crypto, secret: string, code: string, step: int) { code == c.hotp(secret, step) }

  lemma StepShift(now: Clock, d: int)
    ensures (now + d * PERIOD) / PERIOD == StepAt(now) + d
  {}

  predicate Near(step: int, cur: int) { cur - step <= 2 && step - cur <= 2 }

  function Pruned(steps: seq<int>, cur: int): (r: seq<int>)
    ensures forall s :: s in r <==> s in steps && Near(s, cur)
  {
    if steps == [] then []
    else
      var last := steps[|steps| - 1];
      Pruned(steps[..|steps| - 1], cur) + if Near(last, cur) then [last] else []
  }

  method PruneTotpSteps(steps: seq<int>, now: Clock) returns (out: seq<int>)
    ensures out == Pruned(steps, StepAt(now))
  {
    var cur := now / PERIOD;
    out := [];
    for i := 0 to |steps|
      invariant out == Pruned(steps[..i], cur)
    {
      assert steps[..i + 1][..i] == steps[..i];
      if cur - steps[i] <= 2 && steps[i] - cur <= 2 { out := out + [steps[i]]; }
    }
    assert steps[..|steps|] == steps;
  }

  // ---- backup codes ----

  function HashAt(c: Crypto, hashes: seq<string>, code: string): (n: nat)
    ensures n <= |hashes| && (n < |hashes| ==> c.checks(hashes[n], code))
    ensures forall j :: 0 <= j < n ==> !c.checks(hashes[j], code)
  {
    if hashes == [] || c.checks(hashes[0], code) then 0 else 1 + HashAt(c, hashes[1..], code)
  }

  method VerifyBackupCode(c: Crypto, code: string, hashes: seq<string>) returns (ok: bool)
    ensures ok <==> HashAt(c, hashes, code) < |hashes|
  {
    for i := 0 to |hashes|
      invariant forall j :: 0 <= j < i ==> !c.checks(hashes[j], code)
    {
      if c.checks(hashes[i], code) { return true; }
    }
    return false;
  }

  function WithoutAt(hashes: seq<string>, i: nat): seq<string> {
    if i < |hashes| then hashes[..i] + hashes[i + 1..] else hashes
  }

  /** Removes the first hash that the code matches, and only that one. */
  method ConsumeBackupCode(c: Crypto, code: string, hashes: seq<string>) returns (out: seq<string>)
    ensures out == WithoutAt(hashes, HashAt(c, hashes, code))
  {
    for i := 0 to |hashes|
      invariant i <= HashAt(c, hashes, code)
    {
      if c.checks(hashes[i], code) { return hashes[..i] + hashes[i + 1..]; }
    }
    return hashes;
  }

  // ---- one attempt ----

  function SecretOf(c: Crypto, rec: Record): Option<string> {
    if rec.version >= 1 && rec.secret != "" then c.decrypt(rec.secret) else Some(rec.secret)
  }

  datatype Verdict = Verdict(outcome: Outcome, next: Record)

  /** What an attempt decides and, when it accepts, the record to store. */
  function Decide(c: Crypto, rec: Record, code: string, now: Clock): (v: Verdict)
    ensures v.outcome.Reject? ==> v.next == rec
  {
    if !rec.enabled || SecretOf(c, rec).None? then Verdict(Reject, rec)
    else match Matched(c, SecretOf(c, rec).value, code, now)
         case Some(step) =>
           if step in rec.usedSteps then Verdict(Reject, rec)
           else Verdict(OkTotp(step),
               rec.(usedSteps := Pruned(rec.usedSteps + [step], StepAt(now)), lastUsedCode := code, lastUsedAt := now))
         case None =>
           var i := HashAt(c, rec.backupCodes, code);
           if i < |rec.backupCodes| then Verdict(OkBackup, rec.(backupCodes := WithoutAt(rec.backupCodes, i)))
           else Verdict(Reject, rec)
  }

  /** A failed write rejects and spends nothing. */
  function Attempt(c: Crypto, rec: Record, code: string, now: Clock, written: bool): Verdict {
    if written then Decide(c, rec, code, now) else Verdict(Reject, rec)
  }

  /** The secret behind a record: decrypted from version 1 on, unless there is none. */
  ghost predicate HasSecret(c: Crypto, rec: Record, secret: string) {
    if rec.version == 0 || rec.secret == "" then secret == rec.secret else c.decrypt(rec.secret) == Some(secret)
  }

  /** The step is the first of the previous, the current and the next whose code this is. */
  ghost predicate FirstInWindow(c: Crypto, secret: string, code: string, now: Clock, step: int) {
    && now / 30 - 1 <= step <= now / 30 + 1 && code == c.hotp(secret, step)
    && forall k :: now / 30 - 1 <= k < step ==> code != c.hotp(secret, k)
  }

  lemma MatchedIsFirst(c: Crypto, secret: string, code: string, now: Clock, step: int)
    ensures Matched(c, secret, code, now) == Some(step) <==> FirstInWindow(c, secret, code, now, step)
  {
    var cur := now / 30;
    assert FirstInWindow(c, secret, code, now, step) ==> step == cur - 1 || step == cur || step == cur + 1;
  }

  /** A time-step code is accepted exactly when the second factor is on, the secret can be had, the code stands for a
      step of the window and that step is not used; the record then lists the step and keeps its backup codes. */
  lemma AcceptsStepExactly(c: Crypto, rec: Record, code: string, now: Clock, step: int)
    ensures var v := Attempt(c, rec, code, now, true);
            && (v.outcome == OkTotp(step) <==>
                  rec.enabled && step !in rec.usedSteps &&
                  exists secret :: HasSecret(c, rec, secret) && FirstInWindow(c, secret, code, now, step))
            && (v.outcome == OkTotp(step) ==> step in v.next.usedSteps && v.next.backupCodes == rec.backupCodes)
  {
    if SecretOf(c, rec).Some? {
      var secret := SecretOf(c, rec).value;
      assert HasSecret(c, rec, secret);
      MatchedIsFirst(c, secret, code, now, step);
      assert (rec.usedSteps + [step])[|rec.usedSteps|] == step;
    }
  }

  /** A backup code is accepted exactly when the second factor is on, the secret can be had, the code stands for no step
      of the window and matches a stored hash; the first such hash is spent. */
  lemma AcceptsBackupExactly(c: Crypto, rec: Record, code: string, now: Clock)
    ensures var v := Attempt(c, rec, code, now, true);
            && (v.outcome == OkBackup <==>
                  && rec.enabled && (exists i :: 0 <= i < |rec.backupCodes| && c.checks(rec.backupCodes[i], code))
                  && exists secret :: HasSecret(c, rec, secret) &&
                       forall k :: now / 30 - 1 <= k <= now / 30 + 1 ==> code != c.hotp(secret, k))
            && (v.outcome == OkBackup ==>
                  exists i :: 0 <= i < |rec.backupCodes| && c.checks(rec.backupCodes[i], code) &&
                    (forall j :: 0 <= j < i ==> !c.checks(rec.backupCodes[j], code)) &&
                    v.next == rec.(backupCodes := rec.backupCodes[..i] + rec.backupCodes[i + 1..]))
  {
    var cur := now / 30;
    if SecretOf(c, rec).Some? {
      var secret := SecretOf(c, rec).value;
      assert HasSecret(c, rec, secret);
      assert Matched(c, secret, code, now).None? <==>
             forall k :: cur - 1 <= k <= cur + 1 ==> code != c.hotp(secret, k);
    }
  }

  class MfaStore {
    const crypto: Crypto
    var data: map<string, Record>
    var file: map<string, Record>
    /** The outcome of every file write so far. */
    ghost var writes: seq<bool>

    constructor (c: Crypto)
      ensures crypto == c && data == map[] && file == data
    {
      crypto, data, file, writes := c, map[], map[], [];
    }

    /** The file is replaced by renaming, so a failed write leaves the old one. */
    method WriteFile() returns (ok: bool)
      modifies this`file, this`writes
      ensures file == if ok then data else old(file)
      ensures writes == old(writes) + [ok]
    {
      ok := *;
      writes := writes + [ok];
      if ok { file := data; }
    }

    /** On a failed write the record goes back to what it was. */
    method PersistRecord(user: string, prev: Record, next: Record) returns (ok: bool)
      requires user in data && data[user] == prev && file == data
      modifies this
      ensures file == data && data == if ok then old(data)[user := next] else old(data)
      ensures writes == old(writes) + [ok]
    {
      data := data[user := next];
      ok := WriteFile();
      if !ok {
        data := data[user := prev];
        assert data == old(data);
      }
    }

    /** Memory and file agree before and after, and only the record of `user` can change, as one attempt. */
    method VerifyAndConsume(user: string, code: string, now: Clock) returns (outcome: Outcome, ghost written: bool)
      requires file == data
      modifies this
      ensures file == data
      ensures user !in old(data) ==> outcome == Reject && data == old(data)
      ensures user in old(data) ==>
                var v := Attempt(crypto, old(data)[user], code, now, written);
                outcome == v.outcome && data == old(data)[user := v.next]
      ensures writes == old(writes) +
                if user in old(data) && !Decide(crypto, old(data)[user], code, now).outcome.Reject? then [written]
                else []
    {
      written := true;
      if user !in data { return Reject, true; }
      var rec := data[user];
      assert data == data[user := rec];
      if !rec.enabled { return Reject, true; }
      var secret := rec.secret;
      if rec.version >= 1 && rec.secret != "" {
        var pt := crypto.decrypt(rec.secret);
        if pt.None? { return Reject, true; }
        secret := pt.value;
      }
      var step, matched := MatchTotpStep(crypto, secret, code, now);
      if matched {
        for i := 0 to |rec.usedSteps|
          invariant data == old(data) && file == data && writes == old(writes) && step !in rec.usedSteps[..i]
        {
          if rec.usedSteps[i] == step { return Reject, true; }
        }
        assert step !in rec.usedSteps;
        var steps := PruneTotpSteps(rec.usedSteps + [step], now);
        var ok := PersistRecord(user, rec, rec.(usedSteps := steps, lastUsedCode := code, lastUsedAt := now));
        return if ok then OkTotp(step) else Reject, ok;
      }
      var isBackup := VerifyBackupCode(crypto, code, rec.backupCodes);
      if isBackup {
        var rest := ConsumeBackupCode(crypto, code, rec.backupCodes);
        var ok := PersistRecord(user, rec, rec.(backupCodes := rest));
        return if ok then OkBackup else Reject, ok;
      }
      return Reject, true;
    }
  }

  // ---- every sequence of attempts ----

  datatype Try = Try(code: string, now: Clock, written: bool)

  function After(c: Crypto, rec: Record, tries: seq<Try>): Record {
    if tries == [] then rec
    else
      var n := |tries| - 1;
      Attempt(c, After(c, rec, tries[..n]), tries[n].code, tries[n].now, tries[n].written).next
  }

  function OutcomeOf(c: Crypto, rec: Record, tries: seq<Try>, i: nat): Outcome
    requires i < |tries|
  {
    Attempt(c, After(c, rec, tries[..i]), tries[i].code, tries[i].now, tries[i].written).outcome
  }

  function Backups(c: Crypto, rec: Record, tries: seq<Try>): nat {
    if tries == [] then 0
    else
      var n := |tries| - 1;
      Backups(c, rec, tries[..n]) + if OutcomeOf(c, rec, tries, n).OkBackup? then 1 else 0
  }

  lemma AttemptListsStep(c: Crypto, rec: Record, t: Try)
    requires Attempt(c, rec, t.code, t.now, t.written).outcome.OkTotp?
    ensures var v := Attempt(c, rec, t.code, t.now, t.written);
            v.outcome.step in v.next.usedSteps && -1 <= v.outcome.step - StepAt(t.now) <= 1
  {
    var step := Matched(c, SecretOf(c, rec).value, t.code, t.now).value;
    assert (rec.usedSteps + [step])[|rec.usedSteps|] == step;
  }

  /** An attempt leaves a listed step listed unless it accepts another code with the step out of its window, and lists
      no step but the one that it accepts. */
  lemma AttemptKeepsStep(c: Crypto, rec: Record, t: Try, step: int)
    ensures var v := Attempt(c, rec, t.code, t.now, t.written);
            v.outcome != OkTotp(step) ==>
              (step in v.next.usedSteps <==> step in rec.usedSteps && (v.outcome.OkTotp? ==> Near(step, StepAt(t.now))))
  {
    var v := Attempt(c, rec, t.code, t.now, t.written);
    if v.outcome.OkTotp? {
      assert forall s :: s in rec.usedSteps + [v.outcome.step] <==> s in rec.usedSteps || s == v.outcome.step;
    }
  }

  /** Try i accepted the step and no later one did. */
  predicate AcceptedLast(c: Crypto, rec: Record, tries: seq<Try>, i: nat, step: int) {
    && i < |tries| && OutcomeOf(c, rec, tries, i) == OkTotp(step)
    && forall k :: i < k < |tries| ==> OutcomeOf(c, rec, tries, k) != OkTotp(step)
  }

  /** Some try since accepted another code more than two steps away, which pruned the step. */
  predicate PrunedSince(c: Crypto, rec: Record, tries: seq<Try>, i: nat, step: int) {
    exists k :: i < k < |tries| && OutcomeOf(c, rec, tries, k).OkTotp? && !Near(step, StepAt(tries[k].now))
  }

  lemma OutcomePrefix(c: Crypto, rec: Record, tries: seq<Try>, n: nat, k: nat)
    requires k < n <= |tries|
    ensures OutcomeOf(c, rec, tries[..n], k) == OutcomeOf(c, rec, tries, k)
  {
    assert tries[..n][..k] == tries[..k];
  }

  lemma AcceptedLastPrefix(c: Crypto, rec: Record, tries: seq<Try>, i: nat, step: int)
    requires AcceptedLast(c, rec, tries, i, step) && i < |tries| - 1
    ensures AcceptedLast(c, rec, tries[..|tries| - 1], i, step)
  {
    var n := |tries| - 1;
    forall k | i <= k < n ensures OutcomeOf(c, rec, tries[..n], k) == OutcomeOf(c, rec, tries, k) {
      OutcomePrefix(c, rec, tries, n, k);
    }
  }

  lemma AfterLast(c: Crypto, rec: Record, tries: seq<Try>)
    requires tries != []
    ensures var n := |tries| - 1;
            var v := Attempt(c, After(c, rec, tries[..n]), tries[n].code, tries[n].now, tries[n].written);
            After(c, rec, tries) == v.next && OutcomeOf(c, rec, tries, n) == v.outcome
  {}

  /** A spent step is listed exactly until some later try accepts a code more than two steps away from it. Rejected and
      failed attempts and the clock alone never make a step forgotten. */
  lemma {:induction false} SpentStepListedExactly(c: Crypto, rec: Record, tries: seq<Try>, i: nat, step: int)
    requires AcceptedLast(c, rec, tries, i, step)
    ensures step in After(c, rec, tries).usedSteps <==> !PrunedSince(c, rec, tries, i, step)
  {
    var n := |tries| - 1;
    AfterLast(c, rec, tries);
    if i == n {
      AttemptListsStep(c, After(c, rec, tries[..n]), tries[n]);
    } else {
      AcceptedLastPrefix(c, rec, tries, i, step);
      SpentStepListedExactly(c, rec, tries[..n], i, step);
      AttemptKeepsStep(c, After(c, rec, tries[..n]), tries[n], step);
      PrunedSinceLast(c, rec, tries, i, step);
    }
  }

  lemma PrunedSinceLast(c: Crypto, rec: Record, tries: seq<Try>, i: nat, step: int)
    requires i < |tries| - 1
    ensures var n := |tries| - 1;
            PrunedSince(c, rec, tries, i, step) <==>
              PrunedSince(c, rec, tries[..n], i, step) ||
                  (OutcomeOf(c, rec, tries, n).OkTotp? && !Near(step, StepAt(tries[n].now)))
  {
    var n := |tries| - 1;
    forall k | i < k < n
        ensures OutcomeOf(c, rec, tries[..n], k) == OutcomeOf(c, rec, tries, k) && tries[..n][k] == tries[k] {
      OutcomePrefix(c, rec, tries, n, k);
    }
  }

  /** Attempts change neither the secret nor whether the second factor is on. */
  lemma {:induction false} SecretKept(c: Crypto, rec: Record, tries: seq<Try>)
    ensures var r := After(c, rec, tries);
            r.secret == rec.secret && r.enabled == rec.enabled && r.version == rec.version
  {
    if tries != [] { SecretKept(c, rec, tries[..|tries| - 1]); }
  }

  /** A code whose step was spent is accepted again exactly when the step was pruned since. */
  lemma ReplayedExactly(c: Crypto, rec: Record, tries: seq<Try>, i: nat, step: int, t: Try)
    requires AcceptedLast(c, rec, tries, i, step) && t.written
    requires SecretOf(c, rec).Some? && Matched(c, SecretOf(c, rec).value, t.code, t.now) == Some(step)
    ensures Attempt(c, After(c, rec, tries), t.code, t.now, t.written).outcome == OkTotp(step) <==>
        PrunedSince(c, rec, tries, i, step)
  {
    SpentStepListedExactly(c, rec, tries, i, step);
    SecretKept(c, rec, tries);
    SecretKept(c, rec, tries[..i]);
  }

  /** The last acceptance of a step before a position. */
  lemma {:induction false} LastAcceptance(c: Crypto, rec: Record, tries: seq<Try>, i: nat, step: int)
    returns (last: nat)
    requires i < |tries| && OutcomeOf(c, rec, tries, i) == OkTotp(step)
    ensures i <= last && AcceptedLast(c, rec, tries, last, step)
    decreases |tries| - i
  {
    if k :| i < k < |tries| && OutcomeOf(c, rec, tries, k) == OkTotp(step) {
      last := LastAcceptance(c, rec, tries, k, step);
    } else {
      last := i;
    }
  }

  /** Whenever a step is accepted twice, a code more than two steps away was accepted in between. */
  lemma ReplayNeedsPruning(c: Crypto, rec: Record, tries: seq<Try>, i: nat, j: nat)
    returns (last: nat, k: nat)
    requires i < j < |tries| && OutcomeOf(c, rec, tries, i).OkTotp? &&
        OutcomeOf(c, rec, tries, i) == OutcomeOf(c, rec, tries, j)
    ensures var step := OutcomeOf(c, rec, tries, i).step;
            && i <= last < k < j && OutcomeOf(c, rec, tries, last) == OkTotp(step)
            && OutcomeOf(c, rec, tries, k).OkTotp? && !Near(step, StepAt(tries[k].now))
  {
    var step := OutcomeOf(c, rec, tries, i).step;
    var init := tries[..j];
    OutcomePrefix(c, rec, tries, j, i);
    last := LastAcceptance(c, rec, init, i, step);
    SpentStepListedExactly(c, rec, init, last, step);
    k :| last < k < |init| && OutcomeOf(c, rec, init, k).OkTotp? && !Near(step, StepAt(init[k].now));
    OutcomePrefix(c, rec, tries, j, k);
    OutcomePrefix(c, rec, tries, j, last);
  }

  /** The clock may fall back, but never by two steps or more behind any earlier attempt. */
  ghost predicate SteadyClock(tries: seq<Try>) {
    forall i, j :: 0 <= i < j < |tries| ==> StepAt(tries[i].now) - StepAt(tries[j].now) <= 1
  }

  /** No step is accepted twice, over any sequence of attempts with failing writes, although old steps are pruned, as
      long as the clock never falls back by two steps. */
  lemma EachStepOnce(c: Crypto, rec: Record, tries: seq<Try>, i: nat, j: nat)
    requires i < j < |tries| && SteadyClock(tries)
    requires OutcomeOf(c, rec, tries, i).OkTotp? && OutcomeOf(c, rec, tries, j).OkTotp?
    ensures OutcomeOf(c, rec, tries, i).step != OutcomeOf(c, rec, tries, j).step
  {
    if OutcomeOf(c, rec, tries, i) == OutcomeOf(c, rec, tries, j) {
      var last, k := ReplayNeedsPruning(c, rec, tries, i, j);
      AttemptListsStep(c, After(c, rec, tries[..last]), tries[last]);
      AttemptListsStep(c, After(c, rec, tries[..j]), tries[j]);
      assert false;
    }
  }

  lemma UnusedStepAccepted(c: Crypto, rec: Record, code: string, now: Clock, step: int)
    requires rec.enabled && rec.version == 0 && Matched(c, rec.secret, code, now) == Some(step) &&
        step !in rec.usedSteps
    ensures var v := Attempt(c, rec, code, now, true);
            && v.outcome == OkTotp(step) && v.next.enabled && v.next.version == 0 && v.next.secret == rec.secret
            && forall x :: x in v.next.usedSteps <==> (x in rec.usedSteps || x == step) && Near(x, StepAt(now))
  {
    assert forall x :: x in rec.usedSteps + [step] <==> x in rec.usedSteps || x == step;
  }

  lemma MatchesCurrent(c: Crypto, secret: string, t: Clock)
    requires c.hotp(secret, StepAt(t) - 1) != c.hotp(secret, StepAt(t))
    ensures Matched(c, secret, c.hotp(secret, StepAt(t)), t) == Some(StepAt(t))
  {}

  lemma MatchesPrevious(c: Crypto, secret: string, t: Clock, now: Clock)
    requires StepAt(now) == StepAt(t) + 1
    ensures Matched(c, secret, c.hotp(secret, StepAt(t)), now) == Some(StepAt(t))
  {}

  /** The bound is tight: with a clock that falls back by two steps a code is accepted again. The codes only have to
      differ from their predecessors at the two steps that are used. */
  lemma FallingClockReplays(c: Crypto, rec: Record, t: Clock, later: Clock, back: Clock)
    requires rec.enabled && rec.version == 0 && rec.usedSteps == []
    requires StepAt(later) == StepAt(t) + 3 && StepAt(back) == StepAt(t) + 1
    requires c.hotp(rec.secret, StepAt(t) - 1) != c.hotp(rec.secret, StepAt(t))
    requires c.hotp(rec.secret, StepAt(later) - 1) != c.hotp(rec.secret, StepAt(later))
    ensures var code := c.hotp(rec.secret, StepAt(t));
            var first := Attempt(c, rec, code, t, true);
            var second := Attempt(c, first.next, c.hotp(rec.secret, StepAt(later)), later, true);
            var third := Attempt(c, second.next, code, back, true);
            && first.outcome == OkTotp(StepAt(t)) && second.outcome == OkTotp(StepAt(later))
            && third.outcome == OkTotp(StepAt(t)) && StepAt(later) - StepAt(back) == 2
  {
    var code := c.hotp(rec.secret, StepAt(t));
    MatchesCurrent(c, rec.secret, t);
    MatchesCurrent(c, rec.secret, later);
    MatchesPrevious(c, rec.secret, t, back);
    UnusedStepAccepted(c, rec, code, t, StepAt(t));
    var first := Attempt(c, rec, code, t, true).next;
    UnusedStepAccepted(c, first, c.hotp(rec.secret, StepAt(later)), later, StepAt(later));
    var second := Attempt(c, first, c.hotp(rec.secret, StepAt(later)), later, true).next;
    UnusedStepAccepted(c, second, code, back, StepAt(t));
  }

  // ---- the used list stays small ----

  ghost predicate Windowed(steps: seq<int>, cur: int) {
    && (forall i :: 0 <= i < |steps| ==> Near(steps[i], cur))
    && (forall i, j :: 0 <= i < j < |steps| ==> steps[i] != steps[j])
  }

  lemma {:induction false} PrunedWindowed(steps: seq<int>, cur: int)
    requires forall i, j :: 0 <= i < j < |steps| ==> steps[i] != steps[j]
    ensures Windowed(Pruned(steps, cur), cur)
  {
    if steps != [] {
      var init, last := steps[..|steps| - 1], steps[|steps| - 1];
      PrunedWindowed(init, cur);
      assert last !in init;
      assert last !in Pruned(init, cur);
    }
  }

  /** At most five distinct steps lie within two of the current one. */
  lemma WindowedIsShort(steps: seq<int>, cur: int)
    requires Windowed(steps, cur)
    ensures |steps| <= 5
  {
    var window := {cur - 2, cur - 1, cur, cur + 1, cur + 2};
    SubsetCardinality(steps, window);
  }

  lemma {:induction false} SubsetCardinality(steps: seq<int>, window: set<int>)
    requires forall i :: 0 <= i < |steps| ==> steps[i] in window
    requires forall i, j :: 0 <= i < j < |steps| ==> steps[i] != steps[j]
    ensures |steps| <= |window|
  {
    if steps != [] {
      var n := |steps| - 1;
      SubsetCardinality(steps[..n], window - {steps[n]});
    }
  }

  /** Whatever the clock does, the list of used steps never exceeds five distinct entries. */
  lemma {:induction false} UsedListBounded(c: Crypto, rec: Record, tries: seq<Try>)
    requires exists cur :: Windowed(rec.usedSteps, cur)
    ensures (exists cur :: Windowed(After(c, rec, tries).usedSteps, cur)) && |After(c, rec, tries).usedSteps| <= 5
  {
    if tries == [] {
      var cur :| Windowed(rec.usedSteps, cur);
      WindowedIsShort(rec.usedSteps, cur);
      assert After(c, rec, tries) == rec;
    } else {
      var n := |tries| - 1;
      UsedListBounded(c, rec, tries[..n]);
      var before, t := After(c, rec, tries[..n]), tries[n];
      var v := Attempt(c, before, t.code, t.now, t.written);
      assert After(c, rec, tries) == v.next;
      if v.outcome.OkTotp? {
        assert v.next.usedSteps == Pruned(before.usedSteps + [v.outcome.step], StepAt(t.now));
        PrunedWindowed(before.usedSteps + [v.outcome.step], StepAt(t.now));
        WindowedIsShort(v.next.usedSteps, StepAt(t.now));
      } else {
        assert v.next.usedSteps == before.usedSteps;
        var cur :| Windowed(before.usedSteps, cur);
        assert Windowed(v.next.usedSteps, cur);
      }
    }
  }

  // ---- backup codes are conserved ----

  /** Backup logins and remaining codes add up to the codes issued, and the remaining ones are codes that were
      issued. */
  lemma {:induction false} BackupCodesConserved(c: Crypto, rec: Record, tries: seq<Try>)
    ensures Backups(c, rec, tries) + |After(c, rec, tries).backupCodes| == |rec.backupCodes|
    ensures multiset(After(c, rec, tries).backupCodes) <= multiset(rec.backupCodes)
  {
    if tries != [] {
      var n := |tries| - 1;
      BackupCodesConserved(c, rec, tries[..n]);
      var before := After(c, rec, tries[..n]);
      var v := Attempt(c, before, tries[n].code, tries[n].now, tries[n].written);
      assert After(c, rec, tries) == v.next && OutcomeOf(c, rec, tries, n) == v.outcome;
      assert Backups(c, rec, tries) == Backups(c, rec, tries[..n]) + if v.outcome.OkBackup? then 1 else 0;
      if v.outcome.OkBackup? {
        RemovedOne(before.backupCodes, HashAt(c, before.backupCodes, tries[n].code));
      } else {
        assert v.next.backupCodes == before.backupCodes;
      }
    }
  }

  lemma RemovedOne(hashes: seq<string>, i: nat)
    requires i < |hashes|
    ensures multiset(WithoutAt(hashes, i)) == multiset(hashes) - multiset{hashes[i]}
    ensures |WithoutAt(hashes, i)| == |hashes| - 1
  {
    assert hashes == hashes[..i] + [hashes[i]] + hashes[i + 1..];
  }
}
