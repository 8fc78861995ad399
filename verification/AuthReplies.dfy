/** What the console reads when the program answers authentication blocks: each reply is one line whose words are a
    verdict, the ids of the block, and for a denial the reason. */
module AuthReplies {
  import opened Text
  import opened CommandLine
  import opened IndexTxt
  import opened PendingAuth

  lemma DigitsPlain(s: string)
    requires Digits(s)
    ensures Plain(s) && OneLine(s)
  {}

  lemma AllowReads(cid: string, kid: string)
    requires Digits(cid) && Digits(kid)
    ensures Reads("client-auth-nt " + cid + " " + kid + "\n", ["client-auth-nt", cid, kid])
  {
    DigitsPlain(cid);
    DigitsPlain(kid);
    assert "client-auth-nt " == "client-auth-nt" + [' '];
    ThreeWords("client-auth-nt", cid, kid);
  }

  lemma DenyReads(cid: string, kid: string, reason: string)
    requires Digits(cid) && Digits(kid) && '"' !in reason && OneLine(reason)
    ensures Reads("client-deny " + cid + " " + kid + " \"" + reason + "\"\n", ["client-deny", cid, kid, reason])
  {
    DigitsPlain(cid);
    DigitsPlain(kid);
    assert "client-deny " == "client-deny" + [' '];
    ThreeWordsAndQuoted("client-deny", cid, kid, reason);
  }

  // ---- the replies ----

  lemma {:induction false} SanitizeKeeps(s: string)
    requires '"' !in s && OneLine(s)
    ensures Sanitize(s) == s
  {
    if s != "" {
      assert s[0] in s;
      SanitizeKeeps(s[1..]);
    }
  }

  lemma NamesAreClean(cn: string)
    requires ValidExistingUsername(cn)
    ensures '"' !in cn && OneLine(cn)
  {
    forall i | 0 <= i < |cn| ensures cn[i] != '"' && cn[i] != '\n' && cn[i] != '\r' { assert NameChar(cn[i]); }
  }

  lemma CleanAround(a: string, s: string, b: string)
    requires '"' !in a && OneLine(a) && '"' !in s && OneLine(s) && '"' !in b && OneLine(b)
    ensures '"' !in a + s + b && OneLine(a + s + b)
  {}

  predicate FixedReason(reason: string) {
    reason == "" || reason == "missing common name" || reason == "invalid common name format"
  }

  lemma FixedReasonIsClean(reason: string)
    requires FixedReason(reason)
    ensures '"' !in reason && OneLine(reason)
  {
    MissingIsClean();
    InvalidIsClean();
  }

  lemma MissingIsClean()
    ensures '"' !in "missing common name" && OneLine("missing common name")
  {}

  lemma InvalidIsClean()
    ensures '"' !in "invalid common name format" && OneLine("invalid common name format")
  {}

  /** The reasons that name the client. */
  predicate NamingReason(cn: string, reason: string) {
    reason == "user " + cn + " not found in store" || reason == "user " + cn + " is revoked or expired"
  }

  lemma NamingReasonIsClean(cn: string, reason: string)
    requires '"' !in cn && OneLine(cn) && NamingReason(cn, reason)
    ensures '"' !in reason && OneLine(reason)
  {
    UnknownIsClean();
    RevokedIsClean();
    if reason == "user " + cn + " not found in store" {
      CleanAround("user ", cn, " not found in store");
    } else {
      CleanAround("user ", cn, " is revoked or expired");
    }
  }

  lemma UnknownIsClean()
    ensures '"' !in "user " && OneLine("user ") && '"' !in " not found in store" && OneLine(" not found in store")
  {}

  lemma RevokedIsClean()
    ensures '"' !in " is revoked or expired" && OneLine(" is revoked or expired")
  {}

  lemma ReasonForms(commonName: string, es: seq<IndexEntry>) returns (cn: string)
    ensures var reason := DenialReason(commonName, es);
            FixedReason(reason) || (ValidExistingUsername(cn) && NamingReason(cn, reason))
  {
    cn := Trim(commonName);
  }

  /** A valid name holds no character that the reply would have to replace. */
  lemma DenialReasonIsClean(reason: string, commonName: string, es: seq<IndexEntry>)
    requires reason == DenialReason(commonName, es)
    ensures '"' !in reason && OneLine(reason)
  {
    var cn := ReasonForms(commonName, es);
    if FixedReason(reason) {
      FixedReasonIsClean(reason);
    } else {
      NamesAreClean(cn);
      NamingReasonIsClean(cn, reason);
    }
  }

  /** The reply to a block carries its ids; it allows the block exactly when its common name is authorised and gives the
      reason otherwise. */
  lemma AnswerReads(p: Pending, commonName: string, es: seq<IndexEntry>)
    requires Digits(p.cid) && Digits(p.kid)
    ensures Reads(AnswerText(p, DenialReason(commonName, es)),
                  if Authorised(commonName, es) then ["client-auth-nt", p.cid, p.kid]
                  else ["client-deny", p.cid, p.kid, DenialReason(commonName, es)])
  {
    var reason := DenialReason(commonName, es);
    DenialReasonIsClean(reason, commonName, es);
    SanitizeKeeps(reason);
    if Authorised(commonName, es) { AllowReads(p.cid, p.kid); } else { DenyReads(p.cid, p.kid, reason); }
  }

  lemma OverloadTextSplits(head: string)
    ensures head + " \"server overloaded\"\n" == head + " \"" + "server overloaded" + "\"\n"
  {
    assert " \"server overloaded\"\n" == " \"" + ("server overloaded" + "\"\n");
  }

  lemma OverloadReads(cid: string, kid: string)
    requires Digits(cid) && Digits(kid)
    ensures Reads(OverloadText(cid, kid), ["client-deny", cid, kid, "server overloaded"])
  {
    assert '"' !in "server overloaded" && OneLine("server overloaded");
    DenyReads(cid, kid, "server overloaded");
    OverloadTextSplits("client-deny " + cid + " " + kid);
  }

  // ---- every stream ----

  /** The text tells the console the recorded answer. */
  ghost predicate Tells(text: string, a: Answer) {
    match a
    case Answer(_, cid, kid, allowed) =>
      if allowed then Reads(text, ["client-auth-nt", cid, kid])
      else exists reason :: reason != "" && Reads(text, ["client-deny", cid, kid, reason])
    case Overloaded(cid, kid) => Reads(text, ["client-deny", cid, kid, "server overloaded"])
  }

  ghost predicate DigitIds(t: Table) {
    forall i :: 0 <= i < |t.blocks| ==> Digits(t.blocks[i].cid) && Digits(t.blocks[i].kid)
  }

  lemma WithoutKeepsDigits(t: Table, cid: string)
    requires DigitIds(t)
    ensures DigitIds(t.(blocks := Without(t.blocks, cid)))
  {
    var after := Without(t.blocks, cid);
    forall i | 0 <= i < |after| ensures after[i] in t.blocks {}
  }

  /** One line: at most one reply, which tells the one answer that is recorded. */
  lemma LineTells(t: Table, line: string, es: seq<IndexEntry>)
    requires DigitIds(t)
    ensures DigitIds(OnLine(t, line, es)) && t.answers <= OnLine(t, line, es).answers
    ensures |Replies(t, line, es)| == |OnLine(t, line, es).answers| - |t.answers| <= 1
    ensures Replies(t, line, es) != [] ==> Tells(Replies(t, line, es)[0], OnLine(t, line, es).answers[|t.answers|])
  {
    match Classify(line)
    case Started(cid, kid) =>
      WithoutKeepsDigits(t, cid);
      OverloadReads(cid, kid);
    case Disconnected(cid) => WithoutKeepsDigits(t, cid);
    case Env(body) => if t.blocks != [] { EnvTells(t, body, es); }
    case Ignored =>
  }

  lemma EnvTells(t: Table, body: string, es: seq<IndexEntry>)
    requires DigitIds(t) && t.blocks != []
    ensures DigitIds(OnEnv(t, body, es)) && t.answers <= OnEnv(t, body, es).answers
    ensures body != "END" ==> OnEnv(t, body, es).answers == t.answers
    ensures body == "END" ==> |OnEnv(t, body, es).answers| == |t.answers| + 1 && |EndReplies(t.blocks, es)| == 1
                              && Tells(EndReplies(t.blocks, es)[0], OnEnv(t, body, es).answers[|t.answers|])
  {
    if body == "END" {
      var cur := t.blocks[|t.blocks| - 1];
      AnswerReads(cur, CommonName(cur.env), es);
      WithoutKeepsDigits(t, cur.cid);
    }
  }

  /** All replies to a stream. */
  function Spoken(t: Table, events: seq<Event>): seq<string>
    decreases |events|
  {
    if events == [] then []
    else Replies(t, events[0].line, events[0].index) +
         Spoken(OnLine(t, events[0].line, events[0].index), events[1..])
  }

  ghost predicate TellEach(texts: seq<string>, answers: seq<Answer>) {
    |texts| == |answers| && forall i :: 0 <= i < |texts| ==> Tells(texts[i], answers[i])
  }

  /** Over any stream of lines the replies tell the recorded answers, one by one and in order. */
  lemma {:induction false} RepliesTellAnswers(t: Table, events: seq<Event>)
    requires DigitIds(t)
    ensures t.answers <= Feed(t, events).answers
    ensures TellEach(Spoken(t, events), Feed(t, events).answers[|t.answers|..])
    decreases |events|
  {
    if events != [] {
      var u := OnLine(t, events[0].line, events[0].index);
      LineTells(t, events[0].line, events[0].index);
      RepliesTellAnswers(u, events[1..]);
      TellMore(Replies(t, events[0].line, events[0].index), t.answers, u.answers, Spoken(u, events[1..]),
               Feed(u, events[1..]).answers);
    }
  }

  lemma TellMore(texts: seq<string>, a: seq<Answer>, b: seq<Answer>, more: seq<string>, c: seq<Answer>)
    requires a <= b <= c && TellEach(texts, b[|a|..]) && TellEach(more, c[|b|..])
    ensures a <= c && TellEach(texts + more, c[|a|..])
  {
    assert c[|a|..] == b[|a|..] + c[|b|..];
  }

  /** Blocks that do not overlap and stay within the caps get one reply each, in order, which allows the block exactly
      when its common name is authorised at that moment. */
  lemma BlocksToldInOrder(t: Table, bs: seq<Block>)
    requires t.blocks == [] && forall i :: 0 <= i < |bs| ==> WithinCaps(bs[i])
    ensures TellEach(Spoken(t, Stream(bs)), Expected(bs, |t.starts|))
  {
    BlocksAnsweredInOrder(t, bs);
    RepliesTellAnswers(t, Stream(bs));
    assert Feed(t, Stream(bs)).answers[|t.answers|..] == Expected(bs, |t.starts|);
  }

  // ---- whose name decides ----

  lemma {:induction false} FullEnvConcat(env: map<string, string>, xs: seq<string>, ys: seq<string>)
    ensures FullEnv(env, xs + ys) == FullEnv(FullEnv(env, xs), ys)
    decreases |xs|
  {
    if xs == [] {
      assert xs + ys == ys;
    } else {
      assert (xs + ys)[0] == xs[0] && (xs + ys)[1..] == xs[1..] + ys;
      var i := IndexOf(xs[0], '=');
      FullEnvConcat(if i < |xs[0]| then env[xs[0][..i] := xs[0][i + 1..]] else env, xs[1..], ys);
    }
  }

  ghost predicate NamesNobody(bodies: seq<string>) {
    forall i :: 0 <= i < |bodies| ==> !HasPrefix(bodies[i], "common_name=")
  }

  lemma {:induction false} LaterBodiesKeepName(env: map<string, string>, bodies: seq<string>, cn: string)
    requires "common_name" in env && env["common_name"] == cn && NamesNobody(bodies)
    ensures CommonName(FullEnv(env, bodies)) == cn
    decreases |bodies|
  {
    if bodies != [] {
      var i := IndexOf(bodies[0], '=');
      if i < |bodies[0]| && bodies[0][..i] == "common_name" {
        assert false;
      }
      LaterBodiesKeepName(if i < |bodies[0]| then env[bodies[0][..i] := bodies[0][i + 1..]] else env, bodies[1..], cn);
    }
  }

  /** The last common_name line of a block names the client. */
  lemma LastNameCounts(before: seq<string>, cn: string, after: seq<string>)
    requires NamesNobody(after)
    ensures CommonName(FullEnv(map[], before + (["common_name=" + cn] + after))) == cn
  {
    var line := "common_name=" + cn;
    assert line == "common_name" + ['='] + cn;
    IndexOfFirst("common_name", '=', cn);
    assert line[..11] == "common_name" && line[12..] == cn;
    var env := FullEnv(map[], before);
    FullEnvConcat(map[], before, [line] + after);
    assert ([line] + after)[0] == line && ([line] + after)[1..] == after;
    LaterBodiesKeepName(env["common_name" := cn], after, cn);
  }

  lemma {:induction false} NobodyNamed(env: map<string, string>, bodies: seq<string>)
    requires "common_name" !in env && NamesNobody(bodies)
    ensures "common_name" !in FullEnv(env, bodies)
    decreases |bodies|
  {
    if bodies != [] {
      var i := IndexOf(bodies[0], '=');
      if i < |bodies[0]| && bodies[0][..i] == "common_name" { assert false; }
      NobodyNamed(if i < |bodies[0]| then env[bodies[0][..i] := bodies[0][i + 1..]] else env, bodies[1..]);
    }
  }

  /** A block without a common_name line is denied for that reason. */
  lemma NamelessIsDenied(bodies: seq<string>, es: seq<IndexEntry>)
    requires NamesNobody(bodies)
    ensures DenialReason(CommonName(FullEnv(map[], bodies)), es) == "missing common name"
  {
    NobodyNamed(map[], bodies);
  }

  /** A block within the caps gets one reply, which carries its ids and the verdict on the name in its last common_name
      line. */
  lemma BlockIsTold(t: Table, b: Block, before: seq<string>, cn: string, after: seq<string>)
    requires t.blocks == [] && b.Auth? && WithinCaps(b)
    requires b.bodies == before + (["common_name=" + cn] + after) && NamesNobody(after)
    ensures |Spoken(t, EventsOf(b))| == 1
    ensures if Authorised(cn, b.index) then Reads(Spoken(t, EventsOf(b))[0], ["client-auth-nt", b.cid, b.kid])
            else exists reason :: reason != "" &&
                   Reads(Spoken(t, EventsOf(b))[0], ["client-deny", b.cid, b.kid, reason])
  {
    LastNameCounts(before, cn, after);
    FeedBlock(t, b);
    RepliesTellAnswers(t, EventsOf(b));
    var told := Feed(t, EventsOf(b)).answers[|t.answers|..];
    assert told == AnswerTo(b, |t.starts|);
    assert Tells(Spoken(t, EventsOf(b))[0], told[0]);
  }

  // ---- the loop over the lines of a connection ----

  lemma {:induction false} SpokenConcat(t: Table, xs: seq<Event>, ys: seq<Event>)
    ensures Spoken(t, xs + ys) == Spoken(t, xs) + Spoken(Feed(t, xs), ys)
    decreases |xs|
  {
    if xs == [] {
      assert xs + ys == ys;
    } else {
      var first, u := Replies(t, xs[0].line, xs[0].index), OnLine(t, xs[0].line, xs[0].index);
      assert (xs + ys)[0] == xs[0] && (xs + ys)[1..] == xs[1..] + ys;
      SpokenConcat(u, xs[1..], ys);
      assert first + (Spoken(u, xs[1..]) + Spoken(Feed(u, xs[1..]), ys)) ==
             (first + Spoken(u, xs[1..])) + Spoken(Feed(u, xs[1..]), ys);
    }
  }

  /** The lines with what the index file says when each is handled. */
  function EventsFor(lines: seq<string>, indexes: seq<string>): seq<Event>
    requires |indexes| == |lines|
  {
    seq(|lines|, i requires 0 <= i < |lines| => Event(lines[i], Parse(indexes[i])))
  }

  lemma OneMoreEvent(t: Table, lines: seq<string>, indexes: seq<string>, i: nat)
    requires |indexes| == |lines| && i < |lines|
    ensures var done := EventsFor(lines[..i], indexes[..i]);
            var more := EventsFor(lines[..i + 1], indexes[..i + 1]);
            && Feed(t, more) == OnLine(Feed(t, done), lines[i], Parse(indexes[i]))
            && Spoken(t, more) == Spoken(t, done) + Replies(Feed(t, done), lines[i], Parse(indexes[i]))
  {
    var done, e := EventsFor(lines[..i], indexes[..i]), Event(lines[i], Parse(indexes[i]));
    assert EventsFor(lines[..i + 1], indexes[..i + 1]) == done + [e];
    FeedConcat(t, done, [e]);
    SpokenConcat(t, done, [e]);
    assert [e][1..] == [];
    var reply := Replies(Feed(t, done), lines[i], Parse(indexes[i]));
    assert reply + [] == reply;
  }

  /** The table and the written lines after the first i lines, if no write failed. */
  ghost predicate HandledUpTo(t: Table, said: seq<string>, lines: seq<string>, indexes: seq<string>, i: nat, u: Table,
                              written: seq<string>)
    requires i <= |lines| == |indexes|
  {
    && u == Feed(t, EventsFor(lines[..i], indexes[..i]))
    && written == said + Spoken(t, EventsFor(lines[..i], indexes[..i]))
  }

  lemma HandledNext(t: Table, said: seq<string>, lines: seq<string>, indexes: seq<string>, i: nat, u: Table,
                    written: seq<string>)
    requires i < |lines| == |indexes| && HandledUpTo(t, said, lines, indexes, i, u, written)
    ensures HandledUpTo(t, said, lines, indexes, i + 1, OnLine(u, lines[i], Parse(indexes[i])),
                        written + Replies(u, lines[i], Parse(indexes[i])))
  {
    OneMoreEvent(t, lines, indexes, i);
    var before, reply := Spoken(t, EventsFor(lines[..i], indexes[..i])), Replies(u, lines[i], Parse(indexes[i]));
    assert (said + before) + reply == said + (before + reply);
  }

  /** One connection: lines are handled until a reply cannot be written. While every write succeeds the console receives
      just the replies to the lines. */
  method HandleLines(loop: AuthLoop, lines: seq<string>, indexes: seq<string>) returns (ok: bool)
    requires loop.Valid() && |indexes| == |lines|
    modifies loop
    ensures loop.Valid() && loop.lost >= old(loop.lost)
    ensures loop.lost == old(loop.lost) ==>
              && ok && loop.View() == Feed(old(loop.View()), EventsFor(lines, indexes))
              && loop.written == old(loop.written) + Spoken(old(loop.View()), EventsFor(lines, indexes))
  {
    ghost var t, said := loop.View(), loop.written;
    assert said + [] == said;
    for i := 0 to |lines|
      invariant loop.Valid() && loop.lost >= old(loop.lost)
      invariant loop.lost == old(loop.lost) ==> HandledUpTo(t, said, lines, indexes, i, loop.View(), loop.written)
    {
      if loop.lost == old(loop.lost) { HandledNext(t, said, lines, indexes, i, loop.View(), loop.written); }
      ok := loop.OnAsync(lines[i], indexes[i]);
      if !ok { return; }
    }
    assert lines[..|lines|] == lines && indexes[..|indexes|] == indexes;
    return true;
  }

  // ---- blocks that are started ----

  lemma {:induction false} WithoutRemoves(blocks: seq<Pending>, cid: string, p: Pending)
    requires forall i, j :: 0 <= i < j < |blocks| ==> blocks[i].cid != blocks[j].cid
    ensures p in Without(blocks, cid) <==> p in blocks && p.cid != cid
  {
    var n, after := Position(blocks, cid), Without(blocks, cid);
    if n < |blocks| {
      forall i | 0 <= i < |after| ensures after[i] in blocks && after[i].cid != cid {
        assert after[i] == blocks[if i < n then i else i + 1];
      }
      if p in blocks && p.cid != cid {
        var i :| 0 <= i < |blocks| && blocks[i] == p;
        assert after[if i < n then i else i - 1] == p;
      }
    }
  }

  /** A CONNECT or REAUTH line opens an empty block with its ids, in place of a block of the same client, and leaves the
      others alone; with 256 blocks open it is refused instead. */
  lemma StartLineOpensBlock(t: Table, renewal: bool, cid: string, kid: string, es: seq<IndexEntry>, p: Pending)
    requires Sound(t) && Decimal(cid) && Decimal(kid)
    ensures var line := (if renewal then ">CLIENT:REAUTH," else ">CLIENT:CONNECT,") + (cid + [','] + kid);
            var u := OnLine(t, line, es);
            if |t.blocks| == 256 then u == t.(answers := t.answers + [Overloaded(cid, kid)])
            else
              && u.answers == t.answers && u.starts == t.starts + [Start(cid, kid)]
              && u.blocks != [] && u.blocks[|u.blocks| - 1] == Pending(|t.starts|, cid, kid, map[])
              && (p in u.blocks[..|u.blocks| - 1] <==> p in t.blocks && p.cid != cid)
  {
    DecimalIsDigits(cid);
    DecimalIsDigits(kid);
    StartLine(renewal, cid, kid);
    WithoutRemoves(t.blocks, cid, p);
    var w := Without(t.blocks, cid);
    assert (w + [Pending(|t.starts|, cid, kid, map[])])[..|w|] == w;
  }

  // ---- blocks that are dropped ----

  lemma DisconnectLine(cid: string, rest: string)
    requires ',' !in cid
    ensures Classify(">CLIENT:DISCONNECT," + (cid + [','] + rest)) == Disconnected(cid)
  {
    var body := cid + [','] + rest;
    var line := ">CLIENT:DISCONNECT," + body;
    assert line[8] == 'D' && line[19..] == body;
    assert !HasPrefix(line, ">CLIENT:CONNECT,") by { assert ">CLIENT:CONNECT,"[8] == 'C'; }
    assert !HasPrefix(line, ">CLIENT:REAUTH,") by { assert ">CLIENT:REAUTH,"[8] == 'R'; }
    IndexOfFirst(cid, ',', rest);
    assert body[..|cid|] == cid;
  }

  /** The block was started, is not answered and is not open. */
  ghost predicate Closed(t: Table, block: nat) {
    block < |t.starts| && !Answers(t, block) && forall i :: 0 <= i < |t.blocks| ==> t.blocks[i].block != block
  }

  lemma WithoutKeepsClosed(t: Table, cid: string, block: nat)
    requires Closed(t, block)
    ensures Closed(t.(blocks := Without(t.blocks, cid)), block)
  {
    var after := Without(t.blocks, cid);
    forall i | 0 <= i < |after| ensures after[i].block != block { assert after[i] in t.blocks; }
  }

  lemma MoreAnswersKeepClosed(t: Table, a: Answer, block: nat)
    requires Closed(t, block) && (a.Answer? ==> a.block != block)
    ensures Closed(t.(answers := t.answers + [a]), block)
  {
    var u := t.(answers := t.answers + [a]);
    forall i | 0 <= i < |u.answers| && u.answers[i].Answer? ensures u.answers[i].block != block {
      if i < |t.answers| { assert u.answers[i] == t.answers[i]; }
    }
  }

  lemma StartKeepsClosed(t: Table, cid: string, kid: string, block: nat)
    requires Closed(t, block)
    ensures Closed(OnStarted(t, cid, kid), block)
  {
    WithoutKeepsClosed(t, cid, block);
    MoreAnswersKeepClosed(t, Overloaded(cid, kid), block);
  }

  lemma EnvKeepsClosed(t: Table, body: string, es: seq<IndexEntry>, block: nat)
    requires Closed(t, block) && t.blocks != []
    ensures Closed(OnEnv(t, body, es), block)
  {
    var cur := t.blocks[|t.blocks| - 1];
    if body == "END" {
      WithoutKeepsClosed(t, cur.cid, block);
      MoreAnswersKeepClosed(t.(blocks := Without(t.blocks, cur.cid)),
                            Answer(cur.block, cur.cid, cur.kid, Authorised(CommonName(cur.env), es)), block);
    } else {
      var u := OnEnv(t, body, es);
      forall i | 0 <= i < |u.blocks| ensures u.blocks[i].block == t.blocks[i].block {}
    }
  }

  lemma LineKeepsClosed(t: Table, line: string, es: seq<IndexEntry>, block: nat)
    requires Closed(t, block)
    ensures Closed(OnLine(t, line, es), block)
  {
    match Classify(line)
    case Started(cid, kid) => StartKeepsClosed(t, cid, kid, block);
    case Disconnected(cid) => WithoutKeepsClosed(t, cid, block);
    case Env(body) => if t.blocks != [] { EnvKeepsClosed(t, body, es, block); }
    case Ignored =>
  }

  lemma {:induction false} ClosedStaysClosed(t: Table, events: seq<Event>, block: nat)
    requires Closed(t, block)
    ensures Closed(Feed(t, events), block)
    decreases |events|
  {
    if events != [] {
      LineKeepsClosed(t, events[0].line, events[0].index, block);
      ClosedStaysClosed(OnLine(t, events[0].line, events[0].index), events[1..], block);
    }
  }

  /** A block whose client disconnects before its END is never answered, whatever lines follow. */
  lemma DisconnectedIsNeverAnswered(t: Table, p: Pending, rest: string, es: seq<IndexEntry>, events: seq<Event>)
    requires Sound(t) && p in t.blocks && Decimal(p.cid)
    ensures var line := ">CLIENT:DISCONNECT," + (p.cid + [','] + rest);
            !Answers(Feed(OnLine(t, line, es), events), p.block)
  {
    var u := t.(blocks := Without(t.blocks, p.cid));
    DecimalIsDigits(p.cid);
    DisconnectLine(p.cid, rest);
    WithoutKeepsSound(t, p.cid);
    assert OpenBlock(t, p);
    forall i | 0 <= i < |u.blocks| ensures u.blocks[i].block != p.block {
      assert u.blocks[i] in t.blocks && OpenBlock(t, u.blocks[i]);
    }
    ClosedStaysClosed(u, events, p.block);
  }

  // ---- the caps ----

  /** An environment stays within both caps. */
  ghost predicate Capped(env: map<string, string>) {
    |env| <= 256 && forall k :: k in env ==> |env[k]| < 4096
  }

  ghost predicate AllCapped(t: Table) {
    forall i :: 0 <= i < |t.blocks| ==> Capped(t.blocks[i].env)
  }

  lemma LineKeepsCapped(t: Table, line: string, es: seq<IndexEntry>)
    requires AllCapped(t)
    ensures AllCapped(OnLine(t, line, es))
  {
    var u := OnLine(t, line, es);
    forall i | 0 <= i < |u.blocks| ensures Capped(u.blocks[i].env) {
      match Classify(line)
      case Started(cid, _) => assert u.blocks[i] in t.blocks || u.blocks[i].env == map[];
      case Disconnected(cid) => assert u.blocks[i] in t.blocks;
      case Env(body) => if t.blocks != [] { EnvStaysCapped(t, body, es, u.blocks[i]); }
      case Ignored =>
    }
  }

  lemma EnvStaysCapped(t: Table, body: string, es: seq<IndexEntry>, p: Pending)
    requires AllCapped(t) && t.blocks != [] && p in OnEnv(t, body, es).blocks
    ensures Capped(p.env)
  {
    var cur := t.blocks[|t.blocks| - 1];
    AddKeepsCapped(cur.env, body);
    assert p in t.blocks || p.env == AddEnv(cur.env, body);
  }

  lemma AddKeepsCapped(env: map<string, string>, body: string)
    requires Capped(env)
    ensures Capped(AddEnv(env, body))
  {}

  /** No stream makes the program keep more than 256 entries, or a value of 4096 characters, for one block. */
  lemma {:induction false} StreamKeepsCapped(t: Table, events: seq<Event>)
    requires AllCapped(t)
    ensures AllCapped(Feed(t, events))
    decreases |events|
  {
    if events != [] {
      LineKeepsCapped(t, events[0].line, events[0].index);
      StreamKeepsCapped(OnLine(t, events[0].line, events[0].index), events[1..]);
    }
  }
}
