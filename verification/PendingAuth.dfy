/** The table of authentication blocks that a console connection has started and not answered: a slice of blocks in the
    order they started, and a reverse index from client id to position that removal keeps in step. */
module PendingAuth {
  import opened Text
  import ConsoleOwner
  import opened IndexTxt
  import PkiStore

  const MAX_INFLIGHT := 256
  const MAX_ENV := 256
  const MAX_VALUE := 4096

  // ---- who may connect ----

  predicate NameStart(c: char) { 'a' <= c <= 'z' || 'A' <= c <= 'Z' || '0' <= c <= '9' || c == '_' || c == '@' }

  predicate NameChar(c: char) { NameStart(c) || c == '.' || c == '-' }

  predicate ValidExistingUsername(s: string) {
    && s != "" && s != "." && s != ".." && '/' !in s && '\\' !in s
    && Lower(s) != "server" && Lower(s) != "ca" && Lower(s) != "default"
    && !HasPrefix(s, "REVOKED") && s != "_server_config.json" && s != "_common_routes.json"
    && !HasPrefix(s, "-") && !Occurs(s, "--")
    && NameStart(s[0]) && |s| <= 63 && forall i :: 0 <= i < |s| ==> NameChar(s[i])
  }

  /** The first index entry of the trimmed name decides. */
  predicate Authorised(cn: string, es: seq<IndexEntry>) {
    var name := Trim(cn);
    var i := PkiStore.FirstWith(es, PkiStore.DnOf(name));
    ValidExistingUsername(name) && i < |es| && es[i].flag == "V"
  }

  /** Why a name is denied; empty when it is not. */
  function DenialReason(commonName: string, es: seq<IndexEntry>): (reason: string)
    ensures reason == "" <==> Authorised(commonName, es)
  {
    var cn := Trim(commonName);
    var i := PkiStore.FirstWith(es, PkiStore.DnOf(cn));
    if cn == "" then "missing common name"
    else if !ValidExistingUsername(cn) then "invalid common name format"
    else if i == |es| then "user " + cn + " not found in store"
    else if es[i].flag == "V" then ""
    else "user " + cn + " is revoked or expired"
  }

  method IsUserAuthorized(commonName: string, indexTxt: string) returns (allow: bool, reason: string)
    ensures allow == Authorised(commonName, Parse(indexTxt))
    ensures reason == DenialReason(commonName, Parse(indexTxt))
  {
    var cn := Trim(commonName);
    if cn == "" { return false, "missing common name"; }
    var valid := ValidExistingUsername(cn);
    if !valid { return false, "invalid common name format"; }
    var es := IndexTxtParser(indexTxt);
    var found, flag, _ := PkiStore.StatusOf(es, PkiStore.DnOf(cn));
    if !found { return false, "user " + cn + " not found in store"; }
    if flag == "V" { return true, ""; }
    return false, "user " + cn + " is revoked or expired";
  }

  // ---- lines ----

  datatype Line = Started(cid: string, kid: string) | Disconnected(cid: string) | Env(body: string) | Ignored

  predicate Digits(s: string) { s != "" && forall i :: 0 <= i < |s| ==> '0' <= s[i] <= '9' }

  function StartedFrom(body: string): Line {
    var i := IndexOf(body, ',');
    if i < |body| && Digits(body[..i]) && Digits(body[i + 1..]) then Started(body[..i], body[i + 1..]) else Ignored
  }

  function Classify(line: string): Line {
    if HasPrefix(line, ">CLIENT:CONNECT,") then StartedFrom(line[16..])
    else if HasPrefix(line, ">CLIENT:REAUTH,") then StartedFrom(line[15..])
    else if HasPrefix(line, ">CLIENT:DISCONNECT,") then
      var body := line[19..];
      var i := IndexOf(body, ',');
      if i < |body| then Disconnected(body[..i]) else Ignored
    else if HasPrefix(line, ">CLIENT:ENV,") then Env(line[12..])
    else Ignored
  }

  /** One env line: ignored without '=', when the block already has its fill, or when the value is too long. */
  function AddEnv(env: map<string, string>, body: string): map<string, string> {
    var i := IndexOf(body, '=');
    if i < |body| && |env| < MAX_ENV && |body| - (i + 1) < MAX_VALUE then env[body[..i] := body[i + 1..]] else env
  }

  function CommonName(env: map<string, string>): string {
    if "common_name" in env then env["common_name"] else ""
  }

  // ---- the table as a value ----

  /** `block` numbers the started blocks; it stands for the identity of the block. */
  datatype Pending = Pending(block: nat, cid: string, kid: string, env: map<string, string>)

  datatype Answer = Answer(block: nat, cid: string, kid: string, allowed: bool) | Overloaded(cid: string, kid: string)

  datatype Start = Start(cid: string, kid: string)

  /** `starts` and `answers` record every block started and every answer written. */
  datatype Table = Table(blocks: seq<Pending>, starts: seq<Start>, answers: seq<Answer>)

  const EMPTY := Table([], [], [])

  function Position(blocks: seq<Pending>, cid: string): (n: nat)
    ensures n <= |blocks| && (n < |blocks| ==> blocks[n].cid == cid)
    ensures forall j :: 0 <= j < n ==> blocks[j].cid != cid
  {
    if blocks == [] || blocks[0].cid == cid then 0 else 1 + Position(blocks[1..], cid)
  }

  function Compact(blocks: seq<Pending>, i: nat): seq<Pending>
    requires i < |blocks|
  {
    blocks[..i] + blocks[i + 1..]
  }

  function Without(blocks: seq<Pending>, cid: string): seq<Pending> {
    var i := Position(blocks, cid);
    if i == |blocks| then blocks else Compact(blocks, i)
  }

  function OnStarted(t: Table, cid: string, kid: string): Table {
    if |t.blocks| >= MAX_INFLIGHT then t.(answers := t.answers + [Overloaded(cid, kid)])
    else t.(blocks := Without(t.blocks, cid) + [Pending(|t.starts|, cid, kid, map[])],
        starts := t.starts + [Start(cid, kid)])
  }

  function OnEnd(t: Table, es: seq<IndexEntry>): Table
    requires t.blocks != []
  {
    var cur := t.blocks[|t.blocks| - 1];
    t.(blocks := Without(t.blocks, cur.cid),
       answers := t.answers + [Answer(cur.block, cur.cid, cur.kid, Authorised(CommonName(cur.env), es))])
  }

  lemma EndOutcome(t: Table, es: seq<IndexEntry>, allowed: bool)
    requires t.blocks != [] && allowed == Authorised(CommonName(t.blocks[|t.blocks| - 1].env), es)
    ensures var cur := t.blocks[|t.blocks| - 1];
            OnEnd(t, es) ==
            Table(Without(t.blocks, cur.cid), t.starts, t.answers + [Answer(cur.block, cur.cid, cur.kid, allowed)])
  {}

  /** Env lines belong to the block started last. */
  function OnEnv(t: Table, body: string, es: seq<IndexEntry>): Table
    requires t.blocks != []
  {
    var cur := t.blocks[|t.blocks| - 1];
    if body == "END" then OnEnd(t, es)
    else t.(blocks := t.blocks[|t.blocks| - 1 := cur.(env := AddEnv(cur.env, body))])
  }

  function OnLine(t: Table, line: string, es: seq<IndexEntry>): Table {
    match Classify(line)
    case Started(cid, kid) => OnStarted(t, cid, kid)
    case Disconnected(cid) => t.(blocks := Without(t.blocks, cid))
    case Env(body) => if t.blocks == [] then t else OnEnv(t, body, es)
    case Ignored => t
  }

  // ---- the reply text ----

  function SafeChar(c: char): char {
    if c == '"' then '\'' else if c == '\n' || c == '\r' then ' ' else c
  }

  /** The reason goes inside quotes on one line. */
  function Sanitize(s: string): (r: string)
    ensures |r| == |s| && forall i :: 0 <= i < |r| ==> r[i] == SafeChar(s[i])
  {
    if s == "" then "" else [SafeChar(s[0])] + Sanitize(s[1..])
  }

  /** The reply to a block; an empty reason allows it. */
  function AnswerText(p: Pending, reason: string): string {
    if reason == "" then "client-auth-nt " + p.cid + " " + p.kid + "\n"
    else "client-deny " + p.cid + " " + p.kid + " \"" + Sanitize(reason) + "\"\n"
  }

  function OverloadText(cid: string, kid: string): string {
    "client-deny " + cid + " " + kid + " \"server overloaded\"\n"
  }

  /** What one line makes the program write. */
  function Replies(t: Table, line: string, es: seq<IndexEntry>): seq<string> {
    match Classify(line)
    case Started(cid, kid) => if |t.blocks| >= MAX_INFLIGHT then [OverloadText(cid, kid)] else []
    case Env(body) => if body == "END" then EndReplies(t.blocks, es) else []
    case _ => []
  }

  /** The end of a block answers the block started last. */
  function EndReplies(blocks: seq<Pending>, es: seq<IndexEntry>): seq<string> {
    if blocks == [] then []
    else
      var cur := blocks[|blocks| - 1];
      [AnswerText(cur, DenialReason(CommonName(cur.env), es))]
  }

  /** Only a notification makes the program write, and one line at most: the replies are what the owner of the console
      writes beside its callers' commands. */
  lemma RepliesToNotifications(t: Table, line: string, es: seq<IndexEntry>)
    ensures |Replies(t, line, es)| <= 1 && (Replies(t, line, es) != [] ==> ConsoleOwner.IsAsync(line))
  {
    assert ">CLIENT:CONNECT,"[0] == '>' && ">CLIENT:REAUTH,"[0] == '>' && ">CLIENT:ENV,"[0] == '>' && ">"[0] == '>';
  }

  lemma SanitizedStaysQuoted(s: string)
    ensures '"' !in Sanitize(s) && '\n' !in Sanitize(s) && '\r' !in Sanitize(s)
  {
    forall i | 0 <= i < |s| ensures Sanitize(s)[i] != '"' && Sanitize(s)[i] != '\n' && Sanitize(s)[i] != '\r' {
      assert Sanitize(s)[i] == SafeChar(s[i]);
    }
  }

  // ---- the table in place ----

  /** The reverse index is exactly the inverse of the slice. */
  ghost predicate IndexIs(blocks: seq<Pending>, index: map<string, nat>) {
    && (forall j :: 0 <= j < |blocks| ==> blocks[j].cid in index && index[blocks[j].cid] == j)
    && (forall c :: c in index ==> index[c] < |blocks| && blocks[index[c]].cid == c)
  }

  lemma PositionIndexed(blocks: seq<Pending>, index: map<string, nat>, cid: string)
    requires IndexIs(blocks, index)
    ensures Position(blocks, cid) == if cid in index then index[cid] else |blocks|
  {}

  ghost predicate Distinct(blocks: seq<Pending>, i: nat)
    requires i < |blocks|
  {
    forall j :: 0 <= j < i ==> blocks[j].cid != blocks[i].cid
  }

  lemma DistinctIds(blocks: seq<Pending>, index: map<string, nat>, idx: nat, after: seq<Pending>, i: nat)
    requires IndexIs(blocks, index) && idx < |blocks| && after == Compact(blocks, idx) && i < |after|
    ensures after[i].cid in index && after[i].cid != blocks[idx].cid
    ensures Distinct(after, i)
  {
    forall j | 0 <= j <= i ensures after[j] == blocks[if j < idx then j else j + 1] {}
  }

  /** Every entry is indexed, ids are distinct, and the entries before position n have their own number. */
  ghost predicate Numbered(blocks: seq<Pending>, index: map<string, nat>, n: nat) {
    && (forall i :: 0 <= i < |blocks| ==> blocks[i].cid in index && Distinct(blocks, i))
    && (forall j :: 0 <= j < n && j < |blocks| ==> index[blocks[j].cid] == j)
  }

  lemma ReadyToRenumber(blocks: seq<Pending>, index: map<string, nat>, idx: nat)
    requires IndexIs(blocks, index) && idx < |blocks|
    ensures Numbered(Compact(blocks, idx), index - {blocks[idx].cid}, idx)
    ensures (index - {blocks[idx].cid}).Keys == index.Keys - {blocks[idx].cid}
  {
    var after := Compact(blocks, idx);
    forall i | 0 <= i < |after| ensures after[i].cid in index - {blocks[idx].cid} && Distinct(after, i) {
      DistinctIds(blocks, index, idx, after, i);
    }
  }

  lemma RenumberNext(blocks: seq<Pending>, index: map<string, nat>, i: nat)
    requires Numbered(blocks, index, i) && i < |blocks|
    ensures Numbered(blocks, index[blocks[i].cid := i], i + 1) && index[blocks[i].cid := i].Keys == index.Keys
  {
    assert Distinct(blocks, i);
  }

  /** Removal and renumbering keep the index the inverse of the slice. */
  lemma CompactedIndex(blocks: seq<Pending>, index: map<string, nat>, idx: nat, after: seq<Pending>,
                       renumbered: map<string, nat>)
    requires IndexIs(blocks, index) && idx < |blocks| && after == Compact(blocks, idx)
    requires renumbered.Keys == index.Keys - {blocks[idx].cid} && Numbered(after, renumbered, |after|)
    ensures IndexIs(after, renumbered)
  {
    forall c | c in renumbered ensures renumbered[c] < |after| && after[renumbered[c]].cid == c {
      var j := index[c];
      assert after[if j < idx then j else j - 1].cid == c;
    }
  }

  lemma RemovedIsAbsent(blocks: seq<Pending>, index: map<string, nat>, cid: string, after: seq<Pending>,
                        renumbered: map<string, nat>)
    requires IndexIs(blocks, index) && IndexIs(after, renumbered) && after == Without(blocks, cid)
    ensures cid !in renumbered && |after| <= |blocks|
  {
    PositionIndexed(blocks, index, cid);
    if cid in index {
      var idx := index[cid];
      forall i | 0 <= i < |after| ensures after[i].cid != cid {
        assert after[i] == blocks[if i < idx then i else i + 1];
      }
    }
  }

  lemma AppendIndexed(blocks: seq<Pending>, index: map<string, nat>, p: Pending)
    requires IndexIs(blocks, index) && p.cid !in index
    ensures IndexIs(blocks + [p], index[p.cid := |blocks|])
  {}

  class AuthLoop {
    var inflight: seq<Pending>
    var indexByCID: map<string, nat>
    var started: nat
    /** Lines written to the console. */
    var written: seq<string>
    ghost var starts: seq<Start>
    ghost var answers: seq<Answer>
    /** How many writes failed. */
    ghost var lost: nat

    ghost function View(): Table
      reads this
    {
      Table(inflight, starts, answers)
    }

    ghost predicate Valid()
      reads this
    {
      IndexIs(inflight, indexByCID) && |inflight| <= MAX_INFLIGHT && started == |starts|
    }

    constructor ()
      ensures Valid() && View() == EMPTY
    {
      inflight, indexByCID, started, written, starts, answers, lost := [], map[], 0, [], [], [], 0;
    }

    method RemoveInflight(cid: string)
      requires Valid()
      modifies this`inflight, this`indexByCID
      ensures Valid() && inflight == Without(old(inflight), cid)
    {
      PositionIndexed(inflight, indexByCID, cid);
      if cid !in indexByCID { return; }
      RemoveAt(indexByCID[cid]);
    }

    /** Compacts the slice at a position and renumbers what shifted. */
    method RemoveAt(idx: nat)
      requires IndexIs(inflight, indexByCID) && idx < |inflight|
      modifies this`inflight, this`indexByCID
      ensures IndexIs(inflight, indexByCID) && inflight == Compact(old(inflight), idx)
    {
      ghost var blocks, index := inflight, indexByCID;
      ReadyToRenumber(blocks, index, idx);
      indexByCID := indexByCID - {inflight[idx].cid};
      inflight := inflight[..idx] + inflight[idx + 1..];
      Reindex(idx);
      CompactedIndex(blocks, index, idx, inflight, indexByCID);
    }

    /** Renumbers the shifted entries. */
    method Reindex(idx: nat)
      requires idx <= |inflight| && Numbered(inflight, indexByCID, idx)
      modifies this`indexByCID
      ensures indexByCID.Keys == old(indexByCID).Keys && Numbered(inflight, indexByCID, |inflight|)
    {
      for i := idx to |inflight|
        invariant indexByCID.Keys == old(indexByCID).Keys && Numbered(inflight, indexByCID, i)
      {
        RenumberNext(inflight, indexByCID, i);
        indexByCID := indexByCID[inflight[i].cid := i];
      }
    }

    /** A write to the console; a failed one ends the connection. */
    method Write(text: string) returns (ok: bool)
      modifies this`written, this`lost
      ensures written == if ok then old(written) + [text] else old(written)
      ensures lost == old(lost) + if ok then 0 else 1
    {
      ok := *;
      if ok { written := written + [text]; } else { lost := lost + 1; }
    }

    method Begin(cid: string, kid: string)
      requires Valid()
      modifies this
      ensures Valid() && View() == OnStarted(old(View()), cid, kid)
      ensures lost >= old(lost)
      ensures |old(inflight)| < MAX_INFLIGHT ==> written == old(written)
      ensures |old(inflight)| >= MAX_INFLIGHT ==>
                written == if lost == old(lost) then old(written) + [OverloadText(cid, kid)] else old(written)
    {
      if |inflight| >= MAX_INFLIGHT {
        var _ := Write(OverloadText(cid, kid));
        answers := answers + [Overloaded(cid, kid)];
        return;
      }
      ghost var blocks, index := inflight, indexByCID;
      RemoveInflight(cid);
      RemovedIsAbsent(blocks, index, cid, inflight, indexByCID);
      AppendIndexed(inflight, indexByCID, Pending(started, cid, kid, map[]));
      indexByCID := indexByCID[cid := |inflight|];
      inflight := inflight + [Pending(started, cid, kid, map[])];
      started, starts := started + 1, starts + [Start(cid, kid)];
    }

    method Reply(cur: Pending, indexTxt: string) returns (ok: bool, allowed: bool)
      modifies this`written, this`lost
      ensures lost == old(lost) + if ok then 0 else 1
      ensures allowed == Authorised(CommonName(cur.env), Parse(indexTxt))
      ensures written == old(written) +
          if ok then [AnswerText(cur, DenialReason(CommonName(cur.env), Parse(indexTxt)))] else []
    {
      var reason;
      allowed, reason := IsUserAuthorized(CommonName(cur.env), indexTxt);
      ok := Write(AnswerText(cur, reason));
    }

    method Finish(indexTxt: string) returns (ok: bool)
      requires Valid() && inflight != []
      modifies this
      ensures lost == old(lost) + if ok then 0 else 1
      ensures Valid() && View() == if ok then OnEnd(old(View()), Parse(indexTxt)) else old(View())
      ensures written == old(written) + if ok then EndReplies(old(inflight), Parse(indexTxt)) else []
    {
      var cur := inflight[|inflight| - 1];
      var allowed;
      ghost var t := View();
      ok, allowed := Reply(cur, indexTxt);
      if !ok { return; }
      EndOutcome(t, Parse(indexTxt), allowed);
      answers := answers + [Answer(cur.block, cur.cid, cur.kid, allowed)];
      RemoveInflight(cur.cid);
    }

    method EnvLine(body: string, indexTxt: string) returns (ok: bool)
      requires Valid()
      modifies this
      ensures Valid() && View() ==
          if ok && old(inflight) != [] then OnEnv(old(View()), body, Parse(indexTxt)) else old(View())
      ensures lost == old(lost) + if ok then 0 else 1
      ensures !ok ==> body == "END" && old(inflight) != []
      ensures written == old(written) + if ok && body == "END" then EndReplies(old(inflight), Parse(indexTxt)) else []
    {
      ok := true;
      if |inflight| == 0 { return; }
      if body == "END" {
        ok := Finish(indexTxt);
        return;
      }
      var last := |inflight| - 1;
      inflight := inflight[last := inflight[last].(env := AddEnv(inflight[last].env, body))];
    }

    /** The rest of a CONNECT or REAUTH line. */
    method StartLine(body: string)
      requires Valid()
      modifies this
      ensures Valid() && lost >= old(lost)
      ensures match StartedFrom(body)
              case Started(cid, kid) =>
                && View() == OnStarted(old(View()), cid, kid)
                && (|old(inflight)| < MAX_INFLIGHT ==> written == old(written))
                && (|old(inflight)| >= MAX_INFLIGHT ==>
                      written == if lost == old(lost) then old(written) + [OverloadText(cid, kid)] else old(written))
              case _ => View() == old(View()) && written == old(written)
    {
      var i := IndexOf(body, ',');
      if i == |body| { return; }
      var cid, kid := body[..i], body[i + 1..];
      if !Digits(cid) || !Digits(kid) { return; }
      Begin(cid, kid);
    }

    /** One notification line. A failed write ends the connection, except that a lost overload reply is ignored. */
    method OnAsync(line: string, indexTxt: string) returns (ok: bool)
      requires Valid()
      modifies this
      ensures Valid() && View() == if ok then OnLine(old(View()), line, Parse(indexTxt)) else old(View())
      ensures !ok ==> Classify(line) == Env("END") && old(inflight) != [] && written == old(written)
      ensures lost >= old(lost) && (!ok ==> lost > old(lost))
      ensures written ==
              old(written) + if lost == old(lost) then Replies(old(View()), line, Parse(indexTxt)) else []
    {
      ok := true;
      if HasPrefix(line, ">CLIENT:CONNECT,") || HasPrefix(line, ">CLIENT:REAUTH,") {
        StartLine(if HasPrefix(line, ">CLIENT:CONNECT,") then line[16..] else line[15..]);
      } else if HasPrefix(line, ">CLIENT:DISCONNECT,") {
        var body := line[19..];
        var i := IndexOf(body, ',');
        if i < |body| { RemoveInflight(body[..i]); }
      } else if HasPrefix(line, ">CLIENT:ENV,") {
        var body := line[12..];
        ok := EnvLine(body, indexTxt);
      }
    }
  }

  // ---- every stream ----

  /** A line with the index file as it is when the line is handled. */
  datatype Event = Event(line: string, index: seq<IndexEntry>)

  function Feed(t: Table, events: seq<Event>): Table
    decreases |events|
  {
    if events == [] then t else Feed(OnLine(t, events[0].line, events[0].index), events[1..])
  }

  predicate Answers(t: Table, block: nat) {
    exists i :: 0 <= i < |t.answers| && t.answers[i].Answer? && t.answers[i].block == block
  }

  /** Distinct client ids within the bound; every open block is its own start and unanswered; every answer carries its
      block's own ids; no block is answered twice. */
  ghost predicate Sound(t: Table) {
    && |t.blocks| <= 256
    && (forall i, j :: 0 <= i < j < |t.blocks| ==>
         t.blocks[i].cid != t.blocks[j].cid && t.blocks[i].block < t.blocks[j].block)
    && (forall i :: 0 <= i < |t.blocks| ==> OpenBlock(t, t.blocks[i]))
    && (forall i :: 0 <= i < |t.answers| && t.answers[i].Answer? ==> OwnAnswer(t, t.answers[i]))
    && (forall i, j :: 0 <= i < j < |t.answers| && t.answers[i].Answer? && t.answers[j].Answer? ==>
          t.answers[i].block != t.answers[j].block)
  }

  ghost predicate OpenBlock(t: Table, p: Pending) {
    p.block < |t.starts| && t.starts[p.block] == Start(p.cid, p.kid) && !Answers(t, p.block)
  }

  ghost predicate OwnAnswer(t: Table, a: Answer)
    requires a.Answer?
  {
    a.block < |t.starts| && t.starts[a.block] == Start(a.cid, a.kid)
  }

  lemma WithoutKeepsSound(t: Table, cid: string)
    requires Sound(t)
    ensures Sound(t.(blocks := Without(t.blocks, cid)))
    ensures forall i :: 0 <= i < |Without(t.blocks, cid)| ==> Without(t.blocks, cid)[i].cid != cid
    ensures |Without(t.blocks, cid)| <= |t.blocks|
  {
    var u := t.(blocks := Without(t.blocks, cid));
    forall i | 0 <= i < |u.blocks| ensures OpenBlock(u, u.blocks[i]) && u.blocks[i].cid != cid {
      assert u.blocks[i] in t.blocks;
    }
  }

  lemma AnsweredAreStarted(t: Table)
    requires Sound(t)
    ensures !Answers(t, |t.starts|)
  {
    forall i | 0 <= i < |t.answers| && t.answers[i].Answer? ensures t.answers[i].block < |t.starts| {
      assert OwnAnswer(t, t.answers[i]);
    }
  }

  lemma BeginKeepsSound(w: Table, p: Pending)
    requires Sound(w) && |w.blocks| < MAX_INFLIGHT && p.block == |w.starts|
    requires forall i :: 0 <= i < |w.blocks| ==> w.blocks[i].cid != p.cid
    ensures Sound(Table(w.blocks + [p], w.starts + [Start(p.cid, p.kid)], w.answers))
  {
    var u := Table(w.blocks + [p], w.starts + [Start(p.cid, p.kid)], w.answers);
    AnsweredAreStarted(w);
    forall b: nat | Answers(u, b) ensures Answers(w, b) {}
    forall i | 0 <= i < |w.blocks| ensures OpenBlock(u, w.blocks[i]) { assert OpenBlock(w, w.blocks[i]); }
    assert OpenBlock(u, p);
    forall i | 0 <= i < |u.answers| && u.answers[i].Answer? ensures OwnAnswer(u, u.answers[i]) {
      assert OwnAnswer(w, w.answers[i]);
    }
  }

  lemma OverloadKeepsSound(t: Table, cid: string, kid: string)
    requires Sound(t)
    ensures Sound(t.(answers := t.answers + [Overloaded(cid, kid)]))
  {
    var u := t.(answers := t.answers + [Overloaded(cid, kid)]);
    forall b: nat | Answers(u, b) ensures Answers(t, b) {}
    forall i | 0 <= i < |t.blocks| ensures OpenBlock(u, t.blocks[i]) { assert OpenBlock(t, t.blocks[i]); }
  }

  lemma StartedKeepsSound(t: Table, cid: string, kid: string)
    requires Sound(t)
    ensures Sound(OnStarted(t, cid, kid))
  {
    if |t.blocks| >= MAX_INFLIGHT {
      OverloadKeepsSound(t, cid, kid);
    } else {
      WithoutKeepsSound(t, cid);
      BeginKeepsSound(t.(blocks := Without(t.blocks, cid)), Pending(|t.starts|, cid, kid, map[]));
    }
  }

  lemma AnswerKeepsSound(w: Table, cur: Pending, allowed: bool)
    requires Sound(w) && OpenBlock(w, cur) && forall i :: 0 <= i < |w.blocks| ==> w.blocks[i].block != cur.block
    ensures Sound(w.(answers := w.answers + [Answer(cur.block, cur.cid, cur.kid, allowed)]))
  {
    var u := w.(answers := w.answers + [Answer(cur.block, cur.cid, cur.kid, allowed)]);
    forall p: Pending | OpenBlock(w, p) && p.block != cur.block ensures OpenBlock(u, p) {
      assert Answers(u, p.block) ==> Answers(w, p.block);
    }
    forall i | 0 <= i < |w.answers| && w.answers[i].Answer? ensures OwnAnswer(u, w.answers[i]) {
      assert OwnAnswer(w, w.answers[i]);
    }
  }

  lemma EndKeepsSound(t: Table, es: seq<IndexEntry>)
    requires Sound(t) && t.blocks != []
    ensures Sound(OnEnd(t, es))
  {
    var cur := t.blocks[|t.blocks| - 1];
    WithoutKeepsSound(t, cur.cid);
    var w := t.(blocks := Without(t.blocks, cur.cid));
    assert OpenBlock(t, cur) && OpenBlock(w, cur);
    forall i | 0 <= i < |w.blocks| ensures w.blocks[i].block != cur.block { assert w.blocks[i] in t.blocks; }
    AnswerKeepsSound(w, cur, Authorised(CommonName(cur.env), es));
  }

  lemma EnvKeepsSound(t: Table, body: string, es: seq<IndexEntry>)
    requires Sound(t) && t.blocks != []
    ensures Sound(OnEnv(t, body, es))
  {
    if body == "END" {
      EndKeepsSound(t, es);
    } else {
      var u := OnEnv(t, body, es);
      forall i | 0 <= i < |u.blocks| ensures OpenBlock(u, u.blocks[i]) { assert OpenBlock(t, t.blocks[i]); }
      forall i | 0 <= i < |u.answers| && u.answers[i].Answer? ensures OwnAnswer(u, u.answers[i]) {
        assert OwnAnswer(t, t.answers[i]);
      }
    }
  }

  lemma LineKeepsSound(t: Table, line: string, es: seq<IndexEntry>)
    requires Sound(t)
    ensures Sound(OnLine(t, line, es))
  {
    match Classify(line)
    case Started(cid, kid) => StartedKeepsSound(t, cid, kid);
    case Disconnected(cid) => WithoutKeepsSound(t, cid);
    case Env(body) => if t.blocks != [] { EnvKeepsSound(t, body, es); }
    case Ignored =>
  }

  /** Whatever lines come, each block is answered at most once, with its own ids. */
  lemma {:induction false} StreamKeepsSound(t: Table, events: seq<Event>)
    requires Sound(t)
    ensures Sound(Feed(t, events))
    decreases |events|
  {
    if events != [] {
      LineKeepsSound(t, events[0].line, events[0].index);
      StreamKeepsSound(OnLine(t, events[0].line, events[0].index), events[1..]);
    }
  }

  // ---- streams of blocks that do not overlap ----

  /** A whole block as the console sends it. `bodies` are the env lines before END. */
  datatype Block =
    | Auth(renewal: bool, cid: string, kid: string, bodies: seq<string>, index: seq<IndexEntry>)
    | Gone(rest: string, bodies: seq<string>, index: seq<IndexEntry>)
    | Other(line: string, index: seq<IndexEntry>)

  ghost predicate Decimal(s: string) {
    s != "" && forall c :: c in s ==> c in {'0', '1', '2', '3', '4', '5', '6', '7', '8', '9'}
  }

  lemma DecimalIsDigits(s: string)
    requires Decimal(s)
    ensures Digits(s)
  {
    forall i | 0 <= i < |s| ensures '0' <= s[i] <= '9' { assert s[i] in s; }
  }

  ghost predicate WithinCaps(b: Block) {
    match b
    case Auth(_, cid, kid, bodies, _) =>
      && Decimal(cid) && Decimal(kid) && |bodies| <= 256
      && forall i :: 0 <= i < |bodies| ==> bodies[i] != "END" && ShortValue(bodies[i])
    case Gone(_, bodies, _) => true
    case Other(line, _) => Classify(line) == Ignored
  }

  predicate ShortValue(body: string) {
    |body| <= IndexOf(body, '=') + 4096
  }

  function EnvEvents(bodies: seq<string>, index: seq<IndexEntry>): seq<Event> {
    if bodies == [] then [] else [Event(">CLIENT:ENV," + bodies[0], index)] + EnvEvents(bodies[1..], index)
  }

  function Header(b: Block): string
    requires !b.Other?
  {
    match b
    case Auth(renewal, cid, kid, _, _) => (if renewal then ">CLIENT:REAUTH," else ">CLIENT:CONNECT,") +
        (cid + [','] + kid)
    case Gone(rest, _, _) => ">CLIENT:DISCONNECT," + rest
  }

  function EventsOf(b: Block): seq<Event> {
    if b.Other? then [Event(b.line, b.index)]
    else [Event(Header(b), b.index)] + (EnvEvents(b.bodies, b.index) + [Event(">CLIENT:ENV,END", b.index)])
  }

  function Stream(bs: seq<Block>): seq<Event> {
    if bs == [] then [] else EventsOf(bs[0]) + Stream(bs[1..])
  }

  /** All of the environment, without caps. */
  function FullEnv(env: map<string, string>, bodies: seq<string>): map<string, string>
    decreases |bodies|
  {
    if bodies == [] then env
    else
      var i := IndexOf(bodies[0], '=');
      FullEnv(if i < |bodies[0]| then env[bodies[0][..i] := bodies[0][i + 1..]] else env, bodies[1..])
  }

  /** The blocks that one block starts and the answers that it gets. */
  function Began(b: Block): seq<Start> {
    if b.Auth? then [Start(b.cid, b.kid)] else []
  }

  function AnswerTo(b: Block, next: nat): seq<Answer> {
    if b.Auth? then [Answer(next, b.cid, b.kid, Authorised(CommonName(FullEnv(map[], b.bodies)), b.index))] else []
  }

  /** One answer per block, in order, with the block's own ids. */
  function Expected(bs: seq<Block>, next: nat): seq<Answer>
    decreases |bs|
  {
    if bs == [] then [] else AnswerTo(bs[0], next) + Expected(bs[1..], next + |Began(bs[0])|)
  }

  lemma {:induction false} FeedConcat(t: Table, xs: seq<Event>, ys: seq<Event>)
    ensures Feed(t, xs + ys) == Feed(Feed(t, xs), ys)
    decreases |xs|
  {
    if xs == [] {
      assert xs + ys == ys;
    } else {
      assert (xs + ys)[1..] == xs[1..] + ys;
      FeedConcat(OnLine(t, xs[0].line, xs[0].index), xs[1..], ys);
    }
  }

  lemma EnvLine(body: string)
    ensures Classify(">CLIENT:ENV," + body) == Env(body)
  {
    var line := ">CLIENT:ENV," + body;
    assert line[8] == 'E' && line[12..] == body;
    assert !HasPrefix(line, ">CLIENT:CONNECT,") by { assert ">CLIENT:CONNECT,"[8] == 'C'; }
    assert !HasPrefix(line, ">CLIENT:REAUTH,") by { assert ">CLIENT:REAUTH,"[8] == 'R'; }
    assert !HasPrefix(line, ">CLIENT:DISCONNECT,") by { assert ">CLIENT:DISCONNECT,"[8] == 'D'; }
  }

  lemma BodyStarts(cid: string, kid: string)
    requires Digits(cid) && Digits(kid)
    ensures StartedFrom(cid + [','] + kid) == Started(cid, kid)
  {
    var body := cid + [','] + kid;
    IndexOfFirst(cid, ',', kid);
    assert body[..|cid|] == cid && body[|cid| + 1..] == kid;
  }

  lemma ConnectLine(body: string)
    ensures Classify(">CLIENT:CONNECT," + body) == StartedFrom(body)
  {
    assert (">CLIENT:CONNECT," + body)[16..] == body;
  }

  lemma ReauthLine(body: string)
    ensures Classify(">CLIENT:REAUTH," + body) == StartedFrom(body)
  {
    var line := ">CLIENT:REAUTH," + body;
    assert line[8] == 'R' && line[15..] == body;
    assert !HasPrefix(line, ">CLIENT:CONNECT,") by { assert ">CLIENT:CONNECT,"[8] == 'C'; }
  }

  lemma StartLine(renewal: bool, cid: string, kid: string)
    requires Digits(cid) && Digits(kid)
    ensures Classify((if renewal then ">CLIENT:REAUTH," else ">CLIENT:CONNECT,") + (cid + [','] + kid)) ==
        Started(cid, kid)
  {
    BodyStarts(cid, kid);
    ConnectLine(cid + [','] + kid);
    ReauthLine(cid + [','] + kid);
  }

  lemma GoneLine(rest: string)
    ensures Classify(">CLIENT:DISCONNECT," + rest) == Ignored || Classify(">CLIENT:DISCONNECT," + rest).Disconnected?
  {
    var line := ">CLIENT:DISCONNECT," + rest;
    assert line[8] == 'D';
    assert !HasPrefix(line, ">CLIENT:CONNECT,") by { assert ">CLIENT:CONNECT,"[8] == 'C'; }
    assert !HasPrefix(line, ">CLIENT:REAUTH,") by { assert ">CLIENT:REAUTH,"[8] == 'R'; }
  }

  lemma {:induction false} FeedEnv(t: Table, p: Pending, bodies: seq<string>, es: seq<IndexEntry>)
    requires t.blocks == [p] && |p.env| + |bodies| <= MAX_ENV
    requires forall i :: 0 <= i < |bodies| ==> bodies[i] != "END" && ShortValue(bodies[i])
    ensures Feed(t, EnvEvents(bodies, es)) == t.(blocks := [p.(env := FullEnv(p.env, bodies))])
    decreases |bodies|
  {
    if bodies != [] {
      EnvLine(bodies[0]);
      var env := AddEnv(p.env, bodies[0]);
      var u := OnLine(t, ">CLIENT:ENV," + bodies[0], es);
      assert u.blocks == [p.(env := env)] && |env| <= |p.env| + 1;
      FeedEnv(u, p.(env := env), bodies[1..], es);
      assert EnvEvents(bodies, es)[1..] == EnvEvents(bodies[1..], es);
    }
  }

  lemma {:induction false} FeedEnvIdle(t: Table, bodies: seq<string>, es: seq<IndexEntry>)
    requires t.blocks == []
    ensures Feed(t, EnvEvents(bodies, es)) == t
    decreases |bodies|
  {
    if bodies != [] {
      EnvLine(bodies[0]);
      FeedEnvIdle(t, bodies[1..], es);
      assert EnvEvents(bodies, es)[1..] == EnvEvents(bodies[1..], es);
    }
  }

  lemma FeedEnd(t: Table, es: seq<IndexEntry>)
    ensures Feed(t, [Event(">CLIENT:ENV,END", es)]) == if t.blocks == [] then t else OnEnd(t, es)
  {
    EnvLine("END");
    assert ">CLIENT:ENV," + "END" == ">CLIENT:ENV,END";
    assert [Event(">CLIENT:ENV,END", es)][1..] == [];
  }

  lemma FeedWhole(t: Table, b: Block)
    requires !b.Other?
    ensures Feed(t, EventsOf(b)) ==
            Feed(Feed(OnLine(t, Header(b), b.index), EnvEvents(b.bodies, b.index)), [Event(">CLIENT:ENV,END", b.index)])
  {
    var envs, last := EnvEvents(b.bodies, b.index), [Event(">CLIENT:ENV,END", b.index)];
    assert EventsOf(b)[1..] == envs + last;
    FeedConcat(OnLine(t, Header(b), b.index), envs, last);
  }

  lemma FeedAuth(t: Table, b: Block)
    requires t.blocks == [] && b.Auth? && WithinCaps(b)
    ensures Feed(t, EventsOf(b)) == Table([], t.starts + Began(b), t.answers + AnswerTo(b, |t.starts|))
  {
    DecimalIsDigits(b.cid);
    DecimalIsDigits(b.kid);
    StartLine(b.renewal, b.cid, b.kid);
    var p := Pending(|t.starts|, b.cid, b.kid, map[]);
    var t1 := Table([p], t.starts + Began(b), t.answers);
    assert OnLine(t, Header(b), b.index) == t1;
    FeedEnv(t1, p, b.bodies, b.index);
    FeedWhole(t, b);
    FeedEnd(t1.(blocks := [p.(env := FullEnv(map[], b.bodies))]), b.index);
  }

  lemma FeedBlock(t: Table, b: Block)
    requires t.blocks == [] && WithinCaps(b)
    ensures Feed(t, EventsOf(b)) == Table([], t.starts + Began(b), t.answers + AnswerTo(b, |t.starts|))
  {
    match b
    case Auth(_, _, _, _, _) => FeedAuth(t, b);
    case Gone(rest, bodies, index) =>
      GoneLine(rest);
      FeedEnvIdle(t, bodies, index);
      FeedWhole(t, b);
      FeedEnd(t, index);
    case Other(line, index) => assert EventsOf(b)[1..] == [];
  }

  lemma Associates(a: seq<Answer>, b: seq<Answer>, c: seq<Answer>)
    ensures (a + b) + c == a + (b + c)
  {}

  function AfterBlocks(t: Table, bs: seq<Block>): Table
    decreases |bs|
  {
    if bs == [] then t
    else AfterBlocks(Table([], t.starts + Began(bs[0]), t.answers + AnswerTo(bs[0], |t.starts|)), bs[1..])
  }

  lemma {:induction false} FeedBlocks(t: Table, bs: seq<Block>)
    requires t.blocks == [] && forall i :: 0 <= i < |bs| ==> WithinCaps(bs[i])
    ensures Feed(t, Stream(bs)) == AfterBlocks(t, bs)
    decreases |bs|
  {
    if bs != [] {
      FeedBlock(t, bs[0]);
      FeedConcat(t, EventsOf(bs[0]), Stream(bs[1..]));
      FeedBlocks(Table([], t.starts + Began(bs[0]), t.answers + AnswerTo(bs[0], |t.starts|)), bs[1..]);
    }
  }

  lemma {:induction false} BlocksAnswers(t: Table, bs: seq<Block>)
    requires t.blocks == []
    ensures AfterBlocks(t, bs).blocks == [] && AfterBlocks(t, bs).answers == t.answers + Expected(bs, |t.starts|)
    decreases |bs|
  {
    if bs != [] {
      var first, u := AnswerTo(bs[0], |t.starts|), t.starts + Began(bs[0]);
      BlocksAnswers(Table([], u, t.answers + first), bs[1..]);
      Associates(t.answers, first, Expected(bs[1..], |u|));
    }
  }

  /** Blocks that do not overlap and stay within the caps are answered once each, in order, with their own ids, and
      allowed exactly when their common name is authorised at that moment. */
  lemma BlocksAnsweredInOrder(t: Table, bs: seq<Block>)
    requires t.blocks == [] && forall i :: 0 <= i < |bs| ==> WithinCaps(bs[i])
    ensures Feed(t, Stream(bs)).blocks == [] && Feed(t, Stream(bs)).answers == t.answers + Expected(bs, |t.starts|)
  {
    FeedBlocks(t, bs);
    BlocksAnswers(t, bs);
  }
}
