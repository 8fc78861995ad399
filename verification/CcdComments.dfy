/** What a load makes of descriptions and of merged comments: trimming, field joining and comma pieces. */
module CcdComments {
  import opened Text
  import opened CcdMerge
  import opened CcdFile
  import opened CcdRoundTrip

  // ---- descriptions ----

  /** A description that validation accepts and that holds no comma. */
  predicate Neat(d: string) {
    DescriptionOk(d) && ',' !in d
  }

  /** No longer, no new character but a blank, no marker that was not there. */
  ghost predicate Within(a: string, b: string) {
    && |a| <= |b|
    && (forall i :: 0 <= i < |a| ==> a[i] == ' ' || a[i] in b)
    && (forall m :: m != "" && NoSpace(m) && Occurs(a, m) ==> Occurs(b, m))
  }

  lemma WithinNeat(a: string, b: string)
    requires Within(a, b)
    ensures Neat(b) ==> Neat(a)
    ensures DescriptionOk(b) ==> DescriptionOk(a)
  {
    MarkersHaveNoSpace();
  }

  lemma MarkersHaveNoSpace()
    ensures NoSpace("__redirect_gateway__") && NoSpace(EXCLUSION_USER) && NoSpace(EXCLUSION_GLOBAL)
    ensures NoSpace("__common__") && NoSpace("__user_domain__")
  {}

  lemma TrimWithin(s: string)
    ensures Within(Trim(s), s)
  {
    var k := TrimStandsAt(s);
    forall i | 0 <= i < |Trim(s)| ensures Trim(s)[i] in s { assert Trim(s)[i] == s[k + i]; }
    forall m | m != "" && NoSpace(m) && Occurs(Trim(s), m) ensures Occurs(s, m) { TrimOccurs(s, m); }
  }

  lemma WithinThrough(a: string, b: string, c: string)
    requires Within(a, b) && Within(b, c)
    ensures Within(a, c)
  {
    forall i | 0 <= i < |a| ensures a[i] == ' ' || a[i] in c {
      if a[i] != ' ' { var j :| 0 <= j < |b| && b[j] == a[i]; }
    }
  }

  /** Fields joined by single blanks. */
  lemma {:induction false} FieldsWithin(s: string)
    ensures Within(JoinWith(Fields(s), ' '), s)
    decreases |s|
  {
    if s == "" {
      NothingOccurs();
    } else if IsSpace(s[0]) {
      FieldsWithin(s[1..]);
      TailWithin(s);
      WithinThrough(JoinWith(Fields(s[1..]), ' '), s[1..], s);
    } else {
      var n := TokenLength(s);
      FieldsWithin(s[n..]);
      assert s == s[..n] + s[n..];
      if Fields(s[n..]) == [] {
        assert Fields(s) == [s[..n]];
        PrefixWithin(s, n);
      } else {
        assert n < |s| && Fields(s[n..]) == Fields(s[n..][1..]) && s[n..][1..] == s[n + 1..];
        FieldsWithin(s[n + 1..]);
        JoinedWithin(s, n, JoinWith(Fields(s[n..]), ' '));
      }
    }
  }

  lemma NothingOccurs()
    ensures forall m: string :: m != "" ==> !Occurs("", m)
  {}

  lemma TailWithin(s: string)
    requires s != ""
    ensures Within(s[1..], s)
  {
    forall i | 0 <= i < |s| - 1 ensures s[1..][i] in s { assert s[1..][i] == s[i + 1]; }
  }

  lemma PrefixWithin(s: string, n: nat)
    requires n <= |s|
    ensures Within(s[..n], s)
  {
    forall m | m != "" && Occurs(s[..n], m) ensures Occurs(s, m) {
      OccursIn("", s[..n], s[n..], m);
      assert "" + s[..n] + s[n..] == s;
    }
  }

  lemma JoinedWithin(s: string, n: nat, rest: string)
    requires 0 < n < |s| && Within(rest, s[n + 1..])
    ensures Within(s[..n] + [' '] + rest, s)
  {
    var a, tail := s[..n] + [' '] + rest, s[n + 1..];
    forall i | 0 <= i < |a| ensures a[i] == ' ' || a[i] in s {
      if i > n && a[i] != ' ' {
        assert a[i] == rest[i - n - 1];
        var j :| 0 <= j < |tail| && tail[j] == a[i];
        assert s[n + 1 + j] == a[i];
      }
    }
    forall m | m != "" && NoSpace(m) && Occurs(a, m) ensures Occurs(s, m) {
      assert ' ' !in m;
      OccursInJoin(s[..n], ' ', rest, m);
      PrefixWithin(s, n);
      if Occurs(rest, m) {
        OccursIn(s[..n + 1], tail, "", m);
        assert s[..n + 1] + tail + "" == s;
      }
    }
  }

  /** The description of a domain as a load reads it. */
  function ReadDescription(desc: string): string {
    Trim(JoinWith(Fields(desc), ' '))
  }

  lemma ReadDescriptionNeat(desc: string)
    requires Neat(desc)
    ensures Neat(ReadDescription(desc))
  {
    FieldsWithin(desc);
    WithinNeat(JoinWith(Fields(desc), ' '), desc);
    TrimWithin(JoinWith(Fields(desc), ' '));
    WithinNeat(ReadDescription(desc), JoinWith(Fields(desc), ' '));
  }

  lemma TrimNeat(desc: string)
    ensures Neat(desc) ==> Neat(Trim(desc))
    ensures DescriptionOk(desc) ==> DescriptionOk(Trim(desc))
  {
    TrimWithin(desc);
    WithinNeat(Trim(desc), desc);
  }

  // ---- the pieces of a comment ----

  lemma CutJoin(a: string, n: nat, x: string)
    requires n < |a|
    ensures a + x == a[..n] + [a[n]] + (a[n + 1..] + x)
  {}

  /** Text after a first piece leaves that piece. */
  lemma SplitLonger(a: string, sep: char, x: string)
    requires IndexOf(a, sep) < |a|
    ensures var n := IndexOf(a, sep); Split(a + x, sep) == [a[..n]] + Split(a[n + 1..] + x, sep)
  {
    var n := IndexOf(a, sep);
    CutJoin(a, n, x);
    SplitFirst(a[..n], sep, a[n + 1..] + x);
  }

  lemma SplitTwo(a: string, sep: char, b: string)
    requires sep !in a && sep !in b
    ensures Split(a + [sep] + b, sep) == [a, b]
  {
    SplitFirst(a, sep, b);
    SplitNone(b, sep);
  }

  lemma SplitCut(s: string, sep: char)
    requires IndexOf(s, sep) < |s|
    ensures var n := IndexOf(s, sep); Split(s, sep) == [s[..n]] + Split(s[n + 1..], sep)
  {}

  lemma OneMore(first: string, rest: seq<string>, b: string)
    ensures [first] + (rest + [b]) == ([first] + rest) + [b]
  {}

  lemma {:induction false} SplitAppend(a: string, sep: char, b: string)
    requires sep !in b
    ensures Split(a + ([sep] + b), sep) == Split(a, sep) + [b]
    decreases |a|
  {
    var n := IndexOf(a, sep);
    if n == |a| {
      assert a + [sep] + b == a + ([sep] + b);
      SplitTwo(a, sep, b);
      SplitNone(a, sep);
    } else {
      SplitCut(a, sep);
      SplitLonger(a, sep, [sep] + b);
      SplitAppend(a[n + 1..], sep, b);
      OneMore(a[..n], Split(a[n + 1..], sep), b);
    }
  }

  /** More text in the last piece. */
  function MoreAtEnd(pieces: seq<string>, x: string): seq<string>
    requires pieces != []
  {
    pieces[..|pieces| - 1] + [pieces[|pieces| - 1] + x]
  }

  lemma MoreAfterFirst(first: string, rest: seq<string>, x: string)
    requires rest != []
    ensures MoreAtEnd([first] + rest, x) == [first] + MoreAtEnd(rest, x)
  {}

  lemma SplitTailNone(s: string, c: char, sep: char)
    requires c != sep && sep !in s
    ensures Split(s + [c], sep) == MoreAtEnd(Split(s, sep), [c])
  {
    SplitNone(s, sep);
    SplitNone(s + [c], sep);
  }

  lemma SplitTailStep(s: string, c: char, sep: char)
    requires IndexOf(s, sep) < |s|
    requires var rest := s[IndexOf(s, sep) + 1..]; Split(rest + [c], sep) == MoreAtEnd(Split(rest, sep), [c])
    ensures Split(s + [c], sep) == MoreAtEnd(Split(s, sep), [c])
  {
    var n := IndexOf(s, sep);
    SplitCut(s, sep);
    SplitLonger(s, sep, [c]);
    MoreAfterFirst(s[..n], Split(s[n + 1..], sep), [c]);
  }

  /** A character that is no separator goes to the last piece. */
  lemma {:induction false} SplitTail(s: string, c: char, sep: char)
    requires c != sep
    ensures Split(s + [c], sep) == MoreAtEnd(Split(s, sep), [c])
    decreases |s|
  {
    var n := IndexOf(s, sep);
    if n == |s| {
      SplitTailNone(s, c, sep);
    } else {
      SplitTail(s[n + 1..], c, sep);
      SplitTailStep(s, c, sep);
    }
  }

  lemma TrimLead(c: char, s: string)
    requires IsSpace(c)
    ensures Trim([c] + s) == Trim(s)
  {
    assert ([c] + s)[1..] == s;
  }

  /** Two comments say the same to a load. */
  ghost predicate SameToLoad(a: string, b: string) {
    Personal(Split(a, ',')) == Personal(Split(b, ',')) && SegmentNames(Split(a, ',')) == SegmentNames(Split(b, ','))
  }

  lemma LeadSaysNothing(c: char, s: string)
    requires IsSpace(c)
    ensures SameToLoad([c] + s, s)
  {
    var pieces := Split(s, ',');
    SplitPrefix([c], s, ',');
    TrimLead(c, pieces[0]);
    SameTrimFirst([c] + pieces[0], pieces[0], pieces[1..]);
    assert [pieces[0]] + pieces[1..] == pieces;
  }

  lemma TailSaysNothing(s: string, c: char)
    requires IsSpace(c)
    ensures SameToLoad(s + [c], s)
  {
    var pieces := Split(s, ',');
    var n := |pieces| - 1;
    SplitTail(s, c, ',');
    TrimSuffix(pieces[n], c);
    SameTrimLast(pieces[..n], pieces[n] + [c], pieces[n]);
    assert pieces[..n] + [pieces[n]] == pieces;
  }

  /** White space around a comment changes nothing in what its pieces say. */
  lemma {:induction false} PiecesTrimmed(s: string)
    ensures SameToLoad(Trim(s), s)
    decreases |s|
  {
    if s != "" && IsSpace(s[0]) {
      PiecesTrimmed(s[1..]);
      WithoutFirst(s);
      SameThrough(Trim(s), s[1..], s);
    } else if s != "" && IsSpace(s[|s| - 1]) {
      PiecesTrimmed(s[..|s| - 1]);
      WithoutLast(s);
      SameThrough(Trim(s), s[..|s| - 1], s);
    }
  }

  lemma WithoutFirst(s: string)
    requires s != "" && IsSpace(s[0])
    ensures SameToLoad(s, s[1..])
  {
    LeadSaysNothing(s[0], s[1..]);
    assert [s[0]] + s[1..] == s;
  }

  lemma WithoutLast(s: string)
    requires s != "" && IsSpace(s[|s| - 1])
    ensures SameToLoad(s, s[..|s| - 1])
  {
    TailSaysNothing(s[..|s| - 1], s[|s| - 1]);
    assert s[..|s| - 1] + [s[|s| - 1]] == s;
  }

  lemma SameThrough(a: string, b: string, c: string)
    requires SameToLoad(a, b) && SameToLoad(c, b)
    ensures SameToLoad(a, c)
  {}

  lemma SameTrimFirst(a: string, b: string, rest: seq<string>)
    requires Trim(a) == Trim(b)
    ensures Personal([a] + rest) == Personal([b] + rest) && SegmentNames([a] + rest) == SegmentNames([b] + rest)
  {
    assert ([a] + rest)[1..] == rest && ([b] + rest)[1..] == rest;
  }

  lemma {:induction false} SameTrimLast(init: seq<string>, a: string, b: string)
    requires Trim(a) == Trim(b)
    ensures Personal(init + [a]) == Personal(init + [b]) && SegmentNames(init + [a]) == SegmentNames(init + [b])
  {
    if init == [] {
      assert [] + [a] == [a] + [] && [] + [b] == [b] + [];
      SameTrimFirst(a, b, []);
    } else {
      assert (init + [a])[1..] == init[1..] + [a] && (init + [b])[1..] == init[1..] + [b];
      SameTrimLast(init[1..], a, b);
    }
  }

  // ---- merged comments ----

  predicate Marked(piece: string) { HasMarker(Trim(piece)) }

  /** No source holds a comma, and of two requests for a destination at most one is unmarked. */
  ghost predicate TidyRequests(requests: seq<Push>) {
    && (forall i :: 0 <= i < |requests| ==> ',' !in requests[i].source)
    && forall i, j :: 0 <= i < j < |requests| && requests[i].key == requests[j].key ==>
         Marked(requests[i].source) || Marked(requests[j].source)
  }

  ghost predicate Asked(requests: seq<Push>, k: Key, source: string) {
    exists i :: 0 <= i < |requests| && requests[i] == Push(k, source)
  }

  /** The pieces of a merged comment are sources that asked for it; only the first may be unmarked, or it is marked. */
  ghost predicate TidyLine(p: Push, requests: seq<Push>) {
    TidyWith(p.key, Split(p.source, ','), requests)
  }

  ghost predicate TidyWith(k: Key, pieces: seq<string>, requests: seq<Push>) {
    && pieces != []
    && (forall i :: 0 <= i < |pieces| ==> Asked(requests, k, pieces[i]))
    && (Marked(pieces[0]) || forall i :: 1 <= i < |pieces| ==> Marked(pieces[i]))
  }

  lemma AskedMore(requests: seq<Push>, n: nat, p: Push)
    requires n <= |requests| && TidyLine(p, requests[..n])
    ensures TidyLine(p, requests)
  {
    var pieces := Split(p.source, ',');
    forall i | 0 <= i < |pieces| ensures Asked(requests, p.key, pieces[i]) {
      var j :| 0 <= j < n && requests[..n][j] == Push(p.key, pieces[i]);
      assert requests[j] == Push(p.key, pieces[i]);
    }
  }

  /** One more source on a line. */
  lemma TidyJoin(p: Push, requests: seq<Push>, n: nat)
    requires n < |requests| && TidyRequests(requests) && TidyLine(p, requests[..n]) && p.key == requests[n].key
    ensures TidyLine(Push(p.key, p.source + [','] + requests[n].source), requests)
  {
    var q := requests[n];
    AskedMore(requests, n, p);
    SplitAppend(p.source, ',', q.source);
    assert p.source + [','] + q.source == p.source + ([','] + q.source);
    assert requests[n] == Push(p.key, q.source);
    if !Marked(q.source) { EarlierMarked(requests, n, Split(p.source, ',')[0]); }
    TidyPieces(p.key, Split(p.source, ','), q.source, requests);
  }

  lemma TidyPieces(k: Key, pieces: seq<string>, more: string, requests: seq<Push>)
    requires TidyWith(k, pieces, requests) && Asked(requests, k, more) && (Marked(more) || Marked(pieces[0]))
    ensures TidyWith(k, pieces + [more], requests)
  {}

  lemma EarlierMarked(requests: seq<Push>, n: nat, piece: string)
    requires n < |requests| && TidyRequests(requests) && !Marked(requests[n].source)
    requires Asked(requests[..n], requests[n].key, piece)
    ensures Marked(piece)
  {
    var j :| 0 <= j < n && requests[..n][j] == Push(requests[n].key, piece);
    assert requests[j].source == piece;
  }

  lemma TidyOne(requests: seq<Push>, n: nat)
    requires n < |requests| && TidyRequests(requests)
    ensures TidyLine(requests[n], requests)
  {
    SplitNone(requests[n].source, ',');
    assert requests[n] == Push(requests[n].key, requests[n].source);
  }

  ghost predicate AllTidy(out: seq<Push>, requests: seq<Push>) {
    forall i :: 0 <= i < |out| ==> TidyLine(out[i], requests)
  }

  lemma AddTidy(out: seq<Push>, requests: seq<Push>, n: nat)
    requires n < |requests| && TidyRequests(requests) && AllTidy(out, requests[..n])
    ensures AllTidy(AddPush(out, requests[n]), requests)
  {
    var q := requests[n];
    var i, after := KeyAt(out, q.key), AddPush(out, q);
    forall j | 0 <= j < |after| ensures TidyLine(after[j], requests) {
      if j < |out| && after[j] == out[j] {
        AskedMore(requests, n, out[j]);
      } else if j < |out| {
        TidyJoin(out[j], requests, n);
      } else {
        TidyOne(requests, n);
      }
    }
  }

  lemma {:induction false} MergeTidy(requests: seq<Push>)
    requires TidyRequests(requests)
    ensures AllTidy(MergeAll(requests), requests)
  {
    if requests != [] {
      var n := |requests| - 1;
      assert TidyRequests(requests[..n]);
      MergeTidy(requests[..n]);
      AddTidy(MergeAll(requests[..n]), requests, n);
    }
  }

  lemma {:induction false} PersonalOfMarked(pieces: seq<string>)
    requires forall i :: 0 <= i < |pieces| ==> Marked(pieces[i])
    ensures Personal(pieces) == []
  {
    if pieces != [] { PersonalOfMarked(pieces[1..]); }
  }

  /** What a load makes of a tidy comment whose first piece is unmarked: that piece, trimmed. */
  lemma TidyDescription(p: Push, requests: seq<Push>)
    requires TidyLine(p, requests) && !Marked(Split(p.source, ',')[0])
    ensures PersonalDescription(Trim(p.source)) == Trim(Split(p.source, ',')[0])
  {
    var pieces := Split(p.source, ',');
    PiecesTrimmed(p.source);
    PersonalOfMarked(pieces[1..]);
    var first := Trim(pieces[0]);
    assert Personal(pieces) == if first == "" then [] else [first];
    if first != "" { TrimSame(first); }
  }
}
