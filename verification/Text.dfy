/** The few text operations that the parsers rest on. */
module Text {
  /** Characters that separate fields. */
  predicate IsSpace(c: char) {
    || c == ' ' || ('\t' <= c <= '\r') || c == '\U{0085}' || c == '\U{00A0}' || c == '\U{1680}'
    || ('\U{2000}' <= c <= '\U{200A}') || c == '\U{2028}' || c == '\U{2029}' || c == '\U{202F}' || c == '\U{205F}'
    || c == '\U{3000}'
  }

  ghost predicate NoSpace(s: string) {
    forall i :: 0 <= i < |s| ==> !IsSpace(s[i])
  }

  /** A field: non-empty, without white space. */
  ghost predicate Token(s: string) {
    s != "" && NoSpace(s)
  }

  function TokenLength(s: string): (n: nat)
    ensures n <= |s| && NoSpace(s[..n]) && (n < |s| ==> IsSpace(s[n]))
  {
    if s == "" || IsSpace(s[0]) then 0 else 1 + TokenLength(s[1..])
  }

  /** `strings.Fields`. */
  function Fields(s: string): (r: seq<string>)
    ensures forall i :: 0 <= i < |r| ==> Token(r[i])
    decreases |s|
  {
    if s == "" then []
    else if IsSpace(s[0]) then Fields(s[1..])
    else var n := TokenLength(s); [s[..n]] + Fields(s[n..])
  }

  /** `strings.Split` by one character. */
  function Split(s: string, sep: char): (r: seq<string>)
    ensures r != []
    decreases |s|
  {
    var n := IndexOf(s, sep);
    if n == |s| then [s] else [s[..n]] + Split(s[n + 1..], sep)
  }

  /** The position of the first occurrence, or the length when there is none. */
  function IndexOf(s: string, c: char): (n: nat)
    ensures n <= |s| && c !in s[..n] && (n < |s| ==> s[n] == c)
  {
    if s == "" || s[0] == c then 0 else 1 + IndexOf(s[1..], c)
  }

  predicate HasPrefix(s: string, prefix: string) {
    prefix <= s
  }

  /** `strings.Contains`. */
  predicate Occurs(s: string, sub: string) {
    HasPrefix(s, sub) || (s != "" && Occurs(s[1..], sub))
  }

  /** Letters outside ASCII do not occur where this is used. */
  function Lower(s: string): string {
    if s == "" then "" else [if 'A' <= s[0] <= 'Z' then (s[0] as int + 32) as char else s[0]] + Lower(s[1..])
  }

  /** `strings.TrimSpace`. */
  function Trim(s: string): (r: string)
    ensures r != "" ==> !IsSpace(r[0]) && !IsSpace(r[|r| - 1])
  {
    if s == "" then ""
    else if IsSpace(s[0]) then Trim(s[1..])
    else if IsSpace(s[|s| - 1]) then Trim(s[..|s| - 1])
    else s
  }

  lemma TrimSame(s: string)
    requires s != "" && !IsSpace(s[0]) && !IsSpace(s[|s| - 1])
    ensures Trim(s) == s
  {}

  lemma TrimTwice(s: string)
    ensures Trim(Trim(s)) == Trim(s)
  {
    if Trim(s) != "" { TrimSame(Trim(s)); }
  }

  /** Trimming a text that starts with a token keeps that token in front and cuts only at the end. */
  lemma {:induction false} TrimKeepsToken(tok: string, s: string)
    requires Token(tok) && HasPrefix(s, tok)
    ensures HasPrefix(Trim(s), tok) && HasPrefix(s, Trim(s))
    decreases |s|
  {
    assert s[0] == tok[0] && !IsSpace(s[0]);
    if IsSpace(s[|s| - 1]) {
      assert |s| == |tok| ==> s == tok;
      assert s[..|tok|] == tok == s[..|s| - 1][..|tok|];
      TrimKeepsToken(tok, s[..|s| - 1]);
    }
  }

  /** A trimmed text stands inside the text, after white space only. */
  lemma {:induction false} TrimStandsAt(s: string) returns (k: nat)
    ensures k + |Trim(s)| <= |s| && Trim(s) == s[k..k + |Trim(s)|]
    ensures forall i :: 0 <= i < k ==> IsSpace(s[i])
    decreases |s|
  {
    k := 0;
    if s != "" && IsSpace(s[0]) {
      k := TrimStandsAt(s[1..]);
      assert s[1..][k..k + |Trim(s)|] == s[k + 1..k + 1 + |Trim(s)|];
      forall i | 0 <= i < k + 1 ensures IsSpace(s[i]) { assert i > 0 ==> s[i] == s[1..][i - 1]; }
      k := k + 1;
    } else if s != "" && IsSpace(s[|s| - 1]) {
      k := TrimStandsAt(s[..|s| - 1]);
    }
  }

  lemma {:induction false} OccursAt(s: string, sub: string, k: nat)
    requires k + |sub| <= |s| && s[k..k + |sub|] == sub
    ensures Occurs(s, sub)
  {
    if k > 0 {
      assert s[1..][k - 1..k - 1 + |sub|] == sub;
      OccursAt(s[1..], sub, k - 1);
    }
  }

  lemma {:induction false} TokenLengthOf(tok: string, rest: string)
    requires NoSpace(tok) && (rest != "" ==> IsSpace(rest[0]))
    ensures TokenLength(tok + rest) == |tok|
  {
    if tok != "" {
      assert (tok + rest)[1..] == tok[1..] + rest;
      TokenLengthOf(tok[1..], rest);
    } else {
      assert tok + rest == rest;
    }
  }

  lemma FieldsToken(tok: string, rest: string)
    requires Token(tok) && (rest != "" ==> IsSpace(rest[0]))
    ensures Fields(tok + rest) == [tok] + Fields(rest)
  {
    TokenLengthOf(tok, rest);
    assert (tok + rest)[..|tok|] == tok && (tok + rest)[|tok|..] == rest;
  }

  lemma FieldsSpace(c: char, rest: string)
    requires IsSpace(c)
    ensures Fields([c] + rest) == Fields(rest)
  {
    assert ([c] + rest)[1..] == rest;
  }

  lemma {:induction false} FieldsTrailing(s: string, c: char)
    requires IsSpace(c)
    ensures Fields(s + [c]) == Fields(s)
    decreases |s|
  {
    if s == "" {
      assert "" + [c] == [c] && [c][1..] == "";
    } else if IsSpace(s[0]) {
      assert (s + [c])[1..] == s[1..] + [c];
      FieldsTrailing(s[1..], c);
    } else {
      var n := TokenLength(s);
      var tok, rest := s[..n], s[n..];
      FieldsTrailing(rest, c);
      assert s == tok + rest && s + [c] == tok + (rest + [c]);
      FieldsToken(tok, rest);
      FieldsToken(tok, rest + [c]);
    }
  }

  lemma {:induction false} FieldsTrim(s: string)
    ensures Fields(Trim(s)) == Fields(s)
    decreases |s|
  {
    if s != "" && IsSpace(s[0]) {
      FieldsTrim(s[1..]);
    } else if s != "" && IsSpace(s[|s| - 1]) {
      FieldsTrim(s[..|s| - 1]);
      assert s == s[..|s| - 1] + [s[|s| - 1]];
      FieldsTrailing(s[..|s| - 1], s[|s| - 1]);
    }
  }

  /** Trimming what follows a token keeps the token and the fields after it. */
  lemma {:induction false} TrimAfterToken(tok: string, x: string) returns (y: string)
    requires Token(tok)
    ensures Trim(tok + x) == tok + y && Fields(y) == Fields(x)
    decreases |x|
  {
    var s := tok + x;
    assert s[0] == tok[0];
    if x != "" && IsSpace(x[|x| - 1]) {
      assert s[|s| - 1] == x[|x| - 1] && s[..|s| - 1] == tok + x[..|x| - 1];
      y := TrimAfterToken(tok, x[..|x| - 1]);
      assert x == x[..|x| - 1] + [x[|x| - 1]];
      FieldsTrailing(x[..|x| - 1], x[|x| - 1]);
    } else {
      assert s[|s| - 1] == if x == "" then tok[|tok| - 1] else x[|x| - 1];
      y := x;
    }
  }

  lemma {:induction false} IndexOfFirst(before: string, c: char, after: string)
    requires c !in before
    ensures IndexOf(before + [c] + after, c) == |before|
  {
    if before != "" {
      assert (before + [c] + after)[1..] == before[1..] + [c] + after;
      IndexOfFirst(before[1..], c, after);
    }
  }

  lemma SplitFirst(before: string, sep: char, after: string)
    requires sep !in before
    ensures Split(before + [sep] + after, sep) == [before] + Split(after, sep)
  {
    var s := before + [sep] + after;
    IndexOfFirst(before, sep, after);
    assert s[..|before|] == before && s[|before| + 1..] == after;
  }

  lemma SplitNone(s: string, sep: char)
    requires sep !in s
    ensures Split(s, sep) == [s]
  {}

  /** Fields joined by tabs; an empty one leaves two tabs in a row. */
  function TabJoin(fs: seq<string>): string {
    if fs == [] then "" else if |fs| == 1 then fs[0] else fs[0] + (['\t'] + TabJoin(fs[1..]))
  }

  function NonEmpty(fs: seq<string>): seq<string> {
    if fs == [] then [] else (if fs[0] == "" then [] else [fs[0]]) + NonEmpty(fs[1..])
  }

  lemma {:induction false} FieldsOfTabJoin(fs: seq<string>)
    requires forall i :: 0 <= i < |fs| ==> NoSpace(fs[i])
    ensures Fields(TabJoin(fs)) == NonEmpty(fs)
  {
    if fs != [] {
      var rest := if |fs| == 1 then "" else ['\t'] + TabJoin(fs[1..]);
      if |fs| > 1 {
        FieldsOfTabJoin(fs[1..]);
        FieldsSpace('\t', TabJoin(fs[1..]));
      } else {
        assert NonEmpty(fs[1..]) == [];
      }
      assert TabJoin(fs) == fs[0] + rest;
      if fs[0] == "" {
        assert TabJoin(fs) == rest;
      } else {
        FieldsToken(fs[0], rest);
      }
    }
  }

  lemma {:induction false} TabJoinWithout(fs: seq<string>, c: char)
    requires c != '\t' && forall i :: 0 <= i < |fs| ==> c !in fs[i]
    ensures c !in TabJoin(fs)
  {
    if |fs| > 1 { TabJoinWithout(fs[1..], c); }
  }

  // ---- splitting and joining ----

  lemma {:induction false} IndexOfNone(s: string, c: char)
    requires c !in s
    ensures IndexOf(s, c) == |s|
  {
    if s != "" { IndexOfNone(s[1..], c); }
  }

  /** A text without the separator goes in front of the first piece. */
  lemma SplitPrefix(p: string, s: string, sep: char)
    requires sep !in p
    ensures Split(p + s, sep) == [p + Split(s, sep)[0]] + Split(s, sep)[1..]
  {
    var n := IndexOf(s, sep);
    if n == |s| {
      assert sep !in p + s;
      SplitNone(p + s, sep);
    } else {
      var first, rest := s[..n], s[n + 1..];
      assert p + s == (p + first) + [sep] + rest;
      SplitFirst(p + first, sep, rest);
      assert Split(s, sep)[1..] == Split(rest, sep);
    }
  }

  lemma {:induction false} PieceOfJoin(a: string, sep: char, b: string, piece: string)
    requires piece in Split(a + [sep] + b, sep)
    ensures piece in Split(a, sep) || piece in Split(b, sep)
    decreases |a|
  {
    var n := IndexOf(a, sep);
    if n == |a| {
      SplitFirst(a, sep, b);
    } else {
      var first, rest := a[..n], a[n + 1..];
      assert a + [sep] + b == first + [sep] + (rest + [sep] + b);
      SplitFirst(first, sep, rest + [sep] + b);
      if piece != first {
        assert piece in Split(rest + [sep] + b, sep);
        PieceOfJoin(rest, sep, b, piece);
      }
    }
  }

  /** A piece of a split stands somewhere in the text. */
  lemma {:induction false} PieceOccurs(s: string, sep: char, piece: string, sub: string)
    requires piece in Split(s, sep) && Occurs(piece, sub)
    ensures Occurs(s, sub)
    decreases |s|
  {
    var n := IndexOf(s, sep);
    if n == |s| {
      assert piece == s;
    } else if piece == s[..n] {
      assert s == s[..n] + s[n..];
      OccursIn("", s[..n], s[n..], sub);
      assert "" + s[..n] + s[n..] == s;
    } else {
      assert piece in Split(s[n + 1..], sep);
      PieceOccurs(s[n + 1..], sep, piece, sub);
      assert s == s[..n + 1] + s[n + 1..] + "";
      OccursIn(s[..n + 1], s[n + 1..], "", sub);
    }
  }

  lemma {:induction false} OccursIn(before: string, s: string, after: string, sub: string)
    requires Occurs(s, sub)
    ensures Occurs(before + s + after, sub)
  {
    var k := OccursSomewhere(s, sub);
    var all := before + s + after;
    assert all[|before| + k..|before| + k + |sub|] == s[k..k + |sub|];
    OccursAt(all, sub, |before| + k);
  }

  lemma {:induction false} OccursSomewhere(s: string, sub: string) returns (k: nat)
    requires Occurs(s, sub)
    ensures k + |sub| <= |s| && s[k..k + |sub|] == sub
  {
    k := 0;
    if !HasPrefix(s, sub) {
      k := OccursSomewhere(s[1..], sub);
      assert s[1..][k..k + |sub|] == s[k + 1..k + 1 + |sub|];
      k := k + 1;
    }
  }

  lemma TrimOccurs(s: string, sub: string)
    requires Occurs(Trim(s), sub)
    ensures Occurs(s, sub)
  {
    var k := TrimStandsAt(s);
    var n := k + |Trim(s)|;
    assert s == s[..k] + Trim(s) + s[n..];
    OccursIn(s[..k], Trim(s), s[n..], sub);
  }

  /** A text without the separator that stands in a join stands in one of the parts. */
  lemma OccursInJoin(a: string, sep: char, b: string, sub: string)
    requires Occurs(a + [sep] + b, sub) && sep !in sub
    ensures Occurs(a, sub) || Occurs(b, sub)
  {
    var all, n := a + [sep] + b, |a|;
    var k := OccursSomewhere(all, sub);
    forall i | k <= i < k + |sub| ensures all[i] != sep { assert all[i] == sub[i - k]; }
    assert all[n] == sep;
    if k + |sub| <= n {
      assert a[k..k + |sub|] == sub;
      OccursAt(a, sub, k);
    } else {
      assert k > n;
      assert b[k - n - 1..k - n - 1 + |sub|] == sub;
      OccursAt(b, sub, k - n - 1);
    }
  }

  lemma {:induction false} TrimSuffix(s: string, c: char)
    requires IsSpace(c)
    ensures Trim(s + [c]) == Trim(s)
    decreases |s|
  {
    if s == "" {
      assert s + [c] == [c] && [c][1..] == "";
    } else if IsSpace(s[0]) {
      assert (s + [c])[1..] == s[1..] + [c];
      TrimSuffix(s[1..], c);
    } else {
      assert (s + [c])[..|s|] == s;
    }
  }

  /** Text without the separator at the end goes to the last piece. */
  lemma {:induction false} PieceOfPrefix(s: string, more: string, sep: char, piece: string)
    requires sep !in more && piece in Split(s, sep)
    ensures piece in Split(s + more, sep) || piece + more in Split(s + more, sep)
    decreases |s|
  {
    var n := IndexOf(s, sep);
    if n == |s| {
      assert piece == s;
      SplitNone(s + more, sep);
    } else {
      var first, rest := s[..n], s[n + 1..];
      assert s + more == first + [sep] + (rest + more);
      SplitFirst(first, sep, rest + more);
      if piece != first {
        assert piece in Split(rest, sep);
        PieceOfPrefix(rest, more, sep, piece);
      }
    }
  }
}
