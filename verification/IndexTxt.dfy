/** The certificate index: its parser, its printer, and what survives a rewrite of the file. */
module IndexTxt {
  import opened Wrappers
  import opened Text

  datatype IndexEntry = IndexEntry(
    flag: string, expiration: string, revocation: string, serial: string, filename: string, dn: string,
    identity: string)

  /** Everything after the first '='; the whole name when there is none. */
  function IdentityOf(dn: string): string {
    var n := IndexOf(dn, '=');
    if n == |dn| then dn else dn[n + 1..]
  }

  /** A line is classified by the first character of its first field; short lines are skipped. */
  function ParseFields(f: seq<string>): Option<IndexEntry> {
    if f == [] then None
    else if HasPrefix(f[0], "E") || HasPrefix(f[0], "V") then
      if |f| < 5 then None else Some(IndexEntry(f[0], f[1], "", f[2], f[3], f[4], IdentityOf(f[4])))
    else if HasPrefix(f[0], "R") then
      if |f| < 6 then None else Some(IndexEntry(f[0], f[1], f[2], f[3], f[4], f[5], IdentityOf(f[5])))
    else None
  }

  function ParseLines(lines: seq<string>): seq<IndexEntry> {
    if lines == [] then []
    else match ParseFields(Fields(lines[0]))
         case Some(e) => [e] + ParseLines(lines[1..])
         case None => ParseLines(lines[1..])
  }

  function Parse(txt: string): seq<IndexEntry> {
    ParseLines(Split(txt, '\n'))
  }

  /** The six columns of a line; the revocation column is empty unless the flag is R. */
  function Columns(e: IndexEntry): seq<string> {
    [e.flag, e.expiration, if e.flag == "R" then e.revocation else "", e.serial, e.filename, e.dn]
  }

  /** Rendering knows the exact flags only; an entry with any other flag leaves no line. */
  function RenderEntry(e: IndexEntry): string {
    if e.flag == "V" || e.flag == "R" || e.flag == "E" then TabJoin(Columns(e)) + "\n" else ""
  }

  function Render(es: seq<IndexEntry>): string {
    if es == [] then "" else RenderEntry(es[0]) + Render(es[1..])
  }

  lemma {:induction false} RenderAppend(es: seq<IndexEntry>, e: IndexEntry)
    ensures Render(es + [e]) == Render(es) + RenderEntry(e)
  {
    if es == [] {
      assert [e][1..] == [];
    } else {
      assert (es + [e])[1..] == es[1..] + [e];
      RenderAppend(es[1..], e);
    }
  }

  lemma {:induction false} ParseLinesAppend(lines: seq<string>, line: string)
    ensures ParseLines(lines + [line]) ==
            ParseLines(lines) + match ParseFields(Fields(line)) case Some(e) => [e] case None => []
  {
    if lines == [] {
      assert [line][1..] == [];
    } else {
      assert (lines + [line])[1..] == lines[1..] + [line];
      ParseLinesAppend(lines[1..], line);
    }
  }

  method IndexTxtParser(txt: string) returns (index: seq<IndexEntry>)
    ensures index == Parse(txt)
  {
    index := [];
    var lines := Split(txt, '\n');
    for i := 0 to |lines|
      invariant index == ParseLines(lines[..i])
    {
      ParseLinesAppend(lines[..i], lines[i]);
      assert lines[..i + 1] == lines[..i] + [lines[i]];
      var f := Fields(lines[i]);
      if |f| > 0 {
        if HasPrefix(f[0], "E") || HasPrefix(f[0], "V") {
          if |f| < 5 { continue; }
          index := index + [IndexEntry(f[0], f[1], "", f[2], f[3], f[4], IdentityOf(f[4]))];
        } else if HasPrefix(f[0], "R") {
          if |f| < 6 { continue; }
          index := index + [IndexEntry(f[0], f[1], f[2], f[3], f[4], f[5], IdentityOf(f[5]))];
        }
      }
    }
    assert lines[..|lines|] == lines;
  }

  method RenderIndexTxt(es: seq<IndexEntry>) returns (txt: string)
    ensures txt == Render(es)
  {
    txt := "";
    for i := 0 to |es|
      invariant txt == Render(es[..i])
    {
      RenderAppend(es[..i], es[i]);
      assert es[..i + 1] == es[..i] + [es[i]];
      txt := txt + RenderEntry(es[i]);
    }
    assert es[..|es|] == es;
  }

  // ---- what a line means ----

  lemma ParsesAlone(line: string, e: IndexEntry)
    requires '\n' !in line && ParseFields(Fields(line)) == Some(e)
    ensures Parse(line + "\n") == [e]
  {
    SplitFirst(line, '\n', "");
    SplitNone("", '\n');
    assert line + "\n" == line + ['\n'] + "";
    var lines := Split(line + "\n", '\n');
    assert lines == [line, ""] && lines[1..] == [""];
    assert Fields("") == [];
    assert ParseLines([""]) == ParseLines([""][1..]) == [];
    assert [e] + [] == [e];
  }

  /** A line of a valid or an expired certificate: flag, expiry, an empty column, serial, file and name. */
  lemma ValidLineMeans(flag: string, expiry: string, serial: string, file: string, dn: string)
    requires flag == "V" || flag == "E"
    requires Token(expiry) && Token(serial) && Token(file) && Token(dn)
    ensures Parse(TabJoin([flag, expiry, "", serial, file, dn]) + "\n") ==
            [IndexEntry(flag, expiry, "", serial, file, dn, IdentityOf(dn))]
  {
    var c := [flag, expiry, "", serial, file, dn];
    assert Token(flag) && IsSpace('\n');
    FieldsOfTabJoin(c);
    TabJoinWithout(c, '\n');
    DropTwo(c);
    assert c[2..][1..] == [serial, file, dn];
    KeepThree([serial, file, dn]);
    assert NonEmpty(c) == [flag, expiry, serial, file, dn];
    ParsesAlone(TabJoin(c), IndexEntry(flag, expiry, "", serial, file, dn, IdentityOf(dn)));
  }

  /** A line of a revoked one has the date of the revocation in the third column. */
  lemma RevokedLineMeans(expiry: string, date: string, serial: string, file: string, dn: string)
    requires Token(expiry) && Token(date) && Token(serial) && Token(file) && Token(dn)
    ensures Parse(TabJoin(["R", expiry, date, serial, file, dn]) + "\n") ==
            [IndexEntry("R", expiry, date, serial, file, dn, IdentityOf(dn))]
  {
    var c := ["R", expiry, date, serial, file, dn];
    assert Token("R") && IsSpace('\n');
    FieldsOfTabJoin(c);
    TabJoinWithout(c, '\n');
    DropTwo(c);
    assert c[2..][1..] == [serial, file, dn];
    KeepThree([serial, file, dn]);
    assert NonEmpty(c) == c;
    ParsesAlone(TabJoin(c), IndexEntry("R", expiry, date, serial, file, dn, IdentityOf(dn)));
  }

  // ---- what a rewrite preserves ----

  predicate ExactFlag(e: IndexEntry) {
    e.flag == "V" || e.flag == "R" || e.flag == "E"
  }

  /** The shape that parsing gives an entry. */
  ghost predicate Shaped(e: IndexEntry) {
    && Token(e.flag) && Token(e.expiration) && Token(e.serial) && Token(e.filename) && Token(e.dn)
    && e.identity == IdentityOf(e.dn)
    && if HasPrefix(e.flag, "R") then Token(e.revocation)
       else e.revocation == "" && (HasPrefix(e.flag, "V") || HasPrefix(e.flag, "E"))
  }

  /** An entry that survives a rewrite. */
  ghost predicate WellFormed(e: IndexEntry) {
    Shaped(e) && ExactFlag(e)
  }

  lemma ParseFieldsShaped(f: seq<string>)
    requires forall i :: 0 <= i < |f| ==> Token(f[i])
    ensures ParseFields(f).Some? ==> Shaped(ParseFields(f).value)
  {
    if ParseFields(f).Some? {
      assert Token(f[0]) && Token(f[1]) && Token(f[2]) && Token(f[3]) && Token(f[4]);
      assert |f| > 5 ==> Token(f[5]);
      assert HasPrefix(f[0], "R") ==> f[0][0] == 'R';
      assert HasPrefix(f[0], "V") ==> f[0][0] == 'V';
      assert HasPrefix(f[0], "E") ==> f[0][0] == 'E';
    }
  }

  lemma {:induction false} ParsedAreShaped(lines: seq<string>, e: IndexEntry)
    requires e in ParseLines(lines)
    ensures Shaped(e)
  {
    ParseFieldsShaped(Fields(lines[0]));
    match ParseFields(Fields(lines[0]))
    case Some(first) => if e != first { ParsedAreShaped(lines[1..], e); }
    case None => ParsedAreShaped(lines[1..], e);
  }

  lemma LineParsesBack(e: IndexEntry)
    requires WellFormed(e)
    ensures ParseFields(Fields(TabJoin(Columns(e)))) == Some(e)
    ensures '\n' !in TabJoin(Columns(e))
  {
    var c := Columns(e);
    assert NoSpace(c[2]) && IsSpace('\n');
    FieldsOfTabJoin(c);
    TabJoinWithout(c, '\n');
    assert NonEmpty(c) == [c[0], c[1]] + NonEmpty(c[2..]) by { DropTwo(c); }
    assert NonEmpty(c[3..]) == c[3..] by { KeepThree(c[3..]); }
    assert c[2..][1..] == c[3..];
    assert NonEmpty(c) == if e.flag == "R" then c else c[..2] + c[3..];
  }

  lemma DropTwo(c: seq<string>)
    requires |c| > 2 && c[0] != "" && c[1] != ""
    ensures NonEmpty(c) == [c[0], c[1]] + NonEmpty(c[2..])
  {
    assert c[1..][1..] == c[2..];
  }

  lemma KeepThree(c: seq<string>)
    requires |c| == 3 && c[0] != "" && c[1] != "" && c[2] != ""
    ensures NonEmpty(c) == c
  {
    DropTwo(c);
    assert NonEmpty(c[2..]) == [c[2]] + NonEmpty(c[2..][1..]);
  }

  function KeepExact(es: seq<IndexEntry>): seq<IndexEntry> {
    if es == [] then [] else (if ExactFlag(es[0]) then [es[0]] else []) + KeepExact(es[1..])
  }

  /** A rewrite of a parsed index keeps every V, R and E entry in order and drops exactly the others. */
  lemma {:induction false} RewriteKeepsExact(es: seq<IndexEntry>)
    requires forall e :: e in es ==> Shaped(e)
    ensures Parse(Render(es)) == KeepExact(es)
  {
    if es == [] {
      SplitNone("", '\n');
      assert Fields("") == [];
      assert ParseLines([""]) == ParseLines([""][1..]);
    } else {
      RewriteKeepsExact(es[1..]);
      var e := es[0];
      if ExactFlag(e) {
        LineParsesBack(e);
        var line := TabJoin(Columns(e));
        assert Render(es) == line + ['\n'] + Render(es[1..]);
        SplitFirst(line, '\n', Render(es[1..]));
        var lines := Split(Render(es), '\n');
        assert lines[1..] == Split(Render(es[1..]), '\n');
      } else {
        assert Render(es) == Render(es[1..]);
      }
    }
  }

  /** Parsing a render gives the entries back exactly when all of them are well formed. */
  lemma RoundTripExact(es: seq<IndexEntry>)
    ensures Parse(Render(es)) == es <==> forall e :: e in es ==> WellFormed(e)
  {
    if forall e :: e in es ==> WellFormed(e) {
      RewriteKeepsExact(es);
      KeepExactAll(es);
    }
    if Parse(Render(es)) == es {
      forall e | e in es ensures Shaped(e) { ParsedAreShaped(Split(Render(es), '\n'), e); }
      RewriteKeepsExact(es);
      KeepExactAll(es);
    }
  }

  lemma {:induction false} KeepExactAll(es: seq<IndexEntry>)
    ensures |KeepExact(es)| <= |es|
    ensures KeepExact(es) == es <==> forall e :: e in es ==> ExactFlag(e)
  {
    if es != [] {
      KeepExactAll(es[1..]);
      assert es == [es[0]] + es[1..];
      if KeepExact(es) == es {
        assert ExactFlag(es[0]);
        assert KeepExact(es)[1..] == es[1..];
      }
    }
  }
}
