/** How OpenVPN takes a line of a configuration file or of its management console apart. */
module CommandLine {
  import opened Text

  /** The words of a line: blanks separate them, double quotes hold them together, and a word that begins with a comment
      sign ends the line. */
  function Words(s: string): seq<string>
    decreases |s|
  {
    if s == "" then []
    else if s[0] == ' ' then Words(s[1..])
    else if s[0] == '#' || s[0] == ';' then []
    else if s[0] == '"' then
      var n := IndexOf(s[1..], '"');
      [s[1..][..n]] + if n + 1 < |s| then Words(s[n + 2..]) else []
    else
      var n := IndexOf(s, ' ');
      [s[..n]] + Words(s[n..])
  }

  ghost predicate OneLine(s: string) {
    '\n' !in s && '\r' !in s
  }

  /** The text is one line with these words. */
  ghost predicate Reads(text: string, words: seq<string>) {
    text != "" && text[|text| - 1] == '\n' && OneLine(text[..|text| - 1]) && Words(text[..|text| - 1]) == words
  }

  predicate Plain(w: string) {
    w != "" && ' ' !in w && '"' !in w && w[0] != '#' && w[0] != ';'
  }

  lemma WordsFirst(w: string, rest: string)
    requires Plain(w)
    ensures Words(w + [' '] + rest) == [w] + Words(rest)
  {
    var s := w + [' '] + rest;
    IndexOfFirst(w, ' ', rest);
    assert s[0] == w[0] && s[..|w|] == w && s[|w|..] == [' '] + rest;
    assert ([' '] + rest)[1..] == rest;
  }

  lemma WordsOnly(w: string)
    requires Plain(w)
    ensures Words(w) == [w]
  {
    IndexOfNone(w, ' ');
    assert w[..|w|] == w && w[|w|..] == "";
  }

  lemma WordsQuoted(w: string)
    requires '"' !in w
    ensures Words(['"'] + w + ['"']) == [w]
  {
    var s := ['"'] + w + ['"'];
    assert s[1..] == w + ['"'] + "";
    IndexOfFirst(w, '"', "");
    assert s[1..][..|w|] == w && s[|w| + 2..] == "";
  }

  lemma JoinedOneLine(a: string, b: string)
    requires OneLine(a) && OneLine(b)
    ensures OneLine(a + [' '] + b)
  {}

  lemma LineReads(line: string)
    requires OneLine(line)
    ensures Reads(line + ['\n'], Words(line))
  {
    assert (line + ['\n'])[..|line|] == line;
  }

  lemma WordsTwo(a: string, b: string, last: string)
    requires Plain(a) && Plain(b)
    ensures Words(a + [' '] + (b + [' '] + last)) == [a, b] + Words(last)
  {
    WordsFirst(a, b + [' '] + last);
    WordsFirst(b, last);
    assert [a] + ([b] + Words(last)) == [a, b] + Words(last);
  }

  lemma TwoBefore(a: string, b: string, last: string)
    requires Plain(a) && Plain(b) && OneLine(a) && OneLine(b) && OneLine(last)
    ensures Reads(a + [' '] + (b + [' '] + last) + ['\n'], [a, b] + Words(last))
  {
    JoinedOneLine(b, last);
    JoinedOneLine(a, b + [' '] + last);
    WordsTwo(a, b, last);
    LineReads(a + [' '] + (b + [' '] + last));
  }

  lemma ThreeWords(a: string, b: string, c: string)
    requires Plain(a) && Plain(b) && Plain(c) && OneLine(a) && OneLine(b) && OneLine(c)
    ensures Reads(a + [' '] + b + [' '] + c + ['\n'], [a, b, c])
  {
    assert a + [' '] + b + [' '] + c + ['\n'] == a + [' '] + (b + [' '] + c) + ['\n'];
    WordsOnly(c);
    TwoBefore(a, b, c);
  }

  lemma Reassociated(a: string, b: string, c: string, q: string)
    ensures a + [' '] + b + [' '] + c + [' ', '"'] + q + ['"', '\n'] ==
            a + [' '] + (b + [' '] + (c + [' '] + (['"'] + q + ['"']))) + ['\n']
  {}

  lemma LastAndQuoted(c: string, q: string)
    requires Plain(c) && OneLine(c) && '"' !in q && OneLine(q)
    ensures Words(c + [' '] + (['"'] + q + ['"'])) == [c, q] && OneLine(c + [' '] + (['"'] + q + ['"']))
  {
    WordsFirst(c, ['"'] + q + ['"']);
    WordsQuoted(q);
  }

  lemma ThreeWordsAndQuoted(a: string, b: string, c: string, q: string)
    requires Plain(a) && Plain(b) && Plain(c) && OneLine(a) && OneLine(b) && OneLine(c) && '"' !in q && OneLine(q)
    ensures Reads(a + [' '] + b + [' '] + c + [' ', '"'] + q + ['"', '\n'], [a, b, c, q])
  {
    Reassociated(a, b, c, q);
    LastAndQuoted(c, q);
    TwoBefore(a, b, c + [' '] + (['"'] + q + ['"']));
  }
}
