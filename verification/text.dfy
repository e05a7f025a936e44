/** Text operations: splitting on a character, joining, and the Unicode-dependent steps,
    which are parameters because their tables are not part of this model. */
module Texts {

  /** `s.split(sep)`: always at least one piece. */
  function Split(s: string, sep: char): (pieces: seq<string>)
    ensures |pieces| >= 1
    ensures forall p <- pieces :: sep !in p
  {
    if s == "" then [""]
    else
      var rest := Split(s[1..], sep);
      if s[0] == sep then [""] + rest else [[s[0]] + rest[0]] + rest[1..]
  }

  /** `sep.join(pieces)`. */
  function Join(pieces: seq<string>, sep: char): string
    requires |pieces| >= 1
  {
    if |pieces| == 1 then pieces[0] else pieces[0] + [sep] + Join(pieces[1..], sep)
  }

  lemma {:induction false} JoinOfSplit(s: string, sep: char)
    ensures Join(Split(s, sep), sep) == s
  {
    if s != "" {
      JoinOfSplit(s[1..], sep);
      var rest := Split(s[1..], sep);
      if s[0] == sep {
        assert ([""] + rest)[1..] == rest;
        assert s == [sep] + s[1..];
      } else {
        var pieces := [[s[0]] + rest[0]] + rest[1..];
        assert pieces[1..] == rest[1..];
        assert s == [s[0]] + s[1..];
        assert Join(pieces, sep) == [s[0]] + Join(rest, sep);
      }
    }
  }

  lemma {:induction false} SplitOfPiece(p: string, sep: char)
    requires sep !in p
    ensures Split(p, sep) == [p]
  {
    if p != "" {
      SplitOfPiece(p[1..], sep);
      assert p[0] in p && forall c <- p[1..] :: c in p;
      assert [p[0]] + p[1..] == p;
    }
  }

  lemma {:induction false} SplitAt(p: string, rest: string, sep: char)
    requires sep !in p
    ensures Split(p + [sep] + rest, sep) == [p] + Split(rest, sep)
  {
    var s := p + [sep] + rest;
    if p == "" {
      assert s[1..] == rest;
    } else {
      SplitAt(p[1..], rest, sep);
      assert s[1..] == p[1..] + [sep] + rest;
      assert p[0] in p;
      assert Split(s[1..], sep)[0] == p[1..] && Split(s[1..], sep)[1..] == Split(rest, sep);
      assert p == [p[0]] + p[1..];
    }
  }

  lemma {:induction false} SplitOfJoin(pieces: seq<string>, sep: char)
    requires |pieces| >= 1 && forall p <- pieces :: sep !in p
    ensures Split(Join(pieces, sep), sep) == pieces
  {
    if |pieces| == 1 {
      SplitOfPiece(pieces[0], sep);
    } else {
      SplitOfJoin(pieces[1..], sep);
      SplitAt(pieces[0], Join(pieces[1..], sep), sep);
    }
  }

  function IsAscii(s: string): bool { forall c <- s :: c as int < 128 }

  predicate LabelChar(c: char) {
    'a' <= c <= 'z' || '0' <= c <= '9' || c == '-' || c == '_'
  }

  /** Characters of a validated name. */
  predicate Plain(s: string) {
    forall c <- s :: LabelChar(c) || c == '.' || c == '*'
  }

  /** `str.lower` on ASCII text. */
  function AsciiLower(s: string): (r: string)
    ensures |r| == |s|
    ensures forall i :: 0 <= i < |s| ==> r[i] == if 'A' <= s[i] <= 'Z' then s[i] + 32 as char else s[i]
  {
    if s == "" then "" else [if 'A' <= s[0] <= 'Z' then s[0] + 32 as char else s[0]] + AsciiLower(s[1..])
  }

  /** The Unicode tables behind `str.lower`, `str.isspace`, the regular-expression word class
      and the IDNA encoding of one label (the label itself where encoding fails). */
  datatype Text = Text(
    lower: string -> string,
    isSpace: char -> bool,
    isWord: char -> bool,
    idna: string -> string)
  {
    /** All that is assumed of the tables; nothing is assumed of `idna`. */
    ghost predicate Lawful() {
      && (forall s :: Plain(s) ==> lower(s) == s)
      && (forall s :: IsAscii(s) ==> lower(s) == AsciiLower(s))
      && (forall c :: LabelChar(c) || c == '.' || c == '*' ==> !isSpace(c))
      && (forall c :: 'a' <= c <= 'z' || 'A' <= c <= 'Z' || '0' <= c <= '9' || c == '_' ==> isWord(c))
      && (forall c <- "()`'\",!&| " :: !isWord(c))
      && (forall c <- "()`'\",!&|" :: !isSpace(c))
      && (forall c :: 'A' <= c <= 'Z' ==> !isSpace(c))
      && isSpace(' ')
    }

    function LStrip(s: string): (r: string)
      ensures |r| <= |s|
    {
      if s != "" && isSpace(s[0]) then LStrip(s[1..]) else s
    }

    function RStrip(s: string): (r: string)
      ensures |r| <= |s|
    {
      if s != "" && isSpace(s[|s| - 1]) then RStrip(s[..|s| - 1]) else s
    }

    function Strip(s: string): string { RStrip(LStrip(s)) }

    lemma StripFixpoint(s: string)
      requires s == "" || (!isSpace(s[0]) && !isSpace(s[|s| - 1]))
      ensures Strip(s) == s
    {
    }

    lemma StripOfBlank(s: string)
      requires isSpace(' ') && s != "" && !isSpace(s[0]) && !isSpace(s[|s| - 1])
      ensures Strip(" " + s) == s
    {
      var t := " " + s;
      assert t[0] == ' ' && t[1..] == s;
      assert LStrip(t) == LStrip(s) == s;
    }
  }

  /** What stripping leaves, and of what. */
  lemma StripTrims(tx: Text, s: string)
    ensures tx.Strip(s) == "" || (!tx.isSpace(tx.Strip(s)[0]) && !tx.isSpace(tx.Strip(s)[|tx.Strip(s)| - 1]))
    ensures tx.Strip(s) != "" && !tx.isSpace(s[0]) ==> tx.Strip(s) <= s
    ensures |tx.Strip(s)| <= |s|
  {
    LStripTrims(tx, s);
    RStripTrims(tx, tx.LStrip(s));
  }

  lemma {:induction false} LStripTrims(tx: Text, s: string)
    ensures tx.LStrip(s) == "" || !tx.isSpace(tx.LStrip(s)[0])
  {
    if s != "" && tx.isSpace(s[0]) {
      LStripTrims(tx, s[1..]);
    }
  }

  lemma {:induction false} RStripTrims(tx: Text, s: string)
    ensures tx.RStrip(s) <= s
    ensures tx.RStrip(s) == "" || !tx.isSpace(tx.RStrip(s)[|tx.RStrip(s)| - 1])
  {
    if s != "" && tx.isSpace(s[|s| - 1]) {
      RStripTrims(tx, s[..|s| - 1]);
    }
  }

  predicate AllSpace(tx: Text, s: string) { forall c <- s :: tx.isSpace(c) }

  lemma {:induction false} LStripTakesBlanks(tx: Text, s: string)
    ensures var n := |s| - |tx.LStrip(s)|; s[n..] == tx.LStrip(s) && AllSpace(tx, s[..n])
  {
    if s != "" && tx.isSpace(s[0]) {
      LStripTakesBlanks(tx, s[1..]);
      var n := |s| - |tx.LStrip(s)|;
      assert s[..n] == [s[0]] + s[1..][..n - 1] && s[n..] == s[1..][n - 1..];
    } else {
      assert s[0..] == s;
    }
  }

  lemma {:induction false} RStripTakesBlanks(tx: Text, s: string)
    ensures tx.RStrip(s) <= s && AllSpace(tx, s[|tx.RStrip(s)|..])
  {
    if s != "" && tx.isSpace(s[|s| - 1]) {
      var before, n := s[..|s| - 1], |tx.RStrip(s)|;
      RStripTakesBlanks(tx, before);
      assert s[n..] == before[n..] + [s[|s| - 1]];
    }
  }

  /** Stripping takes away blanks and nothing else, and takes them all away at both ends. */
  lemma StripExactly(tx: Text, s: string)
    ensures exists i, j :: 0 <= i <= j <= |s| && tx.Strip(s) == s[i..j] && AllSpace(tx, s[..i]) && AllSpace(tx, s[j..])
                           && (i < j ==> !tx.isSpace(s[i]) && !tx.isSpace(s[j - 1]))
  {
    LStripTakesBlanks(tx, s);
    RStripTakesBlanks(tx, tx.LStrip(s));
    StripTrims(tx, s);
    var i := |s| - |tx.LStrip(s)|;
    var j := i + |tx.Strip(s)|;
    assert tx.Strip(s) == s[i..j] && s[j..] == tx.LStrip(s)[|tx.Strip(s)|..];
    assert i < j ==> s[i] == tx.Strip(s)[0] && s[j - 1] == tx.Strip(s)[|tx.Strip(s)| - 1];
  }

  /** Tables for ASCII alone. */
  const ASCII_ONLY := Text(
    s => AsciiLower(s),
    c => c in {' ', '\t', '\n', '\r'},
    c => 'a' <= c <= 'z' || 'A' <= c <= 'Z' || '0' <= c <= '9' || c == '_',
    s => s)

  /** The assumptions about the tables can be met together. */
  lemma LawsCanHold()
    ensures ASCII_ONLY.Lawful()
  {
    forall c | c in "()`'\",!&| " ensures !ASCII_ONLY.isWord(c) {
    }
    forall s | Plain(s) ensures ASCII_ONLY.lower(s) == s {
      assert forall i :: 0 <= i < |s| ==> s[i] in s;
    }
  }
}
