/** Name normalisation and validation. */
module Names {
  import opened Prelude
  import opened Texts

  const WILDCARD_PREFIX := "*."
  const MAX_NAME_LENGTH := 253
  const MAX_LABEL_LENGTH := 63
  const MDNS_SUFFIX := "local"
  const HSTS_PRELOADED_TLDS: set<string> := {
    "app", "bank", "boo", "channel", "dad", "day", "dev", "esq", "foo", "gle", "google", "hangout", "how",
    "ing", "insurance", "meme", "mov", "new", "nexus", "page", "phd", "prof", "rsvp", "search", "soy", "zip"
  }

  function RStripDots(s: string): (r: string)
    ensures r <= s && forall i :: |r| <= i < |s| ==> s[i] == '.'
    ensures r == "" || r[|r| - 1] != '.'
  {
    if s != "" && s[|s| - 1] == '.' then RStripDots(s[..|s| - 1]) else s
  }

  /** Pure-ASCII labels are left untouched. */
  function EncodeLabel(tx: Text, lbl: string): string {
    if IsAscii(lbl) then lbl else tx.idna(lbl)
  }

  function EncodeLabels(tx: Text, labels: seq<string>): (r: seq<string>)
    ensures |r| == |labels|
    ensures forall i :: 0 <= i < |labels| ==> r[i] == EncodeLabel(tx, labels[i])
  {
    seq(|labels|, i requires 0 <= i < |labels| => EncodeLabel(tx, labels[i]))
  }

  predicate IsWildcard(name: string) { WILDCARD_PREFIX <= name }

  function ApexOf(name: string): string {
    if IsWildcard(name) then name[2..] else name
  }

  function Normalise(tx: Text, raw: string): string {
    var name := RStripDots(tx.lower(tx.Strip(raw)));
    if name == "" then ""
    else
      var encoded := Join(EncodeLabels(tx, Split(ApexOf(name), '.')), '.');
      if IsWildcard(name) then WILDCARD_PREFIX + encoded else encoded
  }

  datatype Issue =
    | ErrorEmpty | ErrorWildcardBare | ErrorWildcardPosition | ErrorTooLong | ErrorEmptyLabel
    | ErrorLabelTooLong(lbl: string) | ErrorLabelHyphen(lbl: string) | ErrorLabelChars(lbl: string)
    | ErrorSingleLabel
    | WarnMdns(suggested: string) | WarnHstsTld(tld: string) | WarnWildcardApex(apex: string)

  datatype Validation = Validation(name: string, error: Option<Issue>, warnings: seq<Issue>) {
    predicate Ok() { error.None? }
  }

  function LabelIssue(lbl: string): Option<Issue> {
    if lbl == "" then Some(ErrorEmptyLabel)
    else if |lbl| > MAX_LABEL_LENGTH then Some(ErrorLabelTooLong(lbl))
    else if lbl[0] == '-' || lbl[|lbl| - 1] == '-' then Some(ErrorLabelHyphen(lbl))
    else if exists c <- lbl :: !LabelChar(c) then Some(ErrorLabelChars(lbl))
    else None
  }

  /** The issue of the first label that has one. */
  function LabelsIssue(labels: seq<string>): (r: Option<Issue>)
    ensures r.None? <==> forall lbl <- labels :: LabelIssue(lbl).None?
  {
    if labels == [] then None
    else if LabelIssue(labels[0]).Some? then LabelIssue(labels[0])
    else LabelsIssue(labels[1..])
  }

  function Warnings(name: string, labels: seq<string>): seq<Issue>
    requires |labels| >= 2
  {
    var tld := labels[|labels| - 1];
    (if tld == MDNS_SUFFIX then [WarnMdns(labels[|labels| - 2] + ".test")]
     else if tld in HSTS_PRELOADED_TLDS then [WarnHstsTld(tld)]
     else [])
    + (if IsWildcard(name) then [WarnWildcardApex(ApexOf(name))] else [])
  }

  function Validate(tx: Text, raw: string): Validation {
    var name := Normalise(tx, raw);
    if name == "" then Validation("", Some(ErrorEmpty), [])
    else if name == "*" then Validation(name, Some(ErrorWildcardBare), [])
    else if '*' in ApexOf(name) then Validation(name, Some(ErrorWildcardPosition), [])
    else if |name| > MAX_NAME_LENGTH then Validation(name, Some(ErrorTooLong), [])
    else
      var labels := Split(ApexOf(name), '.');
      if LabelsIssue(labels).Some? then Validation(name, LabelsIssue(labels), [])
      else if |labels| < 2 then Validation(name, Some(ErrorSingleLabel), [])
      else Validation(name, None, Warnings(name, labels))
  }

  predicate GoodLabel(l: string) {
    1 <= |l| <= MAX_LABEL_LENGTH && l[0] != '-' && l[|l| - 1] != '-' && forall c <- l :: LabelChar(c)
  }

  /** `name` is spelled by `labels`, below a star or not. */
  predicate SpelledBy(name: string, labels: seq<string>) {
    |labels| >= 2 && (forall l <- labels :: GoodLabel(l))
    && (name == Join(labels, '.') || name == WILDCARD_PREFIX + Join(labels, '.'))
  }

  /** What a name that can work looks like, said without reference to the checks above. */
  ghost predicate WellFormed(name: string) {
    |name| <= MAX_NAME_LENGTH && exists labels :: SpelledBy(name, labels)
  }

  lemma {:induction false} JoinOfLabels(labels: seq<string>)
    requires |labels| >= 1
    requires forall l <- labels :: GoodLabel(l)
    ensures var j := Join(labels, '.');
            |j| >= 1 && LabelChar(j[0]) && LabelChar(j[|j| - 1])
            && Plain(j) && '*' !in j
  {
    assert GoodLabel(labels[0]);
    if |labels| > 1 {
      JoinOfLabels(labels[1..]);
    }
  }

  /** The parts of a spelled name, as the normaliser and the validator take them apart. */
  lemma SpellingIsUnique(name: string, labels: seq<string>)
    requires SpelledBy(name, labels)
    ensures ApexOf(name) == Join(labels, '.') && Split(ApexOf(name), '.') == labels
    ensures Plain(name) && '*' !in ApexOf(name) && name != "" && name != "*"
    ensures LabelChar(name[|name| - 1]) && (LabelChar(name[0]) || name[0] == '*')
  {
    JoinOfLabels(labels);
    var body := Join(labels, '.');
    assert name != body ==> name[2..] == body;
    forall l | l in labels ensures '.' !in l {
      assert GoodLabel(l);
    }
    SplitOfJoin(labels, '.');
  }

  lemma {:induction false} PlainIsAscii(s: string)
    requires Plain(s)
    ensures IsAscii(s)
  {
  }

  /** A well-formed name has no other spelling: normalising it changes nothing. */
  lemma WellFormedIsFixpoint(tx: Text, name: string)
    requires tx.Lawful() && WellFormed(name)
    ensures Normalise(tx, name) == name
  {
    var labels :| SpelledBy(name, labels);
    SpellingIsUnique(name, labels);
    tx.StripFixpoint(name);
    assert RStripDots(name) == name;
    forall i | 0 <= i < |labels| ensures EncodeLabel(tx, labels[i]) == labels[i] {
      assert GoodLabel(labels[i]);
      assert Plain(labels[i]);
      PlainIsAscii(labels[i]);
    }
    assert EncodeLabels(tx, labels) == labels;
    assert IsWildcard(name) ==> name == WILDCARD_PREFIX + name[2..];
  }

  lemma GoodLabelHasNoIssue(l: string)
    ensures GoodLabel(l) <==> LabelIssue(l).None?
  {
  }

  lemma AcceptedIsWellFormed(tx: Text, raw: string)
    requires Validate(tx, raw).Ok()
    ensures WellFormed(Normalise(tx, raw))
  {
    var name := Normalise(tx, raw);
    var split := Split(ApexOf(name), '.');
    forall l | l in split ensures GoodLabel(l) {
      GoodLabelHasNoIssue(l);
    }
    JoinOfSplit(ApexOf(name), '.');
    assert IsWildcard(name) ==> name == WILDCARD_PREFIX + name[2..];
    assert SpelledBy(name, split);
  }

  lemma WellFormedIsAccepted(tx: Text, raw: string)
    requires WellFormed(Normalise(tx, raw))
    ensures Validate(tx, raw).Ok()
  {
    var name := Normalise(tx, raw);
    var labels :| SpelledBy(name, labels);
    SpellingIsUnique(name, labels);
    forall l | l in labels ensures LabelIssue(l).None? {
      GoodLabelHasNoIssue(l);
    }
  }

  /** Validation accepts exactly the inputs whose normal form is well formed. */
  lemma ValidExactlyWellFormed(tx: Text, raw: string)
    ensures Validate(tx, raw).Ok() <==> WellFormed(Normalise(tx, raw))
    ensures Validate(tx, raw).name == Normalise(tx, raw)
  {
    if Validate(tx, raw).Ok() {
      AcceptedIsWellFormed(tx, raw);
    }
    if WellFormed(Normalise(tx, raw)) {
      WellFormedIsAccepted(tx, raw);
    }
  }

  /** Validating a validated name accepts it unchanged. */
  lemma ValidatedIsFixpoint(tx: Text, raw: string)
    requires tx.Lawful() && Validate(tx, raw).Ok()
    ensures Normalise(tx, Validate(tx, raw).name) == Validate(tx, raw).name
    ensures Validate(tx, Validate(tx, raw).name) == Validate(tx, raw)
  {
    ValidExactlyWellFormed(tx, raw);
    WellFormedIsFixpoint(tx, Normalise(tx, raw));
  }

  // ---- when normalising is final ----

  /** What is left of a raw string before its labels are encoded. */
  function Trimmed(tx: Text, raw: string): string { RStripDots(tx.lower(tx.Strip(raw))) }

  lemma EncodingKeepsAscii(tx: Text, name: string)
    requires IsAscii(name)
    ensures Join(EncodeLabels(tx, Split(name, '.')), '.') == name
  {
    var labels := Split(name, '.');
    JoinOfSplit(name, '.');
    forall i | 0 <= i < |labels| ensures EncodeLabel(tx, labels[i]) == labels[i] {
      PiecesAreParts(name, '.', labels[i]);
    }
    assert EncodeLabels(tx, labels) == labels;
  }

  lemma {:induction false} PiecesAreParts(s: string, sep: char, piece: string)
    requires piece in Split(s, sep)
    ensures forall c <- piece :: c in s
  {
    if s != "" {
      var rest := Split(s[1..], sep);
      assert forall c <- s[1..] :: c in s;
      if piece in rest {
        PiecesAreParts(s[1..], sep, piece);
      } else if piece != "" {
        assert piece == [s[0]] + rest[0] && rest[0] in rest;
        PiecesAreParts(s[1..], sep, rest[0]);
      }
    }
  }

  /** Over ASCII text the encoding is the identity, so the normal form is what was trimmed. */
  lemma NormaliseIsTrimmed(tx: Text, raw: string)
    requires IsAscii(Trimmed(tx, raw))
    ensures Normalise(tx, raw) == Trimmed(tx, raw)
  {
    var name := Trimmed(tx, raw);
    if name != "" {
      var apex := ApexOf(name);
      assert forall c <- apex :: c in name;
      EncodingKeepsAscii(tx, apex);
      assert IsWildcard(name) ==> name == WILDCARD_PREFIX + name[2..];
    }
  }

  lemma {:induction false} RStripDotsIsAPart(s: string)
    ensures RStripDots(s) <= s
  {
    if s != "" && s[|s| - 1] == '.' {
      RStripDotsIsAPart(s[..|s| - 1]);
    }
  }

  lemma LowerShape(text: string)
    requires IsAscii(text)
    ensures IsAscii(AsciiLower(text)) && forall c <- AsciiLower(text) :: !('A' <= c <= 'Z')
  {
    var low := AsciiLower(text);
    forall i | 0 <= i < |low| ensures low[i] as int < 128 && !('A' <= low[i] <= 'Z') {
      assert text[i] in text;
    }
  }

  lemma LowerKeepsInk(tx: Text, text: string)
    requires tx.Lawful() && text != "" && !tx.isSpace(text[0])
    ensures !tx.isSpace(AsciiLower(text)[0])
  {
    if 'A' <= text[0] <= 'Z' {
      assert LabelChar(AsciiLower(text)[0]);
    }
  }

  lemma PrefixShape(low: string, r: string)
    requires r <= low && IsAscii(low) && forall c <- low :: !('A' <= c <= 'Z')
    ensures IsAscii(r) && forall c <- r :: !('A' <= c <= 'Z')
  {
    assert forall c <- r :: c in low;
  }

  /** ASCII text comes out of the trimming in lower case, and with no blank in front. */
  lemma TrimmedShape(tx: Text, raw: string)
    requires tx.Lawful() && IsAscii(tx.Strip(raw))
    ensures var r := Trimmed(tx, raw);
            && IsAscii(r) && (forall c <- r :: !('A' <= c <= 'Z')) && (r != "" ==> !tx.isSpace(r[0]) && r[|r| - 1] != '.')
  {
    var text := tx.Strip(raw);
    StripTrims(tx, raw);
    LowerShape(text);
    if text != "" { LowerKeepsInk(tx, text); }
    RStripDotsIsAPart(AsciiLower(text));
    PrefixShape(AsciiLower(text), RStripDots(AsciiLower(text)));
  }

  lemma LowerCaseStays(tx: Text, s: string)
    requires tx.Lawful() && IsAscii(s) && forall c <- s :: !('A' <= c <= 'Z')
    ensures tx.lower(s) == s
  {
    assert forall i :: 0 <= i < |s| ==> s[i] in s;
    assert AsciiLower(s) == s;
  }

  /** Normalising settles at once exactly if no blank had been hidden behind the final dots: for
      every raw string that is ASCII once it is stripped. */
  lemma NormaliseSettlesExactly(tx: Text, raw: string)
    requires tx.Lawful() && IsAscii(tx.Strip(raw))
    ensures var r := Trimmed(tx, raw);
            Normalise(tx, Normalise(tx, raw)) == Normalise(tx, raw) <==> r == "" || !tx.isSpace(r[|r| - 1])
  {
    var r := Trimmed(tx, raw);
    TrimmedShape(tx, raw);
    NormaliseIsTrimmed(tx, raw);
    var again := tx.Strip(r);
    StripTrims(tx, r);
    assert again <= r;
    assert forall c <- again :: c in r;
    LowerCaseStays(tx, again);
    RStripDotsIsAPart(again);
    assert forall c <- RStripDots(again) :: c in again;
    NormaliseIsTrimmed(tx, r);
    if r != "" && !tx.isSpace(r[|r| - 1]) {
      tx.StripFixpoint(r);
      assert RStripDots(r) == r;
    }
  }

  lemma HiddenBlankUnsettles(tx: Text, raw: string, r: string)
    requires tx.Lawful() && IsAscii(tx.Strip(raw)) && Trimmed(tx, raw) == r && r != "" && tx.isSpace(r[|r| - 1])
    ensures Normalise(tx, raw) == r && Normalise(tx, r) == Trimmed(tx, r) != r
  {
    TrimmedShape(tx, raw);
    NormaliseIsTrimmed(tx, raw);
    NormaliseSettlesExactly(tx, raw);
    StripTrims(tx, r);
    assert forall c <- tx.Strip(r) :: c in r;
    TrimmedShape(tx, r);
    NormaliseIsTrimmed(tx, r);
  }

  /** Such a string: the dot hides a blank from the strip, and a second pass takes more away. */
  lemma NormaliseIsNotIdempotent(tx: Text)
    requires tx.Lawful()
    ensures Normalise(tx, "a. .") == "a. "
    ensures Normalise(tx, "a. ") == "a"
  {
    HiddenBlankOnce(tx);
    HiddenBlankTwice(tx);
    HiddenBlankUnsettles(tx, "a. .", "a. ");
  }

  /** A lower-case text and a dot that hides how it ends. */
  lemma DotHides(tx: Text, s: string)
    requires tx.Lawful() && IsAscii(s) && (forall c <- s :: !('A' <= c <= 'Z'))
    requires s != "" && !tx.isSpace(s[0]) && s[|s| - 1] != '.'
    ensures IsAscii(tx.Strip(s + ".")) && Trimmed(tx, s + ".") == s
  {
    var raw := s + ".";
    tx.StripFixpoint(raw);
    assert forall c <- raw :: c in s || c == '.';
    LowerCaseStays(tx, raw);
    assert raw[..|s|] == s && RStripDots(s) == s;
    assert RStripDots(raw) == RStripDots(s);
  }

  lemma HiddenBlankOnce(tx: Text)
    requires tx.Lawful()
    ensures IsAscii(tx.Strip("a. .")) && Trimmed(tx, "a. .") == "a. "
  {
    assert LabelChar('a') && "a. " + "." == "a. .";
    DotHides(tx, "a. ");
  }

  lemma HiddenBlankTwice(tx: Text)
    requires tx.Lawful()
    ensures Trimmed(tx, "a. ") == "a"
  {
    assert LabelChar('a');
    assert tx.LStrip("a. ") == "a. " && "a. "[..2] == "a." && tx.RStrip("a.") == "a.";
    assert tx.Strip("a. ") == "a.";
    LowerCaseStays(tx, "a.");
    assert "a."[..1] == "a" && RStripDots("a") == "a";
  }
}
