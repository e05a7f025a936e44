/** Printed rules read back: the tokeniser finds exactly the host values of a rule. */
module RulePrinting {
  import opened Prelude
  import opened Texts
  import opened Rules

  datatype Value = Value(quote: char, text: string)

  /** The predicates that name hosts, and those that match them by a regular expression. */
  datatype Kind = Sni | Header | Host | HostRegexp | SniRegexp

  function NameOf(kind: Kind): string {
    match kind
    case Sni => "HostSNI"
    case Header => "HostHeader"
    case Host => "Host"
    case HostRegexp => "HostRegexp"
    case SniRegexp => "HostSNIRegexp"
  }

  predicate IsRegexp(kind: Kind) { kind.HostRegexp? || kind.SniRegexp? }

  /** Where the tokeniser's list has it. */
  function Place(kind: Kind): (i: nat)
    ensures i < |PREDICATES| && PREDICATES[i] == (NameOf(kind), IsRegexp(kind))
  {
    match kind
    case Sni => 0
    case Header => 1
    case Host => 2
    case HostRegexp => 3
    case SniRegexp => 4
  }

  /** A rule as a tree. */
  datatype Rule =
    | Both(left: Rule, right: Rule, grouped: bool)
    | Either(left: Rule, right: Rule, grouped: bool)
    | Not(operand: Rule)
    | Predicate(kind: Kind, values: seq<Value>)
    | Other(text: string)

  function Grouped(text: string, grouped: bool): string { if grouped then "(" + (text + ")") else text }

  function Quoted(v: Value): string { [v.quote] + (v.text + [v.quote]) }

  function PrintValues(values: seq<Value>): string {
    if values == [] then ""
    else if |values| == 1 then Quoted(values[0])
    else Quoted(values[0]) + (", " + PrintValues(values[1..]))
  }

  function Print(rule: Rule): string {
    match rule
    case Both(left, right, grouped) => Grouped(Print(left) + (" && " + Print(right)), grouped)
    case Either(left, right, grouped) => Grouped(Print(left) + (" || " + Print(right)), grouped)
    case Not(operand) => "!" + Print(operand)
    case Predicate(kind, values) => NameOf(kind) + ("(" + (PrintValues(values) + ")"))
    case Other(text) => text
  }

  function TextsOf(values: seq<Value>): seq<string> {
    if values == [] then [] else [values[0].text] + TextsOf(values[1..])
  }

  /** The values of the host predicates, or of the regular-expression ones, from left to right. */
  function ValuesOf(rule: Rule, regexp: bool): seq<string> {
    match rule
    case Both(left, right, _) => ValuesOf(left, regexp) + ValuesOf(right, regexp)
    case Either(left, right, _) => ValuesOf(left, regexp) + ValuesOf(right, regexp)
    case Not(operand) => ValuesOf(operand, regexp)
    case Predicate(kind, values) => if IsRegexp(kind) == regexp then TextsOf(values) else []
    case Other(_) => []
  }

  predicate GoodValue(tx: Text, v: Value) {
    v.quote in QUOTES && v.quote !in v.text && v.text != ""
    && !tx.isSpace(v.text[0]) && !tx.isSpace(v.text[|v.text| - 1])
  }

  /** No host predicate starts anywhere in `t`. */
  predicate Quiet(tx: Text, inWord: bool, t: string)
    decreases |t|
  {
    t == "" || (HitAt(tx, inWord, t).None? && Quiet(tx, tx.isWord(t[0]), t[1..]))
  }

  /** Values are quoted, trimmed and free of their own quote; other predicates are closed calls
      with no text of a host predicate in them. */
  predicate Printable(tx: Text, rule: Rule) {
    match rule
    case Both(left, right, _) => Printable(tx, left) && Printable(tx, right)
    case Either(left, right, _) => Printable(tx, left) && Printable(tx, right)
    case Not(operand) => Printable(tx, operand)
    case Predicate(_, values) => forall v <- values :: GoodValue(tx, v)
    case Other(text) => text != "" && text[|text| - 1] == ')' && Quiet(tx, false, text)
  }

  // ---- what is no predicate is passed over ----

  const GLUE := "()!&| "

  lemma {:induction false} GlueReads(tx: Text, glue: string, rest: string, regexp: bool)
    requires tx.Lawful() && forall c <- glue :: c in GLUE
    ensures Found(tx, false, glue + rest, regexp) == Found(tx, false, rest, regexp)
  {
    if glue == "" {
      assert glue + rest == rest;
    } else {
      var s := glue + rest;
      assert s[0] == glue[0] && glue[0] in glue && s[1..] == glue[1..] + rest;
      assert forall c <- glue[1..] :: c in glue;
      assert !tx.isWord(glue[0]);
      GlueReads(tx, glue[1..], rest, regexp);
    }
  }

  lemma {:induction false} BlanksLocal(tx: Text, t: string, rest: string)
    requires t != "" && !tx.isSpace(t[|t| - 1])
    ensures Blanks(tx, t + rest) == Blanks(tx, t) < |t|
  {
    assert (t + rest)[0] == t[0];
    if tx.isSpace(t[0]) {
      assert (t + rest)[1..] == t[1..] + rest;
      BlanksLocal(tx, t[1..], rest);
    }
  }

  /** Text that ends with a closing parenthesis is read the same whatever follows it. */
  lemma NamedLocal(tx: Text, name: string, t: string, rest: string)
    requires tx.Lawful() && ')' !in name && t != "" && t[|t| - 1] == ')'
    ensures Named(tx, name, t + rest) == Named(tx, name, t)
  {
    var s := t + rest;
    if |name| < |t| {
      assert s[..|name|] == t[..|name|] && s[|name|..] == t[|name|..] + rest;
      BlanksLocal(tx, t[|name|..], rest);
    } else {
      assert s[|t| - 1] == ')' && name[|t| - 1] in name;
    }
  }

  lemma {:induction false} FirstNamedLocal(tx: Text, names: seq<(string, bool)>, t: string, rest: string)
    requires tx.Lawful() && t != "" && t[|t| - 1] == ')' && forall n <- names :: n.0 != "" && ')' !in n.0
    ensures FirstNamed(tx, names, t + rest) == FirstNamed(tx, names, t)
  {
    if names != [] {
      assert names[0] in names && forall n <- names[1..] :: n in names;
      NamedLocal(tx, names[0].0, t, rest);
      FirstNamedLocal(tx, names[1..], t, rest);
    }
  }

  lemma NamesAreWords()
    ensures forall n <- PREDICATES :: n.0 != "" && ')' !in n.0
  {
    forall n | n in PREDICATES ensures n.0 != "" && ')' !in n.0 {
      var i := PlaceOf(PREDICATES, n);
      assert ')' !in "HostSNI" && ')' !in "HostHeader" && ')' !in "Host" && ')' !in "HostRegexp" && ')' !in "HostSNIRegexp";
    }
  }

  lemma HitLocal(tx: Text, inWord: bool, t: string, rest: string)
    requires tx.Lawful() && t != "" && t[|t| - 1] == ')'
    ensures HitAt(tx, inWord, t + rest) == HitAt(tx, inWord, t)
  {
    NamesAreWords();
    FirstNamedLocal(tx, PREDICATES, t, rest);
  }

  lemma {:induction false} OtherReads(tx: Text, inWord: bool, t: string, rest: string, regexp: bool)
    requires tx.Lawful() && t != "" && t[|t| - 1] == ')' && Quiet(tx, inWord, t)
    ensures Found(tx, inWord, t + rest, regexp) == Found(tx, false, rest, regexp)
    decreases |t|
  {
    var s := t + rest;
    HitLocal(tx, inWord, t, rest);
    assert s[0] == t[0] && s[1..] == t[1..] + rest;
    if |t| == 1 {
      assert t[1..] + rest == rest;
      assert t[0] == ')' && !tx.isWord(')');
    } else {
      OtherReads(tx, tx.isWord(t[0]), t[1..], rest, regexp);
    }
  }

  // ---- a predicate is recognised by its whole name ----

  lemma {:induction false} FirstNamedAt(tx: Text, names: seq<(string, bool)>, s: string, i: nat)
    requires i < |names| && Named(tx, names[i].0, s).Some?
    requires forall j :: 0 <= j < i ==> Named(tx, names[j].0, s).None?
    ensures FirstNamed(tx, names, s) == Some(Hit(Named(tx, names[i].0, s).value, names[i].1))
  {
    if i > 0 {
      FirstNamedAt(tx, names[1..], s, i - 1);
    }
  }

  /** `s` begins with the name of the predicate, blanks perhaps, and a parenthesis: `size` characters. */
  predicate Opens(tx: Text, s: string, kind: Kind, size: nat) {
    && NameOf(kind) <= s && |NameOf(kind)| < size <= |s| && s[size - 1] == '('
    && forall i :: |NameOf(kind)| <= i < size - 1 ==> tx.isSpace(s[i])
  }

  lemma NamedOpens(tx: Text, s: string, kind: Kind, size: nat)
    requires tx.Lawful()
    ensures Named(tx, NameOf(kind), s) == Some(size) <==> Opens(tx, s, kind, size)
  {
    var name := NameOf(kind);
    if name <= s {
      var tail := s[|name|..];
      assert forall i :: 0 <= i < |tail| ==> tail[i] == s[|name| + i];
      var n := Blanks(tx, tail);
      assert !tx.isSpace('(');
      if Opens(tx, s, kind, size) {
        assert n < |tail| ==> !tx.isSpace(tail[n]);
        assert tail[size - 1 - |name|] == '(';
        assert n <= size - 1 - |name|;
        assert forall i :: 0 <= i < size - 1 - |name| ==> tx.isSpace(tail[i]);
      }
    }
  }

  /** A text that differs from the name somewhere, or goes on with a capital after it. */
  lemma NotNamed(tx: Text, name: string, s: string, k: nat)
    requires tx.Lawful() && k <= |name| && k < |s|
    requires if k < |name| then name[k] != s[k] else 'A' <= s[k] <= 'Z'
    ensures Named(tx, name, s).None?
  {
    if name <= s && k == |name| {
      assert s[|name|..][0] == s[k];
    }
  }

  /** No text opens two of them. */
  lemma OpensOne(tx: Text, s: string, kind: Kind, size: nat, other: Kind)
    requires tx.Lawful() && Opens(tx, s, kind, size) && Place(other) < Place(kind)
    ensures Named(tx, NameOf(other), s).None?
  {
    var k := if kind.SniRegexp? && other.Sni? then 7 else 4;
    var mine, its := NameOf(kind), NameOf(other);
    assert k < |mine| ==> s[k] == mine[k] && 'A' <= mine[k] <= 'Z';
    assert k == |mine| ==> s[k] == '(' || tx.isSpace(s[k]);
    assert k < |its| ==> 'A' <= its[k] <= 'Z' && (k < |mine| ==> its[k] != mine[k]);
    NotNamed(tx, its, s, k);
  }

  lemma {:induction false} FirstNamedIsNamed(tx: Text, names: seq<(string, bool)>, s: string)
    requires FirstNamed(tx, names, s).Some?
    ensures exists i :: 0 <= i < |names| && Named(tx, names[i].0, s) == Some(FirstNamed(tx, names, s).value.size)
                        && FirstNamed(tx, names, s).value.regexp == names[i].1
  {
    if Named(tx, names[0].0, s).None? {
      FirstNamedIsNamed(tx, names[1..], s);
      var i :| 0 <= i < |names[1..]| && Named(tx, names[1..][i].0, s) == Some(FirstNamed(tx, names, s).value.size)
               && FirstNamed(tx, names, s).value.regexp == names[1..][i].1;
      assert names[i + 1] == names[1..][i];
    }
  }

  function KindAt(i: nat): (kind: Kind)
    requires i < |PREDICATES|
    ensures Place(kind) == i
  {
    if i == 0 then Sni else if i == 1 then Header else if i == 2 then Host else if i == 3 then HostRegexp else SniRegexp
  }

  lemma BeginsWithH(s: string, kind: Kind)
    requires NameOf(kind) <= s
    ensures s != "" && s[0] == 'H'
  {
    assert NameOf(kind)[0] == 'H';
  }

  lemma HitOpens(tx: Text, inWord: bool, s: string, hit: Hit) returns (kind: Kind)
    requires tx.Lawful() && HitAt(tx, inWord, s) == Some(hit)
    ensures !inWord && Opens(tx, s, kind, hit.size) && hit.regexp == IsRegexp(kind)
  {
    FirstNamedIsNamed(tx, PREDICATES, s);
    var i :| 0 <= i < |PREDICATES| && Named(tx, PREDICATES[i].0, s) == Some(hit.size) && hit.regexp == PREDICATES[i].1;
    kind := KindAt(i);
    NamedOpens(tx, s, kind, hit.size);
    BeginsWithH(s, kind);
  }

  lemma OpensHit(tx: Text, s: string, kind: Kind, size: nat)
    requires tx.Lawful() && Opens(tx, s, kind, size)
    ensures HitAt(tx, false, s) == Some(Hit(size, IsRegexp(kind)))
  {
    NamedOpens(tx, s, kind, size);
    forall j | 0 <= j < Place(kind) ensures Named(tx, PREDICATES[j].0, s).None? {
      OpensOne(tx, s, kind, size, KindAt(j));
    }
    FirstNamedAt(tx, PREDICATES, s, Place(kind));
    BeginsWithH(s, kind);
  }

  /** What the tokeniser takes for a predicate: one of these names, not at the end of a longer word, with
      nothing but blanks between it and its parenthesis. */
  lemma HitExactly(tx: Text, inWord: bool, s: string, hit: Hit)
    requires tx.Lawful()
    ensures HitAt(tx, inWord, s) == Some(hit) <==>
            !inWord && exists kind :: Opens(tx, s, kind, hit.size) && hit.regexp == IsRegexp(kind)
  {
    if HitAt(tx, inWord, s) == Some(hit) {
      var kind := HitOpens(tx, inWord, s, hit);
    } else if !inWord {
      forall kind | Opens(tx, s, kind, hit.size) ensures hit.regexp != IsRegexp(kind) {
        OpensHit(tx, s, kind, hit.size);
      }
    }
  }

  lemma PredicateIsHit(tx: Text, kind: Kind, x: string)
    requires tx.Lawful()
    ensures HitAt(tx, false, NameOf(kind) + ("(" + x)) == Some(Hit(|NameOf(kind)| + 1, IsRegexp(kind)))
  {
    var name := NameOf(kind);
    var s := name + ("(" + x);
    assert s[..|name|] == name && s[|name|] == '(';
    OpensHit(tx, s, kind, |name| + 1);
  }

  // ---- its arguments ----

  lemma {:induction false} ScanInside(v: string, q: char, tail: string)
    requires q !in v
    ensures Scan(v + ([q] + tail), 1, Some(q)) == (|v| + 1 + Scan(tail, 1, None).0, Scan(tail, 1, None).1)
  {
    var s := v + ([q] + tail);
    if v == "" {
      assert s[0] == q && s[1..] == tail;
    } else {
      assert s[0] == v[0] && v[0] in v && s[1..] == v[1..] + ([q] + tail);
      assert forall c <- v[1..] :: c in v;
      ScanInside(v[1..], q, tail);
    }
  }

  lemma ScanQuoted(v: Value, tail: string)
    requires v.quote in QUOTES && v.quote !in v.text
    ensures Scan(Quoted(v) + tail, 1, None) == (|Quoted(v)| + Scan(tail, 1, None).0, Scan(tail, 1, None).1)
  {
    var s := Quoted(v) + tail;
    assert s[0] == v.quote && s[1..] == v.text + ([v.quote] + tail);
    ScanInside(v.text, v.quote, tail);
  }

  lemma ScanComma(tail: string)
    ensures Scan(", " + tail, 1, None) == (2 + Scan(tail, 1, None).0, Scan(tail, 1, None).1)
  {
    var s := ", " + tail;
    assert s[1..][1..] == tail && s[0] == ',' && s[1..][0] == ' ';
  }

  lemma ScanMore(v: Value, more: string, tail: string)
    requires v.quote in QUOTES && v.quote !in v.text
    ensures Scan((Quoted(v) + (", " + more)) + tail, 1, None)
            == (|Quoted(v)| + 2 + Scan(more + tail, 1, None).0, Scan(more + tail, 1, None).1)
  {
    Regroup(", ", more, tail);
    Regroup(Quoted(v), ", " + more, tail);
    ScanQuoted(v, ", " + (more + tail));
    ScanComma(more + tail);
  }

  lemma {:induction false} ScanValues(values: seq<Value>, rest: string)
    requires forall v <- values :: v.quote in QUOTES && v.quote !in v.text
    ensures Scan(PrintValues(values) + (")" + rest), 1, None) == (|PrintValues(values)|, true)
  {
    var tail := ")" + rest;
    if values == [] {
      assert PrintValues(values) + tail == tail;
    } else {
      assert values[0] in values && forall v <- values[1..] :: v in values;
      ScanValues(values[1..], rest);
      var v, more := values[0], PrintValues(values[1..]);
      if |values| == 1 {
        ScanQuoted(v, tail);
      } else {
        ScanMore(v, more, tail);
        assert PrintValues(values) == Quoted(v) + (", " + more);
      }
    }
  }

  lemma {:induction false} PiecesInside(v: string, q: char, tail: string, current: string)
    requires q !in v
    ensures Pieces(v + ([q] + tail), Some(q), current) == Pieces(tail, None, current + v)
  {
    var s := v + ([q] + tail);
    if v == "" {
      assert s[0] == q && s[1..] == tail && current + v == current;
    } else {
      assert s[0] == v[0] && v[0] in v && s[1..] == v[1..] + ([q] + tail);
      assert forall c <- v[1..] :: c in v;
      PiecesInside(v[1..], q, tail, current + [v[0]]);
      assert current + v == (current + [v[0]]) + v[1..];
    }
  }

  lemma PiecesQuoted(v: Value, tail: string, current: string)
    requires v.quote in QUOTES && v.quote !in v.text
    ensures Pieces(Quoted(v) + tail, None, current) == Pieces(tail, None, current + v.text)
  {
    var s := Quoted(v) + tail;
    assert s[0] == v.quote && s[1..] == v.text + ([v.quote] + tail);
    PiecesInside(v.text, v.quote, tail, current);
  }

  lemma PiecesComma(tail: string, current: string)
    ensures Pieces(", " + tail, None, current) == [current] + Pieces(tail, None, " ")
  {
    var s := ", " + tail;
    assert s[0] == ',' && s[1..] == " " + tail && s[1..][0] == ' ' && s[1..][1..] == tail;
    assert "" + [' '] == " ";
  }

  /** The arguments read back, the first with whatever blank stands before it. */
  lemma {:induction false} ValuesReadBack(tx: Text, values: seq<Value>, lead: string)
    requires tx.Lawful() && (lead == "" || lead == " ") && values != [] && forall v <- values :: GoodValue(tx, v)
    ensures Stripped(tx, Pieces(PrintValues(values), None, lead)) == TextsOf(values)
  {
    var v := values[0];
    assert v in values && forall w <- values[1..] :: w in values;
    LeadIsStripped(tx, lead, v.text);
    if |values| == 1 {
      assert Quoted(v) + "" == Quoted(v);
      PiecesQuoted(v, "", lead);
    } else {
      var more := PrintValues(values[1..]);
      PiecesQuoted(v, ", " + more, lead);
      PiecesComma(more, lead + v.text);
      ValuesReadBack(tx, values[1..], " ");
      var pieces := Pieces(more, None, " ");
      assert ([lead + v.text] + pieces)[1..] == pieces;
    }
  }

  lemma LeadIsStripped(tx: Text, lead: string, text: string)
    requires tx.Lawful() && (lead == "" || lead == " ")
    requires text != "" && !tx.isSpace(text[0]) && !tx.isSpace(text[|text| - 1])
    ensures tx.Strip(lead + text) == text
  {
    tx.StripFixpoint(text);
    if lead == "" {
      assert lead + text == text;
    } else {
      tx.StripOfBlank(text);
    }
  }

  lemma NoValues(tx: Text)
    ensures Arguments(tx, "") == []
  {
    var pieces := [""];
    assert Pieces("", None, "") == pieces;
    assert tx.Strip(pieces[0]) == "" && pieces[1..] == [];
    assert Stripped(tx, pieces) == [] + Stripped(tx, pieces[1..]);
  }

  lemma ArgumentsReadBack(tx: Text, values: seq<Value>)
    requires tx.Lawful() && forall v <- values :: GoodValue(tx, v)
    ensures Arguments(tx, PrintValues(values)) == TextsOf(values)
  {
    if values == [] {
      NoValues(tx);
    } else {
      ValuesReadBack(tx, values, "");
    }
  }

  lemma BodyReads(tx: Text, values: seq<Value>, rest: string)
    requires tx.Lawful() && forall v <- values :: GoodValue(tx, v)
    ensures var body := PrintValues(values) + (")" + rest);
            && Arguments(tx, body[..Scan(body, 1, None).0]) == TextsOf(values)
            && AfterArguments(body) == rest
  {
    var args := PrintValues(values);
    var body := args + (")" + rest);
    ScanValues(values, rest);
    assert body[..|args|] == args && body[|args| + 1..] == rest;
    ArgumentsReadBack(tx, values);
  }

  lemma PredicatePrinted(kind: Kind, values: seq<Value>, rest: string)
    ensures Print(Predicate(kind, values)) + rest == NameOf(kind) + ("(" + (PrintValues(values) + (")" + rest)))
  {
    var name, args := NameOf(kind), PrintValues(values);
    Regroup(args, ")", rest);
    Regroup("(", args + ")", rest);
    Regroup(name, "(" + (args + ")"), rest);
  }

  lemma HitReads(tx: Text, s: string, hit: Hit, body: string, own: seq<string>, rest: string, regexp: bool)
    requires HitAt(tx, false, s) == Some(hit) && s[hit.size..] == body && AfterArguments(body) == rest
    requires Arguments(tx, body[..Scan(body, 1, None).0]) == own && !tx.isWord(')')
    ensures Found(tx, false, s, regexp) == (if hit.regexp == regexp then own else []) + Found(tx, false, rest, regexp)
  {
  }

  lemma CallReads(tx: Text, name: string, isRegexp: bool, values: seq<Value>, rest: string, regexp: bool)
    requires tx.Lawful() && forall v <- values :: GoodValue(tx, v)
    requires HitAt(tx, false, name + ("(" + (PrintValues(values) + (")" + rest)))) == Some(Hit(|name| + 1, isRegexp))
    ensures Found(tx, false, name + ("(" + (PrintValues(values) + (")" + rest))), regexp)
            == (if isRegexp == regexp then TextsOf(values) else []) + Found(tx, false, rest, regexp)
  {
    var body := PrintValues(values) + (")" + rest);
    var s := name + ("(" + body);
    assert s[|name| + 1..] == body;
    BodyReads(tx, values, rest);
    HitReads(tx, s, Hit(|name| + 1, isRegexp), body, TextsOf(values), rest, regexp);
  }

  lemma PredicateReads(tx: Text, kind: Kind, values: seq<Value>, rest: string, regexp: bool)
    requires tx.Lawful() && forall v <- values :: GoodValue(tx, v)
    ensures Found(tx, false, Print(Predicate(kind, values)) + rest, regexp)
            == ValuesOf(Predicate(kind, values), regexp) + Found(tx, false, rest, regexp)
  {
    PredicatePrinted(kind, values, rest);
    PredicateIsHit(tx, kind, PrintValues(values) + (")" + rest));
    CallReads(tx, NameOf(kind), IsRegexp(kind), values, rest, regexp);
  }

  // ---- whole rules ----

  /** Whatever follows it, the text contributes these values. */
  ghost predicate Reads(tx: Text, text: string, values: seq<string>, regexp: bool) {
    forall tail :: Found(tx, false, text + tail, regexp) == values + Found(tx, false, tail, regexp)
  }

  lemma GroupReads(tx: Text, text: string, grouped: bool, values: seq<string>, regexp: bool)
    requires tx.Lawful() && Reads(tx, text, values, regexp)
    ensures Reads(tx, Grouped(text, grouped), values, regexp)
  {
    if grouped {
      forall tail ensures Found(tx, false, Grouped(text, grouped) + tail, regexp) == values + Found(tx, false, tail, regexp) {
        assert Grouped(text, grouped) + tail == "(" + (text + (")" + tail));
        GlueReads(tx, "(", text + (")" + tail), regexp);
        GlueReads(tx, ")", tail, regexp);
      }
    }
  }

  lemma PairReads(tx: Text, left: string, glue: string, right: string, a: seq<string>, b: seq<string>, regexp: bool)
    requires tx.Lawful() && forall c <- glue :: c in GLUE
    requires Reads(tx, left, a, regexp) && Reads(tx, right, b, regexp)
    ensures Reads(tx, left + (glue + right), a + b, regexp)
  {
    forall tail ensures Found(tx, false, left + (glue + right) + tail, regexp) == (a + b) + Found(tx, false, tail, regexp) {
      Regroup(glue, right, tail);
      Regroup(left, glue + right, tail);
      GlueReads(tx, glue, right + tail, regexp);
      Regroup(a, b, Found(tx, false, tail, regexp));
    }
  }

  lemma NotReads(tx: Text, text: string, values: seq<string>, regexp: bool)
    requires tx.Lawful() && Reads(tx, text, values, regexp)
    ensures Reads(tx, "!" + text, values, regexp)
  {
    forall tail ensures Found(tx, false, ("!" + text) + tail, regexp) == values + Found(tx, false, tail, regexp) {
      Regroup("!", text, tail);
      GlueReads(tx, "!", text + tail, regexp);
    }
  }

  lemma LeafReads(tx: Text, rule: Rule, regexp: bool)
    requires tx.Lawful() && Printable(tx, rule) && (rule.Predicate? || rule.Other?)
    ensures Reads(tx, Print(rule), ValuesOf(rule, regexp), regexp)
  {
    forall tail ensures Found(tx, false, Print(rule) + tail, regexp)
                        == ValuesOf(rule, regexp) + Found(tx, false, tail, regexp) {
      match rule
      case Predicate(kind, values) => PredicateReads(tx, kind, values, tail, regexp);
      case Other(text) => OtherReads(tx, false, text, tail, regexp);
    }
  }

  lemma {:induction false} RuleReads(tx: Text, rule: Rule, regexp: bool)
    requires tx.Lawful() && Printable(tx, rule)
    ensures Reads(tx, Print(rule), ValuesOf(rule, regexp), regexp)
  {
    match rule
    case Both(left, right, grouped) =>
      RuleReads(tx, left, regexp);
      RuleReads(tx, right, regexp);
      PairReads(tx, Print(left), " && ", Print(right), ValuesOf(left, regexp), ValuesOf(right, regexp), regexp);
      GroupReads(tx, Print(left) + (" && " + Print(right)), grouped, ValuesOf(rule, regexp), regexp);
    case Either(left, right, grouped) =>
      RuleReads(tx, left, regexp);
      RuleReads(tx, right, regexp);
      PairReads(tx, Print(left), " || ", Print(right), ValuesOf(left, regexp), ValuesOf(right, regexp), regexp);
      GroupReads(tx, Print(left) + (" || " + Print(right)), grouped, ValuesOf(rule, regexp), regexp);
    case Not(operand) =>
      RuleReads(tx, operand, regexp);
      NotReads(tx, Print(operand), ValuesOf(operand, regexp), regexp);
    case _ => LeafReads(tx, rule, regexp);
  }

  lemma ReadsAlone(tx: Text, text: string, values: seq<string>, regexp: bool)
    requires Reads(tx, text, values, regexp)
    ensures Found(tx, false, text, regexp) == values
  {
    assert text + "" == text && Found(tx, false, "", regexp) == [];
    assert values + [] == values;
    assert Found(tx, false, text + "", regexp) == values + Found(tx, false, "", regexp);
  }

  /** What a printed rule is parsed to: its literal hosts from left to right, each once; and its
      regular expressions, as they stand. */
  lemma RuleRoundTrip(tx: Text, rule: Rule)
    requires tx.Lawful() && Printable(tx, rule)
    ensures HostsOf(tx, Print(rule)) == Dedup(ValuesOf(rule, false))
    ensures RegexpsOf(tx, Print(rule)) == ValuesOf(rule, true)
  {
    RuleReads(tx, rule, false);
    RuleReads(tx, rule, true);
    ReadsAlone(tx, Print(rule), ValuesOf(rule, false), false);
    ReadsAlone(tx, Print(rule), ValuesOf(rule, true), true);
  }
}
