/** The assumptions about UTF-8 and JSON text can be met together: a small codec that meets them. */
module EventWitness {
  import opened Prelude
  import opened Texts
  import opened Wire
  import opened Model
  import opened EventClients

  // ---- characters as bytes: ASCII as it is, all others in three bytes above it ----

  function CharBytes(c: char): (r: bytes)
    ensures |r| == if c as int < 128 then 1 else 3
  {
    var n := c as int;
    if n < 128 then [n] else [128 + n / 16384, 128 + n / 128 % 128, 128 + n % 128]
  }

  function Encode(s: string): bytes {
    if s == "" then [] else CharBytes(s[0]) + Encode(s[1..])
  }

  /** Bytes that nothing encodes to come out as question marks. */
  function CharOf(n: int): char {
    if 0 <= n < 0xD800 || 0xE000 <= n < 0x11_0000 then n as char else '?'
  }

  function Decode(b: bytes): string {
    if b == [] then ""
    else if b[0] < 128 then [CharOf(b[0])] + Decode(b[1..])
    else if |b| < 3 then "?"
    else
      var high: int, middle: int, low: int := b[0], b[1], b[2];
      [CharOf((high - 128) * 16384 + (middle - 128) * 128 + (low - 128))] + Decode(b[3..])
  }

  lemma CharComesBack(c: char, below: bytes)
    ensures Decode(CharBytes(c) + below) == [c] + Decode(below)
  {
    var first := CharBytes(c);
    assert (first + below)[|first|..] == below;
    assert forall i :: 0 <= i < |first| ==> (first + below)[i] == first[i];
  }

  lemma {:induction false} DecodeEncodes(s: string)
    ensures Decode(Encode(s)) == s
  {
    if s != "" {
      DecodeEncodes(s[1..]);
      CharComesBack(s[0], Encode(s[1..]));
      assert s == [s[0]] + s[1..];
    }
  }

  lemma {:induction false} EncodeOfBoth(s: string, t: string)
    ensures Encode(s + t) == Encode(s) + Encode(t)
  {
    if s == "" {
      assert s + t == t;
    } else {
      assert (s + t)[0] == s[0] && (s + t)[1..] == s[1..] + t;
      EncodeOfBoth(s[1..], t);
      Regroup(CharBytes(s[0]), Encode(s[1..]), Encode(t));
    }
  }

  lemma {:induction false} EncodeAscii(s: string)
    requires IsAscii(s)
    ensures Encode(s) == Ascii(s)
  {
    if s != "" {
      assert s[0] in s && forall c <- s[1..] :: c in s;
      EncodeAscii(s[1..]);
    }
  }

  lemma {:induction false} EncodedNewlines(s: string)
    requires NEWLINE in Encode(s)
    ensures '\n' in s
  {
    if s != "" && NEWLINE !in CharBytes(s[0]) {
      EncodedNewlines(s[1..]);
    }
  }

  lemma EncodeBlankLine(s: string)
    ensures Encode(s + "\n\n") == Encode(s) + [NEWLINE, NEWLINE]
  {
    EncodeOfBoth(s, "\n\n");
    EncodeAscii("\n\n");
  }

  // ---- numbers as text: so many ones and a zero ----

  predicate AllBits(s: string) { forall c <- s :: c == '0' || c == '1' }

  function Tally(n: nat): (s: string)
    ensures AllBits(s) && s != ""
  {
    if n == 0 then "0" else "1" + Tally(n - 1)
  }

  function Spell(tokens: seq<nat>): (s: string)
    ensures AllBits(s) && (tokens != [] ==> s != "")
  {
    if tokens == [] then "" else Tally(tokens[0]) + Spell(tokens[1..])
  }

  lemma {:induction false} TallyEnds(m: nat, n: nat, a: string, b: string)
    requires Tally(m) + a == Tally(n) + b
    ensures m == n && a == b
  {
    var s, t := Tally(m) + a, Tally(n) + b;
    assert s[0] == (if m == 0 then '0' else '1') && t[0] == (if n == 0 then '0' else '1');
    if m == 0 {
      assert s[1..] == a && t[1..] == b;
    } else {
      assert s[1..] == Tally(m - 1) + a && t[1..] == Tally(n - 1) + b;
      TallyEnds(m - 1, n - 1, a, b);
    }
  }

  lemma {:induction false} SpellIsInjective(a: seq<nat>, b: seq<nat>)
    requires Spell(a) == Spell(b)
    ensures a == b
  {
    if a != [] && b != [] {
      TallyEnds(a[0], b[0], Spell(a[1..]), Spell(b[1..]));
      SpellIsInjective(a[1..], b[1..]);
      assert a == [a[0]] + a[1..] && b == [b[0]] + b[1..];
    }
  }

  // ---- JSON values as numbers ----

  function TextTokens(s: string): seq<nat> { [|s|] + seq(|s|, i requires 0 <= i < |s| => s[i] as nat) }

  lemma TextEnds(s: string, t: string, a: seq<nat>, b: seq<nat>)
    requires TextTokens(s) + a == TextTokens(t) + b
    ensures s == t && a == b
  {
    var l, r := TextTokens(s) + a, TextTokens(t) + b;
    assert l[0] == |s| && r[0] == |t|;
    assert a == l[|s| + 1..] && b == r[|t| + 1..];
    forall i | 0 <= i < |s| ensures s[i] == t[i] {
      assert l[i + 1] == s[i] as nat && r[i + 1] == t[i] as nat;
    }
  }

  ghost function Pick(keys: set<string>): (k: string)
    requires keys != {}
    ensures k in keys
  {
    var k :| k in keys; k
  }

  ghost function Tokens(v: Json): (r: seq<nat>)
    ensures r != []
    decreases v, 1, 0
  {
    match v
    case JNull => [0]
    case JBool(b) => [1, if b then 1 else 0]
    case JNumber(n) => [2, if n < 0 then 0 - n else 0, if n < 0 then 0 else n]
    case JString(s) => [3] + TextTokens(s)
    case JList(_) => [4] + ItemTokens(v, 0)
    case JObject(_) => [5] + FieldTokens(v, v.fields.Keys)
  }

  ghost function ItemTokens(v: Json, i: nat): seq<nat>
    requires v.JList? && i <= |v.items|
    decreases v, 0, |v.items| - i
  {
    if i == |v.items| then [0] else [1] + (Tokens(v.items[i]) + ItemTokens(v, i + 1))
  }

  ghost function FieldTokens(v: Json, keys: set<string>): seq<nat>
    requires v.JObject? && keys <= v.fields.Keys
    decreases v, 0, |keys|
  {
    if keys == {} then [0]
    else
      var k := Pick(keys);
      [1] + (TextTokens(k) + (Tokens(v.fields[k]) + FieldTokens(v, keys - {k})))
  }

  /** The first token tells the kinds apart. */
  function Tag(v: Json): nat {
    match v
    case JNull => 0
    case JBool(_) => 1
    case JNumber(_) => 2
    case JString(_) => 3
    case JList(_) => 4
    case JObject(_) => 5
  }

  lemma TagFirst(v: Json, a: seq<nat>)
    ensures (Tokens(v) + a)[0] == Tag(v) && (Tokens(v) + a)[1..] == Tokens(v)[1..] + a
  {
  }

  lemma ScalarEnds(v: Json, w: Json, a: seq<nat>, b: seq<nat>)
    requires Tag(v) == Tag(w) < 4 && Tokens(v)[1..] + a == Tokens(w)[1..] + b
    ensures v == w && a == b
  {
    var l, r := Tokens(v)[1..] + a, Tokens(w)[1..] + b;
    match v
    case JNull => assert l == a && r == b;
    case JBool(_) => assert l[0] == Tokens(v)[1] && r[0] == Tokens(w)[1] && l[1..] == a && r[1..] == b;
    case JNumber(_) =>
      assert l[0] == Tokens(v)[1] && r[0] == Tokens(w)[1] && l[1] == Tokens(v)[2] && r[1] == Tokens(w)[2];
      assert l[2..] == a && r[2..] == b;
    case JString(s) =>
      assert Tokens(v)[1..] == TextTokens(s) && Tokens(w)[1..] == TextTokens(w.s);
      TextEnds(s, w.s, a, b);
  }

  lemma {:induction false} TokensEnd(v: Json, w: Json, a: seq<nat>, b: seq<nat>)
    requires Tokens(v) + a == Tokens(w) + b
    ensures v == w && a == b
    decreases v, 1, 0
  {
    TagFirst(v, a);
    TagFirst(w, b);
    if Tag(v) < 4 {
      ScalarEnds(v, w, a, b);
    } else if v.JList? {
      assert Tokens(v)[1..] == ItemTokens(v, 0) && Tokens(w)[1..] == ItemTokens(w, 0);
      ItemsEnd(v, w, 0, a, b);
    } else {
      var x, y := v.fields.Keys, w.fields.Keys;
      assert Tokens(v)[1..] == FieldTokens(v, x) && Tokens(w)[1..] == FieldTokens(w, y);
      FieldsEnd(v, w, x, y, a, b);
    }
  }

  lemma {:induction false} ItemsEnd(v: Json, w: Json, i: nat, a: seq<nat>, b: seq<nat>)
    requires v.JList? && w.JList? && i <= |v.items| && i <= |w.items|
    requires ItemTokens(v, i) + a == ItemTokens(w, i) + b
    ensures v.items[i..] == w.items[i..] && a == b
    decreases v, 0, |v.items| - i
  {
    var l, r := ItemTokens(v, i) + a, ItemTokens(w, i) + b;
    assert l[0] == ItemTokens(v, i)[0] && r[0] == ItemTokens(w, i)[0];
    if i == |v.items| {
      assert l[1..] == a && r[1..] == b;
    } else {
      var head, below := Tokens(v.items[i]), ItemTokens(v, i + 1);
      var head', below' := Tokens(w.items[i]), ItemTokens(w, i + 1);
      Regroup(head, below, a);
      Regroup(head', below', b);
      assert l[1..] == head + (below + a) && r[1..] == head' + (below' + b);
      TokensEnd(v.items[i], w.items[i], below + a, below' + b);
      ItemsEnd(v, w, i + 1, a, b);
      assert v.items[i..] == [v.items[i]] + v.items[i + 1..] && w.items[i..] == [w.items[i]] + w.items[i + 1..];
    }
  }

  lemma {:induction false} FieldsEnd(v: Json, w: Json, x: set<string>, y: set<string>, a: seq<nat>, b: seq<nat>)
    requires v.JObject? && w.JObject? && x <= v.fields.Keys && y <= w.fields.Keys
    requires FieldTokens(v, x) + a == FieldTokens(w, y) + b
    ensures x == y && (forall k <- x :: v.fields[k] == w.fields[k]) && a == b
    decreases v, 0, |x|
  {
    var l, r := FieldTokens(v, x) + a, FieldTokens(w, y) + b;
    assert l[0] == FieldTokens(v, x)[0] && r[0] == FieldTokens(w, y)[0];
    if x == {} {
      assert l[1..] == a && r[1..] == b;
    } else {
      var k, j := Pick(x), Pick(y);
      var after := Tokens(v.fields[k]) + (FieldTokens(v, x - {k}) + a);
      var after' := Tokens(w.fields[j]) + (FieldTokens(w, y - {j}) + b);
      FirstField(v, x, a);
      FirstField(w, y, b);
      TextEnds(k, j, after, after');
      TokensEnd(v.fields[k], w.fields[k], FieldTokens(v, x - {k}) + a, FieldTokens(w, y - {k}) + b);
      FieldsEnd(v, w, x - {k}, y - {k}, a, b);
      assert x == (x - {k}) + {k} && y == (y - {k}) + {k};
    }
  }

  lemma FirstField(v: Json, keys: set<string>, a: seq<nat>)
    requires v.JObject? && keys <= v.fields.Keys && keys != {}
    ensures var k := Pick(keys);
            (FieldTokens(v, keys) + a)[1..]
            == TextTokens(k) + (Tokens(v.fields[k]) + (FieldTokens(v, keys - {k}) + a))
  {
    var k := Pick(keys);
    var key, value, below := TextTokens(k), Tokens(v.fields[k]), FieldTokens(v, keys - {k});
    Regroup(value, below, a);
    Regroup(key, value + below, a);
    Regroup([1], key + (value + below), a);
  }

  // ---- the codec ----

  ghost function Dumps(v: Json): string { Spell(Tokens(v)) }

  ghost function Loads(text: string): Option<Json> {
    if v :| Dumps(v) == text then Some(v) else None
  }

  lemma DumpsReadBack(v: Json)
    ensures Loads(Dumps(v)) == Some(v)
  {
    var w := Loads(Dumps(v)).value;
    SpellIsInjective(Tokens(v), Tokens(w));
    assert Tokens(v) + [] == Tokens(w) + [];
    TokensEnd(v, w, [], []);
  }

  ghost function SmallCodec(): Codec { Codec(ASCII_ONLY, s => Encode(s), b => Decode(b), v => Dumps(v), t => Loads(t)) }

  lemma DumpsIsALine(v: Json)
    ensures Dumps(v) != "" && AllBits(Dumps(v))
    ensures Dumps(v)[0] in Dumps(v) && Dumps(v)[|Dumps(v)| - 1] in Dumps(v)
  {
  }

  lemma EncodingLaws()
    ensures forall s :: Decode(Encode(s)) == s
    ensures forall s :: Encode(s + "\n\n") == Encode(s) + [NEWLINE, NEWLINE]
    ensures forall s :: IsAscii(s) ==> Encode(s) == Ascii(s)
    ensures forall s :: NEWLINE in Encode(s) ==> '\n' in s
  {
    forall s ensures Decode(Encode(s)) == s {
      DecodeEncodes(s);
    }
    forall s ensures Encode(s + "\n\n") == Encode(s) + [NEWLINE, NEWLINE] {
      EncodeBlankLine(s);
    }
    forall s | IsAscii(s) ensures Encode(s) == Ascii(s) {
      EncodeAscii(s);
    }
    forall s | NEWLINE in Encode(s) ensures '\n' in s {
      EncodedNewlines(s);
    }
  }

  /** There is such a codec. */
  lemma LawsCanHold()
    ensures SmallCodec().Lawful()
  {
    Texts.LawsCanHold();
    EncodingLaws();
    forall v ensures Loads(Dumps(v)) == Some(v) {
      DumpsReadBack(v);
    }
    forall v ensures Dumps(v) != "" && AllBits(Dumps(v))
                     && Dumps(v)[0] in Dumps(v) && Dumps(v)[|Dumps(v)| - 1] in Dumps(v) {
      DumpsIsALine(v);
    }
  }
}
