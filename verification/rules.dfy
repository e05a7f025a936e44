/** The tokeniser of Traefik rules: which host names a rule is about. */
module Rules {
  import opened Prelude
  import opened Texts

  const QUOTES := "`'\""

  /** The predicates that name a host, in the order the pattern tries them, and whether each is
      a regular-expression predicate. */
  const PREDICATES: seq<(string, bool)> := [
    ("HostSNI", false), ("HostHeader", false), ("Host", false), ("HostRegexp", true), ("HostSNIRegexp", true)]

  // ---- finding a predicate ----

  /** `size` characters: the name, blanks and the opening parenthesis. */
  datatype Hit = Hit(size: nat, regexp: bool)

  function Blanks(tx: Text, s: string): (n: nat)
    ensures n <= |s|
    ensures forall i :: 0 <= i < n ==> tx.isSpace(s[i])
    ensures n < |s| ==> !tx.isSpace(s[n])
  {
    if s != "" && tx.isSpace(s[0]) then 1 + Blanks(tx, s[1..]) else 0
  }

  function Named(tx: Text, name: string, s: string): (size: Option<nat>)
    ensures size.Some? ==> |name| < size.value <= |s|
  {
    if !(name <= s) then None
    else
      var j := |name| + Blanks(tx, s[|name|..]);
      if j < |s| && s[j] == '(' then Some(j + 1) else None
  }

  function FirstNamed(tx: Text, names: seq<(string, bool)>, s: string): (r: Option<Hit>)
    ensures r.Some? ==> 0 < r.value.size <= |s|
  {
    if names == [] then None
    else
      match Named(tx, names[0].0, s)
      case Some(size) => Some(Hit(size, names[0].1))
      case None => FirstNamed(tx, names[1..], s)
  }

  /** A predicate at the front of `s`; `inWord` says the character before it is a word character. */
  function HitAt(tx: Text, inWord: bool, s: string): (r: Option<Hit>)
    ensures r.Some? ==> 0 < r.value.size <= |s|
  {
    if s == "" || inWord == tx.isWord(s[0]) then None else FirstNamed(tx, PREDICATES, s)
  }

  function InWord(tx: Text, rule: string, index: nat): bool
    requires index <= |rule|
  {
    index > 0 && tx.isWord(rule[index - 1])
  }

  /** `_PREDICATE.search(rule, index)`: where the first predicate from there on starts. */
  function Search(tx: Text, rule: string, index: nat): (r: Option<(nat, Hit)>)
    requires index <= |rule|
    ensures r.Some? ==> index <= r.value.0 && 0 < r.value.1.size && r.value.0 + r.value.1.size <= |rule|
    decreases |rule| - index
  {
    match HitAt(tx, InWord(tx, rule, index), rule[index..])
    case Some(hit) => Some((index, hit))
    case None => if index == |rule| then None else Search(tx, rule, index + 1)
  }

  // ---- its arguments ----

  /** How many characters belong to the arguments, and whether the closing parenthesis is there. */
  function Scan(s: string, depth: nat, quote: Option<char>): (r: (nat, bool))
    requires depth > 0
    ensures r.0 <= |s| && (r.1 ==> r.0 < |s|) && (!r.1 ==> r.0 == |s|)
  {
    if s == "" then (0, false)
    else
      var c := s[0];
      if quote.None? && c == ')' && depth == 1 then (0, true)
      else
        var depth', quote' :=
          (if quote.None? && c == '(' then depth + 1 else if quote.None? && c == ')' then depth - 1 else depth),
          (if quote.Some? then (if c == quote.value then None else quote)
           else if c in QUOTES then Some(c) else None);
        var r := Scan(s[1..], depth', quote');
        (r.0 + 1, r.1)
  }

  /** The pieces between the unquoted commas, without their quotes. */
  function Pieces(raw: string, quote: Option<char>, current: string): seq<string> {
    if raw == "" then [current]
    else
      var c, rest := raw[0], raw[1..];
      if quote.Some? then
        if c == quote.value then Pieces(rest, None, current) else Pieces(rest, quote, current + [c])
      else if c in QUOTES then Pieces(rest, Some(c), current)
      else if c == ',' then [current] + Pieces(rest, None, "")
      else Pieces(rest, None, current + [c])
  }

  function Stripped(tx: Text, pieces: seq<string>): seq<string> {
    if pieces == [] then []
    else
      var value := tx.Strip(pieces[0]);
      (if value != "" then [value] else []) + Stripped(tx, pieces[1..])
  }

  function Arguments(tx: Text, raw: string): seq<string> { Stripped(tx, Pieces(raw, None, "")) }

  // ---- all of a rule ----

  /** What follows a predicate whose arguments start at the front of `s`. */
  function AfterArguments(s: string): (rest: string)
    ensures |rest| <= |s|
  {
    var r := Scan(s, 1, None);
    if r.1 then s[r.0 + 1..] else ""
  }

  /** The arguments of all predicates of one kind in order. */
  function Found(tx: Text, inWord: bool, s: string, regexp: bool): seq<string>
    decreases |s|
  {
    match HitAt(tx, inWord, s)
    case Some(hit) =>
      var body := s[hit.size..];
      var own := if hit.regexp == regexp then Arguments(tx, body[..Scan(body, 1, None).0]) else [];
      own + Found(tx, tx.isWord(')'), AfterArguments(body), regexp)
    case None => if s == "" then [] else Found(tx, tx.isWord(s[0]), s[1..], regexp)
  }

  /** `parse_rule` and `regexp_predicates`. */
  function HostsOf(tx: Text, rule: string): seq<string> { Dedup(Found(tx, false, rule, false)) }

  function RegexpsOf(tx: Text, rule: string): seq<string> { Found(tx, false, rule, true) }

  // ---- as it runs ----

  method ScanArguments(rule: string, start: nat) returns (text: string, after: nat)
    requires start <= |rule|
    ensures text == rule[start..][..Scan(rule[start..], 1, None).0]
    ensures start <= after <= |rule| && rule[after..] == AfterArguments(rule[start..])
    ensures after == |rule| || (after > start && rule[after - 1] == ')')
  {
    var depth := 1;
    var quote: Option<char> := None;
    var index := start;
    while index < |rule|
      invariant start <= index <= |rule| && depth >= 1
      invariant var whole, left := Scan(rule[start..], 1, None), Scan(rule[index..], depth, quote);
                whole == (index - start + left.0, left.1)
    {
      var c := rule[index];
      assert rule[index..][0] == c && rule[index..][1..] == rule[index + 1..];
      if quote.Some? {
        if c == quote.value { quote := None; }
      } else if c in QUOTES {
        quote := Some(c);
      } else if c == '(' {
        depth := depth + 1;
      } else if c == ')' {
        if depth == 1 {
          assert rule[start..][..index - start] == rule[start..index];
          assert rule[start..][index - start + 1..] == rule[index + 1..];
          return rule[start..index], index + 1;
        }
        depth := depth - 1;
      }
      index := index + 1;
    }
    assert rule[|rule|..] == "";
    return rule[start..], |rule|;
  }

  method SplitArguments(tx: Text, raw: string) returns (values: seq<string>)
    ensures values == Arguments(tx, raw)
  {
    var pieces: seq<string> := [];
    var current := "";
    var quote: Option<char> := None;
    for i := 0 to |raw|
      invariant Pieces(raw, None, "") == pieces + Pieces(raw[i..], quote, current)
    {
      var c := raw[i];
      assert raw[i..][0] == c && raw[i..][1..] == raw[i + 1..];
      if quote.Some? {
        if c == quote.value { quote := None; } else { current := current + [c]; }
      } else if c in QUOTES {
        quote := Some(c);
      } else if c == ',' {
        Regroup(pieces, [current], Pieces(raw[i + 1..], None, ""));
        pieces := pieces + [current];
        current := "";
      } else {
        current := current + [c];
      }
    }
    pieces := pieces + [current];
    assert raw[|raw|..] == "";
    values := [];
    for i := 0 to |pieces|
      invariant Stripped(tx, pieces) == values + Stripped(tx, pieces[i..])
    {
      var value := tx.Strip(pieces[i]);
      assert pieces[i..][0] == pieces[i] && pieces[i..][1..] == pieces[i + 1..];
      Regroup(values, if value != "" then [value] else [], Stripped(tx, pieces[i + 1..]));
      if value != "" {
        values := values + [value];
      }
    }
  }

  /** What is found from `index` on. */
  function FoundFrom(tx: Text, rule: string, index: nat, regexp: bool): seq<string>
    requires index <= |rule|
  {
    Found(tx, InWord(tx, rule, index), rule[index..], regexp)
  }

  lemma FoundSkips(tx: Text, rule: string, index: nat, regexp: bool)
    requires index <= |rule| && HitAt(tx, InWord(tx, rule, index), rule[index..]).None?
    ensures FoundFrom(tx, rule, index, regexp)
            == if index == |rule| then [] else FoundFrom(tx, rule, index + 1, regexp)
  {
    if index < |rule| {
      assert rule[index..][1..] == rule[index + 1..];
    }
  }

  /** What a predicate itself contributes. */
  function Own(tx: Text, rule: string, start: nat, hit: Hit, regexp: bool): seq<string>
    requires start <= |rule|
  {
    if hit.regexp == regexp then Arguments(tx, rule[start..][..Scan(rule[start..], 1, None).0]) else []
  }

  lemma FoundHits(tx: Text, rule: string, index: nat, hit: Hit, after: nat, regexp: bool)
    requires index <= |rule| && HitAt(tx, InWord(tx, rule, index), rule[index..]) == Some(hit)
    requires after <= |rule| && (after == |rule| || (after > 0 && rule[after - 1] == ')'))
    requires rule[after..] == AfterArguments(rule[index + hit.size..])
    ensures FoundFrom(tx, rule, index, regexp)
            == Own(tx, rule, index + hit.size, hit, regexp) + FoundFrom(tx, rule, after, regexp)
  {
    var s, body := rule[index..], rule[index + hit.size..];
    assert s[hit.size..] == body;
    assert Found(tx, InWord(tx, rule, index), s, regexp)
           == Own(tx, rule, index + hit.size, hit, regexp) + Found(tx, tx.isWord(')'), AfterArguments(body), regexp);
    if after == |rule| {
      assert rule[after..] == "";
    }
  }

  lemma {:induction false} SearchFinds(tx: Text, rule: string, index: nat, regexp: bool)
    requires index <= |rule|
    ensures var found := Search(tx, rule, index);
            if found.None? then FoundFrom(tx, rule, index, regexp) == []
            else HitAt(tx, InWord(tx, rule, found.value.0), rule[found.value.0..]) == Some(found.value.1)
                 && FoundFrom(tx, rule, index, regexp) == FoundFrom(tx, rule, found.value.0, regexp)
    decreases |rule| - index
  {
    if HitAt(tx, InWord(tx, rule, index), rule[index..]).None? {
      FoundSkips(tx, rule, index, regexp);
      if index < |rule| {
        SearchFinds(tx, rule, index + 1, regexp);
      }
    }
  }

  /** The next predicate, its arguments, and where to go on. */
  method NextPredicate(tx: Text, rule: string, index: nat, ghost regexp: bool)
    returns (found: Option<(Hit, string)>, after: nat)
    requires index <= |rule|
    ensures found.None? ==> FoundFrom(tx, rule, index, regexp) == []
    ensures found.Some? ==>
              index < after <= |rule|
              && FoundFrom(tx, rule, index, regexp)
                 == (if found.value.0.regexp == regexp then Arguments(tx, found.value.1) else [])
                    + FoundFrom(tx, rule, after, regexp)
  {
    SearchFinds(tx, rule, index, regexp);
    var place := Search(tx, rule, index);
    if place.None? {
      return None, index;
    }
    var p, hit := place.value.0, place.value.1;
    var text: string;
    text, after := ScanArguments(rule, p + hit.size);
    FoundHits(tx, rule, p, hit, after, regexp);
    found := Some((hit, text));
  }

  lemma DedupGrows(done: seq<string>, x: string)
    ensures Dedup(done + [x]) == if x in Dedup(done) then Dedup(done) else Dedup(done) + [x]
  {
    assert (done + [x])[..|done|] == done;
  }

  method AddNew(found: seq<string>, values: seq<string>, ghost done: seq<string>) returns (r: seq<string>)
    requires found == Dedup(done)
    ensures r == Dedup(done + values)
  {
    r := found;
    assert done + values[..0] == done;
    for k := 0 to |values|
      invariant r == Dedup(done + values[..k])
    {
      DedupGrows(done + values[..k], values[k]);
      assert done + values[..k + 1] == done + values[..k] + [values[k]];
      if values[k] !in r {
        r := r + [values[k]];
      }
    }
    WholePrefix(values);
  }

  method ParseRule(tx: Text, rule: string) returns (found: seq<string>)
    ensures found == HostsOf(tx, rule)
  {
    if rule == "" { return []; }
    found := [];
    var index := 0;
    ghost var done: seq<string> := [];
    assert rule[0..] == rule;
    while true
      invariant index <= |rule| && found == Dedup(done)
      invariant Found(tx, false, rule, false) == done + FoundFrom(tx, rule, index, false)
      decreases |rule| - index
    {
      var next, after := NextPredicate(tx, rule, index, false);
      if next.None? {
        assert done + [] == done;
        return;
      }
      ghost var rest := FoundFrom(tx, rule, after, false);
      index := after;
      if next.value.0.regexp {
        assert [] + rest == rest;
      } else {
        var values := SplitArguments(tx, next.value.1);
        Regroup(done, values, rest);
        found := AddNew(found, values, done);
        done := done + values;
      }
    }
  }

  method RegexpPredicates(tx: Text, rule: string) returns (found: seq<string>)
    ensures found == RegexpsOf(tx, rule)
  {
    found := [];
    var index := 0;
    assert rule[0..] == rule;
    while true
      invariant index <= |rule|
      invariant Found(tx, false, rule, true) == found + FoundFrom(tx, rule, index, true)
      decreases |rule| - index
    {
      var next, after := NextPredicate(tx, rule, index, true);
      if next.None? {
        return;
      }
      ghost var rest := FoundFrom(tx, rule, after, true);
      index := after;
      if next.value.0.regexp {
        var values := SplitArguments(tx, next.value.1);
        Regroup(found, values, rest);
        found := found + values;
      } else {
        assert [] + rest == rest;
      }
    }
  }
}
