/** How names that are not plain are brought to their normal form, and why a name is refused or
    remarked upon. */
module NameForms {
  import opened Prelude
  import opened Texts
  import opened Names

  // ---- names of other alphabets ----

  lemma {:induction false} LastOfJoin(labels: seq<string>)
    requires labels != [] && labels[|labels| - 1] != ""
    ensures var all := Join(labels, '.');
            var last := labels[|labels| - 1];
            all != "" && all[|all| - 1] == last[|last| - 1]
  {
    if |labels| > 1 {
      LastOfJoin(labels[1..]);
    }
  }

  lemma DotsGo(body: string, dots: string)
    requires body != "" && body[|body| - 1] != '.' && forall c <- dots :: c == '.'
    ensures RStripDots(body + dots) == body
  {
    var all, r := body + dots, RStripDots(body + dots);
    assert all[|body| - 1] == body[|body| - 1];
    assert forall i :: |body| <= i < |all| ==> all[i] == dots[i - |body|] && dots[i - |body|] in dots;
    assert |r| > 0 ==> r[|r| - 1] == all[|r| - 1];
    assert |r| == |body|;
    assert all[..|body|] == body;
  }

  lemma StarInFront(labels: seq<string>)
    requires labels != [] && forall l <- labels :: '.' !in l
    ensures IsWildcard(Join(labels, '.')) <==> labels[0] == "*" && |labels| > 1
  {
    var all, first := Join(labels, '.'), labels[0];
    assert first in labels;
    assert forall i :: 0 <= i < |first| ==> all[i] == first[i] && first[i] in first;
    assert IsWildcard(all) <==> |all| >= 2 && all[0] == '*' && all[1] == '.';
    if |labels| > 1 {
      assert all[|first|] == '.';
      assert first == "*" <==> |first| == 1 && first[0] == '*';
    }
  }

  predicate AllAscii(s: string) { forall c <- s :: c as int < 128 }

  lemma EncodedAre(tx: Text, labels: seq<string>, encoded: seq<string>)
    requires |encoded| == |labels|
    requires forall i :: 0 <= i < |labels| ==> encoded[i] == if AllAscii(labels[i]) then labels[i] else tx.idna(labels[i])
    ensures EncodeLabels(tx, labels) == encoded
  {
    forall i | 0 <= i < |labels| ensures EncodeLabel(tx, labels[i]) == encoded[i] {
      assert AllAscii(labels[i]) == IsAscii(labels[i]);
    }
  }

  /** Every label is encoded for itself, unless it is ASCII already; a star in front stays, and the dots
      behind go. */
  lemma LabelsAreEncoded(tx: Text, raw: string, star: bool, labels: seq<string>, dots: string, encoded: seq<string>)
    requires labels != [] && labels[|labels| - 1] != "" && (forall l <- labels :: '.' !in l) && forall c <- dots :: c == '.'
    requires star || labels[0] != "*" || |labels| == 1
    requires tx.lower(tx.Strip(raw)) == (if star then "*." else "") + Join(labels, '.') + dots
    requires |encoded| == |labels|
    requires forall i :: 0 <= i < |labels| ==>
               encoded[i] == if AllAscii(labels[i]) then labels[i] else tx.idna(labels[i])
    ensures Normalise(tx, raw) == (if star then "*." else "") + Join(encoded, '.')
  {
    var body := Join(labels, '.');
    var name := (if star then "*." else "") + body;
    LastOfJoin(labels);
    NoDotAtEnd(labels[|labels| - 1], labels);
    assert name[|name| - 1] == body[|body| - 1];
    DotsGo(name, dots);
    ApexIsBody(name, star, labels);
    NormaliseOfTrimmed(tx, raw, name);
    SplitOfJoin(labels, '.');
    EncodedAre(tx, labels, encoded);
  }

  lemma NoDotAtEnd(last: string, labels: seq<string>)
    requires last in labels && last != "" && forall l <- labels :: '.' !in l
    ensures last[|last| - 1] != '.'
  {
    assert last[|last| - 1] in last;
  }

  lemma ApexIsBody(name: string, star: bool, labels: seq<string>)
    requires labels != [] && (forall l <- labels :: '.' !in l) && (star || labels[0] != "*" || |labels| == 1)
    requires name == (if star then "*." else "") + Join(labels, '.')
    ensures ApexOf(name) == Join(labels, '.') && IsWildcard(name) == star
  {
    StarInFront(labels);
    if star {
      assert name[..2] == "*.";
    } else {
      assert name == Join(labels, '.');
    }
  }

  lemma NormaliseOfTrimmed(tx: Text, raw: string, name: string)
    requires Trimmed(tx, raw) == name && name != ""
    ensures Normalise(tx, raw)
            == (if IsWildcard(name) then "*." else "") + Join(EncodeLabels(tx, Split(ApexOf(name), '.')), '.')
  {
    var encoded := Join(EncodeLabels(tx, Split(ApexOf(name), '.')), '.');
    assert "" + encoded == encoded;
  }

  // ---- why a name is refused ----

  /** A star anywhere but as the whole first label. */
  predicate Misplaced(name: string) { exists i :: 0 <= i < |name| && name[i] == '*' && (i > 0 || !("*." <= name)) }

  lemma MisplacedIsInTheApex(name: string)
    ensures Misplaced(name) <==> '*' in ApexOf(name)
  {
    var apex := ApexOf(name);
    var n := |name| - |apex|;
    assert forall i :: 0 <= i < |apex| ==> apex[i] == name[i + n];
    if '*' in apex {
      var i := PlaceOf(apex, '*');
      assert name[i + n] == '*';
    }
  }

  /** Which of the whole-name objections is raised: the first of these that applies. */
  lemma ObjectionsExactly(tx: Text, raw: string)
    ensures var name, error := Normalise(tx, raw), Validate(tx, raw).error;
            && (error == Some(ErrorEmpty) <==> name == "")
            && (error == Some(ErrorWildcardBare) <==> name == "*")
            && (error == Some(ErrorWildcardPosition) <==> name != "*" && Misplaced(name))
            && (error == Some(ErrorTooLong) <==> !Misplaced(name) && |name| > 253)
  {
    var name := Normalise(tx, raw);
    MisplacedIsInTheApex(name);
    LabelIssuesOnly(Split(ApexOf(name), '.'));
    assert name == "*" ==> name[0] == '*';
  }

  lemma {:induction false} LabelIssuesOnly(labels: seq<string>)
    ensures var issue := LabelsIssue(labels);
            issue.Some? ==> issue.value.ErrorEmptyLabel? || issue.value.ErrorLabelTooLong? || issue.value.ErrorLabelHyphen?
                            || issue.value.ErrorLabelChars?
  {
    if labels != [] {
      LabelIssuesOnly(labels[1..]);
    }
  }

  /** What is wrong with a label: the first of these that applies. */
  function Objection(l: string): Issue {
    if l == "" then ErrorEmptyLabel
    else if |l| > 63 then ErrorLabelTooLong(l)
    else if l[0] == '-' || l[|l| - 1] == '-' then ErrorLabelHyphen(l)
    else ErrorLabelChars(l)
  }

  lemma {:induction false} FirstBadLabel(labels: seq<string>, k: nat)
    requires k < |labels| && !GoodLabel(labels[k]) && forall j :: 0 <= j < k ==> GoodLabel(labels[j])
    ensures LabelsIssue(labels) == Some(Objection(labels[k]))
  {
    GoodLabelHasNoIssue(labels[0]);
    if k > 0 {
      assert labels[0..][0] == labels[0];
      FirstBadLabel(labels[1..], k - 1);
    }
  }

  /** What is said about a name of these labels, if nothing is wrong with it as a whole. */
  predicate Judged(labels: seq<string>, error: Option<Issue>) {
    && (forall k :: 0 <= k < |labels| && !GoodLabel(labels[k]) && (forall j :: 0 <= j < k ==> GoodLabel(labels[j])) ==>
          error == Some(Objection(labels[k])))
    && ((forall l <- labels :: GoodLabel(l)) ==> error == if |labels| == 1 then Some(ErrorSingleLabel) else None)
  }

  /** A name with none of those objections is refused for its first bad label, or for having only one
      label; and if there is neither, it is accepted. */
  lemma LabelObjectionsExactly(tx: Text, raw: string, labels: seq<string>)
    requires var name := Normalise(tx, raw); name != "" && !Misplaced(name) && |name| <= 253
    requires labels != [] && (forall l <- labels :: '.' !in l) && ApexOf(Normalise(tx, raw)) == Join(labels, '.')
    ensures Judged(labels, Validate(tx, raw).error)
  {
    MisplacedIsInTheApex(Normalise(tx, raw));
    SplitOfJoin(labels, '.');
    ErrorOfLabels(tx, raw, Normalise(tx, raw), labels);
    LabelsAreJudged(labels, Validate(tx, raw).error);
  }

  lemma LabelsAreJudged(labels: seq<string>, error: Option<Issue>)
    requires error == if LabelsIssue(labels).Some? then LabelsIssue(labels)
                      else if |labels| == 1 then Some(ErrorSingleLabel) else None
    ensures Judged(labels, error)
  {
    ErrorsOfLabels(labels);
    if exists l <- labels :: !GoodLabel(l) {
      var l :| l in labels && !GoodLabel(l);
      GoodLabelHasNoIssue(l);
    }
  }

  lemma ErrorsOfLabels(labels: seq<string>)
    ensures forall k :: 0 <= k < |labels| && !GoodLabel(labels[k]) && (forall j :: 0 <= j < k ==> GoodLabel(labels[j])) ==>
              LabelsIssue(labels) == Some(Objection(labels[k]))
    ensures (forall l <- labels :: GoodLabel(l)) ==> LabelsIssue(labels).None?
  {
    forall k | 0 <= k < |labels| && !GoodLabel(labels[k]) && forall j :: 0 <= j < k ==> GoodLabel(labels[j])
      ensures LabelsIssue(labels) == Some(Objection(labels[k]))
    {
      FirstBadLabel(labels, k);
    }
    if forall l <- labels :: GoodLabel(l) {
      forall l | l in labels ensures LabelIssue(l).None? {
        GoodLabelHasNoIssue(l);
      }
    }
  }

  lemma ErrorOfLabels(tx: Text, raw: string, name: string, labels: seq<string>)
    requires name == Normalise(tx, raw) != "" && '*' !in ApexOf(name) && |name| <= 253
    requires Split(ApexOf(name), '.') == labels
    ensures Validate(tx, raw).error
            == if LabelsIssue(labels).Some? then LabelsIssue(labels) else if |labels| == 1 then Some(ErrorSingleLabel) else None
  {
    assert ApexOf("*") == "*" && "*"[0] in "*";
  }

  // ---- what is remarked upon ----

  /** The remarks about an accepted name: on a last label that multicast DNS claims, or that browsers
      insist on encryption for, and on the bare name below a star. */
  lemma RemarksExactly(tx: Text, raw: string, labels: seq<string>)
    requires Validate(tx, raw).Ok() && SpelledBy(Normalise(tx, raw), labels)
    ensures var name, n := Normalise(tx, raw), |labels|;
            forall w: Issue :: w in Validate(tx, raw).warnings <==>
              || (labels[n - 1] == "local" && w == WarnMdns(labels[n - 2] + ".test"))
              || (labels[n - 1] != "local" && labels[n - 1] in HSTS_PRELOADED_TLDS && w == WarnHstsTld(labels[n - 1]))
              || ("*." <= name && w == WarnWildcardApex(name[2..]))
  {
    SpellingIsUnique(Normalise(tx, raw), labels);
  }
}
