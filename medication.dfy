/** The medication split of the prescription PDF (App.tsx): find a medication marker in the
    lower-cased summary, cut the summary there, trim both halves, and strip the marker from the
    medication half. Lower-casing is ASCII only, so positions in the lower-cased text are
    positions in the summary. */
module Medication {
  import opened Wrappers
  import opened Text

  /** The markers, in the order they are tried. The strip pattern lists the same markers
      capitalised and matches case-insensitively, which for these ASCII words is the same as
      comparing against the lower-case spelling. */
  const MedKeywords: seq<string> := ["medication:", "rx:", "prescription:", "take the following:"]

  /** A marker found in the summary: where, and which. */
  datatype Marker = Marker(at: nat, keyword: string)

  /** Every marker is non-empty, ends with a colon, and no two start with the same letter. */
  lemma KeywordsShape()
    ensures forall j :: 0 <= j < |MedKeywords| ==> |MedKeywords[j]| > 0 && MedKeywords[j][|MedKeywords[j]| - 1] == ':'
    ensures forall j, k :: 0 <= j < |MedKeywords| && 0 <= k < |MedKeywords| && MedKeywords[j][0] == MedKeywords[k][0] ==> j == k
  {
  }

  // ---- The search as written: the first marker in list order that occurs at all ----

  /** From the `j`-th marker on, the first one that occurs anywhere, at its first occurrence. */
  function FirstListedFrom(lower: string, kws: seq<string>, j: nat): (r: Option<Marker>)
    requires j <= |kws|
    ensures r.None? <==> forall k :: j <= k < |kws| ==> IndexOf(lower, kws[k]) == -1
    ensures r.Some? ==> r.value.keyword in kws[j..] && IndexOf(lower, r.value.keyword) == r.value.at
    decreases |kws| - j
  {
    if j == |kws| then None
    else if IndexOf(lower, kws[j]) > -1 then Some(Marker(IndexOf(lower, kws[j]), kws[j]))
    else FirstListedFrom(lower, kws, j + 1)
  }

  function FirstListed(lower: string): (r: Option<Marker>)
    ensures r.None? <==> forall k :: 0 <= k < |MedKeywords| ==> !Contains(lower, MedKeywords[k])
    ensures r.Some? ==> r.value.keyword in MedKeywords && OccursAt(lower, r.value.keyword, r.value.at)
  {
    assert MedKeywords[0..] == MedKeywords;
    FirstListedFrom(lower, MedKeywords, 0)
  }

  /** The `k`-th marker is the one chosen exactly when it occurs and none listed before it
      does. */
  lemma {:induction false} FirstListedChooses(lower: string, kws: seq<string>, j: nat, k: nat)
    requires j <= k < |kws|
    requires forall i :: j <= i < k ==> IndexOf(lower, kws[i]) == -1
    requires IndexOf(lower, kws[k]) > -1
    ensures FirstListedFrom(lower, kws, j) == Some(Marker(IndexOf(lower, kws[k]), kws[k]))
    decreases k - j
  {
    if j < k {
      FirstListedChooses(lower, kws, j + 1, k);
    }
  }

  /** One marker looked up: it is chosen if it occurs, and otherwise the search goes on. */
  lemma FirstListedStep(lower: string, kws: seq<string>, j: nat)
    requires j < |kws|
    ensures FirstListedFrom(lower, kws, j)
      == if IndexOf(lower, kws[j]) > -1 then Some(Marker(IndexOf(lower, kws[j]), kws[j])) else FirstListedFrom(lower, kws, j + 1)
  {
  }

  // ---- The search the comment describes: the marker that occurs earliest ----

  /** Among the markers `kws`, the one with the smallest first occurrence; on a tie the one
      listed first. */
  function Earliest(lower: string, kws: seq<string>): (r: Option<Marker>)
    ensures r.None? <==> forall k :: 0 <= k < |kws| ==> IndexOf(lower, kws[k]) == -1
    ensures r.Some? ==> r.value.keyword in kws && OccursAt(lower, r.value.keyword, r.value.at)
    ensures r.Some? ==> r.value.at == IndexOf(lower, r.value.keyword)
    ensures r.Some? ==> forall k :: 0 <= k < |kws| && IndexOf(lower, kws[k]) != -1 ==> r.value.at <= IndexOf(lower, kws[k])
    decreases |kws|
  {
    if kws == [] then None
    else
      var prev := Earliest(lower, kws[..|kws| - 1]);
      var k := kws[|kws| - 1];
      var i := IndexOf(lower, k);
      assert forall j :: 0 <= j < |kws| - 1 ==> kws[..|kws| - 1][j] == kws[j];
      if i > -1 && (prev.None? || i < prev.value.at) then Some(Marker(i, k)) else prev
  }

  /** One more keyword looked up: it replaces the marker found so far only when it occurs
      strictly earlier. */
  lemma EarliestExtends(lower: string, kws: seq<string>, n: nat)
    requires n < |kws|
    ensures var prev := Earliest(lower, kws[..n]);
      var i := IndexOf(lower, kws[n]);
      Earliest(lower, kws[..n + 1]) == if i > -1 && (prev.None? || i < prev.value.at) then Some(Marker(i, kws[n])) else prev
  {
    assert kws[..n + 1][..n] == kws[..n];
  }

  /** The corrected search cuts before every marker: no marker occurs anywhere before the
      cut, so none is left in the clinical text's start. */
  lemma EarliestIsEarliest(lower: string)
    requires Earliest(lower, MedKeywords).Some?
    ensures var m := Earliest(lower, MedKeywords).value;
      forall k, p :: 0 <= k < |MedKeywords| && 0 <= p < m.at ==> !OccursAt(lower, MedKeywords[k], p)
  {
    var m := Earliest(lower, MedKeywords).value;
    forall k, p | 0 <= k < |MedKeywords| && 0 <= p < m.at
      ensures !OccursAt(lower, MedKeywords[k], p)
    {
      var i := IndexOf(lower, MedKeywords[k]);
      if i != -1 {
        assert p < i;
      }
    }
  }

  /** Whenever both searches find a marker, the corrected one cuts no later. */
  lemma EarliestNoLater(lower: string)
    requires FirstListed(lower).Some?
    ensures Earliest(lower, MedKeywords).Some?
    ensures Earliest(lower, MedKeywords).value.at <= FirstListed(lower).value.at
  {
    var f := FirstListed(lower).value;
    var k :| 0 <= k < |MedKeywords| && MedKeywords[k] == f.keyword;
  }

  // ---- Cutting the summary ----

  /** The first marker (in the fixed order) that the lower-cased text starts with. */
  function MarkerAtStart(lower: string, markers: seq<string>): (m: Option<string>)
    ensures m.Some? ==> m.value in markers && OccursAt(lower, m.value, 0)
    decreases |markers|
  {
    if markers == [] then None
    else if OccursAt(lower, markers[0], 0) then Some(markers[0])
    else MarkerAtStart(lower, markers[1..])
  }

  /** The anchored, case-insensitive `replace` that removes a leading marker. */
  function StripMarker(t: string): (r: string)
    ensures |r| <= |t| && r == t[|t| - |r|..]
    ensures MarkerAtStart(ToLower(t), MedKeywords).None? ==> r == t
  {
    match MarkerAtStart(ToLower(t), MedKeywords)
    case None => t
    case Some(m) => t[|m|..]
  }

  /** The clinical and the medication text: with no marker the summary as it is and nothing;
      with one, the trimmed text before it and the trimmed, stripped text from it on. */
  function SplitAt(summary: string, m: Option<Marker>): (r: (string, string))
    requires m.Some? ==> m.value.at <= |summary|
    ensures m.None? ==> r == (summary, "")
    ensures m.Some? ==> Trim(r.0) == r.0 && Trim(r.1) == r.1
  {
    match m
    case None => (summary, "")
    case Some(mk) =>
      TrimIdempotent(summary[..mk.at]);
      TrimIdempotent(StripMarker(Trim(summary[mk.at..])));
      (Trim(summary[..mk.at]), Trim(StripMarker(Trim(summary[mk.at..]))))
  }

  /** The loop as written: markers are tried in list order and the first that occurs anywhere
      ends the loop, even if a later one occurs earlier. */
  method SplitMedication(summary: string) returns (clinical: string, medication: string)
    ensures (clinical, medication) == SplitAt(summary, FirstListed(ToLower(summary)))
  {
    var lower := ToLower(summary);
    clinical := summary;
    medication := "";
    var splitIndex := -1;
    ghost var chosen: Option<Marker> := None;
    var i := 0;
    while i < |MedKeywords|
      invariant 0 <= i <= |MedKeywords|
      invariant splitIndex == -1 && chosen.None?
      invariant FirstListedFrom(lower, MedKeywords, i) == FirstListed(lower)
    {
      FirstListedStep(lower, MedKeywords, i);
      var index := IndexOf(lower, MedKeywords[i]);
      if index > -1 && (splitIndex == -1 || index < splitIndex) {
        splitIndex := index;
        chosen := Some(Marker(index, MedKeywords[i]));
        break;
      }
      i := i + 1;
    }
    assert chosen == FirstListed(lower);
    if splitIndex > -1 {
      medication := Trim(summary[splitIndex..]);
      clinical := Trim(summary[..splitIndex]);
      medication := Trim(StripMarker(medication));
    }
  }

  /** The loop without the `break`: every marker is looked up and the earliest kept. */
  method SplitMedicationEarliest(summary: string) returns (clinical: string, medication: string)
    ensures (clinical, medication) == SplitAt(summary, Earliest(ToLower(summary), MedKeywords))
  {
    var lower := ToLower(summary);
    clinical := summary;
    medication := "";
    var splitIndex := -1;
    ghost var chosen: Option<Marker> := None;
    var i := 0;
    while i < |MedKeywords|
      invariant 0 <= i <= |MedKeywords|
      invariant chosen == Earliest(lower, MedKeywords[..i])
      invariant splitIndex == (if chosen.None? then -1 else chosen.value.at)
    {
      EarliestExtends(lower, MedKeywords, i);
      var index := IndexOf(lower, MedKeywords[i]);
      if index > -1 && (splitIndex == -1 || index < splitIndex) {
        splitIndex := index;
        chosen := Some(Marker(index, MedKeywords[i]));
      }
      i := i + 1;
    }
    assert MedKeywords[..i] == MedKeywords;
    if splitIndex > -1 {
      medication := Trim(summary[splitIndex..]);
      clinical := Trim(summary[..splitIndex]);
      medication := Trim(StripMarker(medication));
    }
  }

  // ---- What the cut yields ----

  /** An occurrence in the lower-cased text moves with the slice it lies in. */
  lemma LowerOccursInSlice(s: string, t: string, i: nat, j: nat)
    requires i <= j <= |s| && i + |t| <= j && OccursAt(ToLower(s), t, i)
    ensures OccursAt(ToLower(s[i..j]), t, 0)
  {
    assert ToLower(s[i..j])[0..|t|] == ToLower(s)[i..i + |t|];
  }

  /** A text starting with a marker starts with a letter and has the marker's colon where the
      marker ends: neither is white space. */
  lemma MarkerChars(x: string, kw: string)
    requires kw in MedKeywords && OccursAt(ToLower(x), kw, 0)
    ensures 0 < |kw| <= |x| && !IsWhite(x[0]) && !IsWhite(x[|kw| - 1])
  {
    KeywordsShape();
    assert ToLower(x)[0] == ToLower(x)[0..|kw|][0] == kw[0];
    assert ToLower(x)[|kw| - 1] == ToLower(x)[0..|kw|][|kw| - 1] == ':';
    LowerKeepsWhite(x[0]);
    LowerKeepsWhite(x[|kw| - 1]);
  }

  /** A prefix that still holds the whole marker loses exactly the marker to the strip. */
  lemma StripPrefixOf(x: string, kw: string, n: nat)
    requires kw in MedKeywords && OccursAt(ToLower(x), kw, 0) && |kw| <= n <= |x|
    ensures StripMarker(x[..n]) == x[|kw|..n]
  {
    LowerOccursInSlice(x, kw, 0, n);
    StripFound(x[..n], kw);
    assert x[..n][|kw|..] == x[|kw|..n];
  }

  /** From an occurrence of a marker on, trimming, stripping and trimming again leaves what
      follows the marker, trimmed. */
  lemma MedicationAfterMarker(x: string, kw: string)
    requires kw in MedKeywords && OccursAt(ToLower(x), kw, 0)
    ensures Trim(StripMarker(Trim(x))) == Trim(x[|kw|..])
  {
    MarkerChars(x, kw);
    TrimAfterPrefix(x, |kw|);
    StripPrefixOf(x, kw, |Trim(x)|);
    assert StripMarker(Trim(x)) == Trim(x)[|kw|..];
  }

  /** When the lower-cased text starts with marker `kw`, the strip finds that same marker: no
      other marker starts with the same letter. */
  lemma {:induction false} MarkerAtStartFinds(lower: string, markers: seq<string>, kw: string)
    requires kw in markers && OccursAt(lower, kw, 0)
    requires forall j :: 0 <= j < |markers| ==> |markers[j]| > 0
    requires forall j, k :: 0 <= j < |markers| && 0 <= k < |markers| && markers[j][0] == markers[k][0] ==> j == k
    ensures MarkerAtStart(lower, markers) == Some(kw)
    decreases |markers|
  {
    var k :| 0 <= k < |markers| && markers[k] == kw;
    assert lower[0] == kw[0] by { assert lower[0..|kw|][0] == kw[0]; }
    if markers[0] != kw {
      assert markers[0][0] != kw[0];
      var rest := markers[1..];
      assert forall j :: 0 <= j < |rest| ==> rest[j] == markers[j + 1];
      MarkerAtStartFinds(lower, rest, kw);
    }
  }

  lemma StripFound(y: string, kw: string)
    requires kw in MedKeywords && OccursAt(ToLower(y), kw, 0)
    ensures |kw| <= |y| && StripMarker(y) == y[|kw|..]
  {
    KeywordsShape();
    MarkerAtStartFinds(ToLower(y), MedKeywords, kw);
  }

  /** Cutting at a marker `kw` found at `i`: the medication text is what follows the marker,
      trimmed; the clinical text is what precedes it, trimmed. */
  lemma SplitAtMarker(summary: string, i: nat, kw: string)
    requires kw in MedKeywords && OccursAt(ToLower(summary), kw, i)
    ensures SplitAt(summary, Some(Marker(i, kw))) == (Trim(summary[..i]), Trim(summary[i + |kw|..]))
  {
    LowerOccursInSlice(summary, kw, i, |summary|);
    MedicationAfterMarker(summary[i..], kw);
    assert summary[i..][|kw|..] == summary[i + |kw|..];
  }

  /** The text as written, and the text cut where the first marker occurs, agree on what they
      are: with no marker the clinical text is the summary and the medication text empty. */
  lemma NoMarkerKeepsSummary(summary: string)
    requires FirstListed(ToLower(summary)).None?
    ensures SplitAt(summary, FirstListed(ToLower(summary))) == (summary, "")
    ensures Earliest(ToLower(summary), MedKeywords).None?
  {
  }

  // ---- The input that shows the difference ----

  lemma ExampleLower()
    ensures ToLower("rx: A. medication: B") == "rx: a. medication: b"
  {
  }

  lemma ExampleIndices()
    ensures IndexOf("rx: a. medication: b", "medication:") == 7
    ensures IndexOf("rx: a. medication: b", "rx:") == 0
  {
    var s := "rx: a. medication: b";
    assert OccursAt(s, "rx:", 0) by { assert s[0..3] == "rx:"; }
    assert OccursAt(s, "medication:", 7) by { assert s[7..18] == "medication:"; }
    forall p | 0 <= p < 7 ensures !OccursAt(s, "medication:", p) {
      assert s[p] != 'm';
      if p + 11 <= |s| { assert s[p..p + 11][0] == s[p]; }
    }
  }

  /** `"rx: A. medication: B"`: the loop as written cuts at `medication:` (offset 7), although
      `rx:` occurs at offset 0, so the `rx:` line stays in the clinical text. */
  lemma FirstListedExample()
    ensures FirstListed(ToLower("rx: A. medication: B")) == Some(Marker(7, "medication:"))
  {
    ExampleLower();
    ExampleIndices();
    FirstListedChooses("rx: a. medication: b", MedKeywords, 0, 0);
  }

  /** The corrected search cuts the same summary at `rx:`, offset 0. */
  lemma EarliestExample()
    ensures Earliest(ToLower("rx: A. medication: B"), MedKeywords) == Some(Marker(0, "rx:"))
  {
    ExampleLower();
    ExampleIndices();
    var s := "rx: a. medication: b";
    var e := Earliest(s, MedKeywords);
    assert IndexOf(s, MedKeywords[1]) == 0;
    var m := e.value;
    assert m.at == 0;
    assert OccursAt(s, m.keyword, 0);
    var k :| 0 <= k < |MedKeywords| && MedKeywords[k] == m.keyword;
    KeywordsShape();
    assert m.keyword[0] == 'r' by { assert s[0..|m.keyword|][0] == m.keyword[0]; }
    assert k == 1;
  }
}
