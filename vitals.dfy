/** Vitals extraction for the prescription PDF (`getVital` and the unit fix-ups in App.tsx).
    Each of the five patterns is searched in the lower-cased summary and, as the code is
    written, the value returned for a match is capture group 1, the vital's keyword.

    A pattern is held as data: the spellings of its keyword, the connectives (one alternative
    of the whole pattern each, tried in order) and the shape of the reading. The matchers
    below are leftmost-match predicates over that data. Every `\s*` in the five patterns is
    followed by a literal that does not start with white space, and every `[\d.]+` by white
    space or a unit letter, so a greedy scan is the only way each part can match (the lemma
    `SkipWhiteUnique` records the first fact). The spellings of one keyword differ in their
    first two characters, so at most one of them matches at a position. */
module Vitals {
  import opened Wrappers
  import opened Text

  datatype Vital = SpO2 | BP | Pulse | Height | Weight

  /** What the PDF shows for a vital that was not found. */
  function Placeholder(v: Vital): (r: string)
    ensures |r| > 8 && forall i :: 0 <= i < 8 ==> r[i] == '_'
  {
    match v
    case SpO2 => "________%"
    case BP => "________mmHg"
    case Pulse => "________bpm"
    case Height => "________ cm/in"
    case Weight => "________ kg/lb"
  }

  /** One spelling of a keyword: `first`, or `first\s*second` when `second` is not empty. */
  datatype Word = Word(first: string, second: string)

  /** The shape of the reading after the connective. */
  datatype Reading =
    | Percent                               // one to three digits, then any white space and `%`
    | Fraction                              // two or three digits, `/`, two or three digits
    | Count                                 // one to three digits
    | Measure(unit1: string, unit2: string) // digits and dots, white space, one of two units

  /** Keyword, `\s*`, connective, `\s*`, reading: one alternative per connective. */
  datatype Pattern = Pattern(keywords: seq<Word>, connectives: seq<string>, reading: Reading)

  /** The five regular expressions. */
  function PatternOf(v: Vital): Pattern {
    match v
    case SpO2 => Pattern([Word("spo2", ""), Word("saturation", "")], ["is", "at"], Percent)
    case BP => Pattern([Word("blood", "pressure"), Word("b.p.", ""), Word("bp", "")], ["is"], Fraction)
    case Pulse => Pattern([Word("pulse", ""), Word("heart", "rate")], ["is"], Count)
    case Height => Pattern([Word("height", "")], ["is"], Measure("cm", "in"))
    case Weight => Pattern([Word("weight", "")], ["is"], Measure("kg", "lb"))
  }

  /** Only SpO2's pattern has a second alternative (`at`), every first alternative uses `is`,
      and only height and weight read a measure with a unit. */
  lemma PatternShapes(v: Vital)
    ensures var p := PatternOf(v);
      && 1 <= |p.connectives| <= 2 && p.connectives[0] == "is" && p.keywords != []
      && (|p.connectives| == 2 <==> v == SpO2)
      && (p.reading.Measure? <==> v == Height || v == Weight)
  {
  }

  /** `\s*` starting at `i`: the position after the white-space run. */
  function SkipWhite(s: string, i: nat): (j: nat)
    requires i <= |s|
    ensures i <= j <= |s|
    ensures forall k :: i <= k < j ==> IsWhite(s[k])
    ensures j < |s| ==> !IsWhite(s[j])
    decreases |s| - i
  {
    if i < |s| && IsWhite(s[i]) then SkipWhite(s, i + 1) else i
  }

  /** Backtracking cannot help `\s*`: any white-space run from `i` that is followed by a
      character that is not white space is the greedy one. */
  lemma {:induction false} SkipWhiteUnique(s: string, i: nat, j: nat)
    requires i <= j < |s|
    requires forall k :: i <= k < j ==> IsWhite(s[k])
    requires !IsWhite(s[j])
    ensures SkipWhite(s, i) == j
    decreases j - i
  {
    if i < j {
      SkipWhiteUnique(s, i + 1, j);
    }
  }

  /** `\d{1,max}` read greedily from `i`: how many digits it takes. */
  function DigitRun(s: string, i: nat, max: nat): (n: nat)
    requires i <= |s|
    ensures n <= max && i + n <= |s|
    ensures forall k :: i <= k < i + n ==> IsDigit(s[k])
    ensures n < max && i + n < |s| ==> !IsDigit(s[i + n])
    decreases max
  {
    if max > 0 && i < |s| && IsDigit(s[i]) then 1 + DigitRun(s, i + 1, max - 1) else 0
  }

  /** `[\d\.]+` read greedily from `i`. */
  function NumericRun(s: string, i: nat): (n: nat)
    requires i <= |s|
    ensures i + n <= |s|
    ensures forall k :: i <= k < i + n ==> IsNumericChar(s[k])
    ensures i + n < |s| ==> !IsNumericChar(s[i + n])
    decreases |s| - i
  {
    if i < |s| && IsNumericChar(s[i]) then 1 + NumericRun(s, i + 1) else 0
  }

  /** `[\s%]*` read greedily from `i`. */
  function PercentRun(s: string, i: nat): (n: nat)
    requires i <= |s|
    ensures i + n <= |s|
    decreases |s| - i
  {
    if i < |s| && (IsWhite(s[i]) || s[i] == '%') then 1 + PercentRun(s, i + 1) else 0
  }

  /** The literal `t` occurs in `s` at `p`, compared one character at a time. */
  function LiteralAt(s: string, t: string, p: nat): (r: bool)
    requires p <= |s|
    ensures r ==> p + |t| <= |s|
    decreases |t|
  {
    |t| == 0 || (p < |s| && s[p] == t[0] && LiteralAt(s, t[1..], p + 1))
  }

  lemma {:induction false} LiteralAtSlice(s: string, t: string, p: nat)
    requires p <= |s| && LiteralAt(s, t, p)
    ensures s[p..p + |t|] == t
    decreases |t|
  {
    if |t| > 0 {
      LiteralAtSlice(s, t[1..], p + 1);
      assert s[p..p + |t|] == [s[p]] + s[p + 1..p + |t|];
    }
  }

  lemma LiteralAtIndex(s: string, t: string, p: nat)
    requires p <= |s| && LiteralAt(s, t, p)
    ensures forall i :: 0 <= i < |t| ==> s[p + i] == t[i]
  {
    LiteralAtSlice(s, t, p);
    forall i | 0 <= i < |t| ensures s[p + i] == t[i] {
      assert s[p + i] == s[p..p + |t|][i];
    }
  }

  lemma {:induction false} SliceLiteralAt(s: string, t: string, p: nat)
    requires p + |t| <= |s| && s[p..p + |t|] == t
    ensures LiteralAt(s, t, p)
    decreases |t|
  {
    if |t| > 0 {
      assert s[p] == t[0];
      assert s[p + 1..p + 1 + |t[1..]|] == t[1..];
      SliceLiteralAt(s, t[1..], p + 1);
    }
  }

  /** Where spelling `w` ends if it starts at `p`. */
  function WordEnd(s: string, w: Word, p: nat): (k: Option<nat>)
    requires p <= |s|
    ensures k.Some? ==> p + |w.first| <= k.value <= |s|
  {
    if !LiteralAt(s, w.first, p) then None
    else if w.second == "" then Some(p + |w.first|)
    else
      var j := SkipWhite(s, p + |w.first|);
      if LiteralAt(s, w.second, j) then Some(j + |w.second|) else None
  }

  /** The keyword group at `p`: where the first spelling, in order, that matches there ends. */
  function KeywordEnd(s: string, words: seq<Word>, p: nat): (k: Option<nat>)
    requires p <= |s|
    ensures k.Some? ==> p <= k.value <= |s|
    decreases |words|
  {
    if words == [] then None
    else
      match WordEnd(s, words[0], p)
      case Some(k) => Some(k)
      case None => KeywordEnd(s, words[1..], p)
  }

  /** `[\d\.]+\s*(u1|u2)` starting at `q`. */
  function UnitEnd(s: string, q: nat, u1: string, u2: string): (e: Option<nat>)
    requires q <= |s|
    ensures e.Some? ==> q < e.value <= |s| && IsNumericChar(s[q])
  {
    var n := NumericRun(s, q);
    if n == 0 then None
    else
      var u := SkipWhite(s, q + n);
      if LiteralAt(s, u1, u) then Some(u + |u1|)
      else if LiteralAt(s, u2, u) then Some(u + |u2|)
      else None
  }

  /** The reading group starting at `q`: where it ends. */
  function ReadingEnd(r: Reading, s: string, q: nat): (e: Option<nat>)
    requires q <= |s|
    ensures e.Some? ==> q < e.value <= |s| && IsNumericChar(s[q])
    ensures e.Some? && !r.Measure? ==> IsDigit(s[q])
  {
    match r
    case Percent =>
      var d := DigitRun(s, q, 3);
      if d == 0 then None else Some(q + d + PercentRun(s, q + d))
    case Fraction =>
      var d1 := DigitRun(s, q, 3);
      if 2 <= d1 && q + d1 < |s| && s[q + d1] == '/' then
        var d2 := DigitRun(s, q + d1 + 1, 3);
        if 2 <= d2 then Some(q + d1 + 1 + d2) else None
      else None
    case Count =>
      var d := DigitRun(s, q, 3);
      if d == 0 then None else Some(q + d)
    case Measure(u1, u2) =>
      UnitEnd(s, q, u1, u2)
  }

  /** Between the keyword ending at `k` and the reading starting at `q` lie exactly a white-space
      run, the connective and another white-space run. */
  predicate ConnectiveBetween(s: string, connective: string, k: nat, q: nat)
    requires k <= |s|
  {
    var c := SkipWhite(s, k);
    LiteralAt(s, connective, c) && q == SkipWhite(s, c + |connective|)
  }

  /** Where one alternative matches at `p`: the keyword group, `\s*`, the connective, `\s*`
      and the reading group, each `\s*` taking the white-space run that follows it. */
  datatype Span = Span(keywordEnd: nat, readingStart: nat, readingEnd: nat)

  function AltMatch(pat: Pattern, s: string, p: nat, connective: string): (m: Option<Span>)
    requires p <= |s|
    ensures m.Some? ==> p <= m.value.keywordEnd <= m.value.readingStart < m.value.readingEnd <= |s|
    ensures m.Some? ==> KeywordEnd(s, pat.keywords, p) == Some(m.value.keywordEnd)
    ensures m.Some? ==> ReadingEnd(pat.reading, s, m.value.readingStart) == Some(m.value.readingEnd)
    ensures m.Some? ==> IsNumericChar(s[m.value.readingStart])
    ensures m.Some? && !pat.reading.Measure? ==> IsDigit(s[m.value.readingStart])
    ensures m.Some? ==> ConnectiveBetween(s, connective, m.value.keywordEnd, m.value.readingStart)
  {
    match KeywordEnd(s, pat.keywords, p)
    case None => None
    case Some(k) =>
      var c := SkipWhite(s, k);
      if LiteralAt(s, connective, c) then
        var q := SkipWhite(s, c + |connective|);
        match ReadingEnd(pat.reading, s, q)
        case None => None
        case Some(e) => Some(Span(k, q, e))
      else None
  }

  /** The captures of a match: the keyword group (present only for the first alternative, the
      one it belongs to) and the reading. */
  datatype Groups = Groups(group1: Option<string>, keywordEnd: nat, reading: string)

  /** The first alternative, from the `i`-th on, that matches at `p`. */
  function MatchFrom(pat: Pattern, s: string, p: nat, i: nat): (g: Option<Groups>)
    requires p <= |s| && i <= |pat.connectives|
    ensures g.Some? ==> p < |s| && g.value.reading != [] && IsNumericChar(g.value.reading[0])
    ensures g.Some? && !pat.reading.Measure? ==> IsDigit(g.value.reading[0])
    ensures g.Some? && g.value.group1.Some? ==>
      && p <= g.value.keywordEnd <= |s|
      && g.value.group1.value == s[p..g.value.keywordEnd]
      && KeywordEnd(s, pat.keywords, p) == Some(g.value.keywordEnd)
    ensures g.Some? && g.value.group1.None? ==> 2 <= |pat.connectives|
    decreases |pat.connectives| - i
  {
    if i == |pat.connectives| then None
    else
      match AltMatch(pat, s, p, pat.connectives[i])
      case Some(m) =>
        Some(Groups(if i == 0 then Some(s[p..m.keywordEnd]) else None, m.keywordEnd, s[m.readingStart..m.readingEnd]))
      case None => MatchFrom(pat, s, p, i + 1)
  }

  function MatchAt(pat: Pattern, s: string, p: nat): (g: Option<Groups>)
    requires p <= |s|
  {
    MatchFrom(pat, s, p, 0)
  }

  /** What each alternative of the pattern matches at `p`, in order. */
  function Alts(pat: Pattern, s: string, p: nat): (r: seq<Option<Span>>)
    requires p <= |s|
    ensures |r| == |pat.connectives|
  {
    seq(|pat.connectives|, j requires 0 <= j < |pat.connectives| => AltMatch(pat, s, p, pat.connectives[j]))
  }

  /** The index of the first present entry from the `i`-th on, or `|xs|` when there is none. */
  function FirstSome<T>(xs: seq<Option<T>>, i: nat): (k: nat)
    requires i <= |xs|
    ensures i <= k <= |xs|
    decreases |xs| - i
  {
    if i == |xs| || xs[i].Some? then i else FirstSome(xs, i + 1)
  }

  /** `FirstSome` finds the first present entry: every one before it is absent, and it is
      present unless it is past the end. */
  lemma {:induction false} FirstSomeIsFirst<T>(xs: seq<Option<T>>, i: nat)
    requires i <= |xs|
    ensures forall j :: i <= j < FirstSome(xs, i) ==> xs[j].None?
    ensures FirstSome(xs, i) < |xs| ==> xs[FirstSome(xs, i)].Some?
    decreases |xs| - i
  {
    if i < |xs| && xs[i].None? {
      FirstSomeIsFirst(xs, i + 1);
    }
  }

  /** The captures come from the first alternative that matches: group 1 is the keyword text
      when that is the pattern's first alternative and absent for any later one, and the
      reading is the text of the reading group. There are none exactly when no alternative
      matches. */
  lemma {:induction false} MatchFromIsFirstAlt(pat: Pattern, s: string, p: nat, i: nat)
    requires p <= |s| && i <= |pat.connectives|
    ensures var alts := Alts(pat, s, p);
      var k := FirstSome(alts, i);
      && (MatchFrom(pat, s, p, i).None? <==> k == |alts|)
      && (k < |alts| ==>
            && alts[k].Some?
            && (var m := alts[k].value;
                MatchFrom(pat, s, p, i)
                  == Some(Groups(if k == 0 then Some(s[p..m.keywordEnd]) else None,
                                 m.keywordEnd, s[m.readingStart..m.readingEnd]))))
    decreases |pat.connectives| - i
  {
    var alts := Alts(pat, s, p);
    FirstSomeIsFirst(alts, i);
    if i < |alts| {
      assert alts[i] == AltMatch(pat, s, p, pat.connectives[i]);
      if alts[i].None? {
        MatchFromIsFirstAlt(pat, s, p, i + 1);
        assert FirstSome(alts, i) == FirstSome(alts, i + 1);
      } else {
        assert FirstSome(alts, i) == i;
      }
    }
  }

  /** `String.prototype.match` without the global flag: the leftmost position at or after
      `from` where the pattern matches, or -1. */
  function FirstMatchFrom(pat: Pattern, s: string, from: nat): (r: int)
    requires from <= |s|
    ensures r == -1 || (from <= r < |s| && MatchAt(pat, s, r).Some?)
    ensures r == -1 ==> forall p :: from <= p <= |s| ==> MatchAt(pat, s, p).None?
    ensures r != -1 ==> forall p :: from <= p < r ==> MatchAt(pat, s, p).None?
    decreases |s| - from
  {
    if from == |s| then -1
    else if MatchAt(pat, s, from).Some? then from
    else FirstMatchFrom(pat, s, from + 1)
  }

  function FirstMatch(pat: Pattern, s: string): (r: int)
    ensures r == -1 <==> forall p :: 0 <= p <= |s| ==> MatchAt(pat, s, p).None?
    ensures r != -1 ==> 0 <= r < |s| && MatchAt(pat, s, r).Some? && forall p :: 0 <= p < r ==> MatchAt(pat, s, p).None?
  {
    FirstMatchFrom(pat, s, 0)
  }

  /** The pattern for `v` matches nowhere in the lower-cased summary. */
  predicate Unmatched(v: Vital, summary: string) {
    FirstMatch(PatternOf(v), ToLower(summary)) == -1
  }

  /** Reading `match[1]` when group 1 did not take part in the match: `undefined.trim()`
      throws. */
  datatype VitalError = UndefinedGroup

  /** `getVital`: the trimmed group 1 of the leftmost match in the lower-cased summary, or the
      placeholder when there is none. Only the SpO2 pattern has an alternative without
      group 1. */
  function GetVital(v: Vital, summary: string): (r: Result<string, VitalError>)
    ensures r.Failure? ==> v == SpO2
  {
    var s := ToLower(summary);
    var pat := PatternOf(v);
    var p := FirstMatch(pat, s);
    if p == -1 then Success(Placeholder(v))
    else
      match MatchAt(pat, s, p).value.group1
      case None => Failure(UndefinedGroup)
      case Some(x) => Success(Trim(x))
  }

  // ---- What group 1 can hold ----

  predicate IsSpacedWord(x: string, first: string, second: string) {
    && |first| + |second| <= |x|
    && (forall i :: 0 <= i < |first| ==> x[i] == first[i])
    && (forall i :: 0 <= i < |second| ==> x[|x| - |second| + i] == second[i])
    && (forall i :: |first| <= i < |x| - |second| ==> IsWhite(x[i]))
  }

  /** `x` is what spelling `w` matches: the word itself, or its two parts with white space
      between them. */
  predicate Spells(x: string, w: Word) {
    if w.second == "" then x == w.first else IsSpacedWord(x, w.first, w.second)
  }

  predicate SpellsOneOf(x: string, words: seq<Word>) {
    exists i :: 0 <= i < |words| && Spells(x, words[i])
  }

  /** The spellings group 1 of the pattern for `v` can have. */
  predicate IsKeyword(v: Vital, x: string) {
    SpellsOneOf(x, PatternOf(v).keywords)
  }

  lemma SpacedWordAt(s: string, p: nat, first: string, second: string, j: nat)
    requires p + |first| <= j <= |s|
    requires LiteralAt(s, first, p) && LiteralAt(s, second, j)
    requires forall k :: p + |first| <= k < j ==> IsWhite(s[k])
    ensures IsSpacedWord(s[p..j + |second|], first, second)
  {
    LiteralAtIndex(s, first, p);
    LiteralAtIndex(s, second, j);
    var x := s[p..j + |second|];
    forall i | 0 <= i < |first| ensures x[i] == first[i] {
      assert x[i] == s[p + i];
    }
    forall i | 0 <= i < |second| ensures x[|x| - |second| + i] == second[i] {
      assert x[|x| - |second| + i] == s[j + i];
    }
    forall i | |first| <= i < |x| - |second| ensures IsWhite(x[i]) {
      assert x[i] == s[p + i];
    }
  }

  lemma WordSpelling(s: string, w: Word, p: nat)
    requires p <= |s| && WordEnd(s, w, p).Some?
    ensures Spells(s[p..WordEnd(s, w, p).value], w)
  {
    if w.second == "" {
      LiteralAtSlice(s, w.first, p);
    } else {
      var j := SkipWhite(s, p + |w.first|);
      assert WordEnd(s, w, p) == Some(j + |w.second|);
      SpacedWordAt(s, p, w.first, w.second, j);
    }
  }

  /** The text of the keyword group is one of the pattern's spellings. */
  lemma {:induction false} KeywordSpelling(s: string, words: seq<Word>, p: nat)
    requires p <= |s| && KeywordEnd(s, words, p).Some?
    ensures SpellsOneOf(s[p..KeywordEnd(s, words, p).value], words)
    decreases |words|
  {
    var x := s[p..KeywordEnd(s, words, p).value];
    if WordEnd(s, words[0], p).Some? {
      WordSpelling(s, words[0], p);
      assert Spells(x, words[0]);
    } else {
      KeywordSpelling(s, words[1..], p);
      var i :| 0 <= i < |words[1..]| && Spells(x, words[1..][i]);
      assert Spells(x, words[i + 1]);
    }
  }

  /** A spelling starts with a lower-case letter and does not end with white space. */
  predicate WellSpelled(w: Word) {
    && w.first != ""
    && 'a' <= w.first[0] <= 'z'
    && (if w.second == "" then !IsWhite(w.first[|w.first| - 1]) else !IsWhite(w.second[|w.second| - 1]))
  }

  lemma PatternWellSpelled(v: Vital)
    ensures forall i :: 0 <= i < |PatternOf(v).keywords| ==> WellSpelled(PatternOf(v).keywords[i])
  {
  }

  lemma SpelledEnds(x: string, w: Word)
    requires Spells(x, w) && WellSpelled(w)
    ensures x != [] && 'a' <= x[0] <= 'z' && !IsWhite(x[|x| - 1])
  {
    if w.second != "" {
      assert x[|x| - |w.second| + (|w.second| - 1)] == w.second[|w.second| - 1];
    }
  }

  /** Group 1 of a match is one of the pattern's spellings, and trimming leaves it alone. */
  lemma Group1Spelled(pat: Pattern, s: string, p: nat)
    requires p <= |s| && MatchAt(pat, s, p).Some? && MatchAt(pat, s, p).value.group1.Some?
    requires forall i :: 0 <= i < |pat.keywords| ==> WellSpelled(pat.keywords[i])
    ensures var x := MatchAt(pat, s, p).value.group1.value;
      SpellsOneOf(x, pat.keywords) && Trim(x) == x && x != [] && 'a' <= x[0] <= 'z'
  {
    var x := MatchAt(pat, s, p).value.group1.value;
    assert x == s[p..KeywordEnd(s, pat.keywords, p).value];
    KeywordSpelling(s, pat.keywords, p);
    SpellingIsClean(x, pat.keywords);
  }

  lemma SpellingIsClean(x: string, words: seq<Word>)
    requires SpellsOneOf(x, words)
    requires forall i :: 0 <= i < |words| ==> WellSpelled(words[i])
    ensures Trim(x) == x && x != [] && 'a' <= x[0] <= 'z'
  {
    var i :| 0 <= i < |words| && Spells(x, words[i]);
    SpelledEnds(x, words[i]);
    TrimKeepsNonWhiteEnds(x);
  }

  /** A matched vital yields the keyword that was found, never the reading that follows it,
      and what it yields differs from the placeholder. */
  lemma MatchedVitalIsKeyword(v: Vital, summary: string)
    requires GetVital(v, summary).Success? && !Unmatched(v, summary)
    ensures IsKeyword(v, GetVital(v, summary).value)
    ensures GetVital(v, summary).value != Placeholder(v)
  {
    var s := ToLower(summary);
    var pat := PatternOf(v);
    var p := FirstMatch(pat, s);
    PatternWellSpelled(v);
    Group1Spelled(pat, s, p);
    var x := MatchAt(pat, s, p).value.group1.value;
    assert GetVital(v, summary) == Success(Trim(x));
    PlaceholderStartsBlank(v);
  }

  lemma PlaceholderStartsBlank(v: Vital)
    ensures Placeholder(v) != [] && Placeholder(v)[0] == '_'
  {
  }

  /** A vital yields exactly its placeholder when, and only when, its pattern matches nowhere. */
  lemma PlaceholderIffUnmatched(v: Vital, summary: string)
    ensures GetVital(v, summary) == Success(Placeholder(v)) <==> Unmatched(v, summary)
  {
    if !Unmatched(v, summary) && GetVital(v, summary).Success? {
      MatchedVitalIsKeyword(v, summary);
    }
  }

  /** The call fails exactly when the leftmost SpO2 match is one that only the `at`
      alternative makes. */
  lemma FailsIffOnlyAtMatches(summary: string)
    ensures GetVital(SpO2, summary).Failure? <==>
      var s := ToLower(summary);
      var p := FirstMatch(PatternOf(SpO2), s);
      p != -1 && AltMatch(PatternOf(SpO2), s, p, "is").None? && AltMatch(PatternOf(SpO2), s, p, "at").Some?
  {
    var s := ToLower(summary);
    var pat := PatternOf(SpO2);
    var p := FirstMatch(pat, s);
    if p != -1 {
      assert MatchAt(pat, s, p) == MatchFrom(pat, s, p, 0);
      if AltMatch(pat, s, p, "is").None? {
        assert MatchFrom(pat, s, p, 0) == MatchFrom(pat, s, p, 1);
        assert MatchFrom(pat, s, p, 2).None?;
      }
    }
  }

  // ---- The unit fix-ups ----

  /** The five values as the download handler holds them. */
  datatype VitalSigns = VitalSigns(spo2: string, bp: string, pulse: string, height: string, weight: string)

  /** A spelling made of characters other than `c` (white space aside) never contains `c`. */
  lemma SpelledWithout(x: string, w: Word, c: char)
    requires Spells(x, w) && !IsWhite(c)
    requires forall i :: 0 <= i < |w.first| ==> w.first[i] != c
    requires forall i :: 0 <= i < |w.second| ==> w.second[i] != c
    ensures forall i :: 0 <= i < |x| ==> x[i] != c
  {
    if w.second != "" {
      forall i | 0 <= i < |x| ensures x[i] != c {
        if |x| - |w.second| <= i {
          assert x[|x| - |w.second| + (i - (|x| - |w.second|))] == w.second[i - (|x| - |w.second|)];
        }
      }
    }
  }

  /** An SpO2 keyword has no `%`, so the fix-up appends one. */
  lemma SpO2KeywordFix(x: string)
    requires IsKeyword(SpO2, x)
    ensures !Contains(x, "%") && x != Placeholder(SpO2) && (x + "%" == "spo2%" || x + "%" == "saturation%")
  {
    var i :| 0 <= i < 2 && Spells(x, PatternOf(SpO2).keywords[i]);
    assert x == "spo2" || x == "saturation";
    NotContainsWithoutFirst(x, "%");
  }

  /** The two Pulse spellings. */
  lemma PulseSpellings(x: string)
    requires IsKeyword(Pulse, x)
    ensures Spells(x, Word("pulse", "")) || Spells(x, Word("heart", "rate"))
  {
    var i :| 0 <= i < 2 && Spells(x, PatternOf(Pulse).keywords[i]);
    if i == 0 {
      assert PatternOf(Pulse).keywords[0] == Word("pulse", "");
    } else {
      assert PatternOf(Pulse).keywords[1] == Word("heart", "rate");
    }
  }

  /** A Pulse keyword has no digit or dot, so the filter leaves nothing. */
  lemma PulseKeywordNotNumeric(x: string)
    requires IsKeyword(Pulse, x)
    ensures KeepNumeric(x) == ""
  {
    PulseSpellings(x);
    var w := if Spells(x, Word("pulse", "")) then Word("pulse", "") else Word("heart", "rate");
    forall k | 0 <= k < |x| ensures !IsNumericChar(x[k]) {
      if IsNumericChar(x[k]) {
        SpelledWithout(x, w, x[k]);
      }
    }
    KeepNumericNone(x);
  }

  /** A Pulse keyword has neither `bpm` nor a digit or dot, so the fix-up leaves ` bpm`. */
  lemma PulseKeywordFix(x: string)
    requires IsKeyword(Pulse, x)
    ensures !Contains(x, "bpm") && x != Placeholder(Pulse) && KeepNumeric(x) + " bpm" == " bpm"
  {
    PulseSpellings(x);
    var w := if Spells(x, Word("pulse", "")) then Word("pulse", "") else Word("heart", "rate");
    SpelledWithout(x, w, 'b');
    NotContainsWithoutFirst(x, "bpm");
    PulseKeywordNotNumeric(x);
    assert WellSpelled(w);
    SpelledEnds(x, w);
  }

  /** The vitals record as built and then corrected in place. SpO2's pattern is evaluated
      first; its failure aborts the whole download. Otherwise SpO2 gets a `%` unless it has
      one or is the placeholder, and Pulse is cut down to its digits and dots plus ` bpm`
      unless it mentions `bpm` or is the placeholder. Because the values are keywords, a
      matched SpO2 reads `spo2%` or `saturation%`, a matched Pulse reads ` bpm`, and the other
      three are the keyword itself. */
  method ExtractVitals(summary: string) returns (r: Result<VitalSigns, VitalError>)
    ensures r.Failure? <==> GetVital(SpO2, summary).Failure?
    ensures r.Success? ==>
      && (r.value.spo2 == Placeholder(SpO2) <==> Unmatched(SpO2, summary))
      && (!Unmatched(SpO2, summary) ==> r.value.spo2 == "spo2%" || r.value.spo2 == "saturation%")
      && (r.value.pulse == Placeholder(Pulse) <==> Unmatched(Pulse, summary))
      && (!Unmatched(Pulse, summary) ==> r.value.pulse == " bpm")
      && Success(r.value.bp) == GetVital(BP, summary)
      && Success(r.value.height) == GetVital(Height, summary)
      && Success(r.value.weight) == GetVital(Weight, summary)
  {
    var spo2 := GetVital(SpO2, summary);
    if spo2.Failure? {
      return Failure(spo2.error);
    }
    var vitals := VitalSigns(
      spo2.value,
      GetVital(BP, summary).value,
      GetVital(Pulse, summary).value,
      GetVital(Height, summary).value,
      GetVital(Weight, summary).value);
    PlaceholderIffUnmatched(SpO2, summary);
    PlaceholderIffUnmatched(Pulse, summary);
    if !Unmatched(SpO2, summary) {
      MatchedVitalIsKeyword(SpO2, summary);
      SpO2KeywordFix(vitals.spo2);
    }
    if !Unmatched(Pulse, summary) {
      MatchedVitalIsKeyword(Pulse, summary);
      PulseKeywordFix(vitals.pulse);
    }

    if !Contains(vitals.spo2, "%") && vitals.spo2 != Placeholder(SpO2) {
      vitals := vitals.(spo2 := vitals.spo2 + "%");
    }
    if !Contains(vitals.pulse, "bpm") && vitals.pulse != Placeholder(Pulse) {
      vitals := vitals.(pulse := KeepNumeric(vitals.pulse) + " bpm");
    }
    r := Success(vitals);
  }

  // ---- The reading the patterns were written to capture ----

  /** The trimmed reading of the leftmost match (group 2, or group 4 when only the SpO2 `at`
      alternative matched), or the placeholder. It never fails. */
  function GetReading(v: Vital, summary: string): (r: string)
    ensures Unmatched(v, summary) ==> r == Placeholder(v)
  {
    var s := ToLower(summary);
    var pat := PatternOf(v);
    var p := FirstMatch(pat, s);
    if p == -1 then Placeholder(v) else Trim(MatchAt(pat, s, p).value.reading)
  }

  /** A matched vital reads the trimmed reading group of the first alternative that matches
      at the leftmost matching position. */
  lemma GetReadingIsReadingGroup(v: Vital, summary: string)
    requires !Unmatched(v, summary)
    ensures var s, pat := ToLower(summary), PatternOf(v);
      var p := FirstMatch(pat, s);
      var alts := Alts(pat, s, p);
      var k := FirstSome(alts, 0);
      && k < |alts| && alts[k].Some?
      && (var m := alts[k].value;
          && m.readingStart < m.readingEnd <= |s|
          && GetReading(v, summary) == Trim(s[m.readingStart..m.readingEnd]))
  {
    var s, pat := ToLower(summary), PatternOf(v);
    MatchFromIsFirstAlt(pat, s, FirstMatch(pat, s), 0);
  }

  /** As written, a matched vital reads the trimmed keyword group when the first alternative
      matches at the leftmost matching position, and fails when a later one does. */
  lemma GetVitalIsKeywordGroup(v: Vital, summary: string)
    requires !Unmatched(v, summary)
    ensures var s, pat := ToLower(summary), PatternOf(v);
      var p := FirstMatch(pat, s);
      var alts := Alts(pat, s, p);
      var k := FirstSome(alts, 0);
      && k < |alts| && alts[k].Some?
      && (k == 0 ==> GetVital(v, summary) == Success(Trim(s[p..alts[0].value.keywordEnd])))
      && (k != 0 ==> GetVital(v, summary) == Failure(UndefinedGroup))
  {
    var s, pat := ToLower(summary), PatternOf(v);
    MatchFromIsFirstAlt(pat, s, FirstMatch(pat, s), 0);
  }

  lemma TrimKeepsFirst(x: string)
    requires x != [] && !IsWhite(x[0])
    ensures Trim(x) != [] && Trim(x)[0] == x[0]
  {
    assert LeadWhite(x) == 0;
  }

  /** A matched reading starts with the first digit (for height and weight, digit or dot)
      after the connective, so it is never the placeholder. */
  lemma MatchedReadingIsNumber(v: Vital, summary: string)
    requires !Unmatched(v, summary)
    ensures var r := GetReading(v, summary);
      && r != [] && IsNumericChar(r[0])
      && (v != Height && v != Weight ==> IsDigit(r[0]))
      && r != Placeholder(v)
  {
    var s := ToLower(summary);
    var pat := PatternOf(v);
    FirstReadingIsNumber(pat, s);
    assert GetReading(v, summary) == Trim(MatchAt(pat, s, FirstMatch(pat, s)).value.reading);
    assert pat.reading.Measure? ==> v == Height || v == Weight;
    PlaceholderStartsBlank(v);
  }

  lemma FirstReadingIsNumber(pat: Pattern, s: string)
    requires FirstMatch(pat, s) != -1
    ensures var r := Trim(MatchAt(pat, s, FirstMatch(pat, s)).value.reading);
      && r != [] && IsNumericChar(r[0]) && (!pat.reading.Measure? ==> IsDigit(r[0]))
  {
    var x := MatchAt(pat, s, FirstMatch(pat, s)).value.reading;
    TrimKeepsFirst(x);
  }

  /** A Count reading is made of digits only. */
  lemma CountReadingDigits(s: string, q: nat)
    requires q <= |s| && ReadingEnd(Count, s, q).Some?
    ensures forall k :: q <= k < ReadingEnd(Count, s, q).value ==> IsDigit(s[k])
  {
  }

  lemma {:induction false} MatchedCountIsDigits(pat: Pattern, s: string, p: nat, i: nat)
    requires p <= |s| && i <= |pat.connectives| && pat.reading == Count
    requires MatchFrom(pat, s, p, i).Some?
    ensures var x := MatchFrom(pat, s, p, i).value.reading;
      forall k :: 0 <= k < |x| ==> IsDigit(x[k])
    decreases |pat.connectives| - i
  {
    match AltMatch(pat, s, p, pat.connectives[i])
    case Some(m) =>
      CountReadingDigits(s, m.readingStart);
      var x := s[m.readingStart..m.readingEnd];
      forall k | 0 <= k < |x| ensures IsDigit(x[k]) {
        assert x[k] == s[m.readingStart + k];
      }
    case None =>
      MatchedCountIsDigits(pat, s, p, i + 1);
  }

  /** A matched Pulse reading is a non-empty run of digits. */
  lemma PulseReadingDigits(summary: string)
    requires !Unmatched(Pulse, summary)
    ensures var r := GetReading(Pulse, summary);
      r != [] && forall k :: 0 <= k < |r| ==> IsDigit(r[k])
  {
    var s := ToLower(summary);
    var pat := PatternOf(Pulse);
    FirstCountIsDigits(pat, s);
    assert GetReading(Pulse, summary) == Trim(MatchAt(pat, s, FirstMatch(pat, s)).value.reading);
  }

  lemma FirstCountIsDigits(pat: Pattern, s: string)
    requires pat.reading == Count && FirstMatch(pat, s) != -1
    ensures var r := Trim(MatchAt(pat, s, FirstMatch(pat, s)).value.reading);
      r != [] && forall k :: 0 <= k < |r| ==> IsDigit(r[k])
  {
    var p := FirstMatch(pat, s);
    var x := MatchAt(pat, s, p).value.reading;
    MatchedCountIsDigits(pat, s, p, 0);
    TrimKeepsNonWhiteEnds(x);
  }

  /** Digits have no `bpm` and survive the filter, so the fix-up appends ` bpm` to them. */
  lemma DigitsPulseFix(r: string)
    requires r != [] && forall k :: 0 <= k < |r| ==> IsDigit(r[k])
    ensures !Contains(r, "bpm") && KeepNumeric(r) == r
  {
    NotContainsWithoutFirst(r, "bpm");
    KeepNumericAll(r);
  }

  /** The vitals line when each value is the reading: a found SpO2 reading carries a `%`
      (appended unless the reading has one), a found pulse is its digits followed by ` bpm`,
      the other three are the readings, and whatever was not found is the placeholder. */
  predicate ShowsReadings(v: VitalSigns, summary: string) {
    && v.bp == GetReading(BP, summary)
    && v.height == GetReading(Height, summary)
    && v.weight == GetReading(Weight, summary)
    && (Unmatched(SpO2, summary) ==> v.spo2 == Placeholder(SpO2))
    && (!Unmatched(SpO2, summary) ==>
          && Contains(v.spo2, "%")
          && (v.spo2 == GetReading(SpO2, summary) || v.spo2 == GetReading(SpO2, summary) + "%"))
    && (Unmatched(Pulse, summary) ==> v.pulse == Placeholder(Pulse))
    && (!Unmatched(Pulse, summary) ==> v.pulse == GetReading(Pulse, summary) + " bpm")
  }

  /** The extraction with the reading group in place of the keyword group, followed by the
      same fix-ups. It never fails, and a found value is never mistaken for the placeholder. */
  method ExtractReadings(summary: string) returns (v: VitalSigns)
    ensures ShowsReadings(v, summary)
    ensures v.spo2 == Placeholder(SpO2) <==> Unmatched(SpO2, summary)
    ensures v.pulse == Placeholder(Pulse) <==> Unmatched(Pulse, summary)
  {
    v := VitalSigns(
      GetReading(SpO2, summary),
      GetReading(BP, summary),
      GetReading(Pulse, summary),
      GetReading(Height, summary),
      GetReading(Weight, summary));
    ghost var spo2 := v.spo2;
    ghost var pulse := v.pulse;
    if !Unmatched(SpO2, summary) {
      MatchedReadingIsNumber(SpO2, summary);
    }
    if !Unmatched(Pulse, summary) {
      MatchedReadingIsNumber(Pulse, summary);
      PulseReadingDigits(summary);
      DigitsPulseFix(pulse);
    }
    if !Contains(v.spo2, "%") && v.spo2 != Placeholder(SpO2) {
      v := v.(spo2 := v.spo2 + "%");
      AppendedIsContained(spo2, "%");
      assert v.spo2[0] == spo2[0];
    }
    if !Contains(v.pulse, "bpm") && v.pulse != Placeholder(Pulse) {
      v := v.(pulse := KeepNumeric(v.pulse) + " bpm");
      assert v.pulse[0] == pulse[0];
    }
    PlaceholderStartsBlank(SpO2);
    PlaceholderStartsBlank(Pulse);
  }

  // ---- Two inputs that show the difference ----

  lemma PulseExampleMatch()
    ensures MatchAt(PatternOf(Pulse), "pulse is 72", 0) == Some(Groups(Some("pulse"), 5, "72"))
  {
    var s := "pulse is 72";
    var pat := PatternOf(Pulse);
    assert s[0..5] == "pulse";
    SliceLiteralAt(s, "pulse", 0);
    assert KeywordEnd(s, pat.keywords, 0) == Some(5);
    SkipWhiteUnique(s, 5, 6);
    assert s[6..8] == "is";
    SliceLiteralAt(s, "is", 6);
    SkipWhiteUnique(s, 8, 9);
    assert DigitRun(s, 9, 3) == 2;
    assert ReadingEnd(Count, s, 9) == Some(11);
    assert AltMatch(pat, s, 0, "is") == Some(Span(5, 9, 11));
    assert s[0..5] == "pulse" && s[9..11] == "72";
  }

  lemma PulseExampleFirst()
    ensures ToLower("pulse is 72") == "pulse is 72"
    ensures FirstMatch(PatternOf(Pulse), "pulse is 72") == 0
  {
    PulseExampleLower();
    PulseExampleMatch();
    assert FirstMatch(PatternOf(Pulse), "pulse is 72") == FirstMatchFrom(PatternOf(Pulse), "pulse is 72", 0);
  }

  lemma PulseExampleLower()
    ensures ToLower("pulse is 72") == "pulse is 72"
  {
    ToLowerNoUpper("pulse is 72");
  }

  /** `"pulse is 72"`: the code yields the keyword. */
  lemma PulseYieldsKeyword()
    ensures GetVital(Pulse, "pulse is 72") == Success("pulse")
  {
    PulseExampleFirst();
    PulseExampleMatch();
    TrimKeepsNonWhiteEnds("pulse");
  }

  /** `"pulse is 72"`: the reading is `72`. */
  lemma PulseReadingIs72()
    ensures GetReading(Pulse, "pulse is 72") == "72"
  {
    PulseExampleFirst();
    PulseExampleMatch();
    TrimKeepsNonWhiteEnds("72");
  }

  lemma SpO2ExampleAlternatives()
    ensures AltMatch(PatternOf(SpO2), "spo2 at 95", 0, "is").None?
    ensures AltMatch(PatternOf(SpO2), "spo2 at 95", 0, "at") == Some(Span(4, 8, 10))
  {
    var s := "spo2 at 95";
    assert s[0..4] == "spo2";
    SliceLiteralAt(s, "spo2", 0);
    assert KeywordEnd(s, PatternOf(SpO2).keywords, 0) == Some(4);
    SkipWhiteUnique(s, 4, 5);
    assert s[5..7] == "at";
    SliceLiteralAt(s, "at", 5);
    assert !LiteralAt(s, "is", 5);
    SkipWhiteUnique(s, 7, 8);
    assert DigitRun(s, 8, 3) == 2;
    assert ReadingEnd(Percent, s, 8) == Some(10);
  }

  lemma SpO2ExampleMatch()
    ensures MatchAt(PatternOf(SpO2), "spo2 at 95", 0) == Some(Groups(None, 4, "95"))
  {
    var s := "spo2 at 95";
    SpO2ExampleAlternatives();
    assert s[8..10] == "95";
    assert MatchFrom(PatternOf(SpO2), s, 0, 0) == MatchFrom(PatternOf(SpO2), s, 0, 1);
  }

  lemma SpO2ExampleFirst()
    ensures ToLower("spo2 at 95") == "spo2 at 95"
    ensures FirstMatch(PatternOf(SpO2), "spo2 at 95") == 0
  {
    SpO2ExampleLower();
    SpO2ExampleMatch();
    assert FirstMatch(PatternOf(SpO2), "spo2 at 95") == FirstMatchFrom(PatternOf(SpO2), "spo2 at 95", 0);
  }

  lemma SpO2ExampleLower()
    ensures ToLower("spo2 at 95") == "spo2 at 95"
  {
    ToLowerNoUpper("spo2 at 95");
  }

  /** `"spo2 at 95"`: the code fails. */
  lemma SpO2AtFails()
    ensures GetVital(SpO2, "spo2 at 95").Failure?
  {
    SpO2ExampleFirst();
    SpO2ExampleMatch();
  }

  /** `"spo2 at 95"`: the reading is `95`. */
  lemma SpO2ReadingIs95()
    ensures GetReading(SpO2, "spo2 at 95") == "95"
  {
    SpO2ExampleFirst();
    SpO2ExampleMatch();
    TrimKeepsNonWhiteEnds("95");
  }
}
