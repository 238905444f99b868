/** The JavaScript string primitives the core relies on: `trim`, the regular-expression class
    `\s`, `toLowerCase` (ASCII letters only), `indexOf`, `includes` and the numeric filter
    `replace(/[^\d\.]/g, '')`. Strings are sequences of characters. */
module Text {

  /** The characters `String.prototype.trim` removes and `\s` matches: ECMAScript's
      WhiteSpace and LineTerminator productions. */
  predicate IsWhite(c: char) {
    || c == '\t' || c == '\n' || c == '\U{000B}' || c == '\U{000C}' || c == '\r' || c == ' '
    || c == '\U{00A0}' || c == '\U{1680}' || ('\U{2000}' <= c <= '\U{200A}')
    || c == '\U{2028}' || c == '\U{2029}' || c == '\U{202F}' || c == '\U{205F}'
    || c == '\U{3000}' || c == '\U{FEFF}'
  }

  predicate IsDigit(c: char) {
    '0' <= c <= '9'
  }

  predicate AllWhite(s: string) {
    forall i :: 0 <= i < |s| ==> IsWhite(s[i])
  }

  /** How many white-space characters `s` starts with. */
  function LeadWhite(s: string): (n: nat)
    ensures n <= |s|
    ensures forall k :: 0 <= k < n ==> IsWhite(s[k])
    ensures n < |s| ==> !IsWhite(s[n])
  {
    if |s| > 0 && IsWhite(s[0]) then 1 + LeadWhite(s[1..]) else 0
  }

  /** How many white-space characters `s` ends with. */
  function TrailWhite(s: string): (n: nat)
    ensures n <= |s|
    ensures forall k :: |s| - n <= k < |s| ==> IsWhite(s[k])
    ensures n < |s| ==> !IsWhite(s[|s| - 1 - n])
  {
    if |s| > 0 && IsWhite(s[|s| - 1]) then 1 + TrailWhite(s[..|s| - 1]) else 0
  }

  /** `s.trim()`: the part of `s` between its white-space prefix and its white-space suffix.
      It is empty exactly when `s` is all white space, and otherwise it neither starts nor ends
      with white space, and only white space follows it in `s`. */
  function Trim(s: string): (r: string)
    ensures LeadWhite(s) + |r| <= |s|
    ensures r == [] <==> AllWhite(s)
    ensures r != [] ==> !IsWhite(r[0]) && !IsWhite(r[|r| - 1])
    ensures r != [] ==> r == s[LeadWhite(s)..LeadWhite(s) + |r|]
    ensures r != [] ==> AllWhite(s[LeadWhite(s) + |r|..])
  {
    var t := s[LeadWhite(s)..];
    assert t != [] ==> !IsWhite(t[0]);
    TrailIsWhite(t);
    assert s[LeadWhite(s) + |t| - TrailWhite(t)..] == t[|t| - TrailWhite(t)..];
    t[..|t| - TrailWhite(t)]
  }

  /** JavaScript's truthiness test `!s.trim()`: nothing but white space. */
  predicate IsBlank(s: string) {
    Trim(s) == ""
  }

  lemma BlankIffAllWhite(s: string)
    ensures IsBlank(s) <==> AllWhite(s)
  {
  }

  /** Trimming a trimmed string changes nothing. */
  lemma TrimIdempotent(s: string)
    ensures Trim(Trim(s)) == Trim(s)
  {
    var r := Trim(s);
    if r != [] {
      assert LeadWhite(r) == 0;
      assert r[0..] == r;
      assert TrailWhite(r) == 0;
    }
  }

  /** A string that neither starts nor ends with white space is its own trim. */
  lemma TrimKeepsNonWhiteEnds(s: string)
    requires s != [] && !IsWhite(s[0]) && !IsWhite(s[|s| - 1])
    ensures Trim(s) == s
  {
    assert LeadWhite(s) == 0;
    assert s[0..] == s;
    assert TrailWhite(s) == 0;
  }

  /** Once a non-white character occurs in `a`, the white-space prefix of `a + b` ends in `a`. */
  lemma {:induction false} LeadWhiteAppend(a: string, b: string)
    requires !AllWhite(a)
    ensures LeadWhite(a + b) == LeadWhite(a)
    decreases |a|
  {
    assert (a + b)[0] == a[0];
    if IsWhite(a[0]) {
      assert (a + b)[1..] == a[1..] + b;
      assert !AllWhite(a[1..]) by {
        var k :| 0 <= k < |a| && !IsWhite(a[k]);
        assert a[1..][k - 1] == a[k];
      }
      LeadWhiteAppend(a[1..], b);
    }
  }

  /** A white-space prefix adds its length to the white-space prefix of what follows. */
  lemma {:induction false} LeadWhitePrepend(w: string, a: string)
    requires AllWhite(w)
    ensures LeadWhite(w + a) == |w| + LeadWhite(a)
    decreases |w|
  {
    if w == [] {
      assert w + a == a;
    } else {
      assert (w + a)[0] == w[0];
      assert (w + a)[1..] == w[1..] + a;
      LeadWhitePrepend(w[1..], a);
    }
  }

  /** A white-space suffix adds its length to the white-space suffix of what precedes it. */
  lemma {:induction false} TrailWhiteAppend(a: string, w: string)
    requires AllWhite(w)
    ensures TrailWhite(a + w) == TrailWhite(a) + |w|
    decreases |w|
  {
    if w == [] {
      assert a + w == a;
    } else {
      var aw := a + w;
      assert aw[|aw| - 1] == w[|w| - 1];
      assert aw[..|aw| - 1] == a + w[..|w| - 1];
      TrailWhiteAppend(a, w[..|w| - 1]);
    }
  }

  lemma AllWhiteConcat(a: string, b: string)
    requires AllWhite(a) && AllWhite(b)
    ensures AllWhite(a + b)
  {
    forall k | 0 <= k < |a + b| ensures IsWhite((a + b)[k]) {
      if k < |a| { assert (a + b)[k] == a[k]; } else { assert (a + b)[k] == b[k - |a|]; }
    }
  }

  /** White space on the right never changes what `trim` keeps. */
  lemma TrimWhiteSuffix(a: string, w: string)
    requires AllWhite(w)
    ensures Trim(a + w) == Trim(a)
  {
    if AllWhite(a) {
      AllWhiteConcat(a, w);
    } else {
      TrimWhiteSuffixOfText(a, w);
    }
  }

  lemma TrimWhiteSuffixOfText(a: string, w: string)
    requires AllWhite(w) && !AllWhite(a)
    ensures Trim(a + w) == Trim(a)
  {
    LeadWhiteAppend(a, w);
    var l := LeadWhite(a);
    var t := a[l..];
    DropOfConcat(a, w, l);
    TrailWhiteAppend(t, w);
    var n := |t| - TrailWhite(t);
    TakeOfConcat(t, w, n);
  }

  lemma DropOfConcat(a: string, w: string, l: nat)
    requires l <= |a|
    ensures (a + w)[l..] == a[l..] + w
  {
  }

  lemma TakeOfConcat(t: string, w: string, n: nat)
    requires n <= |t|
    ensures (t + w)[..n] == t[..n]
  {
  }

  /** White space on the left never changes what `trim` keeps. */
  lemma TrimWhitePrefix(w: string, a: string)
    requires AllWhite(w)
    ensures Trim(w + a) == Trim(a)
  {
    if AllWhite(a) {
      AllWhiteConcat(w, a);
    } else {
      LeadWhitePrepend(w, a);
      assert (w + a)[|w| + LeadWhite(a)..] == a[LeadWhite(a)..];
    }
  }

  /** A range of white-space characters is an all-white slice. */
  lemma AllWhiteRange(s: string, a: nat, b: nat)
    requires a <= b <= |s| && forall k :: a <= k < b ==> IsWhite(s[k])
    ensures AllWhite(s[a..b])
  {
    forall k | 0 <= k < b - a ensures IsWhite(s[a..b][k]) {
      assert s[a..b][k] == s[a + k];
    }
  }

  /** Cutting white space off the end does not change the trimmed text. */
  lemma TrimWhiteTail(x: string, n: nat)
    requires n <= |x| && AllWhite(x[n..])
    ensures Trim(x) == Trim(x[..n])
  {
    assert x == x[..n] + x[n..];
    TrimWhiteSuffix(x[..n], x[n..]);
  }

  /** What `TrailWhite` counts is all white space. */
  lemma TrailIsWhite(x: string)
    ensures AllWhite(x[|x| - TrailWhite(x)..])
  {
    var n := |x| - TrailWhite(x);
    forall k | 0 <= k < |x[n..]| ensures IsWhite(x[n..][k]) { assert x[n..][k] == x[n + k]; }
  }

  /** A text whose first character, and some later one, are not white space: `trim` keeps
      everything up to the trailing white space, which is at least that later character. */
  lemma TrimFromNonWhite(x: string, m: nat)
    requires 0 < m <= |x| && !IsWhite(x[0]) && !IsWhite(x[m - 1])
    ensures m <= |Trim(x)| && Trim(x) == x[..|Trim(x)|] && AllWhite(x[|Trim(x)|..])
  {
    var t := TrailWhite(x);
    var n := |x| - t;
    assert t < |x|;
    assert !IsWhite(x[n - 1]);
    TrailIsWhite(x);
    TrimWhiteTail(x, n);
    var y := x[..n];
    assert y[0] == x[0] && y[n - 1] == x[n - 1];
    TrimKeepsNonWhiteEnds(y);
    assert Trim(x) == y;
  }

  /** Dropping a prefix that starts and ends with non-white characters commutes with trimming
      the end first. */
  lemma TrimAfterPrefix(x: string, k: nat)
    requires 0 < k <= |x| && !IsWhite(x[0]) && !IsWhite(x[k - 1])
    ensures k <= |Trim(x)| && Trim(x) == x[..|Trim(x)|]
    ensures Trim(Trim(x)[k..]) == Trim(x[k..])
  {
    var n := |x| - TrailWhite(x);
    TrimFromNonWhite(x, k);
    var y := x[..n];
    var w := x[n..];
    var a := x[k..n];
    assert y[k..] == a;
    assert x[k..] == a + w;
    TrimWhiteSuffix(a, w);
    assert Trim(y[k..]) == Trim(x[k..]);
    assert Trim(x) == y;
    assert Trim(x)[k..] == y[k..];
  }

  /** `toLowerCase` on one character; only ASCII letters are folded. */
  function LowerChar(c: char): (d: char)
    ensures 'A' <= c <= 'Z' ==> d as int == c as int + 32
    ensures !('A' <= c <= 'Z') ==> d == c
  {
    if 'A' <= c <= 'Z' then (c as int + 32) as char else c
  }

  /** `toLowerCase`, character by character, so indices into the result are indices into `s`. */
  function ToLower(s: string): (r: string)
    ensures |r| == |s|
    ensures forall i :: 0 <= i < |s| ==> r[i] == LowerChar(s[i])
  {
    seq(|s|, i requires 0 <= i < |s| => LowerChar(s[i]))
  }

  /** A string without upper-case ASCII letters is its own lower-case form. */
  lemma ToLowerNoUpper(s: string)
    requires forall i :: 0 <= i < |s| ==> !('A' <= s[i] <= 'Z')
    ensures ToLower(s) == s
  {
  }

  /** Folding leaves white space and non-letters alone, so a folded character that is not
      white space came from one that is not. */
  lemma LowerKeepsWhite(c: char)
    ensures IsWhite(LowerChar(c)) <==> IsWhite(c)
  {
  }

  predicate OccursAt(s: string, t: string, p: int) {
    0 <= p && p + |t| <= |s| && s[p..p + |t|] == t
  }

  /** `s.indexOf(t, from)`: the first position at or after `from` where `t` occurs, or -1. */
  function IndexFrom(s: string, t: string, from: nat): (r: int)
    requires from <= |s|
    ensures r == -1 || (from <= r && OccursAt(s, t, r))
    ensures r == -1 ==> forall p :: from <= p <= |s| ==> !OccursAt(s, t, p)
    ensures r != -1 ==> forall p :: from <= p < r ==> !OccursAt(s, t, p)
    decreases |s| - from
  {
    if OccursAt(s, t, from) then from
    else if from == |s| then -1
    else IndexFrom(s, t, from + 1)
  }

  /** `s.indexOf(t)`. */
  function IndexOf(s: string, t: string): (r: int)
    ensures r == -1 <==> forall p :: 0 <= p <= |s| ==> !OccursAt(s, t, p)
    ensures r != -1 ==> OccursAt(s, t, r) && forall p :: 0 <= p < r ==> !OccursAt(s, t, p)
  {
    IndexFrom(s, t, 0)
  }

  /** `s.includes(t)`. */
  predicate Contains(s: string, t: string) {
    IndexOf(s, t) != -1
  }

  /** What was appended is contained. */
  lemma AppendedIsContained(s: string, t: string)
    ensures Contains(s + t, t)
  {
    assert (s + t)[|s|..|s| + |t|] == t;
    assert OccursAt(s + t, t, |s|);
  }

  /** A string without the first character of `t` cannot contain `t`. */
  lemma NotContainsWithoutFirst(s: string, t: string)
    requires t != []
    requires forall i :: 0 <= i < |s| ==> s[i] != t[0]
    ensures !Contains(s, t)
  {
    forall p | 0 <= p <= |s| ensures !OccursAt(s, t, p) {
      if p + |t| <= |s| {
        assert s[p..p + |t|][0] == s[p];
      }
    }
  }

  predicate IsNumericChar(c: char) {
    IsDigit(c) || c == '.'
  }

  /** `s.replace(/[^\d\.]/g, '')`: the digits and dots of `s`, in order. */
  function KeepNumeric(s: string): (r: string)
    ensures |r| <= |s|
    ensures forall i :: 0 <= i < |r| ==> IsNumericChar(r[i])
  {
    if s == [] then ""
    else if IsNumericChar(s[0]) then [s[0]] + KeepNumeric(s[1..])
    else KeepNumeric(s[1..])
  }

  /** The filter works character by character: filtering a concatenation concatenates the
      filtered parts. */
  lemma {:induction false} KeepNumericConcat(a: string, b: string)
    ensures KeepNumeric(a + b) == KeepNumeric(a) + KeepNumeric(b)
    decreases |a|
  {
    if a != [] {
      assert (a + b)[0] == a[0] && (a + b)[1..] == a[1..] + b;
      KeepNumericConcat(a[1..], b);
    } else {
      assert a + b == b;
    }
  }

  /** On one character the filter keeps it exactly when it is a digit or a dot. */
  lemma KeepNumericChar(c: char)
    ensures KeepNumeric([c]) == if IsNumericChar(c) then [c] else []
  {
  }

  /** A string without digits or dots filters down to nothing. */
  lemma {:induction false} KeepNumericNone(s: string)
    requires forall i :: 0 <= i < |s| ==> !IsNumericChar(s[i])
    ensures KeepNumeric(s) == ""
    decreases |s|
  {
    if s != [] {
      assert forall i :: 0 <= i < |s[1..]| ==> s[1..][i] == s[i + 1];
      KeepNumericNone(s[1..]);
    }
  }

  /** The filter keeps every digit and dot: on a string of them it is the identity. */
  lemma {:induction false} KeepNumericAll(s: string)
    requires forall i :: 0 <= i < |s| ==> IsNumericChar(s[i])
    ensures KeepNumeric(s) == s
    decreases |s|
  {
    if s != [] {
      assert forall i :: 0 <= i < |s[1..]| ==> s[1..][i] == s[i + 1];
      KeepNumericAll(s[1..]);
      assert [s[0]] + s[1..] == s;
    }
  }
}
