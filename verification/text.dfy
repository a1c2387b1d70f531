/**
 * The string operations the converter applies: `str.lower()`, `str.strip()`,
 * `str.replace('  ', ' ')`, `str.split('(')[0]`, the `in` substring test and
 * Python's ordering of strings.
 */
module Text {

  /** Python's `str.isspace()` for a single character. */
  predicate IsSpace(c: char) {
    || c == ' '
    || '\t' <= c <= '\r'
    || '\U{1C}' <= c <= '\U{1F}'
    || c == '\U{85}' || c == '\U{A0}' || c == '\U{1680}'
    || '\U{2000}' <= c <= '\U{200A}'
    || c == '\U{2028}' || c == '\U{2029}' || c == '\U{202F}' || c == '\U{205F}' || c == '\U{3000}'
  }

  predicate IsUpper(c: char) {
    'A' <= c <= 'Z'
  }

  /** Lower-casing of one character, ASCII letters only. */
  function LowerChar(c: char): (r: char)
    ensures !IsUpper(r)
    ensures !IsUpper(c) ==> r == c
    ensures IsSpace(r) <==> IsSpace(c)
  {
    if IsUpper(c) then (c as int + 32) as char else c
  }

  /** `s.lower()`. */
  function Lower(s: string): (r: string)
    ensures |r| == |s|
    ensures forall i :: 0 <= i < |r| ==> !IsUpper(r[i])
    ensures forall i :: 0 <= i < |r| ==> r[i] == LowerChar(s[i])
  {
    seq(|s|, i requires 0 <= i < |s| => LowerChar(s[i]))
  }

  lemma LowerUnchanged(s: string)
    requires forall i :: 0 <= i < |s| ==> !IsUpper(s[i])
    ensures Lower(s) == s
  {
  }

  /** Neither end of `s` is whitespace: what `strip()` leaves behind. */
  predicate Stripped(s: string) {
    s == [] || (!IsSpace(s[0]) && !IsSpace(s[|s| - 1]))
  }

  function TrimStart(s: string): (r: string)
    ensures |r| <= |s| && r == s[|s| - |r|..]
    ensures forall i :: 0 <= i < |s| - |r| ==> IsSpace(s[i])
    ensures r == [] || !IsSpace(r[0])
  {
    if s != [] && IsSpace(s[0]) then TrimStart(s[1..]) else s
  }

  function TrimEnd(s: string): (r: string)
    ensures |r| <= |s| && r == s[..|r|]
    ensures forall i :: |r| <= i < |s| ==> IsSpace(s[i])
    ensures r == [] || !IsSpace(r[|r| - 1])
  {
    if s != [] && IsSpace(s[|s| - 1]) then TrimEnd(s[..|s| - 1]) else s
  }

  /** `s.strip()`: drops the whitespace at both ends and nothing else. */
  function Strip(s: string): (r: string)
    ensures Stripped(r)
    ensures |r| <= |s|
    ensures exists a :: OccursAt(s, r, a) && (forall i :: 0 <= i < a ==> IsSpace(s[i]))
                        && (forall i :: a + |r| <= i < |s| ==> IsSpace(s[i]))
    ensures Stripped(s) ==> r == s
  {
    StripOccurs(s);
    StripEnds(s);
    if Stripped(s) then StripFixed(s); TrimEnd(TrimStart(s)) else TrimEnd(TrimStart(s))
  }

  lemma StripOccurs(s: string)
    ensures exists a :: OccursAt(s, TrimEnd(TrimStart(s)), a) && (forall i :: 0 <= i < a ==> IsSpace(s[i]))
                        && (forall i :: a + |TrimEnd(TrimStart(s))| <= i < |s| ==> IsSpace(s[i]))
  {
    var t := TrimStart(s);
    TrimmedInside(s, t, TrimEnd(t));
    assert OccursAt(s, TrimEnd(t), |s| - |t|);
  }

  lemma StripEnds(s: string)
    ensures Stripped(TrimEnd(TrimStart(s)))
  {
    var t := TrimStart(s);
    var r := TrimEnd(t);
    assert r != [] ==> r[0] == t[0];
  }

  lemma StripFixed(s: string)
    requires Stripped(s)
    ensures TrimEnd(TrimStart(s)) == s
  {
    TrimStartStripped(s);
    TrimEndStripped(s);
  }

  /** `r`, cut from the end of `t`, which is cut from the end of `s`, occurs in `s` where `t` starts. */
  lemma TrimmedInside(s: string, t: string, r: string)
    requires |t| <= |s| && t == s[|s| - |t|..]
    requires |r| <= |t| && r == t[..|r|]
    requires forall i :: |r| <= i < |t| ==> IsSpace(t[i])
    ensures OccursAt(s, r, |s| - |t|)
    ensures forall i :: |s| - |t| + |r| <= i < |s| ==> IsSpace(s[i])
  {
    var a := |s| - |t|;
    forall i | a + |r| <= i < |s| ensures IsSpace(s[i]) {
      assert s[i] == t[i - a];
    }
  }

  lemma TrimStartStripped(s: string)
    requires Stripped(s)
    ensures TrimStart(s) == s
  {
  }

  lemma TrimEndStripped(s: string)
    requires Stripped(s)
    ensures TrimEnd(s) == s
  {
  }

  /** `needle` sits in `s` starting at position `a`. */
  predicate OccursAt(s: string, needle: string, a: int) {
    0 <= a && a + |needle| <= |s| && s[a..a + |needle|] == needle
  }

  /**
   * `s.replace('  ', ' ')`: one left-to-right pass over non-overlapping pairs
   * of spaces, so a run of three spaces becomes two.
   */
  function CollapseSpacePairs(s: string): (r: string)
    ensures |r| <= |s|
    ensures s != [] && s[0] != ' ' ==> r != [] && r[0] == s[0]
    ensures s != [] && s[|s| - 1] != ' ' ==> r != [] && r[|r| - 1] == s[|s| - 1]
    ensures forall i :: 0 <= i < |r| ==> r[i] in s
  {
    if |s| >= 2 && s[0] == ' ' && s[1] == ' ' then " " + CollapseSpacePairs(s[2..])
    else if s == [] then ""
    else [s[0]] + CollapseSpacePairs(s[1..])
  }

  /** A text with no space at either end keeps that after the replacement. */
  lemma CollapseKeepsStripped(s: string)
    requires Stripped(s)
    ensures Stripped(CollapseSpacePairs(s))
  {
  }

  /**
   * The replacement merges pairs of spaces and nothing else: with the spaces
   * taken out the text is unchanged, and text without a pair is left alone.
   */
  lemma CollapseSpacePairsKeepsText(s: string)
    ensures WithoutBlanks(CollapseSpacePairs(s)) == WithoutBlanks(s)
    ensures NoSpacePair(s) ==> CollapseSpacePairs(s) == s
  {
    CollapseKeepsNonBlanks(s);
    if NoSpacePair(s) {
      CollapseNoPairUnchanged(s);
    }
  }

  lemma {:induction false} CollapseKeepsNonBlanks(s: string)
    ensures WithoutBlanks(CollapseSpacePairs(s)) == WithoutBlanks(s)
    decreases |s|
  {
    if |s| >= 2 && s[0] == ' ' && s[1] == ' ' {
      var rest := CollapseSpacePairs(s[2..]);
      CollapseKeepsNonBlanks(s[2..]);
      assert s[1..][1..] == s[2..];
      assert (" " + rest)[1..] == rest;
    } else if s != [] {
      var rest := CollapseSpacePairs(s[1..]);
      CollapseKeepsNonBlanks(s[1..]);
      assert ([s[0]] + rest)[1..] == rest;
    }
  }

  lemma {:induction false} CollapseNoPairUnchanged(s: string)
    requires NoSpacePair(s)
    ensures CollapseSpacePairs(s) == s
    decreases |s|
  {
    if s != [] {
      var tail := s[1..];
      assert NoSpacePair(tail) by {
        forall i | 0 <= i < |tail| - 1 ensures !(tail[i] == ' ' && tail[i + 1] == ' ') {
          assert tail[i] == s[i + 1] && tail[i + 1] == s[i + 2];
        }
      }
      assert !(|s| >= 2 && s[0] == ' ' && s[1] == ' ');
      assert CollapseSpacePairs(s) == [s[0]] + CollapseSpacePairs(tail);
      CollapseNoPairUnchanged(tail);
      assert s == [s[0]] + tail;
    }
  }

  /** `n` space characters. */
  function Spaces(n: nat): (r: string)
    ensures |r| == n && forall i :: 0 <= i < n ==> r[i] == ' '
  {
    seq(n, _ => ' ')
  }

  /** A run of `n` spaces keeps one space per pair, plus the odd one out: `n + 1` halved. */
  lemma {:induction false} CollapseRun(n: nat)
    ensures CollapseSpacePairs(Spaces(n)) == Spaces((n + 1) / 2)
    decreases n
  {
    if n >= 2 {
      CollapseRun(n - 2);
      assert Spaces(n)[2..] == Spaces(n - 2);
      assert " " + Spaces((n - 1) / 2) == Spaces((n + 1) / 2);
    } else if n == 1 {
      assert Spaces(1)[1..] == [];
    }
  }

  /**
   * The replacement works piece by piece: a text splits into two independent
   * parts wherever the second part starts with a character other than a space.
   */
  lemma {:induction false} CollapseSplit(x: string, y: string)
    requires y != [] && y[0] != ' '
    ensures CollapseSpacePairs(x + y) == CollapseSpacePairs(x) + CollapseSpacePairs(y)
    decreases |x|
  {
    if x == [] {
      assert x + y == y;
    } else if |x| >= 2 && x[0] == ' ' && x[1] == ' ' {
      SplitPair(x, y);
    } else {
      SplitFirst(x, y);
    }
  }

  /** A leading pair of spaces becomes one space. */
  lemma PairStep(s: string)
    requires |s| >= 2 && s[0] == ' ' && s[1] == ' '
    ensures CollapseSpacePairs(s) == " " + CollapseSpacePairs(s[2..])
  {
  }

  /** Any other leading character is kept as it is. */
  lemma CharStep(s: string)
    requires s != [] && !(|s| >= 2 && s[0] == ' ' && s[1] == ' ')
    ensures CollapseSpacePairs(s) == [s[0]] + CollapseSpacePairs(s[1..])
  {
  }

  lemma ConcatAssoc(a: string, b: string, c: string)
    ensures a + (b + c) == (a + b) + c
  {
  }

  lemma ConcatTail(x: string, y: string, k: nat)
    requires k <= |x|
    ensures (x + y)[k..] == x[k..] + y
  {
  }

  lemma {:induction false} SplitPair(x: string, y: string)
    requires y != [] && y[0] != ' '
    requires |x| >= 2 && x[0] == ' ' && x[1] == ' '
    ensures CollapseSpacePairs(x + y) == CollapseSpacePairs(x) + CollapseSpacePairs(y)
    decreases |x|, 0
  {
    PairStep(x + y);
    ConcatTail(x, y, 2);
    PairStep(x);
    CollapseSplit(x[2..], y);
    ConcatAssoc(" ", CollapseSpacePairs(x[2..]), CollapseSpacePairs(y));
  }

  /** If `x` does not start with a pair, neither does `x + y` when `y` starts with a non-space. */
  lemma NoPairAtJoin(x: string, y: string)
    requires y != [] && y[0] != ' '
    requires x != [] && !(|x| >= 2 && x[0] == ' ' && x[1] == ' ')
    ensures !((x + y)[0] == ' ' && (x + y)[1] == ' ')
  {
    if |x| == 1 {
      assert (x + y)[1] == y[0];
    } else {
      assert (x + y)[1] == x[1];
    }
  }

  lemma {:induction false} SplitFirst(x: string, y: string)
    requires y != [] && y[0] != ' '
    requires x != [] && !(|x| >= 2 && x[0] == ' ' && x[1] == ' ')
    ensures CollapseSpacePairs(x + y) == CollapseSpacePairs(x) + CollapseSpacePairs(y)
    decreases |x|, 0
  {
    NoPairAtJoin(x, y);
    CharStep(x + y);
    ConcatTail(x, y, 1);
    CharStep(x);
    CollapseSplit(x[1..], y);
    ConcatAssoc([x[0]], CollapseSpacePairs(x[1..]), CollapseSpacePairs(y));
  }

  /**
   * The replacement also works piece by piece wherever the first part ends
   * with a character other than a space: no pair straddles the cut.
   */
  lemma {:induction false} CollapseSplitAfter(x: string, y: string)
    requires x != [] && x[|x| - 1] != ' '
    ensures CollapseSpacePairs(x + y) == CollapseSpacePairs(x) + CollapseSpacePairs(y)
    decreases |x|
  {
    if |x| >= 2 && x[0] == ' ' && x[1] == ' ' {
      AfterPair(x, y);
    } else if |x| == 1 {
      AfterOne(x, y);
    } else {
      AfterFirst(x, y);
    }
  }

  lemma {:induction false} AfterPair(x: string, y: string)
    requires x != [] && x[|x| - 1] != ' '
    requires |x| >= 2 && x[0] == ' ' && x[1] == ' '
    ensures CollapseSpacePairs(x + y) == CollapseSpacePairs(x) + CollapseSpacePairs(y)
    decreases |x|, 0
  {
    assert (x + y)[0] == ' ' && (x + y)[1] == ' ';
    PairStep(x + y);
    ConcatTail(x, y, 2);
    PairStep(x);
    assert x[2..][|x[2..]| - 1] == x[|x| - 1];
    CollapseSplitAfter(x[2..], y);
    ConcatAssoc(" ", CollapseSpacePairs(x[2..]), CollapseSpacePairs(y));
  }

  lemma CollapseOne(c: char)
    ensures CollapseSpacePairs([c]) == [c]
  {
    assert [c][1..] == [];
  }

  lemma AfterOne(x: string, y: string)
    requires |x| == 1 && x[0] != ' '
    ensures CollapseSpacePairs(x + y) == CollapseSpacePairs(x) + CollapseSpacePairs(y)
  {
    assert x == [x[0]];
    CollapseOne(x[0]);
    CharStep([x[0]] + y);
    assert ([x[0]] + y)[1..] == y;
  }

  /** A first character that starts no pair is kept, whatever follows `x`. */
  lemma KeepFirstOfConcat(x: string, y: string)
    requires |x| >= 2 && !(x[0] == ' ' && x[1] == ' ')
    ensures CollapseSpacePairs(x + y) == [x[0]] + CollapseSpacePairs(x[1..] + y)
  {
    assert (x + y)[0] == x[0] && (x + y)[1] == x[1];
    CharStep(x + y);
    ConcatTail(x, y, 1);
  }

  lemma {:induction false} AfterFirst(x: string, y: string)
    requires |x| >= 2 && x[|x| - 1] != ' '
    requires !(x[0] == ' ' && x[1] == ' ')
    ensures CollapseSpacePairs(x + y) == CollapseSpacePairs(x) + CollapseSpacePairs(y)
    decreases |x|, 0
  {
    KeepFirstOfConcat(x, y);
    CharStep(x);
    assert x[1..][|x[1..]| - 1] == x[|x| - 1];
    CollapseSplitAfter(x[1..], y);
    ConcatAssoc([x[0]], CollapseSpacePairs(x[1..]), CollapseSpacePairs(y));
  }

  /** No two spaces stand side by side in `s`: nothing for the replacement to merge. */
  predicate NoSpacePair(s: string) {
    forall i :: 0 <= i < |s| - 1 ==> !(s[i] == ' ' && s[i + 1] == ' ')
  }

  /** `s` with every space character `' '` taken out. */
  function WithoutBlanks(s: string): string {
    if s == [] then [] else (if s[0] == ' ' then [] else [s[0]]) + WithoutBlanks(s[1..])
  }

  /** `s` with every whitespace character taken out: the text apart from its spacing. */
  function Visible(s: string): string {
    if s == [] then [] else (if IsSpace(s[0]) then [] else [s[0]]) + Visible(s[1..])
  }

  lemma {:induction false} VisibleConcat(a: string, b: string)
    ensures Visible(a + b) == Visible(a) + Visible(b)
  {
    if a != [] {
      assert (a + b)[1..] == a[1..] + b;
      VisibleConcat(a[1..], b);
    } else {
      assert a + b == b;
    }
  }

  lemma {:induction false} VisibleOfSpaces(s: string)
    requires forall i :: 0 <= i < |s| ==> IsSpace(s[i])
    ensures Visible(s) == []
  {
    if s != [] {
      VisibleOfSpaces(s[1..]);
    }
  }

  /** Taking the spaces out first does not change what is visible. */
  lemma {:induction false} VisibleWithoutBlanks(s: string)
    ensures Visible(WithoutBlanks(s)) == Visible(s)
  {
    if s != [] {
      VisibleWithoutBlanks(s[1..]);
      VisibleConcat(if s[0] == ' ' then [] else [s[0]], WithoutBlanks(s[1..]));
    }
  }

  /** The pair replacement only ever changes the spacing. */
  lemma CollapseKeepsVisible(s: string)
    ensures Visible(CollapseSpacePairs(s)) == Visible(s)
  {
    CollapseSpacePairsKeepsText(s);
    VisibleWithoutBlanks(s);
    VisibleWithoutBlanks(CollapseSpacePairs(s));
  }

  lemma {:induction false} TrimStartKeepsVisible(s: string)
    ensures Visible(TrimStart(s)) == Visible(s)
  {
    if s != [] && IsSpace(s[0]) {
      TrimStartKeepsVisible(s[1..]);
    }
  }

  lemma {:induction false} TrimEndKeepsVisible(s: string)
    ensures Visible(TrimEnd(s)) == Visible(s)
  {
    if s != [] && IsSpace(s[|s| - 1]) {
      var p := s[..|s| - 1];
      TrimEndKeepsVisible(p);
      assert s == p + [s[|s| - 1]];
      VisibleConcat(p, [s[|s| - 1]]);
    }
  }

  /** `strip()` only ever removes whitespace. */
  lemma StripKeepsVisible(s: string)
    ensures Visible(Strip(s)) == Visible(s)
  {
    TrimStartKeepsVisible(s);
    TrimEndKeepsVisible(TrimStart(s));
  }

  lemma LowerConcat(a: string, b: string)
    ensures Lower(a + b) == Lower(a) + Lower(b)
  {
  }

  /** Lower-casing commutes with taking out the whitespace. */
  lemma {:induction false} LowerKeepsVisible(s: string)
    ensures Visible(Lower(s)) == Lower(Visible(s))
  {
    if s != [] {
      assert Lower(s)[1..] == Lower(s[1..]);
      LowerKeepsVisible(s[1..]);
      LowerConcat(if IsSpace(s[0]) then [] else [s[0]], Visible(s[1..]));
    }
  }

  /** `s.split(sep)[0]`: everything before the first `sep`. */
  function Before(s: string, sep: char): (r: string)
    ensures |r| <= |s| && r == s[..|r|]
    ensures sep !in r
    ensures |r| < |s| ==> s[|r|] == sep
    ensures sep !in s ==> r == s
  {
    if s == [] || s[0] == sep then "" else [s[0]] + Before(s[1..], sep)
  }

  /** Python's `needle in s` on strings. */
  predicate Contains(s: string, needle: string)
    decreases |s|
  {
    |needle| <= |s| && (s[..|needle|] == needle || Contains(s[1..], needle))
  }

  /** A slice of the tail is the slice of the whole text one place further on. */
  lemma TailSlice(s: string, a: int, n: int)
    requires 1 <= a && 0 <= n && a + n <= |s|
    ensures s[1..][a - 1..a - 1 + n] == s[a..a + n]
  {
    var u, v := s[1..][a - 1..a - 1 + n], s[a..a + n];
    forall k | 0 <= k < n
      ensures u[k] == v[k]
    {
    }
  }

  lemma {:induction false} ContainsIff(s: string, needle: string)
    ensures Contains(s, needle) <==> exists a :: OccursAt(s, needle, a)
    decreases |s|
  {
    if |needle| <= |s| && s[..|needle|] != needle {
      ContainsIff(s[1..], needle);
      if Contains(s, needle) {
        var a :| OccursAt(s[1..], needle, a);
        TailSlice(s, a + 1, |needle|);
        assert OccursAt(s, needle, a + 1);
      }
      if exists a :: OccursAt(s, needle, a) {
        var a :| OccursAt(s, needle, a);
        assert s[0..|needle|] == s[..|needle|];
        assert a > 0;
        TailSlice(s, a, |needle|);
        assert OccursAt(s[1..], needle, a - 1);
      }
    } else if |needle| <= |s| {
      assert OccursAt(s, needle, 0);
    }
  }

  /** Python's `a < b` on strings: code points compared left to right, a proper prefix first. */
  predicate Less(a: string, b: string) {
    if a == [] then b != []
    else if b == [] then false
    else if a[0] != b[0] then a[0] < b[0]
    else Less(a[1..], b[1..])
  }

  lemma {:induction false} LessIrreflexive(a: string)
    ensures !Less(a, a)
  {
    if a != [] {
      LessIrreflexive(a[1..]);
    }
  }

  lemma {:induction false} LessTotal(a: string, b: string)
    ensures a == b || Less(a, b) || Less(b, a)
  {
    if a != [] && b != [] && a[0] == b[0] {
      LessTotal(a[1..], b[1..]);
      if a[1..] == b[1..] {
        assert a == [a[0]] + a[1..] && b == [b[0]] + b[1..];
      }
    }
  }

  lemma {:induction false} LessAsymmetric(a: string, b: string)
    ensures Less(a, b) ==> !Less(b, a)
  {
    if a != [] && b != [] && a[0] == b[0] {
      LessAsymmetric(a[1..], b[1..]);
    }
  }

  lemma {:induction false} LessTransitive(a: string, b: string, c: string)
    requires Less(a, b) && Less(b, c)
    ensures Less(a, c)
  {
    if a != [] && b != [] && c != [] && a[0] == b[0] && b[0] == c[0] {
      LessTransitive(a[1..], b[1..], c[1..]);
    }
  }
}
