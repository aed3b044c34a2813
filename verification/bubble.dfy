/** The pure string helpers of the demo game's bubble (website/Game/Bubble.tsx):
    rewriting key aliases for display, and finding how much of a pattern the
    player has typed so far. */
module Bubble {
  import opened JsText

  // ---------------------------------------------------------------------
  // specialKeyReplace

  /** `specialKeyReplace` (lines 19-33): the aliases `up`, `down`, `left`,
      `right` and `equal` are rewritten in that order, each everywhere. */
  function SpecialKeyReplace(s: string): string {
    var s1 := ReplaceAll(s, "up", "ArrowUp");
    var s2 := ReplaceAll(s1, "down", "ArrowDown");
    var s3 := ReplaceAll(s2, "left", "ArrowLeft");
    var s4 := ReplaceAll(s3, "right", "ArrowRight");
    ReplaceAll(s4, "equal", "+")
  }

  /** Each rewrite step is "split on the alias, join with its display name". */
  lemma SpecialKeyReplaceIsSplitJoin(s: string)
    ensures SpecialKeyReplace(s) ==
      var s1 := Join(Split(s, "up"), "ArrowUp");
      var s2 := Join(Split(s1, "down"), "ArrowDown");
      var s3 := Join(Split(s2, "left"), "ArrowLeft");
      var s4 := Join(Split(s3, "right"), "ArrowRight");
      Join(Split(s4, "equal"), "+")
  {
    var s1 := ReplaceAll(s, "up", "ArrowUp");
    var s2 := ReplaceAll(s1, "down", "ArrowDown");
    var s3 := ReplaceAll(s2, "left", "ArrowLeft");
    var s4 := ReplaceAll(s3, "right", "ArrowRight");
    ReplaceAllIsSplitJoin(s, "up", "ArrowUp");
    ReplaceAllIsSplitJoin(s1, "down", "ArrowDown");
    ReplaceAllIsSplitJoin(s2, "left", "ArrowLeft");
    ReplaceAllIsSplitJoin(s3, "right", "ArrowRight");
    ReplaceAllIsSplitJoin(s4, "equal", "+");
  }

  /** Text without the pattern is left as it is. */
  lemma {:induction false} ReplaceAllAbsent(s: string, pat: string, rep: string)
    requires |pat| > 0 && !Contains(s, pat)
    ensures ReplaceAll(s, pat, rep) == s
    decreases |s|
  {
    if |s| > 0 {
      if pat <= s { ContainsPrefix(s, pat); }
      if Contains(s[1..], pat) { ContainsTail(s, pat); }
      ReplaceAllAbsent(s[1..], pat, rep);
    }
  }

  /** A pattern naming none of the aliases is displayed unchanged. */
  lemma NoAliasUnchanged(s: string)
    requires !Contains(s, "up") && !Contains(s, "down") && !Contains(s, "left")
    requires !Contains(s, "right") && !Contains(s, "equal")
    ensures SpecialKeyReplace(s) == s
  {
    ReplaceAllAbsent(s, "up", "ArrowUp");
    ReplaceAllAbsent(s, "down", "ArrowDown");
    ReplaceAllAbsent(s, "left", "ArrowLeft");
    ReplaceAllAbsent(s, "right", "ArrowRight");
    ReplaceAllAbsent(s, "equal", "+");
  }

  // ---------------------------------------------------------------------
  // getLongestCommonSubsequence

  /** `u` occurs contiguously in both strings. */
  predicate CommonSubstring(u: string, a: string, b: string) {
    Contains(a, u) && Contains(b, u)
  }

  /** `res` ends in `a` at `e`, and no common substring of its length ends in
      `a` before `e`: it is the one the row-major scan finds first. */
  predicate EndsFirstAt(res: string, a: string, b: string, e: int) {
    && |res| <= e <= |a| && res == Window(a, e, |res|)
    && forall e' | |res| <= e' < e :: !Contains(b, Window(a, e', |res|))
  }

  /** The `n` characters of `a` ending at `e`. */
  function Window(a: string, e: int, n: nat): (w: string)
    requires n <= e <= |a|
    ensures |w| == n
  {
    a[e - n..e]
  }

  /** What lines 43-54 compute: a longest common substring of `a`
      and `b`, the one ending earliest in `a`. */
  ghost predicate LongestFirst(res: string, a: string, b: string) {
    && CommonSubstring(res, a, b)
    && (forall u | CommonSubstring(u, a, b) :: |u| <= |res|)
    && exists e | 0 <= e <= |a| :: EndsFirstAt(res, a, b, e)
  }

  /** `LongestFirst` pins the result down: at most one string meets it. */
  lemma LongestFirstUnique(x: string, y: string, a: string, b: string)
    requires LongestFirst(x, a, b) && LongestFirst(y, a, b)
    ensures x == y
  {
    assert |x| == |y|;
    var ex :| 0 <= ex <= |a| && EndsFirstAt(x, a, b, ex);
    var ey :| 0 <= ey <= |a| && EndsFirstAt(y, a, b, ey);
    assert ex == ey;
  }

  /** `dp[i][j]`: the length of the longest common suffix of `a[..i]` and
      `b[..j]`. */
  function SufLen(a: string, b: string, i: nat, j: nat): (k: nat)
    requires i <= |a| && j <= |b|
    ensures k <= i && k <= j
  {
    if i == 0 || j == 0 || a[i - 1] != b[j - 1] then 0 else SufLen(a, b, i - 1, j - 1) + 1
  }

  /** The common suffix `SufLen` measures is common. */
  lemma {:induction false} SufLenCommon(a: string, b: string, i: nat, j: nat)
    requires i <= |a| && j <= |b|
    ensures a[i - SufLen(a, b, i, j)..i] == b[j - SufLen(a, b, i, j)..j]
  {
    if i > 0 && j > 0 && a[i - 1] == b[j - 1] {
      SufLenCommon(a, b, i - 1, j - 1);
      var k := SufLen(a, b, i - 1, j - 1);
      assert a[i - 1 - k..i] == a[i - 1 - k..i - 1] + [a[i - 1]];
      assert b[j - 1 - k..j] == b[j - 1 - k..j - 1] + [b[j - 1]];
    }
  }

  /** Every common suffix is at most `SufLen` long. */
  lemma {:induction false} SufLenMaximal(a: string, b: string, i: nat, j: nat, k: nat)
    requires k <= i <= |a| && k <= j <= |b|
    requires a[i - k..i] == b[j - k..j]
    ensures k <= SufLen(a, b, i, j)
  {
    if k > 0 {
      assert a[i - 1] == a[i - k..i][k - 1] == b[j - k..j][k - 1] == b[j - 1];
      assert a[i - k..i - 1] == a[i - k..i][..k - 1];
      assert b[j - k..j - 1] == b[j - k..j][..k - 1];
      SufLenMaximal(a, b, i - 1, j - 1, k - 1);
    }
  }

  /** A suffix longer than `SufLen` is not common. */
  lemma SufLenBelow(a: string, b: string, i: nat, j: nat, k: nat)
    requires k <= i <= |a| && k <= j <= |b|
    requires SufLen(a, b, i, j) < k
    ensures a[i - k..i] != b[j - k..j]
  {
    if a[i - k..i] == b[j - k..j] {
      SufLenMaximal(a, b, i, j, k);
    }
  }

  /** Cell `(i', j')` comes before cell `(i, j)` in the row-major scan. */
  predicate Before(i': int, j': int, i: int, j: int) {
    i' < i || (i' == i && j' < j)
  }

  predicate Cell(a: string, b: string, i: int, j: int) {
    1 <= i <= |a| && 1 <= j <= |b|
  }

  /** The scan invariant: `res` is as long as every cell scanned before
      `(i, j)`, and, when non-empty, is the slice of `a` ending at the first
      scanned cell `(bi, bj)` that reached its length. */
  ghost predicate Best(a: string, b: string, res: string, bi: int, bj: int, i: int, j: int) {
    && (forall i', j' | Cell(a, b, i', j') && Before(i', j', i, j) :: SufLen(a, b, i', j') <= |res|)
    && (|res| > 0 ==>
          && Cell(a, b, bi, bj) && Before(bi, bj, i, j)
          && SufLen(a, b, bi, bj) == |res| && res == a[bi - |res|..bi]
          && forall i', j' | Cell(a, b, i', j') && Before(i', j', bi, bj) :: SufLen(a, b, i', j') < |res|)
  }

  lemma BestNextRow(a: string, b: string, res: string, bi: int, bj: int, i: int)
    requires Best(a, b, res, bi, bj, i, |b| + 1)
    ensures Best(a, b, res, bi, bj, i + 1, 1)
  {
    forall i', j' | Cell(a, b, i', j') && Before(i', j', i + 1, 1) ensures SufLen(a, b, i', j') <= |res| {
      assert Before(i', j', i, |b| + 1);
    }
  }

  /** Lines 43-54: the dynamic-programming scan, one row of `dp` at a time. */
  method LongestCommonSubstring(a: string, b: string) returns (res: string)
    ensures LongestFirst(res, a, b)
  {
    var prev: seq<nat> := seq(|b| + 1, _ => 0);
    res := "";
    ghost var bi, bj := 0, 0;
    var i := 1;
    while i <= |a|
      invariant 1 <= i <= |a| + 1
      invariant |prev| == |b| + 1
      invariant forall j | 0 <= j <= |b| :: prev[j] == SufLen(a, b, i - 1, j)
      invariant Best(a, b, res, bi, bj, i, 1)
    {
      var cur: seq<nat> := [0];
      var j := 1;
      while j <= |b|
        invariant 1 <= j <= |b| + 1
        invariant |cur| == j
        invariant forall k | 0 <= k < j :: cur[k] == SufLen(a, b, i, k)
        invariant Best(a, b, res, bi, bj, i, j)
      {
        var v: nat := 0;
        if a[i - 1] == b[j - 1] {
          v := prev[j - 1] + 1;
          if v > |res| {
            res := a[i - v..i];
            bi, bj := i, j;
          }
        }
        assert v == SufLen(a, b, i, j);
        cur := cur + [v];
        j := j + 1;
      }
      BestNextRow(a, b, res, bi, bj, i);
      prev := cur;
      i := i + 1;
    }
    ScanResult(a, b, res, bi, bj);
  }

  /** After the whole table is scanned, the scan invariant gives `LongestFirst`. */
  lemma ScanResult(a: string, b: string, res: string, bi: int, bj: int)
    requires Best(a, b, res, bi, bj, |a| + 1, 1)
    ensures LongestFirst(res, a, b)
  {
    if |res| == 0 {
      assert OccursAt(a, res, 0) && OccursAt(b, res, 0);
      assert EndsFirstAt(res, a, b, 0);
    } else {
      SufLenCommon(a, b, bi, bj);
      assert OccursAt(a, res, bi - |res|);
      assert OccursAt(b, res, bj - |res|);
      forall e' | |res| <= e' < bi ensures !Contains(b, Window(a, e', |res|)) {
        forall q | 0 <= q <= |b| - |res| ensures !OccursAt(b, Window(a, e', |res|), q) {
          assert Cell(a, b, e', q + |res|) && Before(e', q + |res|, bi, bj);
          SufLenBelow(a, b, e', q + |res|, |res|);
        }
      }
      assert EndsFirstAt(res, a, b, bi);
    }
    forall u | CommonSubstring(u, a, b) ensures |u| <= |res| {
      if |u| > 0 {
        var p :| 0 <= p <= |a| - |u| && OccursAt(a, u, p);
        var q :| 0 <= q <= |b| - |u| && OccursAt(b, u, q);
        SufLenMaximal(a, b, p + |u|, q + |u|, |u|);
        assert Cell(a, b, p + |u|, q + |u|) && Before(p + |u|, q + |u|, |a| + 1, 1);
      }
    }
  }

  /** `res.split(sign).filter(key => !!key)`. */
  function NonEmptyParts(parts: seq<string>): (r: seq<string>)
    ensures forall x :: x in r <==> x in parts && x != ""
  {
    if |parts| == 0 then []
    else
      assert forall x :: x in parts <==> x == parts[0] || x in parts[1..];
      (if parts[0] != "" then [parts[0]] else []) + NonEmptyParts(parts[1..])
  }

  /** The filter keeps order and multiplicity: the non-empty parts of a
      concatenation are those of each half in turn, and a single part stays
      exactly when it is non-empty. */
  lemma {:induction false} NonEmptyPartsAppend(a: seq<string>, b: seq<string>)
    ensures NonEmptyParts(a + b) == NonEmptyParts(a) + NonEmptyParts(b)
    ensures |a| == 1 ==> NonEmptyParts(a) == (if a[0] != "" then [a[0]] else [])
    decreases |a|
  {
    if |a| == 0 {
      assert a + b == b;
    } else {
      var head := if a[0] != "" then [a[0]] else [];
      assert (a + b)[0] == a[0];
      assert (a + b)[1..] == a[1..] + b;
      NonEmptyPartsAppend(a[1..], b);
      calc {
        NonEmptyParts(a + b);
        head + NonEmptyParts(a[1..] + b);
        head + (NonEmptyParts(a[1..]) + NonEmptyParts(b));
        (head + NonEmptyParts(a[1..])) + NonEmptyParts(b);
        NonEmptyParts(a) + NonEmptyParts(b);
      }
    }
  }

  /** Lines 56-57: a result that is a single key, but not a whole key of both
      inputs, is only part of a key name and is discarded. */
  function TokenFilter(lcs: string, a: string, b: string, sign: string): (r: string)
    requires |sign| > 0
    ensures r == "" || r == lcs
    ensures r != "" && |NonEmptyParts(Split(r, sign))| == 1 ==>
      NonEmptyParts(Split(r, sign))[0] in Split(a, sign) && NonEmptyParts(Split(r, sign))[0] in Split(b, sign)
    ensures (|NonEmptyParts(Split(lcs, sign))| != 1
             || (NonEmptyParts(Split(lcs, sign))[0] in Split(a, sign) && NonEmptyParts(Split(lcs, sign))[0] in Split(b, sign)))
      ==> r == lcs
  {
    var pure := NonEmptyParts(Split(lcs, sign));
    assert |pure| > 0 ==> pure[0] in pure;
    if |pure| == 1 && pure[0] != "" && (pure[0] !in Split(a, sign) || pure[0] !in Split(b, sign)) then "" else lcs
  }

  /** Lines 36-41: the shorter input first (the first one on a tie). */
  function Shorter(s1: string, s2: string): (string, string) {
    if |s1| > |s2| then (s2, s1) else (s1, s2)
  }

  /** `getLongestCommonSubsequence` (lines 35-59). */
  method GetLongestCommonSubsequence(s1: string, s2: string, sign: string) returns (res: string)
    requires sign == "+" || sign == "->"
    ensures |res| <= |s1| && |res| <= |s2|
    ensures res == "" || CommonSubstring(res, s1, s2)
    ensures exists lcs | LongestFirst(lcs, Shorter(s1, s2).0, Shorter(s1, s2).1) ::
      res == TokenFilter(lcs, Shorter(s1, s2).0, Shorter(s1, s2).1, sign)
  {
    var a, b := s1, s2;
    if |a| > |b| {
      a, b := s2, s1;
    }
    var lcs := LongestCommonSubstring(a, b);
    var pure := NonEmptyParts(Split(lcs, sign));
    if |pure| == 1 && pure[0] != "" && (pure[0] !in Split(a, sign) || pure[0] !in Split(b, sign)) {
      res := "";
    } else {
      res := lcs;
    }
    assert (a, b) == Shorter(s1, s2);
    assert res == TokenFilter(lcs, a, b, sign);
    ContainsLength(a, lcs);
    ContainsLength(b, lcs);
  }

  lemma ContainsLength(s: string, sub: string)
    requires Contains(s, sub)
    ensures |sub| <= |s|
  {
  }
}
