/** Models of the JavaScript string operations the keyboard core relies on:
    `includes`/`indexOf`, `endsWith`-style regex tests, `join`, `split` with a
    string separator, `replaceAll`, `trim`, ASCII case mapping, the
    `/\b[a-zA-Z]\b/` test and the decimal rendering of key codes.
    Strings are `seq<char>`, one element per Unicode scalar value; for the
    key names, codes and separators the core handles these coincide with
    JavaScript's UTF-16 code units. */
module JsText {

  datatype Option<T> = None | Some(value: T)

  /** `s.includes(sub)`, equivalently `s.indexOf(sub) !== -1`. */
  predicate Contains(s: string, sub: string) {
    exists i | 0 <= i <= |s| - |sub| :: OccursAt(s, sub, i)
  }

  /** `sub` occurs in `s` starting at index `i`. */
  predicate OccursAt(s: string, sub: string, i: int) {
    0 <= i <= |s| - |sub| && s[i..i + |sub|] == sub
  }

  /** The regex `/${suffix}$/` (with `suffix` escaped) on `s`: `s` ends with `suffix`. */
  predicate EndsWith(s: string, suffix: string) {
    |suffix| <= |s| && s[|s| - |suffix|..] == suffix
  }

  /** The same regex with the `i` flag: characters are compared after upper-casing. */
  predicate EndsWithIgnoringCase(s: string, suffix: string) {
    |suffix| <= |s| && UpperAscii(s[|s| - |suffix|..]) == UpperAscii(suffix)
  }

  lemma ContainsTail(s: string, sub: string)
    requires |s| > 0 && Contains(s[1..], sub)
    ensures Contains(s, sub)
  {
    var i :| 0 <= i <= |s[1..]| - |sub| && OccursAt(s[1..], sub, i);
    assert s[i + 1..i + 1 + |sub|] == sub;
    assert OccursAt(s, sub, i + 1);
  }

  lemma ContainsPrefix(s: string, sub: string)
    requires sub <= s
    ensures Contains(s, sub)
  {
    assert OccursAt(s, sub, 0);
  }

  /** A string without `sub` has it neither at its start nor in its tail. */
  lemma NotContainsParts(s: string, sub: string)
    requires |s| > 0 && !Contains(s, sub)
    ensures !(sub <= s) && !Contains(s[1..], sub)
  {
    if sub <= s { ContainsPrefix(s, sub); }
    if Contains(s[1..], sub) { ContainsTail(s, sub); }
  }

  /** `Array.prototype.join(sep)` on an array of strings. */
  function Join(parts: seq<string>, sep: string): string {
    if |parts| == 0 then ""
    else if |parts| == 1 then parts[0]
    else parts[0] + sep + Join(parts[1..], sep)
  }

  lemma JoinCons(x: string, parts: seq<string>, sep: string)
    requires |parts| > 0
    ensures Join([x] + parts, sep) == x + sep + Join(parts, sep)
  {
    assert ([x] + parts)[1..] == parts;
  }

  /** `String.prototype.split(sep)` for a non-empty string separator, with
      `cur` the part read so far: occurrences are consumed left to right and
      never overlap. */
  function SplitFrom(s: string, sep: string, cur: string): (parts: seq<string>)
    requires |sep| > 0
    ensures |parts| >= 1
    decreases |s|
  {
    if |s| == 0 then [cur]
    else if sep <= s then [cur] + SplitFrom(s[|sep|..], sep, "")
    else SplitFrom(s[1..], sep, cur + [s[0]])
  }

  function Split(s: string, sep: string): seq<string>
    requires |sep| > 0
  {
    SplitFrom(s, sep, "")
  }

  /** Joining the parts of a split with the same separator gives back the input. */
  lemma {:induction false} JoinSplitFrom(s: string, sep: string, cur: string)
    requires |sep| > 0
    ensures Join(SplitFrom(s, sep, cur), sep) == cur + s
    decreases |s|
  {
    if |s| == 0 {
    } else if sep <= s {
      JoinSplitFrom(s[|sep|..], sep, "");
      assert s == sep + s[|sep|..];
    } else {
      JoinSplitFrom(s[1..], sep, cur + [s[0]]);
      assert s == [s[0]] + s[1..];
    }
  }

  lemma JoinSplit(s: string, sep: string)
    requires |sep| > 0
    ensures Join(Split(s, sep), sep) == s
  {
    JoinSplitFrom(s, sep, "");
  }

  /** `String.prototype.replaceAll(pat, rep)` for a non-empty string pattern. */
  function ReplaceAll(s: string, pat: string, rep: string): string
    requires |pat| > 0
    decreases |s|
  {
    if |s| == 0 then ""
    else if pat <= s then rep + ReplaceAll(s[|pat|..], pat, rep)
    else [s[0]] + ReplaceAll(s[1..], pat, rep)
  }

  /** `replaceAll` agrees with the reference definition "split on the pattern,
      join with the replacement". */
  lemma {:induction false} ReplaceAllSplitFrom(s: string, pat: string, rep: string, cur: string)
    requires |pat| > 0
    ensures cur + ReplaceAll(s, pat, rep) == Join(SplitFrom(s, pat, cur), rep)
    decreases |s|
  {
    if |s| == 0 {
    } else if pat <= s {
      ReplaceAllSplitFrom(s[|pat|..], pat, rep, "");
    } else {
      ReplaceAllSplitFrom(s[1..], pat, rep, cur + [s[0]]);
    }
  }

  lemma ReplaceAllIsSplitJoin(s: string, pat: string, rep: string)
    requires |pat| > 0
    ensures ReplaceAll(s, pat, rep) == Join(Split(s, pat), rep)
  {
    ReplaceAllSplitFrom(s, pat, rep, "");
  }

  /** White space and line terminators removed by `String.prototype.trim`. */
  predicate IsJsWhitespace(c: char) {
    || c == '\t' || c == '\n' || c == '\U{000B}' || c == '\U{000C}' || c == '\r' || c == ' '
    || c == '\U{00A0}' || c == '\U{1680}' || '\U{2000}' <= c <= '\U{200A}'
    || c == '\U{2028}' || c == '\U{2029}' || c == '\U{202F}' || c == '\U{205F}'
    || c == '\U{3000}' || c == '\U{FEFF}'
  }

  function TrimStart(s: string): (r: string)
    ensures |r| <= |s| && r == s[|s| - |r|..]
    ensures |r| > 0 ==> !IsJsWhitespace(r[0])
    ensures forall i | 0 <= i < |s| - |r| :: IsJsWhitespace(s[i])
  {
    if |s| > 0 && IsJsWhitespace(s[0]) then TrimStart(s[1..]) else s
  }

  function TrimEnd(s: string): (r: string)
    ensures |r| <= |s| && r == s[..|r|]
    ensures |r| > 0 ==> !IsJsWhitespace(r[|r| - 1])
    ensures forall i | |r| <= i < |s| :: IsJsWhitespace(s[i])
  {
    if |s| > 0 && IsJsWhitespace(s[|s| - 1]) then TrimEnd(s[..|s| - 1]) else s
  }

  /** `String.prototype.trim`: the longest middle slice that neither starts nor
      ends with white space, everything outside it being white space. */
  function Trim(s: string): (r: string)
    ensures exists lo | 0 <= lo <= |s| :: TrimmedAt(s, r, lo)
    ensures |r| > 0 ==> !IsJsWhitespace(r[0]) && !IsJsWhitespace(r[|r| - 1])
  {
    var t := TrimStart(s);
    var r := TrimEnd(t);
    var lo := |s| - |t|;
    assert TrimmedAt(s, r, lo);
    r
  }

  /** Text that neither starts nor ends with white space is left as it is. */
  lemma TrimUnpadded(s: string)
    requires |s| > 0 ==> !IsJsWhitespace(s[0]) && !IsJsWhitespace(s[|s| - 1])
    ensures Trim(s) == s
  {
    assert TrimStart(s) == s;
    assert TrimEnd(s) == s;
  }

  /** `r` is the slice of `s` starting at `lo`, with only white space around it. */
  predicate TrimmedAt(s: string, r: string, lo: int) {
    && 0 <= lo <= |s| - |r| && s[lo..lo + |r|] == r
    && (forall i | 0 <= i < lo :: IsJsWhitespace(s[i]))
    && (forall i | lo + |r| <= i < |s| :: IsJsWhitespace(s[i]))
  }

  predicate IsAsciiLetter(c: char) {
    'a' <= c <= 'z' || 'A' <= c <= 'Z'
  }

  /** A key name or key value that is exactly one ASCII letter. */
  predicate IsSingleLetter(s: string) {
    |s| == 1 && IsAsciiLetter(s[0])
  }

  function UpperChar(c: char): char {
    if 'a' <= c <= 'z' then (c as int - 32) as char else c
  }

  function LowerChar(c: char): char {
    if 'A' <= c <= 'Z' then (c as int + 32) as char else c
  }

  /** `toUpperCase` on ASCII text. */
  function UpperAscii(s: string): (r: string)
    ensures |r| == |s|
    ensures forall i | 0 <= i < |s| :: r[i] == UpperChar(s[i])
  {
    seq(|s|, i requires 0 <= i < |s| => UpperChar(s[i]))
  }

  /** `toLowerCase` on ASCII text. */
  function LowerAscii(s: string): (r: string)
    ensures |r| == |s|
    ensures forall i | 0 <= i < |s| :: r[i] == LowerChar(s[i])
  {
    seq(|s|, i requires 0 <= i < |s| => LowerChar(s[i]))
  }

  /** Two strings that agree up to ASCII case upper-case to the same string. */
  lemma UpperOfLower(s: string)
    ensures UpperAscii(LowerAscii(s)) == UpperAscii(s)
  {
  }

  function DigitChar(d: nat): (c: char)
    requires d < 10
    ensures '0' <= c <= '9'
  {
    ('0' as int + d) as char
  }

  /** The string a JavaScript number `n >= 0` becomes inside a template or `join`. */
  function DecimalString(n: nat): (r: string)
    ensures |r| >= 1
    ensures forall i | 0 <= i < |r| :: '0' <= r[i] <= '9'
    ensures n >= 10 ==> |r| >= 2
  {
    if n < 10 then [DigitChar(n)] else DecimalString(n / 10) + [DigitChar(n % 10)]
  }

  /** Distinct key codes render to distinct strings, so a set of rendered codes
      behaves like the source's set of numbers. */
  lemma {:induction false} DecimalStringInjective(a: nat, b: nat)
    requires DecimalString(a) == DecimalString(b)
    ensures a == b
  {
    var s := DecimalString(a);
    if a < 10 && b < 10 {
      assert s[0] == DigitChar(a) == DigitChar(b);
    } else if a >= 10 && b >= 10 {
      assert s[|s| - 1] == DigitChar(a % 10) == DigitChar(b % 10);
      assert DecimalString(a / 10) == s[..|s| - 1] == DecimalString(b / 10);
      DecimalStringInjective(a / 10, b / 10);
    }
  }

  /** Splitting skips over text in which no separator starts. */
  lemma {:induction false} SplitSkip(a: string, rest: string, sep: string, cur: string)
    requires |sep| > 0
    requires forall i | 0 <= i < |a| :: !(sep <= (a + rest)[i..])
    ensures SplitFrom(a + rest, sep, cur) == SplitFrom(rest, sep, cur + a)
    decreases |a|
  {
    if |a| == 0 {
      assert a + rest == rest;
      assert cur + a == cur;
    } else {
      assert (a + rest)[0..] == a + rest;
      assert (a + rest)[1..] == a[1..] + rest;
      forall i | 0 <= i < |a[1..]| ensures !(sep <= (a[1..] + rest)[i..]) {
        assert (a[1..] + rest)[i..] == (a + rest)[i + 1..];
      }
      SplitSkip(a[1..], rest, sep, cur + [a[0]]);
      assert cur + [a[0]] + a[1..] == cur + a;
    }
  }

  /** A separator whose first character does not recur in it cannot start
      inside a part without the separator and end in the separator (or the
      end of the text) after it. */
  lemma NoSeparatorAcross(a: string, rest: string, sep: string)
    requires |sep| > 0 && sep[0] !in sep[1..] && !Contains(a, sep)
    requires rest == "" || sep <= rest
    ensures forall i | 0 <= i < |a| :: !(sep <= (a + rest)[i..])
  {
    forall i | 0 <= i < |a| ensures !(sep <= (a + rest)[i..]) {
      var s := (a + rest)[i..];
      if i + |sep| <= |a| {
        assert !OccursAt(a, sep, i);
        assert |sep| <= |s| && s[..|sep|] == a[i..i + |sep|];
      } else if rest == "" {
        assert |s| < |sep|;
      } else {
        var k := |a| - i;
        assert 1 <= k < |sep| && k < |s|;
        assert s[k] == rest[0] == sep[0];
        assert sep[k] == sep[1..][k - 1] != sep[0];
      }
    }
  }

  /** Splitting a join gives back the parts, provided no part holds the
      separator and the separator's first character does not recur in it
      (as for `+` and `->`). */
  lemma {:induction false} SplitJoin(parts: seq<string>, sep: string)
    requires |sep| > 0 && |parts| > 0 && sep[0] !in sep[1..]
    requires forall i | 0 <= i < |parts| :: !Contains(parts[i], sep)
    ensures Split(Join(parts, sep), sep) == parts
  {
    SplitJoinFrom(parts, sep, "");
    assert "" + parts[0] == parts[0];
    assert [parts[0]] + parts[1..] == parts;
  }

  lemma {:induction false} SplitJoinFrom(parts: seq<string>, sep: string, cur: string)
    requires |sep| > 0 && |parts| > 0 && sep[0] !in sep[1..]
    requires forall i | 0 <= i < |parts| :: !Contains(parts[i], sep)
    ensures SplitFrom(Join(parts, sep), sep, cur) == [cur + parts[0]] + parts[1..]
    decreases |parts|
  {
    if |parts| == 1 {
      NoSeparatorAcross(parts[0], "", sep);
      SplitSkip(parts[0], "", sep, cur);
      assert parts[0] + "" == parts[0];
    } else {
      var tail := Join(parts[1..], sep);
      assert Join(parts, sep) == parts[0] + (sep + tail);
      assert sep <= sep + tail;
      NoSeparatorAcross(parts[0], sep + tail, sep);
      SplitSkip(parts[0], sep + tail, sep, cur);
      assert (sep + tail)[|sep|..] == tail;
      SplitJoinFrom(parts[1..], sep, "");
      assert "" + parts[1] == parts[1];
      assert [parts[1]] + parts[2..] == parts[1..];
    }
  }

  /** Joining one more part appends the separator and the part. */
  lemma {:induction false} JoinSnoc(parts: seq<string>, x: string, sep: string)
    requires |parts| > 0
    ensures Join(parts + [x], sep) == Join(parts, sep) + sep + x
    decreases |parts|
  {
    if |parts| == 1 {
      assert parts + [x] == [parts[0], x];
    } else {
      assert (parts + [x])[1..] == parts[1..] + [x];
      JoinSnoc(parts[1..], x, sep);
    }
  }
}

