/** `KeyboardClass.parseBindKeys` (src/index.ts): turning the `bindKeys`
    argument into combination and sequence patterns over known key names. */
module Patterns {
  import opened JsText
  import opened KeyTable
  import opened Revisions

  /** `+` joins keys held together; `->` joins keys pressed one after another. */
  datatype PatternKind = Combination | Sequence

  datatype Pattern = Pattern(kind: PatternKind, keys: seq<string>)

  /** The run-time value passed as `bindKeys`: a string, an array, or anything
      else (a number, an object, `undefined`, ...). */
  datatype JsValue = JsString(s: string) | JsArray(items: seq<JsValue>) | JsOther

  /** `bindKey.split(/->|\+/)`, with `cur` the token read so far. At each
      position the regex tries `->` first, then `+`. */
  function SplitKeysFrom(s: string, cur: string): (parts: seq<string>)
    ensures |parts| >= 1
    decreases |s|
  {
    if |s| == 0 then [cur]
    else if "->" <= s then [cur] + SplitKeysFrom(s[2..], "")
    else if s[0] == '+' then [cur] + SplitKeysFrom(s[1..], "")
    else SplitKeysFrom(s[1..], cur + [s[0]])
  }

  function SplitKeys(s: string): seq<string> {
    SplitKeysFrom(s, "")
  }

  /** The regex split agrees with a plain string split on the one separator
      a string holds: on `->` when it has no `+`, on `+` when it has no `->`. */
  lemma {:induction false} SplitKeysAgreesWithSplit(s: string, cur: string)
    ensures '+' !in s ==> SplitKeysFrom(s, cur) == SplitFrom(s, "->", cur)
    ensures !Contains(s, "->") ==> SplitKeysFrom(s, cur) == SplitFrom(s, "+", cur)
    decreases |s|
  {
    if |s| > 0 {
      if '+' !in s {
        assert s[0] != '+';
        assert forall c | c in s[1..] :: c in s;
        if "->" <= s {
          SplitKeysAgreesWithSplit(s[2..], "");
        } else {
          SplitKeysAgreesWithSplit(s[1..], cur + [s[0]]);
        }
      }
      if !Contains(s, "->") {
        NotContainsParts(s, "->");
        if s[0] == '+' {
          assert "+" <= s;
          SplitKeysAgreesWithSplit(s[1..], "");
        } else {
          SplitKeysAgreesWithSplit(s[1..], cur + [s[0]]);
        }
      }
    }
  }

  /** Without `+`, joining the tokens with `->` gives the string back. */
  lemma {:induction false} JoinSequenceTokens(s: string, cur: string)
    requires '+' !in s
    ensures Join(SplitKeysFrom(s, cur), "->") == cur + s
    decreases |s|
  {
    if |s| == 0 {
    } else if "->" <= s {
      JoinSequenceTokens(s[2..], "");
      assert s == "->" + s[2..];
    } else {
      JoinSequenceTokens(s[1..], cur + [s[0]]);
      assert s == [s[0]] + s[1..];
    }
  }

  /** Without `->`, joining the tokens with `+` gives the string back. */
  lemma {:induction false} JoinCombinationTokens(s: string, cur: string)
    requires !Contains(s, "->")
    ensures Join(SplitKeysFrom(s, cur), "+") == cur + s
    decreases |s|
  {
    if |s| > 0 {
      NotContainsParts(s, "->");
      var tail := s[1..];
      if s[0] == '+' {
        assert SplitKeysFrom(s, cur) == [cur] + SplitKeysFrom(tail, "");
        JoinCombinationTokens(tail, "");
        JoinCons(cur, SplitKeysFrom(tail, ""), "+");
        assert cur + "+" + ("" + tail) == cur + s;
      } else {
        assert SplitKeysFrom(s, cur) == SplitKeysFrom(tail, cur + [s[0]]);
        JoinCombinationTokens(tail, cur + [s[0]]);
        assert cur + [s[0]] + tail == cur + s;
      }
    }
  }

  /** A string with no `+` and no `-` is a single token. */
  lemma {:induction false} SingleToken(s: string, cur: string)
    requires '+' !in s && '-' !in s
    ensures SplitKeysFrom(s, cur) == [cur + s]
    decreases |s|
  {
    if |s| > 0 {
      assert s[0] in s;
      assert s[0] != '-' && s[0] != '+' && !("->" <= s);
      SingleToken(s[1..], cur + [s[0]]);
      assert s == [s[0]] + s[1..];
      assert cur + [s[0]] + s[1..] == cur + s;
    } else {
      assert cur + s == cur;
    }
  }

  /** A pattern is a sequence exactly when its string contains `->`; its keys
      are the trimmed tokens between separators (lines 50-53). */
  function ParsePattern(bindKey: string): (p: Pattern)
    ensures p.kind == Sequence <==> Contains(bindKey, "->")
    ensures |p.keys| == |SplitKeys(bindKey)|
    ensures forall i | 0 <= i < |p.keys| :: p.keys[i] == Trim(SplitKeys(bindKey)[i])
  {
    var tokens := SplitKeys(bindKey);
    Pattern(if Contains(bindKey, "->") then Sequence else Combination,
            seq(|tokens|, i requires 0 <= i < |tokens| => Trim(tokens[i])))
  }

  /** The tokens of a pattern that mixes no separators, joined with its own
      separator, give back the pattern string. */
  lemma PatternTokensRoundTrip(bindKey: string)
    requires !MixesSeparators(bindKey)
    ensures ParsePattern(bindKey).kind == Sequence ==> Join(SplitKeys(bindKey), "->") == bindKey
    ensures ParsePattern(bindKey).kind == Combination ==> Join(SplitKeys(bindKey), "+") == bindKey
  {
    if ParsePattern(bindKey).kind == Sequence {
      JoinSequenceTokens(bindKey, "");
    } else {
      JoinCombinationTokens(bindKey, "");
    }
  }

  /** Line 48: a pattern with both separators is invalid. */
  predicate MixesSeparators(bindKey: string) {
    Contains(bindKey, "->") && '+' in bindKey
  }

  /** Line 56: every key name resolves in the table. */
  predicate KnownKeys(t: KeyTable, p: Pattern) {
    forall k | k in p.keys :: Has(t, k)
  }

  /** Lines 43-45: a string becomes a one-element list; an array must hold
      only strings; anything else is refused. */
  function BindKeyStrings(v: JsValue): (r: Option<seq<string>>)
    ensures r.Some? <==> v.JsString? || (v.JsArray? && forall i | 0 <= i < |v.items| :: v.items[i].JsString?)
    ensures v.JsString? ==> r == Some([v.s])
    ensures r.Some? && v.JsArray? ==>
      |r.value| == |v.items| && forall i | 0 <= i < |v.items| :: r.value[i] == v.items[i].s
  {
    match v
    case JsString(s) => Some([s])
    case JsArray(items) =>
      if forall i | 0 <= i < |items| :: items[i].JsString? then Some(seq(|items|, i requires 0 <= i < |items| => items[i].s))
      else None
    case JsOther => None
  }

  /** A string survives the parse: it mixes no separators and names only
      known keys. */
  predicate Parses(t: KeyTable, s: string) {
    !MixesSeparators(s) && KnownKeys(t, ParsePattern(s))
  }

  /** Lines 48-56: drop mixed patterns, parse the rest, drop those naming an
      unknown key; the survivors keep their order. */
  function ParseAll(t: KeyTable, strs: seq<string>): (r: seq<Pattern>)
    ensures |r| <= |strs|
    ensures forall p | p in r :: KnownKeys(t, p) && exists s | s in strs :: !MixesSeparators(s) && p == ParsePattern(s)
    ensures forall s | s in strs && !MixesSeparators(s) && KnownKeys(t, ParsePattern(s)) :: ParsePattern(s) in r
  {
    if |strs| == 0 then []
    else
      var head := if Parses(t, strs[0]) then [ParsePattern(strs[0])] else [];
      var rest := ParseAll(t, strs[1..]);
      assert forall s | s in strs[1..] :: s in strs;
      assert forall s | s in strs :: s == strs[0] || s in strs[1..];
      head + rest
  }

  /** The filter keeps order and multiplicity: parsing a concatenation parses
      each part in turn, and one string yields its pattern exactly when it
      mixes no separators and names only known keys. */
  lemma {:induction false} ParseAllAppend(t: KeyTable, a: seq<string>, b: seq<string>)
    ensures ParseAll(t, a + b) == ParseAll(t, a) + ParseAll(t, b)
    ensures |a| == 1 ==> ParseAll(t, a) == (if Parses(t, a[0]) then [ParsePattern(a[0])] else [])
    decreases |a|
  {
    if |a| == 0 {
      assert a + b == b;
    } else {
      var head := if Parses(t, a[0]) then [ParsePattern(a[0])] else [];
      assert (a + b)[0] == a[0];
      assert (a + b)[1..] == a[1..] + b;
      ParseAllAppend(t, a[1..], b);
      calc {
        ParseAll(t, a + b);
        head + ParseAll(t, a[1..] + b);
        head + (ParseAll(t, a[1..]) + ParseAll(t, b));
        (head + ParseAll(t, a[1..])) + ParseAll(t, b);
        ParseAll(t, a) + ParseAll(t, b);
      }
    }
  }

  /** `parseBindKeys` as written: line 58 (`if (!splitKeys.length) false;`)
      has no `return`, so a call whose every pattern is dropped yields `[]`. */
  function ParseBindKeysAsWritten(t: KeyTable, v: JsValue): (r: Option<seq<Pattern>>)
    ensures r.None? <==> BindKeyStrings(v).None?
    ensures r.Some? ==> r.value == ParseAll(t, BindKeyStrings(v).value)
  {
    match BindKeyStrings(v)
    case None => None
    case Some(strs) => Some(ParseAll(t, strs))
  }

  /** `parseBindKeys` with line 58 returning `false` as evidently intended: a
      successful parse always yields at least one pattern. */
  function ParseBindKeys(t: KeyTable, v: JsValue): (r: Option<seq<Pattern>>)
    ensures r.Some? ==> |r.value| > 0 && ParseBindKeysAsWritten(t, v) == r
    ensures r.None? <==> ParseBindKeysAsWritten(t, v) in {None, Some([])}
  {
    match ParseBindKeysAsWritten(t, v)
    case None => None
    case Some(ps) => if |ps| == 0 then None else Some(ps)
  }

  /** `parseBindKeys` as the keyboard's revision reads line 58. */
  function ParseBindKeysIn(rev: Revision, t: KeyTable, v: JsValue): (r: Option<seq<Pattern>>)
    ensures r.None? <==> BindKeyStrings(v).None? || (rev.Corrected? && ParseAll(t, BindKeyStrings(v).value) == [])
    ensures r.Some? ==> r.value == ParseAll(t, BindKeyStrings(v).value)
  {
    match rev
    case AsWritten => ParseBindKeysAsWritten(t, v)
    case Corrected => ParseBindKeys(t, v)
  }

  /** The finding at line 58: a call naming only an unknown key parses to an
      empty list as written, and to failure once corrected. */
  lemma UnknownKeyParsesToEmpty()
    ensures ParseBindKeysAsWritten(Base, JsString("unknownkey")) == Some([])
    ensures ParseBindKeys(Base, JsString("unknownkey")).None?
  {
    var p := ParsePattern("unknownkey");
    PlainNamePattern("unknownkey");
    UnknownKeyAbsent();
    assert !KnownKeys(Base, p) by {
      assert p.keys[0] == "unknownkey";
    }
    assert ParseAll(Base, ["unknownkey"]) == [];
  }

  lemma UnknownKeyAbsent()
    ensures !Has(Base, "unknownkey")
  {
  }

  /** A name without separators, dashes or surrounding blanks parses to a
      one-key combination. */
  lemma PlainNamePattern(name: string)
    requires '+' !in name && '-' !in name
    requires |name| > 0 && !IsJsWhitespace(name[0]) && !IsJsWhitespace(name[|name| - 1])
    ensures ParsePattern(name) == Pattern(Combination, [name])
  {
    SingleToken(name, "");
    assert "" + name == name;
    TrimUnpadded(name);
    NoDashNoArrow(name);
  }

  lemma NoDashNoArrow(s: string)
    requires '-' !in s
    ensures !Contains(s, "->")
  {
    forall i | 0 <= i <= |s| - 2 ensures !OccursAt(s, "->", i) {
      assert s[i] in s;
      assert s[i..i + 2][0] == s[i];
    }
  }

  /** A pattern mixing both separators is dropped, so a call with only such a
      pattern fails (returns `[]` as written). */
  lemma MixedPatternRejected()
    ensures MixesSeparators("a+b->c")
    ensures ParseBindKeysAsWritten(Base, JsString("a+b->c")) == Some([])
    ensures ParseBindKeys(Base, JsString("a+b->c")).None?
  {
    assert OccursAt("a+b->c", "->", 3);
    assert "a+b->c"[1] == '+';
    assert ParseAll(Base, ["a+b->c"]) == [];
  }
}
