/** The `Listener` class of src/index.ts: one bound pattern with its options,
    and the decisions it takes on key-down and key-up against the shared
    pressed sets, sequence records and trigger marks. */
module Listeners {
  import opened JsText
  import opened KeyTable
  import opened Patterns
  import opened Tracker
  import opened Revisions

  /** `strictOrder`: `false`; `true`, where the `+`-join of the held keys must
      contain the trigger key; or `'equal'`, where it must equal it. */
  datatype StrictOrder = Unordered | Contiguous | Exact

  /** The options of `BindOption` after the defaults are filled in. */
  datatype Options = Options(
    eventType: EventType,
    context: Option<string>,
    preventRepeat: bool,
    preventSame: bool,
    strictOrder: StrictOrder,
    caseSensitive: bool)

  /** `defaultBindOption` (lines 20-27). */
  const DefaultOptions := Options(Key, None, true, false, Unordered, false)

  /** A bound listener. `id` stands for the object's identity, and the two
      flags say whether a press-down or press-up executor is present. */
  datatype Listener = Listener(
    id: nat,
    kind: PatternKind,
    keys: seq<string>,
    opts: Options,
    hasPressDown: bool,
    hasPressUp: bool,
    shouldConvertCase: bool,
    triggerKey: string)

  function Separator(kind: PatternKind): string {
    match kind
    case Combination => "+"
    case Sequence => "->"
  }

  /** `keyNames[key][eventType]`, with a literal `+` replaced by `equal` as
      the key-down handler stores it (line 222). */
  function TriggerRep(t: KeyTable, name: string, et: EventType): (r: string)
    ensures r != "+"
    ensures Rep(t, name, et) != "+" ==> r == Rep(t, name, et)
  {
    if Rep(t, name, et) == "+" then "equal" else Rep(t, name, et)
  }

  function TriggerReps(t: KeyTable, keys: seq<string>, et: EventType): (r: seq<string>)
    ensures |r| == |keys|
    ensures forall i | 0 <= i < |keys| :: r[i] == TriggerRep(t, keys[i], et)
  {
    seq(|keys|, i requires 0 <= i < |keys| => TriggerRep(t, keys[i], et))
  }

  /** The constructor (lines 219-223): letters are case-folded only for the
      `key` representation of a case-insensitive listener, and the trigger key
      joins the representations with the pattern's own separator. */
  function NewListener(t: KeyTable, id: nat, p: Pattern, opts: Options, hasPressDown: bool, hasPressUp: bool)
    : (l: Listener)
    ensures l.id == id && l.kind == p.kind && l.keys == p.keys && l.opts == opts
    ensures l.hasPressDown == hasPressDown && l.hasPressUp == hasPressUp
    ensures l.shouldConvertCase <==> opts.eventType == Key && !opts.caseSensitive
  {
    Listener(id, p.kind, p.keys, opts, hasPressDown, hasPressUp,
      opts.eventType == Key && !opts.caseSensitive,
      Join(TriggerReps(t, p.keys, opts.eventType), Separator(p.kind)))
  }

  /** Splitting a new listener's trigger key on its separator gives back one
      representation per key, in pattern order, provided no representation
      contains the separator itself. */
  lemma TriggerKeyTokens(t: KeyTable, id: nat, p: Pattern, opts: Options, hasPressDown: bool, hasPressUp: bool)
    requires |p.keys| > 0
    requires forall i | 0 <= i < |p.keys| :: !Contains(TriggerRep(t, p.keys[i], opts.eventType), Separator(p.kind))
    ensures Split(NewListener(t, id, p, opts, hasPressDown, hasPressUp).triggerKey, Separator(p.kind))
      == TriggerReps(t, p.keys, opts.eventType)
  {
    assert Separator(p.kind)[0] !in Separator(p.kind)[1..];
    SplitJoin(TriggerReps(t, p.keys, opts.eventType), Separator(p.kind));
  }

  /** Lines 226-233 for one key name: a letter of a case-folding listener is
      held in either case; any other name must be held as its trigger
      representation. */
  predicate KeyHeld(t: KeyTable, l: Listener, pressed: seq<string>, name: string) {
    if l.shouldConvertCase && IsSingleLetter(name) then
      Rep(t, UpperAscii(name), l.opts.eventType) in pressed || Rep(t, LowerAscii(name), l.opts.eventType) in pressed
    else
      TriggerRep(t, name, l.opts.eventType) in pressed
  }

  /** `isAllKeysPressed` (lines 225-235). */
  predicate AllKeysPressed(t: KeyTable, l: Listener, pressed: seq<string>) {
    forall k | k in l.keys :: KeyHeld(t, l, pressed, k)
  }

  /** Lines 253-257: how the `+`-join of the held set must relate to the
      trigger key. */
  predicate OrderAllows(so: StrictOrder, order: string, triggerKey: string) {
    match so
    case Unordered => true
    case Contiguous => Contains(order, triggerKey)
    case Exact => order == triggerKey
  }

  /** A trigger mark is set; the source's map only ever stores `true`, so the
      marks are a set of trigger keys. */
  predicate Marked(triggered: set<string>, triggerKey: string) {
    triggerKey in triggered
  }

  /** `handleCombinationPressDown` (lines 248-262): `None` when the handler
      returns early, otherwise the trigger marks after firing. */
  function CombinationPressDown(t: KeyTable, l: Listener, pressed: seq<string>, triggered: set<string>, repeat: bool)
    : (r: Option<set<string>>)
    ensures r.Some? <==>
      && !(l.opts.preventRepeat && repeat)
      && AllKeysPressed(t, l, pressed)
      && OrderAllows(l.opts.strictOrder, Join(pressed, "+"), l.triggerKey)
      && !(l.opts.preventSame && Marked(triggered, l.triggerKey))
    ensures r.Some? ==> r.value == triggered + {l.triggerKey} && Marked(r.value, l.triggerKey)
  {
    if l.opts.preventRepeat && repeat then None
    else if !AllKeysPressed(t, l, pressed) then None
    else if !OrderAllows(l.opts.strictOrder, Join(pressed, "+"), l.triggerKey) then None
    else if l.opts.preventSame && Marked(triggered, l.triggerKey) then None
    else Some(triggered + {l.triggerKey})
  }

  /** Line 269 as written: the sequence record ends with the trigger key,
      ignoring case when the listener folds case. */
  predicate EndsWithTrigger(l: Listener, record: string) {
    if l.shouldConvertCase then EndsWithIgnoringCase(record, l.triggerKey) else EndsWith(record, l.triggerKey)
  }

  /** Line 269 as evidently intended: the trigger key matches whole presses at
      the end of the record, so it is the whole record or follows a `->`. */
  predicate SequenceMatches(l: Listener, record: string) {
    && EndsWithTrigger(l, record)
    && (|record| == |l.triggerKey| || EndsWith(record[..|record| - |l.triggerKey|], "->"))
  }

  /** What a sequence press-down does: nothing, call the executor now, or
      schedule the 100 ms re-check of lines 273-276. */
  datatype SequenceDecision = Ignore | FireNow | Defer

  /** Lines 266-277 with the match test `matched` already taken. */
  function SequenceDecide(matched: bool, held: nat, repeat: bool, mustRelease: bool): (d: SequenceDecision)
    ensures d != Ignore <==> !repeat && !(mustRelease && held > 1) && matched
    ensures d == Defer ==> mustRelease
    ensures d == FireNow ==> !mustRelease
  {
    if repeat then Ignore
    else if mustRelease && held > 1 then Ignore
    else if !matched then Ignore
    else if !mustRelease then FireNow
    else Defer
  }

  /** `handleSequencePressDown` as written (lines 264-278). */
  function SequencePressDownAsWritten(l: Listener, pressed: seq<string>, record: string, repeat: bool, mustRelease: bool)
    : (d: SequenceDecision)
    ensures d != Ignore <==> !repeat && !(mustRelease && |pressed| > 1) && EndsWithTrigger(l, record)
  {
    SequenceDecide(EndsWithTrigger(l, record), |pressed|, repeat, mustRelease)
  }

  /** `handleSequencePressDown` with the token-aligned match. */
  function SequencePressDown(l: Listener, pressed: seq<string>, record: string, repeat: bool, mustRelease: bool)
    : (d: SequenceDecision)
    ensures d != Ignore <==> !repeat && !(mustRelease && |pressed| > 1) && SequenceMatches(l, record)
    ensures d != Ignore ==> SequencePressDownAsWritten(l, pressed, record, repeat, mustRelease) == d
  {
    SequenceDecide(SequenceMatches(l, record), |pressed|, repeat, mustRelease)
  }

  /** `handleSequencePressDown` as the keyboard's revision reads line 269. */
  function SequencePressDownIn(rev: Revision, l: Listener, pressed: seq<string>, record: string, repeat: bool, mustRelease: bool)
    : SequenceDecision
  {
    match rev
    case AsWritten => SequencePressDownAsWritten(l, pressed, record, repeat, mustRelease)
    case Corrected => SequencePressDown(l, pressed, record, repeat, mustRelease)
  }

  /** The deferred callback (lines 274-275): it fires when at most one key is
      then held. */
  predicate DeferredFires(l: Listener, pressed: seq<string>) {
    |pressed| <= 1 && l.hasPressDown
  }

  /** Lines 282-283: every key of the listener is held, and the released key,
      compared raw, is one of them. */
  predicate PressUpHolds(t: KeyTable, l: Listener, pressed: seq<string>, e: KeyEvent) {
    AllKeysPressed(t, l, pressed) && exists k | k in l.keys :: Rep(t, k, l.opts.eventType) == EventRep(e, l.opts.eventType)
  }

  /** A deferred re-check that finds what the deferring key-down left runs
      the executor: a deferral is only taken with at most one key held. */
  lemma DeferredFiresIfUndisturbed(rev: Revision, l: Listener, pressed: seq<string>, record: string, repeat: bool,
                                   mustRelease: bool)
    requires l.hasPressDown && SequencePressDownIn(rev, l, pressed, record, repeat, mustRelease) == Defer
    ensures DeferredFires(l, pressed)
  {
  }

  /** For a case-folding listener a letter counts as held in either case, so
      the name's own case does not matter (lines 227-230). */
  lemma KeyHeldIgnoresCase(t: KeyTable, l: Listener, pressed: seq<string>, name: string)
    requires l.shouldConvertCase && IsSingleLetter(name)
    ensures KeyHeld(t, l, pressed, name) <==> KeyHeld(t, l, pressed, UpperAscii(name))
    ensures KeyHeld(t, l, pressed, name) <==> KeyHeld(t, l, pressed, LowerAscii(name))
  {
    SingleLetterCase(name);
    assert IsSingleLetter(UpperAscii(name)) && IsSingleLetter(LowerAscii(name));
    assert UpperAscii(UpperAscii(name)) == UpperAscii(name) && LowerAscii(UpperAscii(name)) == LowerAscii(name);
    assert UpperAscii(LowerAscii(name)) == UpperAscii(name) && LowerAscii(LowerAscii(name)) == LowerAscii(name);
  }

  /** `handlePressUp` (lines 281-287): `None` when the handler returns early,
      otherwise the trigger marks after the mark is cleared. The released key
      is compared raw, with neither the `equal` alias nor case folding. */
  function PressUp(t: KeyTable, l: Listener, pressed: seq<string>, triggered: set<string>, e: KeyEvent)
    : (r: Option<set<string>>)
    ensures r.Some? <==> PressUpHolds(t, l, pressed, e)
    ensures r.Some? ==> r.value == triggered - {l.triggerKey} && !Marked(r.value, l.triggerKey)
  {
    if !AllKeysPressed(t, l, pressed) then None
    else if !exists k | k in l.keys :: Rep(t, k, l.opts.eventType) == EventRep(e, l.opts.eventType) then None
    else Some(triggered - {l.triggerKey})
  }

  /** The event a key produces, as the table records it. */
  function EventOf(t: KeyTable, name: string, repeat: bool): (e: KeyEvent)
    requires Has(t, name)
    ensures e.repeat == repeat
  {
    var en := Entry(t, name).value;
    KeyEvent(en.key, en.keyCode, en.code, repeat)
  }

  /** What the key-down handler stores for a key is the representation the
      listener's trigger key is built from (lines 110 and 222 agree). */
  lemma StoredRepOfEvent(t: KeyTable, name: string, et: EventType, repeat: bool)
    requires Has(t, name)
    ensures EventRep(EventOf(t, name, repeat), et) == Rep(t, name, et)
    ensures StoredRep(EventOf(t, name, repeat), et) == TriggerRep(t, name, et)
  {
  }

  /** Pressing the keys of a pattern makes them all count as held: whatever
      the key-down handler stored for each key satisfies `isAllKeysPressed`,
      with or without case folding. */
  lemma {:induction false} PressedKeysAreHeld(t: KeyTable, l: Listener, pressed: seq<string>)
    requires forall k | k in l.keys :: Has(t, k) && StoredRep(EventOf(t, k, false), l.opts.eventType) in pressed
    requires l.shouldConvertCase ==> l.opts.eventType == Key
    ensures AllKeysPressed(t, l, pressed)
  {
    forall k | k in l.keys ensures KeyHeld(t, l, pressed, k) {
      StoredRepOfEvent(t, k, l.opts.eventType, false);
      if l.shouldConvertCase && IsSingleLetter(k) {
        LetterKeyIsName(t, k[0]);
        assert k == [k[0]];
        SingleLetterCase(k);
      }
    }
  }

  /** Case folding: a case-folding listener for a letter counts the other
      case as held, a case-sensitive one does not. */
  lemma CaseFolding()
    ensures var l := NewListener(Base, 0, Pattern(Combination, ["a"]), DefaultOptions, true, false);
      AllKeysPressed(Base, l, ["A"])
    ensures var l := NewListener(Base, 0, Pattern(Combination, ["a"]), DefaultOptions.(caseSensitive := true), true, false);
      !AllKeysPressed(Base, l, ["A"])
  {
    LetterKeyIsName(Base, 'a');
    LetterKeyIsName(Base, 'A');
    assert UpperAscii("a") == "A";
    var l := NewListener(Base, 0, Pattern(Combination, ["a"]), DefaultOptions.(caseSensitive := true), true, false);
    assert "a" in l.keys && !KeyHeld(Base, l, ["A"], "a");
  }

  /** With `preventSame`, a combination that fired does not fire again, on any
      later key-down, until a press-up of it clears the mark. */
  lemma PreventSameUntilPressUp(t: KeyTable, l: Listener, pressed: seq<string>, triggered: set<string>, repeat: bool,
                                later: seq<string>, laterRepeat: bool)
    requires l.opts.preventSame
    requires CombinationPressDown(t, l, pressed, triggered, repeat).Some?
    ensures CombinationPressDown(t, l, later, CombinationPressDown(t, l, pressed, triggered, repeat).value, laterRepeat).None?
  {
  }

  /** After a press-up clears the mark, the same combination fires again on a
      key-down that holds its keys in an allowed order. */
  lemma PressUpRearms(t: KeyTable, l: Listener, pressed: seq<string>, triggered: set<string>, e: KeyEvent, later: seq<string>)
    requires PressUp(t, l, pressed, triggered, e).Some?
    requires AllKeysPressed(t, l, later) && OrderAllows(l.opts.strictOrder, Join(later, "+"), l.triggerKey)
    ensures CombinationPressDown(t, l, later, PressUp(t, l, pressed, triggered, e).value, false).Some?
  {
  }

  /** The combination `a+b` with the default options but the given strict
      order. */
  function CombinationAB(so: StrictOrder): (l: Listener)
    ensures l.kind == Combination && l.keys == ["a", "b"] && l.opts.strictOrder == so
  {
    NewListener(Base, 0, Pattern(Combination, ["a", "b"]), DefaultOptions.(strictOrder := so), true, false)
  }

  lemma CombinationABFacts(so: StrictOrder)
    ensures CombinationAB(so).triggerKey == "a+b"
    ensures !CombinationAB(so).opts.preventSame
    ensures forall pressed: seq<string> | "a" in pressed && "b" in pressed :: AllKeysPressed(Base, CombinationAB(so), pressed)
  {
    LetterKeyIsName(Base, 'a');
    LetterKeyIsName(Base, 'b');
    assert UpperAscii("a") == "A" && LowerAscii("a") == "a";
    assert UpperAscii("b") == "B" && LowerAscii("b") == "b";
    LetterKeyIsName(Base, 'A');
    LetterKeyIsName(Base, 'B');
    assert TriggerReps(Base, ["a", "b"], Key) == ["a", "b"];
  }

  /** `strictOrder: 'equal'` on `a+b`: holding `a` then `b` fires, holding `b`
      then `a` does not. */
  lemma StrictOrderExact()
    ensures CombinationPressDown(Base, CombinationAB(Exact), ["a", "b"], {}, false).Some?
    ensures CombinationPressDown(Base, CombinationAB(Exact), ["b", "a"], {}, false).None?
  {
    CombinationABFacts(Exact);
    assert Join(["a", "b"], "+") == "a+b";
    assert Join(["b", "a"], "+") == "b+a";
  }

  /** `strictOrder: true` on `a+b`: `a+b` inside a longer join fires, `a` and
      `b` split apart do not. */
  lemma StrictOrderContiguous()
    ensures CombinationPressDown(Base, CombinationAB(Contiguous), ["c", "a", "b"], {}, false).Some?
    ensures CombinationPressDown(Base, CombinationAB(Contiguous), ["a", "c", "b"], {}, false).None?
  {
    CombinationABFacts(Contiguous);
    assert Join(["c", "a", "b"], "+") == "c+a+b";
    assert OccursAt("c+a+b", "a+b", 2);
    assert Join(["a", "c", "b"], "+") == "a+c+b";
    SplitApartNotContiguous();
  }

  lemma SplitApartNotContiguous()
    ensures !Contains("a+c+b", "a+b")
  {
    var s := "a+c+b";
    assert s[0..3][1] == '+' && s[1..4][0] == '+' && s[2..5][0] == 'c';
    assert !OccursAt(s, "a+b", 0) && !OccursAt(s, "a+b", 1) && !OccursAt(s, "a+b", 2);
  }

  /** The corrected sequence match accepts exactly the records whose last
      presses are the pattern's keys: the trigger key itself, or anything
      ending in `->` followed by it. */
  lemma SequenceMatchesWholePresses(l: Listener, before: string)
    ensures SequenceMatches(l, l.triggerKey)
    ensures SequenceMatches(l, before + "->" + l.triggerKey)
  {
    var r := before + "->" + l.triggerKey;
    assert r[|r| - |l.triggerKey|..] == l.triggerKey;
    assert r[..|r| - |l.triggerKey|] == before + "->";
    assert (before + "->")[|before + "->"| - 2..] == "->";
  }

  /** The finding at line 269: as written, the sequence `e->x` fires after
      `Escape` then `x`, because `Escape->x` ends with `e->x`; the
      token-aligned match does not fire. */
  lemma SuffixMatchAcrossKeysAsWritten()
    ensures var l := NewListener(Base, 0, Pattern(Sequence, ["e", "x"]), DefaultOptions.(caseSensitive := true), true, false);
      && SequencePressDownAsWritten(l, ["x"], "Escape->x", false, false) == FireNow
      && SequencePressDown(l, ["x"], "Escape->x", false, false) == Ignore
  {
    LetterKeyIsName(Base, 'e');
    LetterKeyIsName(Base, 'x');
    var l := NewListener(Base, 0, Pattern(Sequence, ["e", "x"]), DefaultOptions.(caseSensitive := true), true, false);
    assert TriggerReps(Base, ["e", "x"], Key) == ["e", "x"];
    assert l.triggerKey == "e->x";
    assert "Escape->x"[5..] == "e->x";
    assert "Escape->x"[..5] == "Escap";
  }

  /** The key-down events of pressing the named keys, in order. */
  function EventsOf(t: KeyTable, names: seq<string>): (es: seq<KeyEvent>)
    requires forall k | k in names :: Has(t, k)
    ensures |es| == |names| && forall i | 0 <= i < |names| :: es[i] == EventOf(t, names[i], false)
  {
    seq(|names|, i requires 0 <= i < |names| => EventOf(t, names[i], false))
  }

  /** Pressing a sequence's keys in order, each within the interval of the
      previous one and the first after a gap, makes the sequence fire on the
      last press (outside must-release mode). */
  lemma PressingSequenceFires(t: KeyTable, l: Listener, tr: Tracker, times: seq<int>, interval: int)
    requires l.kind == Sequence && |l.keys| > 0 && forall k | k in l.keys :: Has(t, k)
    requires l.triggerKey == Join(TriggerReps(t, l.keys, l.opts.eventType), "->")
    requires |times| == |l.keys|
    requires TimeUnset(tr.sequences.Get(l.opts.eventType).time) || times[0] - tr.sequences.Get(l.opts.eventType).time.value > interval
    requires CloseTogether(times, interval)
    ensures SequencePressDown(l,
      PressAll(tr, EventsOf(t, l.keys), times, interval, false).pressed.Get(l.opts.eventType),
      PressAll(tr, EventsOf(t, l.keys), times, interval, false).sequences.Get(l.opts.eventType).triggerKey,
      false, false) == FireNow
  {
    var et := l.opts.eventType;
    var es := EventsOf(t, l.keys);
    SequenceRecordOfPresses(tr, es, times, interval, et);
    StoredRepsAt(es, et);
    forall i | 0 <= i < |es| ensures StoredReps(es, et)[i] == TriggerReps(t, l.keys, et)[i] {
      assert l.keys[i] in l.keys;
      StoredRepOfEvent(t, l.keys[i], et, false);
    }
    assert StoredReps(es, et) == TriggerReps(t, l.keys, et);
    SequenceMatchesWholePresses(l, "");
  }

  /** The listener for the sequence `a->b` with the default options. */
  function SequenceAB(): (l: Listener)
    ensures l.kind == Sequence && l.keys == ["a", "b"] && l.opts.eventType == Key
  {
    NewListener(Base, 0, Pattern(Sequence, ["a", "b"]), DefaultOptions, true, false)
  }

  lemma SequenceABFacts()
    ensures Has(Base, "a") && Has(Base, "b")
    ensures SequenceAB().triggerKey == "a->b"
    ensures EventsOf(Base, ["a", "b"]) == [EventOf(Base, "a", false), EventOf(Base, "b", false)]
    ensures StoredRep(EventOf(Base, "b", false), Key) == "b"
  {
    LetterKeyIsName(Base, 'a');
    LetterKeyIsName(Base, 'b');
    assert TriggerReps(Base, ["a", "b"], Key) == ["a", "b"];
  }

  /** With the default interval of 666 ms, `b` pressed 600 ms after `a` fires
      the sequence `a->b`. */
  lemma SequenceWithinInterval()
    ensures SequencePressDown(SequenceAB(),
      PressAll(EmptyTracker, EventsOf(Base, ["a", "b"]), [1000, 1600], DefaultSequenceInterval, false).pressed.key,
      PressAll(EmptyTracker, EventsOf(Base, ["a", "b"]), [1000, 1600], DefaultSequenceInterval, false).sequences.key.triggerKey,
      false, false) == FireNow
  {
    SequenceABFacts();
    assert CloseTogether([1000, 1600], DefaultSequenceInterval);
    PressingSequenceFires(Base, SequenceAB(), EmptyTracker, [1000, 1600], DefaultSequenceInterval);
  }

  /** `b` pressed 700 ms after `a` restarts the record as `b` (line 118), so
      the sequence `a->b` does not fire, neither under line 269 as written
      nor under the corrected match. */
  lemma SequenceAfterGap()
    ensures SequencePressDown(SequenceAB(),
      PressAll(EmptyTracker, EventsOf(Base, ["a", "b"]), [1000, 1700], DefaultSequenceInterval, false).pressed.key,
      PressAll(EmptyTracker, EventsOf(Base, ["a", "b"]), [1000, 1700], DefaultSequenceInterval, false).sequences.key.triggerKey,
      false, false) == Ignore
    ensures SequencePressDownAsWritten(SequenceAB(),
      PressAll(EmptyTracker, EventsOf(Base, ["a", "b"]), [1000, 1700], DefaultSequenceInterval, false).pressed.key,
      PressAll(EmptyTracker, EventsOf(Base, ["a", "b"]), [1000, 1700], DefaultSequenceInterval, false).sequences.key.triggerKey,
      false, false) == Ignore
    ensures PressAll(EmptyTracker, EventsOf(Base, ["a", "b"]), [1000, 1700], DefaultSequenceInterval, false).sequences.key.triggerKey == "b"
  {
    SequenceABFacts();
    var ea := EventOf(Base, "a", false);
    var eb := EventOf(Base, "b", false);
    var first := TrackKeydown(EmptyTracker, ea, 1000, DefaultSequenceInterval, false);
    RecordStep(EmptyTracker, ea, 1000, DefaultSequenceInterval, Key);
    RecordStep(first, eb, 1700, DefaultSequenceInterval, Key);
    var last := TrackKeydown(first, eb, 1700, DefaultSequenceInterval, false);
    assert last.sequences.Get(Key).triggerKey == "b";
    assert PressAll(EmptyTracker, [ea, eb], [1000, 1700], DefaultSequenceInterval, false) == last by {
      assert [ea, eb][1..] == [eb];
      assert [1000, 1700][1..] == [1700];
      assert PressAll(first, [eb], [1700], DefaultSequenceInterval, false) == PressAll(last, [], [], DefaultSequenceInterval, false);
    }
  }
}
