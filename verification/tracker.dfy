/** The shared keyboard state of `KeyboardClass` (src/index.ts): for each
    representation, the set of held keys (`pressedRecords`) and the rolling
    sequence record (`sequenceRecords`), updated by key-down, key-up and
    window-blur events. */
module Tracker {
  import opened JsText
  import opened KeyTable
  import opened OrderedSet
  import opened Revisions

  /** One value per representation, like the source's `Record<EventType, …>`. */
  datatype PerType<T> = PerType(key: T, keyCode: T, code: T) {
    function Get(t: EventType): T {
      match t
      case Key => key
      case KeyCode => keyCode
      case Code => code
    }

    function Set(t: EventType, v: T): (r: PerType<T>)
      ensures r.Get(t) == v
      ensures forall u | u != t :: r.Get(u) == Get(u)
    {
      match t
      case Key => this.(key := v)
      case KeyCode => this.(keyCode := v)
      case Code => this.(code := v)
    }
  }

  /** The rolling `->`-joined log of recent presses and the time of the last
      one (`null` before the first press and after a blur). */
  datatype SequenceRecord = SequenceRecord(triggerKey: string, time: Option<int>)

  const EmptySequence := SequenceRecord("", None)

  /** The default of `sequenceInterval` (line 39), in milliseconds. */
  const DefaultSequenceInterval: int := 666

  /** The fields of a `KeyboardEvent` the core reads. */
  datatype KeyEvent = KeyEvent(key: string, keyCode: nat, code: string, repeat: bool)

  /** `event[eventType]`, rendered as the string the source joins. */
  function EventRep(e: KeyEvent, t: EventType): string {
    match t
    case Key => e.key
    case KeyCode => DecimalString(e.keyCode)
    case Code => e.code
  }

  /** Line 110: a literal `+` is recorded under its alias `equal`, so that a
      `+`-joined record stays unambiguous. */
  function StoredRep(e: KeyEvent, t: EventType): (r: string)
    ensures r != "+"
    ensures EventRep(e, t) != "+" ==> r == EventRep(e, t)
  {
    if EventRep(e, t) == "+" then "equal" else EventRep(e, t)
  }

  datatype Tracker = Tracker(pressed: PerType<seq<string>>, sequences: PerType<SequenceRecord>)

  const EmptyTracker := Tracker(PerType([], [], []), PerType(EmptySequence, EmptySequence, EmptySequence))

  /** Every pressed set is duplicate-free, as a JavaScript `Set` is. */
  predicate WellFormed(tr: Tracker) {
    NoDuplicates(tr.pressed.key) && NoDuplicates(tr.pressed.keyCode) && NoDuplicates(tr.pressed.code)
  }

  /** `!sequenceRecord.time`: no time recorded (a time of 0 counts as none). */
  predicate TimeUnset(time: Option<int>) {
    time.None? || time.value == 0
  }

  /** Lines 112-128 for one representation: add the key to the pressed set;
      unless must-release mode holds more than one key, either restart the
      sequence record with this key (no previous time, or a gap above the
      interval) or extend it with `->key`, stamping the current time. */
  function RecordPress(pressed: seq<string>, rec: SequenceRecord, rep: string, now: int, interval: int, mustRelease: bool)
    : (r: (seq<string>, SequenceRecord))
    ensures rep in r.0 && forall x :: x in r.0 <==> x in pressed || x == rep
    ensures |pressed| <= |r.0| && r.0[..|pressed|] == pressed
    ensures NoDuplicates(pressed) ==> NoDuplicates(r.0)
    ensures mustRelease && |r.0| > 1 ==> r.1 == rec
    ensures !(mustRelease && |r.0| > 1) ==>
      && r.1.time == Some(now)
      && EndsWith(r.1.triggerKey, rep)
      && (TimeUnset(rec.time) || now - rec.time.value > interval ==> r.1.triggerKey == rep)
      && (!TimeUnset(rec.time) && now - rec.time.value <= interval ==> r.1.triggerKey == rec.triggerKey + "->" + rep)
  {
    var held := Add(pressed, rep);
    if mustRelease && |held| > 1 then (held, rec)
    else if TimeUnset(rec.time) || now - rec.time.value > interval then (held, SequenceRecord(rep, Some(now)))
    else (held, SequenceRecord(rec.triggerKey + "->" + rep, Some(now)))
  }

  /** `RecordPress` applied to representation `t` of the tracker. */
  function PressOne(tr: Tracker, e: KeyEvent, t: EventType, now: int, interval: int, mustRelease: bool)
    : (seq<string>, SequenceRecord)
  {
    RecordPress(tr.pressed.Get(t), tr.sequences.Get(t), StoredRep(e, t), now, interval, mustRelease)
  }

  /** `r` holds representation `t` of `tr` after the key-down `e`. */
  predicate Pressed(tr: Tracker, r: Tracker, e: KeyEvent, t: EventType, now: int, interval: int, mustRelease: bool) {
    (r.pressed.Get(t), r.sequences.Get(t)) == PressOne(tr, e, t, now, interval, mustRelease)
  }

  /** Lines 108-130: a non-repeat key-down updates every representation in
      turn, independently of the others; a repeat changes nothing. */
  function TrackKeydown(tr: Tracker, e: KeyEvent, now: int, interval: int, mustRelease: bool): (r: Tracker)
    ensures e.repeat ==> r == tr
    ensures !e.repeat ==> forall t: EventType :: Pressed(tr, r, e, t, now, interval, mustRelease)
    ensures WellFormed(tr) ==> WellFormed(r)
  {
    if e.repeat then tr
    else
      var k := PressOne(tr, e, Key, now, interval, mustRelease);
      var c := PressOne(tr, e, KeyCode, now, interval, mustRelease);
      var d := PressOne(tr, e, Code, now, interval, mustRelease);
      var r := Tracker(PerType(k.0, c.0, d.0), PerType(k.1, c.1, d.1));
      PressedEach(tr, r, e, now, interval, mustRelease);
      r
  }

  lemma PressedEach(tr: Tracker, r: Tracker, e: KeyEvent, now: int, interval: int, mustRelease: bool)
    requires r.pressed == PerType(PressOne(tr, e, Key, now, interval, mustRelease).0,
      PressOne(tr, e, KeyCode, now, interval, mustRelease).0, PressOne(tr, e, Code, now, interval, mustRelease).0)
    requires r.sequences == PerType(PressOne(tr, e, Key, now, interval, mustRelease).1,
      PressOne(tr, e, KeyCode, now, interval, mustRelease).1, PressOne(tr, e, Code, now, interval, mustRelease).1)
    ensures forall t: EventType :: Pressed(tr, r, e, t, now, interval, mustRelease)
  {
    forall t: EventType ensures Pressed(tr, r, e, t, now, interval, mustRelease) {
      match t
      case Key =>
      case KeyCode =>
      case Code =>
    }
  }

  /** Lines 141-145 as written: Meta clears the set, a single letter `key`
      removes both cases, anything else removes the raw `event[eventType]`
      (so a released `+` removes `+`, not the `equal` that was stored). */
  function ReleaseAsWritten(pressed: seq<string>, t: EventType, e: KeyEvent): (r: seq<string>)
    ensures e.key == "Meta" ==> r == []
    ensures t == Key && e.key != "Meta" && IsSingleLetter(e.key) ==>
      forall x :: x in r <==> x in pressed && x != LowerAscii(e.key) && x != UpperAscii(e.key)
    ensures !(t == Key && IsSingleLetter(e.key)) && e.key != "Meta" ==>
      forall x :: x in r <==> x in pressed && x != EventRep(e, t)
    ensures NoDuplicates(pressed) ==> NoDuplicates(r)
  {
    if e.key == "Meta" then []
    else if t == Key && IsSingleLetter(e.key) then Delete(Delete(pressed, LowerAscii(e.key)), UpperAscii(e.key))
    else Delete(pressed, EventRep(e, t))
  }

  /** Lines 141-145 with the release removing what line 110 stored. */
  function Release(pressed: seq<string>, t: EventType, e: KeyEvent): (r: seq<string>)
    ensures e.key == "Meta" ==> r == []
    ensures t == Key && e.key != "Meta" && IsSingleLetter(e.key) ==>
      forall x :: x in r <==> x in pressed && x != LowerAscii(e.key) && x != UpperAscii(e.key)
    ensures !(t == Key && IsSingleLetter(e.key)) && e.key != "Meta" ==>
      forall x :: x in r <==> x in pressed && x != StoredRep(e, t)
    ensures NoDuplicates(pressed) ==> NoDuplicates(r)
    ensures EventRep(e, t) != "+" ==> r == ReleaseAsWritten(pressed, t, e)
  {
    if e.key == "Meta" then []
    else if t == Key && IsSingleLetter(e.key) then Delete(Delete(pressed, LowerAscii(e.key)), UpperAscii(e.key))
    else Delete(pressed, StoredRep(e, t))
  }

  /** The release rule of the keyboard's revision. */
  function ReleaseIn(rev: Revision, pressed: seq<string>, t: EventType, e: KeyEvent): seq<string> {
    match rev
    case AsWritten => ReleaseAsWritten(pressed, t, e)
    case Corrected => Release(pressed, t, e)
  }

  /** A single letter is its own lower- or upper-case form. */
  lemma SingleLetterCase(s: string)
    requires IsSingleLetter(s)
    ensures s == LowerAscii(s) || s == UpperAscii(s)
  {
    if 'a' <= s[0] <= 'z' {
      assert LowerAscii(s) == [s[0]] == s;
    } else {
      assert UpperAscii(s) == [s[0]] == s;
    }
  }

  /** After a release, the key released is no longer recorded as held, in
      every representation. */
  lemma ReleasedKeyNotHeld(pressed: seq<string>, t: EventType, e: KeyEvent)
    ensures StoredRep(e, t) !in Release(pressed, t, e)
  {
    if t == Key && IsSingleLetter(e.key) && e.key != "Meta" {
      SingleLetterCase(e.key);
    }
  }

  /** The finding at lines 110/145: pressing and releasing the key whose
      `key` is `+` leaves `equal` held as written; the corrected release
      removes it. */
  lemma PlusStaysHeldAsWritten()
    ensures var e := KeyEvent("+", 187, "Equal", false);
      var held := RecordPress([], EmptySequence, StoredRep(e, Key), 1000, DefaultSequenceInterval, false).0;
      && held == ["equal"]
      && ReleaseAsWritten(held, Key, e) == ["equal"]
      && Release(held, Key, e) == []
  {
    var e := KeyEvent("+", 187, "Equal", false);
    assert StoredRep(e, Key) == "equal";
    assert !IsSingleLetter("+");
  }

  /** Lines 140-146: the pressed set of every representation after a key-up. */
  function TrackKeyup(tr: Tracker, e: KeyEvent, rev: Revision): (r: Tracker)
    ensures r.sequences == tr.sequences
    ensures forall t: EventType :: r.pressed.Get(t) == ReleaseIn(rev, tr.pressed.Get(t), t, e)
    ensures e.key == "Meta" ==> forall t: EventType :: r.pressed.Get(t) == []
    ensures forall t: EventType | EventRep(e, t) != "+" :: r.pressed.Get(t) == ReleaseAsWritten(tr.pressed.Get(t), t, e)
    ensures WellFormed(tr) ==> WellFormed(r)
  {
    var p := tr.pressed;
    tr.(pressed := PerType(ReleaseIn(rev, p.key, Key, e), ReleaseIn(rev, p.keyCode, KeyCode, e), ReleaseIn(rev, p.code, Code, e)))
  }

  /** Lines 176-182: after a window blur nothing is held and every sequence
      record is back to `''` with no time. */
  function TrackBlur(tr: Tracker): (r: Tracker)
    ensures forall t: EventType :: r.pressed.Get(t) == [] && r.sequences.Get(t) == EmptySequence
    ensures WellFormed(r)
  {
    EmptyTracker
  }

  /** Key-downs in order, the i-th at time `times[i]`. */
  function PressAll(tr: Tracker, es: seq<KeyEvent>, times: seq<int>, interval: int, mustRelease: bool): (r: Tracker)
    requires |es| == |times|
    ensures forall t: EventType, x | x in tr.pressed.Get(t) :: x in r.pressed.Get(t)
    ensures forall t: EventType, i | 0 <= i < |es| && !es[i].repeat :: StoredRep(es[i], t) in r.pressed.Get(t)
    ensures WellFormed(tr) ==> WellFormed(r)
    decreases |es|
  {
    if |es| == 0 then tr
    else
      var next := TrackKeydown(tr, es[0], times[0], interval, mustRelease);
      KeydownGrows(tr, es[0], times[0], interval, mustRelease);
      var r := PressAll(next, es[1..], times[1..], interval, mustRelease);
      assert forall i | 1 <= i < |es| :: es[i] == es[1..][i - 1];
      r
  }

  /** A key-down only adds to the pressed sets, and a non-repeat one adds
      what it stores. */
  lemma KeydownGrows(tr: Tracker, e: KeyEvent, now: int, interval: int, mustRelease: bool)
    ensures forall t: EventType, x | x in tr.pressed.Get(t) :: x in TrackKeydown(tr, e, now, interval, mustRelease).pressed.Get(t)
    ensures !e.repeat ==> forall t: EventType :: StoredRep(e, t) in TrackKeydown(tr, e, now, interval, mustRelease).pressed.Get(t)
  {
    var r := TrackKeydown(tr, e, now, interval, mustRelease);
    forall t: EventType ensures forall x | x in tr.pressed.Get(t) :: x in r.pressed.Get(t)
      ensures !e.repeat ==> StoredRep(e, t) in r.pressed.Get(t)
    {
      if !e.repeat {
        assert Pressed(tr, r, e, t, now, interval, mustRelease);
      }
    }
  }

  /** What each event stores for one representation, in order. */
  function StoredReps(es: seq<KeyEvent>, t: EventType): (r: seq<string>)
    ensures |r| == |es|
  {
    if |es| == 0 then [] else [StoredRep(es[0], t)] + StoredReps(es[1..], t)
  }

  lemma {:induction false} StoredRepsAt(es: seq<KeyEvent>, t: EventType)
    ensures forall i | 0 <= i < |es| :: StoredReps(es, t)[i] == StoredRep(es[i], t)
  {
    if |es| > 0 {
      StoredRepsAt(es[1..], t);
    }
  }

  /** Presses no further apart than the interval, none at time 0 (which the
      source reads as "no time"). */
  predicate CloseTogether(times: seq<int>, interval: int) {
    forall i | 0 <= i < |times| - 1 :: times[i] != 0 && times[i + 1] - times[i] <= interval
  }

  lemma CloseTogetherTail(times: seq<int>, interval: int)
    requires |times| > 0 && CloseTogether(times, interval)
    ensures CloseTogether(times[1..], interval)
    ensures |times| > 1 ==> times[0] != 0 && times[1..][0] - times[0] <= interval
  {
    forall i | 0 <= i < |times[1..]| - 1 ensures times[1..][i] != 0 && times[1..][i + 1] - times[1..][i] <= interval {
      assert times[1..][i] == times[i + 1] && times[1..][i + 1] == times[i + 2];
    }
  }

  /** Lines 115-127 for one representation outside must-release mode: the
      record restarts after a gap and is extended otherwise. */
  lemma RecordStep(tr: Tracker, e: KeyEvent, now: int, interval: int, t: EventType)
    requires !e.repeat
    ensures var old_ := tr.sequences.Get(t);
      TrackKeydown(tr, e, now, interval, false).sequences.Get(t)
        == if TimeUnset(old_.time) || now - old_.time.value > interval then SequenceRecord(StoredRep(e, t), Some(now))
           else SequenceRecord(old_.triggerKey + "->" + StoredRep(e, t), Some(now))
  {
    assert Pressed(tr, TrackKeydown(tr, e, now, interval, false), e, t, now, interval, false);
  }

  /** Presses that follow a recorded one closely enough extend the record. */
  lemma {:induction false} PressesExtendRecord(tr: Tracker, es: seq<KeyEvent>, times: seq<int>, interval: int, t: EventType, done: seq<string>)
    requires |es| == |times| && |done| > 0
    requires forall i | 0 <= i < |es| :: !es[i].repeat
    requires tr.sequences.Get(t).triggerKey == Join(done, "->")
    requires |times| > 0 ==> !TimeUnset(tr.sequences.Get(t).time) && times[0] - tr.sequences.Get(t).time.value <= interval
    requires CloseTogether(times, interval)
    ensures PressAll(tr, es, times, interval, false).sequences.Get(t).triggerKey == Join(done + StoredReps(es, t), "->")
    decreases |es|
  {
    if |es| == 0 {
      assert done + StoredReps(es, t) == done;
    } else {
      var rep := StoredRep(es[0], t);
      var next := TrackKeydown(tr, es[0], times[0], interval, false);
      PressesExtendStep(tr, es, times, interval, t, done);
      PressesExtendRecord(next, es[1..], times[1..], interval, t, done + [rep]);
      StoredRepsAppend(done, es, t);
    }
  }

  /** The first press of `PressesExtendRecord` sets up its recursive call. */
  lemma PressesExtendStep(tr: Tracker, es: seq<KeyEvent>, times: seq<int>, interval: int, t: EventType, done: seq<string>)
    requires |es| == |times| > 0 && |done| > 0
    requires forall i | 0 <= i < |es| :: !es[i].repeat
    requires tr.sequences.Get(t).triggerKey == Join(done, "->")
    requires !TimeUnset(tr.sequences.Get(t).time) && times[0] - tr.sequences.Get(t).time.value <= interval
    requires CloseTogether(times, interval)
    ensures PressAll(tr, es, times, interval, false)
      == PressAll(TrackKeydown(tr, es[0], times[0], interval, false), es[1..], times[1..], interval, false)
    ensures forall i | 0 <= i < |es| - 1 :: !es[1..][i].repeat
    ensures TrackKeydown(tr, es[0], times[0], interval, false).sequences.Get(t).triggerKey
      == Join(done + [StoredRep(es[0], t)], "->")
    ensures |times| > 1 ==>
      var rec := TrackKeydown(tr, es[0], times[0], interval, false).sequences.Get(t);
      !TimeUnset(rec.time) && times[1..][0] - rec.time.value <= interval
    ensures CloseTogether(times[1..], interval)
  {
    ExtendStep(tr, es[0], times[0], interval, t, done);
    CloseTogetherTail(times, interval);
    NoRepeatTail(es);
  }

  /** One close-enough press appends its stored representation. */
  lemma ExtendStep(tr: Tracker, e: KeyEvent, now: int, interval: int, t: EventType, done: seq<string>)
    requires !e.repeat && |done| > 0
    requires tr.sequences.Get(t).triggerKey == Join(done, "->")
    requires !TimeUnset(tr.sequences.Get(t).time) && now - tr.sequences.Get(t).time.value <= interval
    ensures TrackKeydown(tr, e, now, interval, false).sequences.Get(t)
      == SequenceRecord(Join(done + [StoredRep(e, t)], "->"), Some(now))
  {
    RecordStep(tr, e, now, interval, t);
    JoinSnoc(done, StoredRep(e, t), "->");
  }

  lemma StoredRepsAppend(done: seq<string>, es: seq<KeyEvent>, t: EventType)
    requires |es| > 0
    ensures done + StoredReps(es, t) == done + [StoredRep(es[0], t)] + StoredReps(es[1..], t)
  {
    var x, rest := StoredRep(es[0], t), StoredReps(es[1..], t);
    assert StoredReps(es, t) == [x] + rest;
    SeqAssoc(done, [x], rest);
  }

  lemma SeqAssoc(a: seq<string>, b: seq<string>, c: seq<string>)
    ensures a + (b + c) == a + b + c
  {
  }

  lemma NoRepeatTail(es: seq<KeyEvent>)
    requires |es| > 0 && forall i | 0 <= i < |es| :: !es[i].repeat
    ensures forall i | 0 <= i < |es| - 1 :: !es[1..][i].repeat
  {
    forall i | 0 <= i < |es| - 1 ensures !es[1..][i].repeat { assert es[1..][i] == es[i + 1]; }
  }

  /** Pressing keys in order, each within the interval of the previous one
      and the first after a gap (or with no time recorded), leaves the
      `->`-join of what was stored as the sequence record. */
  lemma SequenceRecordOfPresses(tr: Tracker, es: seq<KeyEvent>, times: seq<int>, interval: int, t: EventType)
    requires |es| == |times| > 0
    requires forall i | 0 <= i < |es| :: !es[i].repeat
    requires TimeUnset(tr.sequences.Get(t).time) || times[0] - tr.sequences.Get(t).time.value > interval
    requires CloseTogether(times, interval)
    ensures PressAll(tr, es, times, interval, false).sequences.Get(t).triggerKey == Join(StoredReps(es, t), "->")
  {
    var rep := StoredRep(es[0], t);
    CloseTogetherTail(times, interval);
    NoRepeatTail(es);
    var next := TrackKeydown(tr, es[0], times[0], interval, false);
    RecordStep(tr, es[0], times[0], interval, t);
    assert Join([rep], "->") == rep;
    PressesExtendRecord(next, es[1..], times[1..], interval, t, [rep]);
  }

  /** After a window blur, the next key-down starts a new sequence record
      with just that key. */
  lemma BlurRestartsSequence(tr: Tracker, e: KeyEvent, now: int, interval: int, mustRelease: bool, t: EventType)
    requires !e.repeat
    ensures TrackKeydown(TrackBlur(tr), e, now, interval, mustRelease).sequences.Get(t)
      == SequenceRecord(StoredRep(e, t), Some(now))
  {
    var r := TrackKeydown(TrackBlur(tr), e, now, interval, mustRelease);
    assert Pressed(TrackBlur(tr), r, e, t, now, interval, mustRelease);
  }
}

