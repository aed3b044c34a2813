/** `KeyboardClass` (src/index.ts): the registry of listeners, the current
    context, the shared key state and the event handlers that drive the
    listeners. Executors are modelled by the `Fired` events they would run. */
module Registry {
  import opened JsText
  import opened KeyTable
  import opened OrderedSet
  import opened Patterns
  import opened Tracker
  import opened Listeners
  import opened Revisions

  /** The state of one `KeyboardClass` instance. `pending` holds the listeners
      whose deferred must-release re-check is scheduled, oldest first;
      `nextId` is the identity the next new listener gets; `rev` says whether
      the handlers read lines 58, 145 and 269 as written or as corrected. */
  datatype Keyboard = Keyboard(
    rev: Revision,
    table: KeyTable,
    mounted: bool,
    context: Option<string>,
    listeners: seq<Listener>,
    current: seq<Listener>,
    tracker: Tracker,
    triggered: set<string>,
    interval: int,
    mustRelease: bool,
    nextId: nat,
    pending: seq<Listener>)

  /** An executor call: the press-down or press-up executor of the listener
      with that identity. */
  datatype Fired = PressDownFired(id: nat) | PressUpFired(id: nat)

  /** A keyboard after a step, with the executors the step ran, in order. */
  datatype Step = Step(kb: Keyboard, fired: seq<Fired>)

  /** The instance created at module load (lines 30-40), over the table as
      patched for the environment. */
  function Init(env: Environment, rev: Revision): (kb: Keyboard)
    ensures Valid(kb) && kb.rev == rev && kb.table == StartupTable(env)
    ensures kb.listeners == [] && kb.context.None? && !kb.mounted
    ensures kb.interval == DefaultSequenceInterval && !kb.mustRelease
  {
    Keyboard(rev, StartupTable(env), false, None, [], [], EmptyTracker, {}, DefaultSequenceInterval, false, 0, [])
  }

  // ---------------------------------------------------------------------
  // Context and the current listeners

  /** Line 150: a listener without a context is always active; one with a
      context only while that context is current. */
  predicate IsActive(l: Listener, context: Option<string>) {
    l.opts.context.None? || l.opts.context == context
  }

  /** `updateCurrentListener` (lines 149-151): the active listeners in
      binding order. */
  function ActiveListeners(ls: seq<Listener>, context: Option<string>): (r: seq<Listener>)
    ensures forall l :: l in r <==> l in ls && IsActive(l, context)
    ensures |r| <= |ls|
  {
    if |ls| == 0 then []
    else
      var rest := ActiveListeners(ls[1..], context);
      assert forall l :: l in ls <==> l == ls[0] || l in ls[1..];
      (if IsActive(ls[0], context) then [ls[0]] else []) + rest
  }

  lemma ActiveListenersCons(ls: seq<Listener>, context: Option<string>)
    requires |ls| > 0
    ensures ActiveListeners(ls, context) ==
      (if IsActive(ls[0], context) then [ls[0]] else []) + ActiveListeners(ls[1..], context)
  {
  }

  /** The filter keeps binding order and multiplicity: the active part of a
      concatenation is the concatenation of the active parts. */
  lemma {:induction false} ActiveListenersAppend(a: seq<Listener>, b: seq<Listener>, context: Option<string>)
    ensures ActiveListeners(a + b, context) == ActiveListeners(a, context) + ActiveListeners(b, context)
    decreases |a|
  {
    if |a| == 0 {
      assert a + b == b;
    } else {
      var head := if IsActive(a[0], context) then [a[0]] else [];
      assert (a + b)[0] == a[0];
      assert (a + b)[1..] == a[1..] + b;
      ActiveListenersAppend(a[1..], b, context);
      ActiveListenersCons(a, context);
      ActiveListenersCons(a + b, context);
      calc {
        ActiveListeners(a + b, context);
        head + ActiveListeners(a[1..] + b, context);
        head + (ActiveListeners(a[1..], context) + ActiveListeners(b, context));
        (head + ActiveListeners(a[1..], context)) + ActiveListeners(b, context);
        ActiveListeners(a, context) + ActiveListeners(b, context);
      }
    }
  }

  /** A single listener stays exactly when it is active. */
  lemma ActiveListenersSingle(l: Listener, context: Option<string>)
    ensures ActiveListeners([l], context) == (if IsActive(l, context) then [l] else [])
  {
    assert [l][1..] == [];
  }

  /** `setContext` (lines 157-161): a missing, non-string or empty context
      becomes `null`. */
  function SetContext(kb: Keyboard, context: Option<string>): (r: Keyboard)
    ensures r.context == (if context.Some? && context.value != "" then context else None)
    ensures r.context != Some("")
    ensures forall l :: l in r.current <==> l in kb.listeners && IsActive(l, r.context)
    ensures r.listeners == kb.listeners
    ensures Valid(kb) ==> Valid(r)
  {
    var c := if context.Some? && context.value != "" then context else None;
    kb.(context := c, current := ActiveListeners(kb.listeners, c))
  }

  /** `getAllContext` (lines 165-166): the distinct non-empty contexts of the
      bound listeners, in order of first appearance. */
  function AllContexts(ls: seq<Listener>): (r: seq<string>)
    ensures NoDuplicates(r)
    ensures forall c :: c in r <==> c != "" && exists l | l in ls :: l.opts.context == Some(c)
  {
    if |ls| == 0 then []
    else
      var init := ls[..|ls| - 1];
      var last := ls[|ls| - 1];
      var r := AllContexts(init);
      assert forall l :: l in ls <==> l in init || l == last by {
        assert ls == init + [last];
      }
      if last.opts.context.Some? && last.opts.context.value != "" then Add(r, last.opts.context.value) else r
  }

  /** A listener bound last adds its context at the end of the list, unless
      the context is empty, absent or already listed. */
  lemma AllContextsSnoc(ls: seq<Listener>, l: Listener)
    ensures AllContexts(ls + [l]) ==
      (if l.opts.context.Some? && l.opts.context.value != "" then Add(AllContexts(ls), l.opts.context.value)
       else AllContexts(ls))
  {
    assert (ls + [l])[..|ls + [l]| - 1] == ls;
  }

  // ---------------------------------------------------------------------
  // The registry invariant

  predicate UniqueIds(ls: seq<Listener>) {
    forall i, j | 0 <= i < j < |ls| :: ls[i].id != ls[j].id
  }

  /** A parsed pattern: at least one key, every key in the table. */
  predicate PatternOk(t: KeyTable, p: Pattern) {
    |p.keys| > 0 && KnownKeys(t, p)
  }

  /** What `bind` guarantees of every listener it stores. */
  predicate ListenerOk(t: KeyTable, l: Listener) {
    && PatternOk(t, Pattern(l.kind, l.keys))
    && (l.hasPressDown || l.hasPressUp)
    && (l.kind == Sequence ==> l.hasPressDown && !l.hasPressUp)
    && l == NewListener(t, l.id, Pattern(l.kind, l.keys), l.opts, l.hasPressDown, l.hasPressUp)
  }

  /** The registry invariant: the current list is always the active part of
      the bound list, identities are distinct and already handed out, stored
      listeners are as `bind` builds them, and the pressed sets are sets. */
  predicate Valid(kb: Keyboard) {
    && kb.current == ActiveListeners(kb.listeners, kb.context)
    && kb.context != Some("")
    && UniqueIds(kb.listeners)
    && (forall l | l in kb.listeners :: l.id < kb.nextId && ListenerOk(kb.table, l))
    && WellFormed(kb.tracker)
  }

  // ---------------------------------------------------------------------
  // bind

  /** The fields of a `BindOption` object other than `bindKeys`; `None`
      stands for a field that is absent (or, for `context`, `null`). */
  datatype BindOptions = BindOptions(
    eventType: Option<EventType>,
    context: Option<string>,
    preventRepeat: Option<bool>,
    preventSame: Option<bool>,
    strictOrder: Option<StrictOrder>,
    caseSensitive: Option<bool>)

  /** The first argument of `bind`: the keys alone (a string, an array or any
      other non-object value), or an option object. */
  datatype BindArgument = Keys(v: JsValue) | WithOptions(bindKeys: JsValue, options: BindOptions)

  function OrDefault<T>(o: Option<T>, d: T): T {
    if o.Some? then o.value else d
  }

  /** Lines 78-80: the defaults, overridden by the fields present. */
  function ResolveOptions(a: BindArgument): (o: Options)
    ensures a.Keys? ==> o == DefaultOptions
  {
    match a
    case Keys(_) => DefaultOptions
    case WithOptions(_, b) =>
      Options(OrDefault(b.eventType, DefaultOptions.eventType), b.context,
        OrDefault(b.preventRepeat, DefaultOptions.preventRepeat), OrDefault(b.preventSame, DefaultOptions.preventSame),
        OrDefault(b.strictOrder, DefaultOptions.strictOrder), OrDefault(b.caseSensitive, DefaultOptions.caseSensitive))
  }

  /** Lines 65-68: the value handed to `parseBindKeys`. */
  function BindKeysOf(a: BindArgument): JsValue {
    match a
    case Keys(v) => v
    case WithOptions(v, _) => v
  }

  /** The listener `bind` builds from pattern `i` (lines 73-86): a sequence
      never gets the press-up executor. */
  function Built(t: KeyTable, firstId: nat, ps: seq<Pattern>, o: Options, hasDown: bool, hasUp: bool, i: nat): Listener
    requires i < |ps|
  {
    NewListener(t, firstId + i, ps[i], o, hasDown, ps[i].kind == Combination && hasUp)
  }

  /** Line 88: a sequence without a press-down executor is dropped. */
  predicate Kept(p: Pattern, hasDown: bool) {
    p.kind == Combination || hasDown
  }

  /** Lines 71-88: one listener per pattern, numbered from `firstId` in pattern
      order, keeping those line 88 does not drop. */
  function MakeListeners(t: KeyTable, firstId: nat, ps: seq<Pattern>, o: Options, hasDown: bool, hasUp: bool)
    : (r: seq<Listener>)
    ensures |r| <= |ps|
    ensures forall l | l in r :: l.opts == o && l.hasPressDown == hasDown
    ensures forall l | l in r :: l.kind == Sequence ==> l.hasPressDown && !l.hasPressUp
    decreases |ps|
  {
    if |ps| == 0 then []
    else
      var rest := MakeListeners(t, firstId + 1, ps[1..], o, hasDown, hasUp);
      if Kept(ps[0], hasDown) then [Built(t, firstId, ps, o, hasDown, hasUp, 0)] + rest else rest
  }

  /** The identities are fresh and increase along the list. */
  lemma {:induction false} MakeListenersIds(t: KeyTable, firstId: nat, ps: seq<Pattern>, o: Options, hasDown: bool, hasUp: bool)
    ensures forall l | l in MakeListeners(t, firstId, ps, o, hasDown, hasUp) :: firstId <= l.id < firstId + |ps|
    ensures forall i, j | 0 <= i < j < |MakeListeners(t, firstId, ps, o, hasDown, hasUp)| ::
      MakeListeners(t, firstId, ps, o, hasDown, hasUp)[i].id < MakeListeners(t, firstId, ps, o, hasDown, hasUp)[j].id
    decreases |ps|
  {
    if |ps| > 0 {
      MakeListenersIds(t, firstId + 1, ps[1..], o, hasDown, hasUp);
      var rest := MakeListeners(t, firstId + 1, ps[1..], o, hasDown, hasUp);
      var r := MakeListeners(t, firstId, ps, o, hasDown, hasUp);
      if Kept(ps[0], hasDown) {
        assert r == [Built(t, firstId, ps, o, hasDown, hasUp, 0)] + rest;
        forall i, j | 0 <= i < j < |r| ensures r[i].id < r[j].id {
          assert r[j] == rest[j - 1] && rest[j - 1] in rest;
          if i > 0 { assert r[i] == rest[i - 1]; }
        }
      }
    }
  }

  /** The kept listeners are exactly the built listeners of the patterns line
      88 keeps. */
  lemma {:induction false} MakeListenersContents(t: KeyTable, firstId: nat, ps: seq<Pattern>, o: Options, hasDown: bool, hasUp: bool)
    ensures forall l | l in MakeListeners(t, firstId, ps, o, hasDown, hasUp) ::
      exists i: nat | i < |ps| :: Kept(ps[i], hasDown) && l == Built(t, firstId, ps, o, hasDown, hasUp, i)
    ensures forall i | 0 <= i < |ps| && Kept(ps[i], hasDown) ::
      Built(t, firstId, ps, o, hasDown, hasUp, i) in MakeListeners(t, firstId, ps, o, hasDown, hasUp)
    decreases |ps|
  {
    if |ps| > 0 {
      MakeListenersContents(t, firstId + 1, ps[1..], o, hasDown, hasUp);
      var rest := MakeListeners(t, firstId + 1, ps[1..], o, hasDown, hasUp);
      var r := MakeListeners(t, firstId, ps, o, hasDown, hasUp);
      forall i | 1 <= i < |ps| ensures Built(t, firstId, ps, o, hasDown, hasUp, i) == Built(t, firstId + 1, ps[1..], o, hasDown, hasUp, i - 1) {
        assert ps[i] == ps[1..][i - 1];
      }
      forall l | l in r ensures exists i: nat | i < |ps| :: Kept(ps[i], hasDown) && l == Built(t, firstId, ps, o, hasDown, hasUp, i) {
        if l in rest {
          var i: nat :| i < |ps[1..]| && Kept(ps[1..][i], hasDown) && l == Built(t, firstId + 1, ps[1..], o, hasDown, hasUp, i);
          assert ps[1..][i] == ps[i + 1];
        }
      }
      forall i | 0 <= i < |ps| && Kept(ps[i], hasDown) ensures Built(t, firstId, ps, o, hasDown, hasUp, i) in r {
        if i > 0 {
          assert Kept(ps[1..][i - 1], hasDown);
        }
      }
    }
  }

  /** Built from parsed patterns with an executor, every listener is as the
      registry invariant demands. */
  lemma MakeListenersOk(t: KeyTable, firstId: nat, ps: seq<Pattern>, o: Options, hasDown: bool, hasUp: bool)
    requires hasDown || hasUp
    requires forall p | p in ps :: PatternOk(t, p)
    ensures forall l | l in MakeListeners(t, firstId, ps, o, hasDown, hasUp) :: ListenerOk(t, l)
  {
    MakeListenersContents(t, firstId, ps, o, hasDown, hasUp);
    var r := MakeListeners(t, firstId, ps, o, hasDown, hasUp);
    forall l | l in r ensures ListenerOk(t, l) {
      var i: nat :| i < |ps| && Kept(ps[i], hasDown) && l == Built(t, firstId, ps, o, hasDown, hasUp, i);
      assert ps[i] in ps;
      assert Pattern(l.kind, l.keys) == ps[i];
    }
  }

  /** `bind`'s result: `None` where the source returns `false`. */
  datatype BindResult = BindResult(kb: Keyboard, added: Option<seq<Listener>>)

  /** `bind` (lines 62-93): nothing happens without an executor or when the
      keys do not parse (as the keyboard's revision reads line 58); otherwise
      the new listeners are appended and the current list is recomputed. */
  function Bind(kb: Keyboard, a: BindArgument, hasDown: bool, hasUp: bool): (r: BindResult)
    ensures r.added.None? <==> (!hasDown && !hasUp) || ParseBindKeysIn(kb.rev, kb.table, BindKeysOf(a)).None?
    ensures kb.rev.AsWritten? ==> (r.added.None? <==> (!hasDown && !hasUp) || BindKeyStrings(BindKeysOf(a)).None?)
    ensures kb.rev.Corrected? && r.added.Some? ==> |ParseBindKeysIn(kb.rev, kb.table, BindKeysOf(a)).value| > 0
    ensures r.added.None? ==> r.kb == kb
    ensures r.added.Some? ==>
      && r.kb.listeners == kb.listeners + r.added.value
      && |r.added.value| <= |ParseBindKeysIn(kb.rev, kb.table, BindKeysOf(a)).value|
      && (forall l | l in r.added.value ::
            && l.id >= kb.nextId
            && l.opts == ResolveOptions(a)
            && (l.kind == Sequence ==> l.hasPressDown && !l.hasPressUp))
      && r.kb.context == kb.context && r.kb.tracker == kb.tracker
    ensures Valid(kb) ==> Valid(r.kb)
  {
    if !hasDown && !hasUp then BindResult(kb, None)
    else match ParseBindKeysIn(kb.rev, kb.table, BindKeysOf(a))
      case None => BindResult(kb, None)
      case Some(ps) =>
        ParsedPatternsOk(kb.rev, kb.table, BindKeysOf(a));
        var added := MakeListeners(kb.table, kb.nextId, ps, ResolveOptions(a), hasDown, hasUp);
        MakeListenersIds(kb.table, kb.nextId, ps, ResolveOptions(a), hasDown, hasUp);
        MakeListenersOk(kb.table, kb.nextId, ps, ResolveOptions(a), hasDown, hasUp);
        var listeners := kb.listeners + added;
        var r := kb.(listeners := listeners, current := ActiveListeners(listeners, kb.context), nextId := kb.nextId + |ps|);
        assert Valid(kb) ==> Valid(r) by {
          if Valid(kb) {
            UniqueAppend(kb.listeners, added, kb.nextId);
          }
        }
        BindResult(r, Some(added))
  }

  /** Every pattern `parseBindKeys` returns names at least one key, all known. */
  lemma ParsedPatternsOk(rev: Revision, t: KeyTable, v: JsValue)
    requires ParseBindKeysIn(rev, t, v).Some?
    ensures forall p | p in ParseBindKeysIn(rev, t, v).value :: PatternOk(t, p)
  {
    forall p | p in ParseBindKeysIn(rev, t, v).value ensures PatternOk(t, p) {
      var s :| s in BindKeyStrings(v).value && !MixesSeparators(s) && p == ParsePattern(s);
      assert |SplitKeys(s)| >= 1;
    }
  }

  /** The finding at line 58 seen through `bind`: binding only an unknown key
      succeeds with no listeners as written, and fails once corrected. */
  lemma BindUnknownKey(kb: Keyboard)
    requires kb.table == Base
    ensures kb.rev.AsWritten? ==> Bind(kb, Keys(JsString("unknownkey")), true, false) == BindResult(kb.(current := ActiveListeners(kb.listeners, kb.context)), Some([]))
    ensures kb.rev.Corrected? ==> Bind(kb, Keys(JsString("unknownkey")), true, false) == BindResult(kb, None)
  {
    UnknownKeyParsesToEmpty();
    assert kb.listeners + [] == kb.listeners;
  }

  lemma UniqueAppend(a: seq<Listener>, b: seq<Listener>, bound: nat)
    requires UniqueIds(a) && (forall l | l in a :: l.id < bound)
    requires (forall i, j | 0 <= i < j < |b| :: b[i].id < b[j].id) && (forall l | l in b :: l.id >= bound)
    ensures UniqueIds(a + b)
  {
    var c := a + b;
    forall i, j | 0 <= i < j < |c| ensures c[i].id != c[j].id {
      if j < |a| {
        assert c[i] == a[i] && c[j] == a[j];
      } else if i >= |a| {
        assert c[i] == b[i - |a|] && c[j] == b[j - |a|];
      } else {
        assert c[i] == a[i] && a[i] in a;
        assert c[j] == b[j - |a|] && b[j - |a|] in b;
      }
    }
  }

  // ---------------------------------------------------------------------
  // unbind

  /** Listener identity is modelled by `id`. */
  predicate Targeted(l: Listener, targets: seq<Listener>) {
    exists u | u in targets :: u.id == l.id
  }

  /** Line 102: the listeners other than the targets, in order. */
  function RemoveListeners(ls: seq<Listener>, targets: seq<Listener>): (r: seq<Listener>)
    ensures forall l :: l in r <==> l in ls && !Targeted(l, targets)
    ensures |r| <= |ls|
    ensures |r| < |ls| <==> exists l | l in ls :: Targeted(l, targets)
    ensures UniqueIds(ls) ==> UniqueIds(r)
  {
    if |ls| == 0 then []
    else
      var rest := RemoveListeners(ls[1..], targets);
      assert forall l :: l in ls <==> l == ls[0] || l in ls[1..];
      if Targeted(ls[0], targets) then
        assert UniqueIds(ls) ==> UniqueIds(rest) by {
          if UniqueIds(ls) { UniqueTail(ls); }
        }
        rest
      else
        assert UniqueIds(ls) ==> UniqueIds([ls[0]] + rest) by {
          if UniqueIds(ls) {
            UniqueTail(ls);
            UniqueCons(ls[0], rest);
          }
        }
        [ls[0]] + rest
  }

  lemma UniqueTail(ls: seq<Listener>)
    requires |ls| > 0 && UniqueIds(ls)
    ensures UniqueIds(ls[1..]) && forall l | l in ls[1..] :: l.id != ls[0].id
  {
    forall l | l in ls[1..] ensures l.id != ls[0].id {
      var k :| 0 <= k < |ls[1..]| && ls[1..][k] == l;
      assert ls[k + 1] == l;
    }
  }

  lemma UniqueCons(x: Listener, rest: seq<Listener>)
    requires UniqueIds(rest) && forall l | l in rest :: l.id != x.id
    ensures UniqueIds([x] + rest)
  {
    var r := [x] + rest;
    forall i, j | 0 <= i < j < |r| ensures r[i].id != r[j].id {
      if i == 0 {
        assert r[j] == rest[j - 1] && rest[j - 1] in rest;
      } else {
        assert r[i] == rest[i - 1] && r[j] == rest[j - 1];
      }
    }
  }

  /** `unbind`'s result: whether the number of bound listeners changed. */
  datatype UnbindResult = UnbindResult(kb: Keyboard, removed: bool)

  /** `unbind` (lines 95-105). */
  function Unbind(kb: Keyboard, targets: seq<Listener>): (r: UnbindResult)
    ensures forall l :: l in r.kb.listeners <==> l in kb.listeners && !Targeted(l, targets)
    ensures r.removed <==> exists l | l in kb.listeners :: Targeted(l, targets)
    ensures r.kb.context == kb.context && r.kb.tracker == kb.tracker
    ensures Valid(kb) ==> Valid(r.kb)
  {
    var listeners := RemoveListeners(kb.listeners, targets);
    UnbindResult(kb.(listeners := listeners, current := ActiveListeners(listeners, kb.context)),
      |listeners| != |kb.listeners|)
  }

  lemma RemoveFromAppend(a: seq<Listener>, b: seq<Listener>, targets: seq<Listener>)
    ensures RemoveListeners(a + b, targets) == RemoveListeners(a, targets) + RemoveListeners(b, targets)
    decreases |a|
  {
    if |a| > 0 {
      assert (a + b)[1..] == a[1..] + b;
      RemoveFromAppend(a[1..], b, targets);
    } else {
      assert a + b == b;
    }
  }

  lemma {:induction false} RemoveUntargeted(a: seq<Listener>, targets: seq<Listener>)
    requires forall l | l in a :: !Targeted(l, targets)
    ensures RemoveListeners(a, targets) == a
    decreases |a|
  {
    if |a| > 0 {
      assert a[0] in a && !Targeted(a[0], targets);
      assert forall l | l in a[1..] :: l in a;
      RemoveUntargeted(a[1..], targets);
      assert RemoveListeners(a, targets) == [a[0]] + RemoveListeners(a[1..], targets);
      assert [a[0]] + a[1..] == a;
    }
  }

  lemma RemoveAll(a: seq<Listener>)
    ensures RemoveListeners(a, a) == []
  {
    var r := RemoveListeners(a, a);
    if |r| > 0 {
      assert r[0] in r;
      assert Targeted(r[0], a);
    }
  }

  /** Unbinding what a successful `bind` returned restores the bound list,
      reports a change exactly when something was bound, and a second
      `unbind` of the same listeners reports no change. Only the freshness of
      identities is needed. */
  lemma {:induction false} BindUnbindRoundTrip(kb: Keyboard, a: BindArgument, hasDown: bool, hasUp: bool)
    requires forall l | l in kb.listeners :: l.id < kb.nextId
    ensures var b := Bind(kb, a, hasDown, hasUp);
      b.added.Some? ==>
        var u := Unbind(b.kb, b.added.value);
        && u.kb.listeners == kb.listeners
        && (u.removed <==> |b.added.value| > 0)
        && !Unbind(u.kb, b.added.value).removed
  {
    var b := Bind(kb, a, hasDown, hasUp);
    if b.added.Some? {
      RemoveAppended(kb.listeners, b.added.value, kb.nextId);
    }
  }

  /** Removing freshly appended listeners gives the old list back, and
      removes something exactly when something was appended. */
  lemma RemoveAppended(ls: seq<Listener>, added: seq<Listener>, bound: int)
    requires forall l | l in ls :: l.id < bound
    requires forall l | l in added :: l.id >= bound
    ensures RemoveListeners(ls + added, added) == ls
    ensures |ls| != |ls + added| <==> |added| > 0
    ensures RemoveListeners(ls, added) == ls
  {
    FreshNotTargeted(ls, added, bound);
    RemoveFromAppend(ls, added, added);
    RemoveUntargeted(ls, added);
    RemoveAll(added);
    assert ls + [] == ls;
  }

  /** Listeners with ids below `bound` are not among targets whose ids are
      all at least `bound`. */
  lemma FreshNotTargeted(ls: seq<Listener>, targets: seq<Listener>, bound: int)
    requires forall l | l in ls :: l.id < bound
    requires forall l | l in targets :: l.id >= bound
    ensures forall l | l in ls :: !Targeted(l, targets)
  {
  }

  // ---------------------------------------------------------------------
  // Settings, reset, mount

  /** `setSequenceInterval` (line 153). */
  function SetSequenceInterval(kb: Keyboard, interval: int): (r: Keyboard)
    ensures r.interval == interval && r.(interval := kb.interval) == kb
    ensures Valid(kb) ==> Valid(r)
  {
    kb.(interval := interval)
  }

  /** `setSequenceMustReleaseLastPress` (line 155). */
  function SetMustRelease(kb: Keyboard, b: bool): (r: Keyboard)
    ensures r.mustRelease == b && r.(mustRelease := kb.mustRelease) == kb
    ensures Valid(kb) ==> Valid(r)
  {
    kb.(mustRelease := b)
  }

  /** `reset` (lines 170-174): no listeners and no context; the key state,
      the trigger marks and the settings stay as they are. */
  function Reset(kb: Keyboard): (r: Keyboard)
    ensures r.listeners == [] && r.current == [] && r.context.None?
    ensures r.tracker == kb.tracker && r.triggered == kb.triggered && r.interval == kb.interval
    ensures Valid(kb) ==> Valid(r)
  {
    kb.(context := None, listeners := [], current := [])
  }

  /** `mount` (lines 184-190): only the flag is modelled. */
  function Mount(kb: Keyboard): (r: Keyboard)
    ensures r.mounted && r.(mounted := kb.mounted) == kb
    ensures Valid(kb) ==> Valid(r)
  {
    kb.(mounted := true)
  }

  /** `unmount` (lines 192-198). */
  function Unmount(kb: Keyboard): (r: Keyboard)
    ensures !r.mounted && r.(mounted := kb.mounted) == kb
    ensures Valid(kb) ==> Valid(r)
  {
    kb.(mounted := false)
  }

  /** Mounting or unmounting twice is the same as doing it once, and
      unmounting undoes a mount of an unmounted keyboard. */
  lemma MountIdempotent(kb: Keyboard)
    ensures Mount(Mount(kb)) == Mount(kb)
    ensures Unmount(Unmount(kb)) == Unmount(kb)
    ensures !kb.mounted ==> Unmount(Mount(kb)) == kb
  {
  }

  // ---------------------------------------------------------------------
  // Key-down

  /** What the listeners do on one key-down: the trigger marks after them,
      the executors they ran, and the deferred re-checks they scheduled. */
  datatype PressDownOutcome = PressDownOutcome(triggered: set<string>, fired: seq<Fired>, deferred: seq<Listener>)

  /** What lets listener `l` run its press-down executor on a key-down whose
      updated key state is `tr`, the trigger marks aside: a combination that
      is not a blocked repeat and whose keys are held in an allowed order
      (lines 249-257), or a sequence whose decision is to fire at once. */
  predicate MayFireDown(t: KeyTable, l: Listener, tr: Tracker, repeat: bool, mustRelease: bool, rev: Revision) {
    var pressed := tr.pressed.Get(l.opts.eventType);
    match l.kind
    case Combination =>
      && !(l.opts.preventRepeat && repeat)
      && AllKeysPressed(t, l, pressed)
      && OrderAllows(l.opts.strictOrder, Join(pressed, "+"), l.triggerKey)
    case Sequence =>
      SequencePressDownIn(rev, l, pressed, tr.sequences.Get(l.opts.eventType).triggerKey, repeat, mustRelease) == FireNow
  }

  /** A sequence listener schedules the must-release re-check (lines 273-276). */
  predicate Defers(l: Listener, tr: Tracker, repeat: bool, mustRelease: bool, rev: Revision) {
    && l.kind == Sequence
    && SequencePressDownIn(rev, l, tr.pressed.Get(l.opts.eventType), tr.sequences.Get(l.opts.eventType).triggerKey,
         repeat, mustRelease) == Defer
  }

  /** Line 259: a combination with `preventSame` whose mark is already set. */
  predicate BlockedBySame(l: Listener, triggered: set<string>) {
    l.kind == Combination && l.opts.preventSame && Marked(triggered, l.triggerKey)
  }

  /** One listener's `handlePressDown` (lines 237-246): it fires exactly when
      its decision allows and its mark does not block it, only a firing
      combination sets its mark, and only a deferring sequence is scheduled. */
  function PressDownOne(t: KeyTable, l: Listener, tr: Tracker, triggered: set<string>, repeat: bool, mustRelease: bool,
                        rev: Revision)
    : (o: PressDownOutcome)
    ensures o.fired == [] || o.fired == [PressDownFired(l.id)]
    ensures o.fired == [PressDownFired(l.id)] <==>
      l.hasPressDown && MayFireDown(t, l, tr, repeat, mustRelease, rev) && !BlockedBySame(l, triggered)
    ensures o.deferred == (if Defers(l, tr, repeat, mustRelease, rev) then [l] else [])
    ensures o.triggered ==
      (if l.kind == Combination && MayFireDown(t, l, tr, repeat, mustRelease, rev) && !BlockedBySame(l, triggered)
       then triggered + {l.triggerKey} else triggered)
  {
    var pressed := tr.pressed.Get(l.opts.eventType);
    match l.kind
    case Combination =>
      (match CombinationPressDown(t, l, pressed, triggered, repeat)
       case None => PressDownOutcome(triggered, [], [])
       case Some(m) => PressDownOutcome(m, if l.hasPressDown then [PressDownFired(l.id)] else [], []))
    case Sequence =>
      (match SequencePressDownIn(rev, l, pressed, tr.sequences.Get(l.opts.eventType).triggerKey, repeat, mustRelease)
       case Ignore => PressDownOutcome(triggered, [], [])
       case FireNow => PressDownOutcome(triggered, if l.hasPressDown then [PressDownFired(l.id)] else [], [])
       case Defer => PressDownOutcome(triggered, [], [l]))
  }

  /** Lines 132-133: every current listener in turn, the marks one sets being
      seen by the next. Every executor run, mark set and re-check scheduled
      comes from a listener whose own decision called for it. */
  function PressDownAll(t: KeyTable, ls: seq<Listener>, tr: Tracker, triggered: set<string>, repeat: bool,
                        mustRelease: bool, rev: Revision)
    : (o: PressDownOutcome)
    ensures triggered <= o.triggered
    ensures forall k | k in o.triggered && k !in triggered ::
      exists l | l in ls :: l.triggerKey == k && l.kind == Combination && MayFireDown(t, l, tr, repeat, mustRelease, rev)
    ensures forall f | f in o.fired ::
      f.PressDownFired? && exists l | l in ls :: l.id == f.id && l.hasPressDown && MayFireDown(t, l, tr, repeat, mustRelease, rev)
    ensures forall l | l in o.deferred :: l in ls && Defers(l, tr, repeat, mustRelease, rev)
    decreases |ls|
  {
    if |ls| == 0 then PressDownOutcome(triggered, [], [])
    else
      var first := PressDownOne(t, ls[0], tr, triggered, repeat, mustRelease, rev);
      var rest := PressDownAll(t, ls[1..], tr, first.triggered, repeat, mustRelease, rev);
      assert forall l | l in ls[1..] :: l in ls;
      PressDownOutcome(rest.triggered, first.fired + rest.fired, first.deferred + rest.deferred)
  }

  /** A current combination listener without `preventSame` whose press-down
      conditions hold runs its executor, whatever the listeners before it did. */
  lemma {:induction false} CombinationFires(t: KeyTable, ls: seq<Listener>, tr: Tracker, triggered: set<string>,
                                            repeat: bool, mustRelease: bool, rev: Revision, l: Listener)
    requires l in ls && l.kind == Combination && l.hasPressDown && !l.opts.preventSame
    requires !(l.opts.preventRepeat && repeat)
    requires AllKeysPressed(t, l, tr.pressed.Get(l.opts.eventType))
    requires OrderAllows(l.opts.strictOrder, Join(tr.pressed.Get(l.opts.eventType), "+"), l.triggerKey)
    ensures PressDownFired(l.id) in PressDownAll(t, ls, tr, triggered, repeat, mustRelease, rev).fired
    decreases |ls|
  {
    var first := PressDownOne(t, ls[0], tr, triggered, repeat, mustRelease, rev);
    if ls[0] == l {
      assert first.fired == [PressDownFired(l.id)];
    } else {
      CombinationFires(t, ls[1..], tr, first.triggered, repeat, mustRelease, rev, l);
    }
  }

  /** A current sequence listener whose decision is to fire at once runs its
      executor: sequences do not read the trigger marks. */
  lemma {:induction false} SequenceFires(t: KeyTable, ls: seq<Listener>, tr: Tracker, triggered: set<string>,
                                         repeat: bool, mustRelease: bool, rev: Revision, l: Listener)
    requires l in ls && l.kind == Sequence && l.hasPressDown
    requires SequencePressDownIn(rev, l, tr.pressed.Get(l.opts.eventType), tr.sequences.Get(l.opts.eventType).triggerKey,
      repeat, mustRelease) == FireNow
    ensures PressDownFired(l.id) in PressDownAll(t, ls, tr, triggered, repeat, mustRelease, rev).fired
    decreases |ls|
  {
    var first := PressDownOne(t, ls[0], tr, triggered, repeat, mustRelease, rev);
    if ls[0] == l {
      assert first.fired == [PressDownFired(l.id)];
    } else {
      SequenceFires(t, ls[1..], tr, first.triggered, repeat, mustRelease, rev, l);
    }
  }

  /** A current sequence listener whose decision is to defer gets its
      re-check scheduled. */
  lemma {:induction false} SequenceDeferred(t: KeyTable, ls: seq<Listener>, tr: Tracker, triggered: set<string>,
                                            repeat: bool, mustRelease: bool, rev: Revision, l: Listener)
    requires l in ls && Defers(l, tr, repeat, mustRelease, rev)
    ensures l in PressDownAll(t, ls, tr, triggered, repeat, mustRelease, rev).deferred
    decreases |ls|
  {
    var first := PressDownOne(t, ls[0], tr, triggered, repeat, mustRelease, rev);
    if ls[0] == l {
      assert first.deferred == [l];
    } else {
      SequenceDeferred(t, ls[1..], tr, first.triggered, repeat, mustRelease, rev, l);
    }
  }

  /** `keydownHandler` (lines 107-134): record the press, then let the
      current listeners decide against the updated state. */
  function Keydown(kb: Keyboard, e: KeyEvent, now: int): (r: Step)
    ensures r.kb.listeners == kb.listeners && r.kb.current == kb.current && r.kb.context == kb.context
    ensures r.kb.tracker == TrackKeydown(kb.tracker, e, now, kb.interval, kb.mustRelease)
    ensures kb.triggered <= r.kb.triggered
    ensures r.fired == PressDownAll(kb.table, kb.current, r.kb.tracker, kb.triggered, e.repeat, kb.mustRelease, kb.rev).fired
    ensures forall f | f in r.fired :: f.PressDownFired? && exists l | l in kb.current ::
      l.id == f.id && l.hasPressDown && MayFireDown(kb.table, l, r.kb.tracker, e.repeat, kb.mustRelease, kb.rev)
    ensures |kb.pending| <= |r.kb.pending| && r.kb.pending[..|kb.pending|] == kb.pending
    ensures forall l | l in r.kb.pending[|kb.pending|..] :: l in kb.current && Defers(l, r.kb.tracker, e.repeat, kb.mustRelease, kb.rev)
    ensures Valid(kb) ==> Valid(r.kb)
  {
    var tr := TrackKeydown(kb.tracker, e, now, kb.interval, kb.mustRelease);
    var o := PressDownAll(kb.table, kb.current, tr, kb.triggered, e.repeat, kb.mustRelease, kb.rev);
    var pending := kb.pending + o.deferred;
    assert pending[..|kb.pending|] == kb.pending && pending[|kb.pending|..] == o.deferred;
    Step(kb.(tracker := tr, triggered := o.triggered, pending := pending), o.fired)
  }

  /** The deferred re-check of lines 273-276, taken oldest first: the
      executor runs when at most one key of the listener's representation is
      then held. It runs even if the listener has been unbound meanwhile, as
      the scheduled closure does. */
  function TimerElapsed(kb: Keyboard): (r: Step)
    ensures |kb.pending| == 0 ==> r == Step(kb, [])
    ensures |kb.pending| > 0 ==>
      && r.kb == kb.(pending := kb.pending[1..])
      && (r.fired == [PressDownFired(kb.pending[0].id)]
          <==> kb.pending[0].hasPressDown && |kb.tracker.pressed.Get(kb.pending[0].opts.eventType)| <= 1)
      && (r.fired == [] || r.fired == [PressDownFired(kb.pending[0].id)])
    ensures Valid(kb) ==> Valid(r.kb)
  {
    if |kb.pending| == 0 then Step(kb, [])
    else
      var l := kb.pending[0];
      Step(kb.(pending := kb.pending[1..]),
        if DeferredFires(l, kb.tracker.pressed.Get(l.opts.eventType)) then [PressDownFired(l.id)] else [])
  }

  /** A deferral that no other key event disturbs runs its executor when the
      timer elapses (lines 273-276). */
  lemma UndisturbedDeferralFires(kb: Keyboard, e: KeyEvent, now: int)
    requires |kb.pending| == 0
    requires |Keydown(kb, e, now).kb.pending| > 0 && Keydown(kb, e, now).kb.pending[0].hasPressDown
    ensures TimerElapsed(Keydown(kb, e, now).kb).fired == [PressDownFired(Keydown(kb, e, now).kb.pending[0].id)]
  {
    var s := Keydown(kb, e, now);
    var l := s.kb.pending[0];
    assert l in s.kb.pending[|kb.pending|..];
    DeferredFiresIfUndisturbed(kb.rev, l, s.kb.tracker.pressed.Get(l.opts.eventType),
      s.kb.tracker.sequences.Get(l.opts.eventType).triggerKey, e.repeat, kb.mustRelease);
  }

  /** A second key pressed before the timer elapses cancels the oldest
      deferral: with a key already held and a new one added, the re-check of
      lines 274-275 finds more than one key held. */
  lemma SecondKeyCancelsDeferral(kb: Keyboard, e: KeyEvent, now: int)
    requires |kb.pending| > 0 && |kb.tracker.pressed.Get(kb.pending[0].opts.eventType)| > 0
    requires !e.repeat && StoredRep(e, kb.pending[0].opts.eventType) !in kb.tracker.pressed.Get(kb.pending[0].opts.eventType)
    ensures TimerElapsed(Keydown(kb, e, now).kb).fired == []
  {
    var s := Keydown(kb, e, now);
    var l := kb.pending[0];
    var t := l.opts.eventType;
    assert s.kb.pending[0] == l by {
      assert s.kb.pending[..|kb.pending|][0] == kb.pending[0];
    }
    KeydownGrows(kb.tracker, e, now, kb.interval, kb.mustRelease);
    var before := kb.tracker.pressed.Get(t);
    var after := s.kb.tracker.pressed.Get(t);
    assert before[0] in before;
    TwoHeld(after, before[0], StoredRep(e, t));
  }

  lemma TwoHeld(held: seq<string>, x: string, y: string)
    requires x in held && y in held && x != y
    ensures |held| > 1
  {
  }

  // ---------------------------------------------------------------------
  // Key-up

  datatype PressUpOutcome = PressUpOutcome(triggered: set<string>, fired: seq<Fired>)

  /** Lines 137-138: every current listener's `handlePressUp` in turn. A mark
      is cleared, and a press-up executor runs, only for a listener whose keys
      were all held and that names the released key; every such listener's
      mark ends up cleared. */
  function PressUpAll(t: KeyTable, ls: seq<Listener>, tr: Tracker, triggered: set<string>, e: KeyEvent)
    : (o: PressUpOutcome)
    ensures o.triggered <= triggered
    ensures forall k | k in triggered && k !in o.triggered ::
      exists l | l in ls :: l.triggerKey == k && PressUpHolds(t, l, tr.pressed.Get(l.opts.eventType), e)
    ensures forall l | l in ls && PressUpHolds(t, l, tr.pressed.Get(l.opts.eventType), e) :: l.triggerKey !in o.triggered
    ensures forall f | f in o.fired ::
      f.PressUpFired? && exists l | l in ls :: l.id == f.id && l.hasPressUp && PressUpHolds(t, l, tr.pressed.Get(l.opts.eventType), e)
    decreases |ls|
  {
    if |ls| == 0 then PressUpOutcome(triggered, [])
    else
      var l := ls[0];
      var step := PressUp(t, l, tr.pressed.Get(l.opts.eventType), triggered, e);
      var after := if step.Some? then step.value else triggered;
      var fired := if step.Some? && l.hasPressUp then [PressUpFired(l.id)] else [];
      var rest := PressUpAll(t, ls[1..], tr, after, e);
      assert forall x | x in ls[1..] :: x in ls;
      PressUpOutcome(rest.triggered, fired + rest.fired)
  }

  /** `keyupHandler` (lines 136-147): the listeners see the key state from
      before the release; only then are the pressed sets updated. */
  function Keyup(kb: Keyboard, e: KeyEvent): (r: Step)
    ensures r.kb.listeners == kb.listeners && r.kb.current == kb.current && r.kb.context == kb.context
    ensures r.kb.tracker == TrackKeyup(kb.tracker, e, kb.rev)
    ensures r.kb.triggered <= kb.triggered
    ensures r.fired == PressUpAll(kb.table, kb.current, kb.tracker, kb.triggered, e).fired
    ensures forall f | f in r.fired :: f.PressUpFired? && exists l | l in kb.current ::
      l.id == f.id && l.hasPressUp && PressUpHolds(kb.table, l, kb.tracker.pressed.Get(l.opts.eventType), e)
    ensures Valid(kb) ==> Valid(r.kb)
  {
    var o := PressUpAll(kb.table, kb.current, kb.tracker, kb.triggered, e);
    Step(kb.(tracker := TrackKeyup(kb.tracker, e, kb.rev), triggered := o.triggered), o.fired)
  }

  /** A current listener whose keys are all held when one of them is released
      runs its press-up executor: it sees the key before it is removed. */
  lemma {:induction false} ReleaseFiresPressUp(t: KeyTable, ls: seq<Listener>, tr: Tracker, triggered: set<string>,
                                               e: KeyEvent, l: Listener, k: string)
    requires l in ls && l.hasPressUp
    requires AllKeysPressed(t, l, tr.pressed.Get(l.opts.eventType))
    requires k in l.keys && Rep(t, k, l.opts.eventType) == EventRep(e, l.opts.eventType)
    ensures PressUpFired(l.id) in PressUpAll(t, ls, tr, triggered, e).fired
    decreases |ls|
  {
    var x := ls[0];
    var step := PressUp(t, x, tr.pressed.Get(x.opts.eventType), triggered, e);
    var after := if step.Some? then step.value else triggered;
    if x != l {
      ReleaseFiresPressUp(t, ls[1..], tr, after, e, l, k);
    }
  }

  /** `handleWindowBlur` (lines 176-182): the key state is cleared; the
      trigger marks are not. */
  function Blur(kb: Keyboard): (r: Keyboard)
    ensures r.tracker == EmptyTracker && r.triggered == kb.triggered
    ensures r.listeners == kb.listeners && r.current == kb.current
    ensures Valid(kb) ==> Valid(r)
  {
    kb.(tracker := TrackBlur(kb.tracker))
  }

  // ---------------------------------------------------------------------
  // Event dispatch

  /** The DOM events the mounted handlers receive, with the time of the
      key-down that `Date.now()` would read. */
  datatype Input = KeyDown(e: KeyEvent, now: int) | KeyUp(e: KeyEvent) | WindowBlur

  /** The handlers are attached only while mounted (lines 184-198). */
  function Dispatch(kb: Keyboard, i: Input): (r: Step)
    ensures !kb.mounted ==> r == Step(kb, [])
    ensures kb.mounted && i.KeyDown? ==> r == Keydown(kb, i.e, i.now)
    ensures kb.mounted && i.KeyUp? ==> r == Keyup(kb, i.e)
    ensures kb.mounted && i.WindowBlur? ==> r == Step(Blur(kb), [])
    ensures Valid(kb) ==> Valid(r.kb)
  {
    if !kb.mounted then Step(kb, [])
    else match i
      case KeyDown(e, now) => Keydown(kb, e, now)
      case KeyUp(e) => Keyup(kb, e)
      case WindowBlur => Step(Blur(kb), [])
  }

  /** Listeners bound to another context never run: every executor a key
      event runs belongs to a listener active in the current context. */
  lemma OnlyActiveListenersFire(kb: Keyboard, i: Input)
    requires Valid(kb)
    ensures forall f | f in Dispatch(kb, i).fired :: exists l | l in kb.listeners :: l.id == f.id && IsActive(l, kb.context)
  {
  }
}
