# custom-keyboard key-binding engine, modelled in Dafny

custom-keyboard binds keyboard shortcuts in the browser. There are two kinds of
pattern:

- a **combination** such as `ctrl+shift+a` fires when all of its keys are held;
- a **sequence** such as `g->i` fires when its keys are pressed one after
  another, each within the sequence interval of the previous one.

This project models the engine as immutable datatypes and pure step functions.

**Key table.** `key_table.dfy` is the key-name table of `src/MapEventKeyCode.ts`. It maps
every symbolic key name to its `key`, `keyCode` and `code`. The Firefox and Mac
corrections are applied once, at start-up, for an explicit `Environment`, which
holds the user agent and the platform.

**Patterns.** `patterns.dfy` is `parseBindKeys`. It reads the `bindKeys` argument as a
JavaScript value and splits each string on `->` and `+`. It trims the tokens
and drops the patterns that mix separators or name unknown keys.

**Tracker.** `tracker.dfy` is the shared key state. For each event type (`key`, `keyCode`,
`code`) it keeps:

- an insertion-ordered, duplicate-free pressed set;
- a rolling `->`-joined sequence record, stamped with a time.

It models what key-down, key-up and window blur do to that state.

**Listeners.** `listeners.dfy` is the `Listener` class. It covers:

- the trigger key built by the constructor;
- `isAllKeysPressed`, with letters case-folded for case-insensitive `key`
  listeners;
- the combination decision: repeat suppression, strict order as substring or
  equality, and `preventSame` trigger marks;
- the sequence decision: the suffix match, and the must-release mode with its
  deferred re-check;
- the press-up decision.

**Registry.** `registry.dfy` is `KeyboardClass`. It covers:

- `bind` and `unbind`, with listener identity modelled as a fresh `id`;
- the context filter that yields the current listeners;
- `setContext`, `getAllContext` and `reset`;
- the sequence-interval and must-release setters;
- the `mount`/`unmount` flag;
- the three event handlers.

An event step returns the new keyboard and the executors it ran, as `Fired`
values.

**Revisions.** Three lines of `src/index.ts` do something other than what
they evidently intend (see "## Findings"): line 58, line 145 and line 269.
Each is modelled twice, as written and corrected, and `revisions.dfy`
defines the switch `Revision = AsWritten | Corrected`. Every keyboard carries
one revision, and `bind`, key-down and key-up follow it throughout:

- a keyboard with `AsWritten` behaves as the source does;
- a keyboard with `Corrected` behaves as the source evidently intends.

The contracts of the handlers hold for both. The registry invariant `Registry.Valid` is preserved by every
operation. It says:

- the current list is the active part of the bound list;
- identities are distinct;
- every stored listener is as `bind` built it;
- the pressed sets are sets.

**Demo helpers.** `bubble.dfy` holds the two pure string helpers of the demo
game in `website/Game/Bubble.tsx`:

- the key-alias rewrite `specialKeyReplace`;
- `getLongestCommonSubsequence`, which in fact computes the first-found
  longest common *substring* and then applies a token filter.

**Building blocks.** `js_text.dfy` models the JavaScript string built-ins the
code relies on:

- `includes`, `endsWith`, `split`, `join`, `replaceAll` and `trim`;
- ASCII `toUpperCase` and `toLowerCase`;
- decimal rendering of key codes.

`ordered_set.dfy` models `Set.add` and `Set.delete` on an insertion-ordered
sequence.

`isMac` is the predicate `KeyTable.IsMac`: the platform string contains
`Mac`.

## Model

| member | source | states |
|---|---|---|
| JsText.Trim | src/index.ts:52 | The trimmed token is a slice of the input; everything before and after that slice is JavaScript white space; the slice itself neither starts nor ends with white space. |
| JsText.ReplaceAllIsSplitJoin | website/Game/Bubble.tsx:30 | Replacing every occurrence of a non-empty pattern equals splitting on it and joining with the replacement. |
| JsText.DecimalStringInjective | src/index.ts:222 | Distinct key codes render as distinct strings, so a joined `keyCode` trigger key identifies its codes. |
| OrderedSet.Add | src/index.ts:113 | `Set.add`: the result holds the old elements plus the new one. The old elements keep their order as a prefix. An element already present changes nothing. Duplicate-freedom is kept. |
| OrderedSet.Delete | src/index.ts:143-145 | `Set.delete`: exactly the given element disappears. An absent element changes nothing. Duplicate-freedom is kept. |
| OrderedSet.DeleteSize | src/index.ts:145 | Deleting a present element from a duplicate-free sequence shrinks it by exactly one. |
| KeyTable.SetKeyCode | src/MapEventKeyCode.ts:779-791 | Assigning `keyNames[name].keyCode` changes that entry's `keyCode` and nothing else, in that entry or any other. |
| KeyTable.FirefoxPatchEffect | src/MapEventKeyCode.ts:778-782 | The Firefox correction sets the `keyCode` of `;`, `-` and `=` to 59, 173 and 61. Every other field and every other entry is unchanged. |
| KeyTable.MacPatchEffect | src/MapEventKeyCode.ts:783-792 | Only `commandLeft.keyCode` and `commandRight.keyCode` can change. The branches are exclusive and apply only when `isMac` holds. With no branch taken the table is unchanged. Otherwise the codes are 91/93, 17/17 or 224/224. |
| KeyTable.IsMac | src/MapEventKeyCode.ts:794 | `isMac`: the platform string contains `Mac`. |
| KeyTable.NonMacStartup | src/MapEventKeyCode.ts:783-794 | Off a Mac platform no command-key branch is taken. The start-up table is then the literal one, with only the Firefox correction if the user agent names Firefox. |
| KeyTable.StartupTableEntries | src/MapEventKeyCode.ts:7-792 | The names known after start-up are exactly those of the literal table, each with one record whose `key` and `code` are the literal's. Only the five patched names can differ in `keyCode`. |
| KeyTable.AliasesAgree | src/MapEventKeyCode.ts:33-197 | In every environment, `shift`/`shiftLeft`, `ctrl`/`ctrlLeft`, `alt`/`altLeft`, `escape`/`esc`, `space`/`spacebar`, `insert`/`ins` and `delete`/`del` resolve to identical records. |
| KeyTable.EqualIsPlusAlias | src/MapEventKeyCode.ts:308-317 | `equal` is a known name whose `key` is `+` and whose `code` is that of `=`. The name itself contains neither separator, so a literal plus always has a separator-free alias. |
| KeyTable.LetterCasePairs | src/MapEventKeyCode.ts:499-758 | For every letter, the lower- and upper-case names are both known, share `keyCode` and `code`, and have as `key` their own letter. |
| KeyTable.LetterKeyIsName | src/MapEventKeyCode.ts:499-758 | Every single ASCII letter is a known name whose `key` representation is the letter itself. |
| Patterns.ParsePattern | src/index.ts:50-53 | A pattern is a sequence exactly when its string contains `->`. Its keys are the trimmed tokens between separators, one per token. |
| Patterns.PatternTokensRoundTrip | src/index.ts:50-53 | For a pattern that does not mix separators, joining the split tokens with the pattern's own separator gives the original string back. |
| Patterns.BindKeyStrings | src/index.ts:43-45 | The input is accepted exactly when it is a string or an array of only strings. A string becomes a one-element list; an array keeps its elements in order. |
| Patterns.SplitKeysFrom | src/index.ts:52 | The regex split on `->` and `+` always yields at least one token. |
| Patterns.SplitKeysAgreesWithSplit | src/index.ts:52 | On a string without `+`, the regex split is the plain split on `->`. On a string without `->`, it is the plain split on `+`. |
| Patterns.ParseAll | src/index.ts:48-56 | Every surviving pattern comes from an input string that mixes no separators, and names only known keys. Every such input string does survive. |
| Patterns.ParseAllAppend | src/index.ts:48-56 | The filter keeps order and multiplicity. Parsing a concatenation parses each half in turn. A single string yields its pattern exactly when it mixes no separators and names only known keys, and yields nothing otherwise. |
| Patterns.ParseBindKeysAsWritten | src/index.ts:42-60 | As written: fails exactly on a non-string, non-all-string input. Otherwise it returns the filtered patterns, possibly none. |
| Patterns.ParseBindKeys | src/index.ts:58 | Corrected: a successful parse yields at least one pattern and agrees with the code as written. It fails exactly when the code as written fails or yields nothing. |
| Patterns.ParseBindKeysIn | src/index.ts:58 | As written, a parse fails only on a non-string, non-all-string input. Corrected, it also fails when no pattern survives. Any success returns the surviving patterns. |
| Patterns.UnknownKeyParsesToEmpty | src/index.ts:56-59 | `"unknownkey"` parses to `[]` as written, and to failure once corrected. |
| Patterns.MixedPatternRejected | src/index.ts:48 | `"a+b->c"` mixes separators, so it parses to `[]` as written and to failure once corrected. |
| Patterns.PlainNamePattern | src/index.ts:50-53 | A name with no `+`, no `-` and no surrounding blanks parses to a one-key combination of itself. |
| Tracker.StoredRep | src/index.ts:110 | The stored representation is never the bare `+`. Any other representation is stored unchanged. |
| Tracker.RecordPress | src/index.ts:112-128 | The pressed set gains the key, which goes last if new. Unless must-release mode holds more than one key, the record is stamped with the current time. The record restarts with the key after no time or a gap above the interval, and is extended with `->key` otherwise. |
| Tracker.TrackKeydown | src/index.ts:107-130 | A repeat changes nothing. Otherwise every event type is updated independently, as one `RecordPress`. The pressed sets stay sets. |
| Tracker.ReleaseAsWritten | src/index.ts:140-146 | As written: `Meta` clears the set. A single-letter `key` removes both cases. Otherwise exactly the raw `event[eventType]` is removed. The set stays a set. |
| Tracker.Release | src/index.ts:140-146 | Corrected: `Meta` clears the set. A single-letter `key` removes both cases. Otherwise exactly the stored representation is removed. The set stays a set. Whenever the raw representation is not `+`, it removes what the code as written removes. |
| Tracker.ReleasedKeyNotHeld | src/index.ts:140-146 | After the corrected release, the released key's stored representation is no longer held, in every event type. |
| Tracker.PlusStaysHeldAsWritten | src/index.ts:110-145 | Pressing the key whose `key` is `+` stores `equal`. Releasing it as written leaves `equal` held; the corrected release removes it. |
| Tracker.TrackKeyup | src/index.ts:140-146 | Every pressed set is released by the revision's rule; `Meta` empties them all. Where the raw representation is not `+`, that is the rule as written. Sequence records are untouched and the sets stay sets. |
| Tracker.PressAll | src/index.ts:107-113 | Over a run of key-downs, every held key stays held, every non-repeat press ends up held, and the pressed sets stay sets. |
| Tracker.KeydownGrows | src/index.ts:111-113 | A key-down only adds to the pressed sets. A non-repeat one adds what it stores, in every event type. |
| Tracker.TrackBlur | src/index.ts:176-182 | After a blur nothing is held, and every sequence record is `''` with no time. |
| Tracker.RecordStep | src/index.ts:117-128 | Outside must-release mode, a key-down restarts the record after a gap and extends it with `->key` within the interval. |
| Tracker.PressesExtendRecord | src/index.ts:123-128 | Outside must-release mode, presses that each follow the previous one within the interval append their representations, `->`-joined, to the existing record. |
| Tracker.SequenceRecordOfPresses | src/index.ts:117-128 | Outside must-release mode, a run of presses that starts after a gap, with each later press within the interval, leaves the record equal to the `->`-join of their representations. |
| Tracker.BlurRestartsSequence | src/index.ts:176-182 | After a blur, the next key-down starts a fresh sequence record holding just that key, stamped with the current time. |
| Listeners.TriggerRep | src/index.ts:222 | A trigger-key component is never the bare `+`; any other representation is used unchanged. |
| Listeners.NewListener | src/index.ts:219-223 | The constructor keeps pattern, options and executors. Case folding is on exactly for a case-insensitive listener on `key`. |
| Listeners.TriggerKeyTokens | src/index.ts:222 | Splitting the trigger key on the pattern's separator gives back one stored representation per pattern key, in order. This needs only that no representation contains the separator itself, which a lone `-` or `>` does not. |
| Listeners.CombinationPressDown | src/index.ts:248-262 | A combination fires exactly when all of the following hold: the event is not a suppressed repeat; all keys are held; the strict-order condition on the `+`-join of the held set passes; with `preventSame`, the trigger key is not already marked. Firing marks the trigger key. |
| Listeners.PreventSameUntilPressUp | src/index.ts:258-259 | Once a `preventSame` combination has fired, it cannot fire again, whatever is held, until a press-up clears its mark. |
| Listeners.PressUpRearms | src/index.ts:286 | After a press-up clears the mark, the combination fires again when its conditions next hold. |
| Listeners.StrictOrderExact | src/index.ts:255 | With `strictOrder: 'equal'`, `a+b` fires for presses a then b, but not for b then a. |
| Listeners.StrictOrderContiguous | src/index.ts:254 | With `strictOrder: true`, `a+b` fires when a and b were pressed adjacently after c, but not when c came between them. |
| Listeners.SequenceDecide | src/index.ts:264-277 | A sequence never acts on a repeat, or in must-release mode with more than one key held. Otherwise it acts exactly when matched: immediately outside must-release mode, deferred inside it. |
| Listeners.SequencePressDownAsWritten | src/index.ts:264-278 | As written, a sequence acts exactly when not a repeat, not blocked by must-release mode, and the record ends with the trigger key (ignoring case when folding). |
| Listeners.SequencePressDown | src/index.ts:269 | Corrected: a sequence acts exactly when the trigger key matches whole presses at the end of the record. Whenever it acts, it takes the same decision as the code as written. |
| Listeners.SequenceMatchesWholePresses | src/index.ts:269 | The corrected match accepts a record that is the trigger key, or ends with `->` followed by it. |
| Listeners.SuffixMatchAcrossKeysAsWritten | src/index.ts:269 | As written, a case-sensitive `e->x` fires after `Escape` then `x`. The corrected match does not fire. |
| Listeners.PressingSequenceFires | src/index.ts:264-271 | Pressing a sequence's keys in order, after a gap and each within the interval, makes the corrected decision fire on the last press, outside must-release mode. |
| Listeners.SequenceWithinInterval | src/index.ts:118-128 | `a->b` fires when b follows a within the interval. |
| Listeners.SequenceAfterGap | src/index.ts:118-122 | When b follows a after a gap longer than the interval, the record restarts as `b`. So `a->b` does not fire, neither under line 269's suffix test as written nor under the corrected match. |
| Listeners.PressUp | src/index.ts:281-287 | Press-up acts exactly when all keys are still held and the released key's raw representation belongs to the pattern. It then clears the trigger mark. |
| Listeners.StoredRepOfEvent | src/index.ts:222 | A key-down of a named key stores exactly the representation the trigger key uses for that name. |
| Listeners.PressedKeysAreHeld | src/index.ts:225-235 | If every key of a listener was pressed and is still in the pressed set, `isAllKeysPressed` holds, with or without case folding. |
| Listeners.KeyHeld | src/index.ts:226-233 | For one key name: a letter of a case-folding listener is held in either case; any other name must be held as its trigger representation. |
| Listeners.AllKeysPressed | src/index.ts:225-235 | `isAllKeysPressed`: every key of the listener is held in the sense of `KeyHeld`. |
| Listeners.KeyHeldIgnoresCase | src/index.ts:226-230 | For a case-folding listener, whether a letter counts as held does not depend on the case it was bound in. |
| Listeners.DeferredFiresIfUndisturbed | src/index.ts:273-276 | A deferral is only taken with at most one key held, so a re-check that finds the same pressed set runs the executor. |
| Listeners.CaseFolding | src/index.ts:221-231 | A default listener on `a` counts `A` as held; a case-sensitive one does not. |
| Registry.Init | src/index.ts:31-40 | The module instance starts unmounted, with the start-up table, no listeners, no context, interval 666 and must-release off, for the chosen revision. It satisfies the registry invariant. |
| Registry.ActiveListeners | src/index.ts:149-151 | The current listeners are exactly the bound ones with no context or with the current context. |
| Registry.ActiveListenersAppend | src/index.ts:149-151 | The filter keeps binding order and multiplicity: the active part of a concatenation is the active parts in turn. |
| Registry.ActiveListenersSingle | src/index.ts:150 | A single listener stays exactly when it has no context or the current one. |
| Registry.SetContext | src/index.ts:157-161 | A missing or empty context becomes `null`, any other string is kept, and the current list is recomputed for it. |
| Registry.AllContexts | src/index.ts:165-166 | `getAllContext` lists each non-empty listener context exactly once, and nothing else. |
| Registry.AllContextsSnoc | src/index.ts:165-166 | A listener bound last adds its context at the end of the list, as `Set.add` does. Nothing is added if the context is empty, absent or already listed. |
| Registry.MakeListeners | src/index.ts:72-88 | Every built listener has the resolved options and the press-down flag. A sequence always has a press-down executor and never a press-up one. |
| Registry.MakeListenersContents | src/index.ts:72-88 | The built listeners are exactly the kept patterns' listeners: combinations always, sequences only with a press-down executor. |
| Registry.MakeListenersIds | src/index.ts:72-88 | Identities are fresh and increase along the built list. |
| Registry.Bind | src/index.ts:62-93 | `bind` fails exactly without executors, or when parsing fails as the revision reads line 58. As written, a string or all-string array always succeeds, possibly adding nothing; corrected, a success parsed at least one pattern. Failure changes nothing. Otherwise the new listeners, with fresh identities and the resolved options, are appended, and the invariant is kept. |
| Registry.BindUnknownKey | src/index.ts:58-70 | Binding only an unknown key: as written, `bind` succeeds with no listeners. Corrected, it fails and changes nothing. |
| Registry.RemoveListeners | src/index.ts:101 | The remaining listeners are exactly the untargeted ones. The list shrinks exactly when some listener is targeted. |
| Registry.Unbind | src/index.ts:95-105 | `unbind` removes exactly the targeted listeners and reports `true` exactly when one was bound. Context and key state are untouched, and the invariant is kept. |
| Registry.BindUnbindRoundTrip | src/index.ts:95-105 | Unbinding what `bind` returned restores the listener list. It reports `true` exactly when something was bound; a second unbind reports `false`. |
| Registry.SetSequenceInterval | src/index.ts:153 | Only the interval changes. |
| Registry.SetMustRelease | src/index.ts:155 | Only the must-release flag changes. |
| Registry.Reset | src/index.ts:170-174 | No listeners and no context remain. Key state, trigger marks and interval are kept. |
| Registry.MountIdempotent | src/index.ts:184-198 | Mounting twice is mounting once, and likewise for unmounting; mount then unmount restores an unmounted keyboard. |
| Registry.Mount | src/index.ts:184-190 | `mount` sets the flag and changes nothing else. |
| Registry.Unmount | src/index.ts:192-198 | `unmount` clears the flag and changes nothing else. |
| Registry.PressDownOne | src/index.ts:237-246 | One listener's press-down runs its executor exactly when it has one, its decision allows it and no `preventSame` mark blocks it. Only a firing combination sets its mark, and only a deferring sequence is scheduled. |
| Registry.PressDownAll | src/index.ts:132-133 | Across the current listeners, marks are only added, each by a combination whose keys are held in an allowed order. Every executor run belongs to a listener whose decision allowed it, and every deferral to a sequence that decided to defer. |
| Registry.CombinationFires | src/index.ts:132-133 | A current combination without `preventSame` whose conditions hold runs its executor, whatever the earlier listeners did. |
| Registry.SequenceFires | src/index.ts:132-133 | A current sequence whose decision is to fire at once runs its executor, whatever the earlier listeners did. |
| Registry.SequenceDeferred | src/index.ts:132-133 | A current sequence whose decision is to defer gets its re-check scheduled. |
| Registry.Keydown | src/index.ts:107-134 | Key state is updated first; the listeners then decide against it, as the revision reads line 269. Every executor run belongs to a current listener whose decision allowed it; every new deferral to a deferring current sequence. The listener list and context are untouched, deferrals queue after earlier ones, and the invariant is kept. |
| Registry.TimerElapsed | src/index.ts:273-276 | The oldest deferral is taken. Its executor runs exactly when it has one and at most one key is then held. Nothing else changes. |
| Registry.UndisturbedDeferralFires | src/index.ts:273-276 | When a key-down defers a press-down listener and no other key event follows, the timer step runs that listener's executor. |
| Registry.SecondKeyCancelsDeferral | src/index.ts:273-276 | When a new, non-repeat key is pressed while a key is held and a deferral is pending, the timer step runs nothing for the oldest deferral. |
| Registry.PressUpAll | src/index.ts:137-138 | On key-up, a mark is cleared and a press-up executor runs only for a listener whose keys were all held and which names the released key. Every such listener's mark ends up cleared. |
| Registry.Keyup | src/index.ts:136-147 | The listeners decide on the key state from before the release; only then are the pressed sets updated by the revision's release rule. Every executor run belongs to a current listener whose press-up condition held. The invariant is kept. |
| Registry.ReleaseFiresPressUp | src/index.ts:136-147 | A current listener whose keys are all held when one of them is released runs its press-up executor. |
| Registry.Blur | src/index.ts:176-182 | Blur empties the key state but keeps the trigger marks and the listeners. |
| Registry.Dispatch | src/index.ts:184-198 | An unmounted keyboard ignores every event. A mounted one runs the matching handler, and the invariant is kept. |
| Registry.OnlyActiveListenersFire | src/index.ts:132-150 | Every executor an event runs belongs to a bound listener that is active in the current context. |
| Bubble.SpecialKeyReplaceIsSplitJoin | website/Game/Bubble.tsx:19-33 | The rewrite replaces `up`, `down`, `left`, `right` and `equal` with `ArrowUp`, `ArrowDown`, `ArrowLeft`, `ArrowRight` and `+`, in that order. Each step splits on the alias and joins with its display name. |
| Bubble.NoAliasUnchanged | website/Game/Bubble.tsx:27-33 | Text naming no alias is returned unchanged. |
| Bubble.SufLenCommon | website/Game/Bubble.tsx:48-49 | The table cell's length is a common suffix of the two prefixes. |
| Bubble.SufLenMaximal | website/Game/Bubble.tsx:48-49 | No longer common suffix of the two prefixes exists. |
| Bubble.LongestCommonSubstring | website/Game/Bubble.tsx:43-54 | The scan returns a common substring of maximal length. Among all of maximal length it is the one ending earliest in the first string, because the update condition is a strict `>`. |
| Bubble.LongestFirstUnique | website/Game/Bubble.tsx:46-54 | That description pins the result down: at most one string meets it. |
| Bubble.NonEmptyParts | website/Game/Bubble.tsx:56 | The filter keeps exactly the non-empty parts. |
| Bubble.NonEmptyPartsAppend | website/Game/Bubble.tsx:56 | The filter keeps order and multiplicity. The non-empty parts of a concatenation are those of each half in turn, and a single part stays exactly when it is non-empty. |
| Bubble.TokenFilter | website/Game/Bubble.tsx:56-57 | The result is the common substring or `''`. It is `''` exactly when the substring is one non-empty token that is not a whole token of both inputs. |
| Bubble.GetLongestCommonSubsequence | website/Game/Bubble.tsx:35-59 | After swapping so that the first input is the shorter, the result is the token-filtered first-found longest common substring. It is `''` or a common substring, never longer than either input. |

## Left out

- **DOM wiring.** `mount` and `unmount` keep only the `mounted` flag. Attaching handlers is `Registry.Dispatch` ignoring events while unmounted.
- Registry.SetSequenceInterval: the interval is an `int`, while `setSequenceInterval` (line 153) accepts any JavaScript number. A fractional interval compared against integer millisecond gaps at line 118 behaves like its floor, which the model can express. `NaN` and `+Infinity` make the comparison `gap > interval` always false, so a timed record would only ever be extended. `-Infinity` makes it always true, so every press would restart the record. None of these three values is modelled.
- **Time.** `Date.now()` is the `now` parameter of a key-down. The source reads it up to twice per event type (line 118, then line 121 or 126), so up to six times in one key-down. The model assumes all those reads agree.
- **Characters.** A Dafny `char` is a Unicode scalar value, while a JavaScript string holds UTF-16 code units. A character outside the Basic Multilingual Plane is one element here and two in JavaScript. Key names, codes and separators are all ASCII. Only `Bubble.LongestCommonSubstring`, whose lengths count elements, could tell the difference, and only on such characters.
- **`setTimeout`.** The 100 ms re-check is a FIFO of pending listeners, resolved by the `Registry.TimerElapsed` step. The delay itself is not modelled.
- **`navigator`.** User agent and platform are the `Environment` parameter. `String.prototype.match` with a plain word is modelled as substring search.
- **Executors.** They are presence flags plus `Fired` outputs. Executors that throw, or that call back into the keyboard, are not modelled.
- **Regular expressions.** `/\b[a-zA-Z]\b/` is modelled as "exactly one ASCII letter". The two differ only on strings holding an isolated letter among other non-word characters, such as `"a b"`, which are neither table names nor browser `key` values. The `i` flag of line 269 is ASCII-only case folding. Escaping the trigger key is exact by construction, because the model compares strings.
- **Case mapping.** `toUpperCase` and `toLowerCase` are ASCII-only; only letter names are case-folded.
- **Option objects.** A `BindOption` field that is explicitly `undefined`, and a `null` `eventType` with line 75's fallback, are not distinguished from an absent field.
- Registry.ResolveOptions: only the string/array case is stated in its contract. The object case is its definition, field by field.
- **Object prototype names.** `keyNames[name]` for names such as `toString`, which JavaScript inherits from `Object.prototype`, is not modelled. Such names count as unknown.
- **Absent names.** `Rep` of a name the table lacks is `""`. Stored listeners only ever name known keys, as `Registry.Valid` states.
- **Key codes.** These are rendered as decimal strings. `JsText.DecimalStringInjective` shows no two codes collide. The source's `Set` would hold numbers, where the model holds their strings.
- **Trigger marks.** `triggeredRecord` is a set of trigger keys, because the source only ever stores `true`.
- **Identity.** Listener identity is the `id` field; two listeners are the same object exactly when their ids agree, which `Registry.Valid` keeps distinct.
- **Plain field reads.** `getCurrentContext` and `getAllListener` are the `context` and `listeners` fields.
- OrderedSet.Delete: the order of the remaining elements is not stated. The pressed-set order only matters through later `Add`s and the `+`-join, and is kept by the definition.
- Registry.PressDownAll: the order of the executors it runs is not stated; by the definition it is binding order. The converse direction is stated by `Registry.CombinationFires` for combinations without `preventSame`, and by `Registry.SequenceFires` and `Registry.SequenceDeferred` for sequences.
- Patterns.SplitKeysFrom: its contract states only that there is a token. The tokens themselves are stated by `Patterns.SplitKeysAgreesWithSplit` and by the round trips `Patterns.PatternTokensRoundTrip`.
- Registry.Bind: the appended listeners are described by their identities, options and executor flags. Their exact construction is in `Registry.MakeListenersContents`.
- **Demo site.** The React rendering half of `website/Game/Bubble.tsx` is not part of this model. Nor are the random pattern generator, the count-down worker, the other UI components and the build configuration.

Line 58 of `src/index.ts` is the bare expression statement `false;`, where a
`return false;` evidently belongs: line 70, `if (!parseResult) return false;`,
is written to make `bind` report failure when parsing fails. As written,
`parseBindKeys` returns `[]` when every pattern is dropped, and so does
`bind`. `Patterns.ParseBindKeysAsWritten` models the code, and
`Patterns.ParseBindKeys` models the intent (first finding below). Which of
the two a keyboard uses is set by its revision.

## Findings

| source | as written | input that shows it | evidently intended | confidence | as-written member | corrected member |
|---|---|---|---|---|---|---|
| src/index.ts:58 | `if (!splitKeys.length) false;` is a statement with no effect, so `parseBindKeys`, and hence `bind`, returns `[]` when every pattern is dropped | `bind("unknownkey", f)` | `return false`, so that `bind` signals failure | high; not executed | Patterns.ParseBindKeysAsWritten | Patterns.ParseBindKeys |
| src/index.ts:145 | key-up deletes the raw `event.key`, while key-down stored `'+'` as `'equal'` at line 110 | key-down then key-up of the key whose `key` is `+` leaves `'equal'` in the pressed set | delete the same representation that was stored | high; not executed | Tracker.ReleaseAsWritten | Tracker.Release |
| src/index.ts:269 | the sequence condition is a plain suffix match, so a trigger key can match the tail of a longer key name | sequence `e->x`, case-sensitive, fires after `Escape` then `x`, because the record `Escape->x` ends with `e->x` | match whole presses: the record equals the trigger key or ends with `->` followed by it | medium; not executed | Listeners.SequencePressDownAsWritten | Listeners.SequencePressDown |
