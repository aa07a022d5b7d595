# Keyboard-shortcut dispatcher of the terminal component

A Dafny model of `src/components/terminal/shortcuts.ts`: `registerShortcuts`
installs one handler in the page's single `document.onkeydown` slot, bound to a
terminal. For every keydown event the handler makes one decision:

1. **Auto-focus fast path.** If the key value lies between `"a"` and `"z"` in
   JavaScript's string order and none of Meta, Shift, Ctrl is held, it calls
   `terminal.focusInput()` and stops.
2. **Matching loop.** Otherwise it walks the registry `shortcutList` in order
   and runs the action of every entry whose `code` equals the event's code and
   whose three modifier flags equal the event's flags. An absent flag reads as
   false. The loop does not stop at the first match.

The default registry has four entries: Ctrl+KeyL (suppress the browser default,
then clear), Meta+KeyV, Backspace and Enter (each only refocuses the input).

Files and modules:

- `js_string.dfy`, module `JsString`: JavaScript's `<` and `<=` on strings,
  with proofs that `Less` is the position-wise lexicographic order and that
  `LessOrEqual` is a total order.
- `shortcuts.dfy`, module `Shortcuts`: events, effects and registry records as
  datatypes. It defines the pure decision: `AutoFocus`, `Matches`, the loop's
  effects `Fire`, the handler's effects `Dispatch`, and the default registry
  `ShortcutList`. The lemmas state the properties of these.
- `document.dfy`, module `KeyboardDocument`: the class `Document`. It has the
  overwritable handler slot `onkeydown` and a log of performed effects. Each
  log record is tagged with the terminal the handler was bound to.
  `RegisterShortcuts` overwrites the slot. `KeyDown` runs the installed
  handler. `RunShortcuts` is the matching loop, and it appends each action's
  effects to the log as it goes.

The fast-path test is a string comparison, not a single-letter test: `"ab"`
or `"yes"` also qualifies, and `"za"` does not (`Shortcuts.InLetterRangeIff`).
On one-character keys it is exactly the lower-case-letter test
(`Shortcuts.InLetterRangeSingleChar`). It never accepts the named key values,
which start with an upper-case letter (`Shortcuts.NoAutoFocusBelowA`).

The paste entry's display label (`keyDesc`) reads "Ctrl + V", but the entry
demands Meta and no Ctrl. So Meta+V refocuses the input, and Ctrl+V makes the handler perform no effect
(`Shortcuts.MetaVFocuses`, `Shortcuts.CtrlVDoesNothing`).

## Model

| member | source | states |
|---|---|---|
| `JsString.Less` | src/components/terminal/shortcuts.ts:16 | defines JavaScript's `a < b` on strings (first differing character decides, a proper prefix is smaller); its properties are stated by `JsString.LessIffSplits`, `JsString.LessIrreflexive`, `JsString.LessTrichotomous` and `JsString.LessTransitive` |
| `JsString.LessOrEqual` | src/components/terminal/shortcuts.ts:16 | defines JavaScript's `a <= b` on strings as `!(b < a)`; `JsString.LessOrEqualTotalOrder` states that it is a total order |
| `JsString.LessIffSplits` | src/components/terminal/shortcuts.ts:16 | the string `<` used by the fast-path test holds iff at some position `k` the two strings agree before `k`, and there the left one has ended while the right goes on, or the left has the smaller character |
| `JsString.LessIrreflexive` | src/components/terminal/shortcuts.ts:16 | no string is smaller than itself |
| `JsString.LessTrichotomous` | src/components/terminal/shortcuts.ts:16 | of two distinct strings exactly one is smaller than the other |
| `JsString.LessTransitive` | src/components/terminal/shortcuts.ts:16 | string `<` is transitive |
| `JsString.LessOrEqualTotalOrder` | src/components/terminal/shortcuts.ts:16 | string `<=` is reflexive, antisymmetric, transitive and total |
| `Shortcuts.InLetterRange` | src/components/terminal/shortcuts.ts:16 | defines the test `key >= "a" && key <= "z"`; `Shortcuts.InLetterRangeIff` states exactly which keys pass it |
| `Shortcuts.AutoFocus` | src/components/terminal/shortcuts.ts:16 | defines the fast-path condition: the key in range and none of Meta, Shift, Ctrl held; `Shortcuts.AutoFocusWins` states its precedence |
| `Shortcuts.Matches` | src/components/terminal/shortcuts.ts:23-27 | defines when an entry fires: equal code and each modifier equal to the `!!`-coerced flag; `Shortcuts.MatchesNeedsExactModifiers` states the exact-equality reading |
| `Shortcuts.Step` | src/components/terminal/shortcuts.ts:23-30 | defines one loop iteration: the entry's action if it matches, else nothing; `Shortcuts.FireSingle` states it for a one-entry registry |
| `Shortcuts.Fire` | src/components/terminal/shortcuts.ts:22-31 | defines the matching loop's effects over a registry, in order and without early exit; `Shortcuts.FireAppend`, `Shortcuts.FireContains`, `Shortcuts.FireNoMatch`, `Shortcuts.FireOnly` and `Shortcuts.FireOverlapping` state its properties |
| `Shortcuts.Dispatch` | src/components/terminal/shortcuts.ts:12-32 | defines the handler's effects: `[FocusInput]` on the fast path, else the loop's; `Shortcuts.AutoFocusWins`, `Shortcuts.DispatchOutsideFastPath` and `Shortcuts.DefaultDispatch` state its properties |
| `Shortcuts.Flag` | src/components/terminal/shortcuts.ts:25-27 | `!!flag` on an optional registry flag is true exactly when the flag is present and true |
| `Shortcuts.InLetterRangeIff` | src/components/terminal/shortcuts.ts:16 | `key >= "a" && key <= "z"` holds exactly for keys that are non-empty and start with 'a' to 'y', and for the key `"z"` |
| `Shortcuts.InLetterRangeSingleChar` | src/components/terminal/shortcuts.ts:16 | on a one-character key the range test is exactly "a lower-case ASCII letter" |
| `Shortcuts.InLetterRangeExamples` | src/components/terminal/shortcuts.ts:16 | `"ab"`, `"yes"` and `"z"` are in range; `"za"`, `""`, `"{"`, `"A"`, `"Enter"` and `"Backspace"` are not |
| `Shortcuts.NoAutoFocusBelowA` | src/components/terminal/shortcuts.ts:16-19 | a key starting with a character below 'a' (every upper-case letter) never takes the fast path |
| `Shortcuts.AutoFocusWins` | src/components/terminal/shortcuts.ts:16-19 | an in-range key with no modifier yields exactly `[FocusInput]`, whatever the code and whatever the registry |
| `Shortcuts.MatchesNeedsExactModifiers` | src/components/terminal/shortcuts.ts:23-27 | an entry matches only when the codes are equal and each held modifier is exactly the one the entry demands (absent means not held) |
| `Shortcuts.FireAppend` | src/components/terminal/shortcuts.ts:22-31 | looping over two registries in a row performs the effects of the first, then those of the second |
| `Shortcuts.FireSingle` | src/components/terminal/shortcuts.ts:23-30 | a one-entry registry performs that entry's action iff it matches, else nothing |
| `Shortcuts.FireContains` | src/components/terminal/shortcuts.ts:22-31 | an effect is performed by the loop iff some matching entry's action contains it |
| `Shortcuts.FireNoMatch` | src/components/terminal/shortcuts.ts:22-31 | when no entry matches, the loop performs nothing |
| `Shortcuts.FireOnly` | src/components/terminal/shortcuts.ts:22-31 | when exactly one entry matches, the loop performs exactly its action |
| `Shortcuts.FireOverlapping` | src/components/terminal/shortcuts.ts:22-31 | two entries that both match both fire, in registry order: no early exit |
| `Shortcuts.DispatchOutsideFastPath` | src/components/terminal/shortcuts.ts:21-31 | outside the fast path an effect is performed iff some matching entry's action contains it |
| `Shortcuts.DefaultCodesDistinct` | src/components/terminal/shortcuts.ts:51-83 | the default registry has four entries with pairwise distinct codes |
| `Shortcuts.DefaultAtMostOneMatch` | src/components/terminal/shortcuts.ts:51-83 | at most one default entry matches any event |
| `Shortcuts.DefaultDispatch` | src/components/terminal/shortcuts.ts:12-83 | for every event the handler over the default registry does what the shortcut table says: fast path, Ctrl+KeyL, Meta+KeyV, plain Backspace, plain Enter, else nothing |
| `Shortcuts.CtrlLClearsAnyKey` | src/components/terminal/shortcuts.ts:16-60 | Ctrl+KeyL yields `[PreventDefault, Clear]` whatever the key value, since Ctrl defeats the fast path |
| `Shortcuts.MetaVFocuses` | src/components/terminal/shortcuts.ts:62-69 | Meta+KeyV yields `[FocusInput]` and never suppresses the default |
| `Shortcuts.CtrlVDoesNothing` | src/components/terminal/shortcuts.ts:62-69 | Ctrl+KeyV, despite the entry's "Ctrl + V" label, matches no entry and yields nothing |
| `Shortcuts.BackspaceAndEnterFocus` | src/components/terminal/shortcuts.ts:71-81 | plain Backspace and plain Enter, with their real key values, yield `[FocusInput]` |
| `Shortcuts.CtrlShiftLDoesNothing` | src/components/terminal/shortcuts.ts:23-60 | Ctrl+Shift+KeyL does not trigger the Ctrl+KeyL entry and yields nothing |
| `Shortcuts.UnmatchedDoesNothing` | src/components/terminal/shortcuts.ts:21-83 | an event outside the fast path that matches no default entry yields the empty effect list |
| `KeyboardDocument.Tagged` | src/components/terminal/shortcuts.ts:11-12 | tags each effect with the terminal the handler closes over, one record per effect (same length); `KeyboardDocument.TaggedAt` and `KeyboardDocument.TaggedAppend` state the rest |
| `KeyboardDocument.KeyDownRecords` | src/components/terminal/shortcuts.ts:12-32 | defines what one keydown appends to the log: nothing with no handler installed, else the installed handler's effects over the default registry tagged with its terminal; `KeyboardDocument.Document.KeyDown` is proved against it |
| `KeyboardDocument.TaggedAt` | src/components/terminal/shortcuts.ts:11-12 | each logged record carries the effect at the same position and the terminal the handler closes over |
| `KeyboardDocument.TaggedAppend` | src/components/terminal/shortcuts.ts:22-31 | logging two effect sequences in a row logs each of them, in order |
| `KeyboardDocument.Document.constructor` | src/components/terminal/shortcuts.ts:12 | a fresh page has no handler installed and an empty log |
| `KeyboardDocument.Document.RegisterShortcuts` | src/components/terminal/shortcuts.ts:11-12 | registration overwrites the one handler slot with a handler bound to the given terminal and performs no effect |
| `KeyboardDocument.Document.KeyDown` | src/components/terminal/shortcuts.ts:12-32 | a keydown appends to the log exactly the installed handler's effects for the event over the default registry, tagged with its terminal; nothing when no handler is installed; the slot is unchanged |
| `KeyboardDocument.Document.RunShortcuts` | src/components/terminal/shortcuts.ts:21-31 | the loop appends to the log the effects of every matching entry, in registry order, tagged with the handler's terminal |
| `KeyboardDocument.RegisterTwiceThenKeyDown` | src/components/terminal/shortcuts.ts:11-12 | after two registrations, even of the same terminal, one handler is installed: a keydown logs its effects once, all bound to the later terminal |
| `KeyboardDocument.CtrlLAfterRegistration` | src/components/terminal/shortcuts.ts:52-60 | with a registered handler, Ctrl+L logs the default suppression, then the clear, both for that terminal |

## Left out

- `vite.config.ts` is bundler configuration with no behaviour; it is not part of this model.
- The DOM is not modelled. The `KeyboardEvent` becomes the record `KeyEvent` with the five fields the handler reads. `e.preventDefault()` becomes the effect token `PreventDefault`. The `document.onkeydown` slot becomes the field `Document.onkeydown`.
- The terminal collaborator (`TerminalType` from `./type`) is not part of this model. A terminal is an opaque handle, and `focusInput()`/`clear()` are effect tokens appended to a log.
- An action takes `(e, terminal)` in the source. Here it is a fixed effect sequence, because none of the four default actions reads the event beyond calling `preventDefault`.
- The `desc` and `keyDesc` fields carry no behaviour and are dropped.
- `altKey` and the other event fields are never read by the handler, so they are not in `KeyEvent`.
- The browser's native paste, which goes on after Meta+V, is browser behaviour outside the code.
- `JsString.Less`: JavaScript compares strings by UTF-16 code unit. The model compares Dafny characters, which are Unicode scalar values. The two orders differ only between characters above U+FFFF and those from U+E000 to U+FFFF. Every comparison the handler makes is against `"a"` or `"z"`, and there the two orders agree.
- A keydown event whose `key` is not a string (as some browsers fire on autofill) is not modelled: `key` is always a string here.
