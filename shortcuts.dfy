/**
 * The keyboard-shortcut dispatcher of the terminal component: what one keydown
 * event makes the installed handler do.
 *
 * The handler's side effects are recorded as a sequence of effect tokens:
 * `FocusInput` and `Clear` stand for the calls `terminal.focusInput()` and
 * `terminal.clear()` on the terminal collaborator, and `PreventDefault` for
 * `e.preventDefault()` on the event.
 */
module Shortcuts {
  import JsString

  datatype Option<T> = None | Some(value: T)

  /** One side effect of the keydown handler. */
  datatype Effect = FocusInput | Clear | PreventDefault

  /** The parts of a keydown event the handler reads. */
  datatype KeyEvent = KeyEvent(
    key: string,      // the logical key value, e.g. "a", "Enter"
    code: string,     // the physical key identifier, e.g. "KeyL"
    ctrlKey: bool,
    metaKey: bool,
    shiftKey: bool)

  /**
   * One registry record. The modifier flags are optional in the source; an
   * absent flag is `None`. The action is the fixed sequence of effects it
   * performs when it fires.
   */
  datatype Shortcut = Shortcut(
    code: string,
    ctrlKey: Option<bool>,
    metaKey: Option<bool>,
    shiftKey: Option<bool>,
    action: seq<Effect>)

  /** JavaScript's `!!flag` on an optional boolean: absent reads as false. */
  function Flag(flag: Option<bool>): (b: bool)
    ensures b <==> flag == Some(true)
  {
    match flag
    case None => false
    case Some(v) => v
  }

  /** `key >= "a" && key <= "z"` with JavaScript's string comparison. */
  predicate InLetterRange(key: string) {
    JsString.LessOrEqual("a", key) && JsString.LessOrEqual(key, "z")
  }

  /** The auto-focus fast path: a key in the letter range and no modifier held. */
  predicate AutoFocus(e: KeyEvent) {
    InLetterRange(e.key) && !e.metaKey && !e.shiftKey && !e.ctrlKey
  }

  /** A registry entry fires for an event: same code, and each modifier flag equal. */
  predicate Matches(e: KeyEvent, s: Shortcut) {
    e.code == s.code &&
    e.ctrlKey == Flag(s.ctrlKey) &&
    e.metaKey == Flag(s.metaKey) &&
    e.shiftKey == Flag(s.shiftKey)
  }

  /** What one registry entry contributes to the handling of an event. */
  function Step(e: KeyEvent, s: Shortcut): seq<Effect> {
    if Matches(e, s) then s.action else []
  }

  /**
   * The effects of the matching loop over `registry`: every entry is visited in
   * order and each one that matches performs its action.
   */
  function Fire(e: KeyEvent, registry: seq<Shortcut>): seq<Effect>
    decreases |registry|
  {
    if registry == [] then []
    else Fire(e, registry[..|registry| - 1]) + Step(e, registry[|registry| - 1])
  }

  /** The effects of the keydown handler: the fast path, else the matching loop. */
  function Dispatch(e: KeyEvent, registry: seq<Shortcut>): seq<Effect> {
    if AutoFocus(e) then [FocusInput] else Fire(e, registry)
  }

  /** The clear-screen action: suppress the browser's default, then clear. */
  const ClearAction: seq<Effect> := [PreventDefault, Clear]

  /** The paste, backspace and enter actions: only refocus the input. */
  const FocusAction: seq<Effect> := [FocusInput]

  /** The default registry `shortcutList`, in source order. */
  const ShortcutList: seq<Shortcut> := [
    Shortcut("KeyL", Some(true), None, None, ClearAction),
    Shortcut("KeyV", None, Some(true), None, FocusAction),
    Shortcut("Backspace", None, None, None, FocusAction),
    Shortcut("Enter", None, None, None, FocusAction)
  ]

  // ---------------------------------------------------------------------------
  // The auto-focus range

  /**
   * The lexicographic range "a".."z" holds exactly the keys whose first
   * character is one of 'a' to 'y', and the key "z" itself: any longer key
   * starting with 'a'..'y' qualifies, the empty key and "za" do not.
   */
  lemma InLetterRangeIff(key: string)
    ensures InLetterRange(key) <==> (|key| > 0 && 'a' <= key[0] < 'z') || key == "z"
  {
    if key != [] {
      if key[0] == 'a' {
        assert "a"[1..] == [];
        assert !JsString.Less(key[1..], []);
      }
      if key[0] == 'z' {
        assert "z"[1..] == [];
        assert JsString.Less("z", key) <==> key[1..] != [];
        assert key[1..] == [] <==> key == "z";
      }
    }
  }

  /** On a one-character key the range test is the lower-case letter test. */
  lemma InLetterRangeSingleChar(c: char)
    ensures InLetterRange([c]) <==> 'a' <= c <= 'z'
  {
  }

  /** Examples of the range being a string comparison and not a single-letter test. */
  lemma InLetterRangeExamples()
    ensures InLetterRange("ab") && InLetterRange("yes") && InLetterRange("z")
    ensures !InLetterRange("za") && !InLetterRange("") && !InLetterRange("{")
    ensures !InLetterRange("Enter") && !InLetterRange("Backspace") && !InLetterRange("A")
  {
  }

  /** A key that starts with a character before 'a' (every upper-case letter) never qualifies. */
  lemma NoAutoFocusBelowA(e: KeyEvent)
    requires |e.key| > 0 && e.key[0] < 'a'
    ensures !AutoFocus(e)
  {
  }

  /**
   * The fast path takes precedence: when it applies the handler only refocuses
   * the input, whatever the code and whatever the registry holds.
   */
  lemma AutoFocusWins(e: KeyEvent, registry: seq<Shortcut>)
    requires InLetterRange(e.key) && !e.ctrlKey && !e.metaKey && !e.shiftKey
    ensures Dispatch(e, registry) == [FocusInput]
  {
  }

  // ---------------------------------------------------------------------------
  // The matching loop

  /** Exact equality of every modifier: holding an extra modifier defeats a match. */
  lemma MatchesNeedsExactModifiers(e: KeyEvent, s: Shortcut)
    requires Matches(e, s)
    ensures e.code == s.code
    ensures e.ctrlKey <==> s.ctrlKey == Some(true)
    ensures e.metaKey <==> s.metaKey == Some(true)
    ensures e.shiftKey <==> s.shiftKey == Some(true)
  {
  }

  /** The loop over two registries in a row performs the first one's effects, then the second's. */
  lemma {:induction false} FireAppend(e: KeyEvent, r1: seq<Shortcut>, r2: seq<Shortcut>)
    ensures Fire(e, r1 + r2) == Fire(e, r1) + Fire(e, r2)
    decreases |r2|
  {
    if r2 == [] {
      assert r1 + r2 == r1;
    } else {
      var n := |r2| - 1;
      assert (r1 + r2)[..|r1 + r2| - 1] == r1 + r2[..n];
      assert (r1 + r2)[|r1 + r2| - 1] == r2[n];
      FireAppend(e, r1, r2[..n]);
    }
  }

  /** A one-entry registry performs that entry's action exactly when it matches. */
  lemma FireSingle(e: KeyEvent, s: Shortcut)
    ensures Fire(e, [s]) == if Matches(e, s) then s.action else []
  {
  }

  /**
   * An effect is performed by the loop exactly when some matching entry's action
   * contains it.
   */
  lemma {:induction false} FireContains(e: KeyEvent, registry: seq<Shortcut>, x: Effect)
    ensures x in Fire(e, registry) <==>
            exists i :: 0 <= i < |registry| && Matches(e, registry[i]) && x in registry[i].action
    decreases |registry|
  {
    if registry != [] {
      var n := |registry| - 1;
      var init := registry[..n];
      FireContains(e, init, x);
      if x in Fire(e, registry) && x !in Fire(e, init) {
        assert Matches(e, registry[n]) && x in registry[n].action;
      }
      forall i | 0 <= i < n
        ensures registry[i] == init[i]
      {
      }
    }
  }

  /** When no entry matches, the loop performs nothing. */
  lemma {:induction false} FireNoMatch(e: KeyEvent, registry: seq<Shortcut>)
    requires forall i :: 0 <= i < |registry| ==> !Matches(e, registry[i])
    ensures Fire(e, registry) == []
    decreases |registry|
  {
    if registry != [] {
      FireNoMatch(e, registry[..|registry| - 1]);
    }
  }

  /** When exactly the entry at `k` matches, the loop performs that entry's action and nothing else. */
  lemma FireOnly(e: KeyEvent, registry: seq<Shortcut>, k: nat)
    requires k < |registry| && Matches(e, registry[k])
    requires forall i :: 0 <= i < |registry| && i != k ==> !Matches(e, registry[i])
    ensures Fire(e, registry) == registry[k].action
  {
    var before, after := registry[..k], registry[k + 1..];
    assert registry == before + [registry[k]] + after;
    FireNoMatch(e, before);
    FireNoMatch(e, after);
    FireAppend(e, before + [registry[k]], after);
    FireAppend(e, before, [registry[k]]);
    FireSingle(e, registry[k]);
  }

  /**
   * The loop does not stop at the first match: two entries that both match fire
   * both, in registry order.
   */
  lemma FireOverlapping(e: KeyEvent, s1: Shortcut, s2: Shortcut)
    requires Matches(e, s1) && Matches(e, s2)
    ensures Fire(e, [s1, s2]) == s1.action + s2.action
  {
    FireAppend(e, [s1], [s2]);
    FireSingle(e, s1);
    FireSingle(e, s2);
  }

  /** Outside the fast path the handler is exactly the matching loop. */
  lemma DispatchOutsideFastPath(e: KeyEvent, registry: seq<Shortcut>)
    requires !AutoFocus(e)
    ensures forall x :: x in Dispatch(e, registry) <==>
              exists i :: 0 <= i < |registry| && Matches(e, registry[i]) && x in registry[i].action
  {
    forall x ensures x in Dispatch(e, registry) <==>
              exists i :: 0 <= i < |registry| && Matches(e, registry[i]) && x in registry[i].action
    {
      FireContains(e, registry, x);
    }
  }

  // ---------------------------------------------------------------------------
  // The default registry

  /** The four default entries have pairwise distinct codes. */
  lemma DefaultCodesDistinct()
    ensures |ShortcutList| == 4
    ensures forall i, j :: 0 <= i < j < |ShortcutList| ==> ShortcutList[i].code != ShortcutList[j].code
  {
  }

  /** So at most one default entry matches any event. */
  lemma DefaultAtMostOneMatch(e: KeyEvent, i: nat, j: nat)
    requires i < |ShortcutList| && j < |ShortcutList|
    requires Matches(e, ShortcutList[i]) && Matches(e, ShortcutList[j])
    ensures i == j
  {
  }

  /** The default shortcut table, written out case by case. */
  function DefaultTable(e: KeyEvent): seq<Effect> {
    var plain := !e.ctrlKey && !e.metaKey && !e.shiftKey;
    if AutoFocus(e) then [FocusInput]
    else if e.code == "KeyL" && e.ctrlKey && !e.metaKey && !e.shiftKey then [PreventDefault, Clear]
    else if e.code == "KeyV" && !e.ctrlKey && e.metaKey && !e.shiftKey then [FocusInput]
    else if e.code == "Backspace" && plain then [FocusInput]
    else if e.code == "Enter" && plain then [FocusInput]
    else []
  }

  /** The handler over the default registry behaves as the table says, for every event. */
  lemma DefaultDispatch(e: KeyEvent)
    ensures Dispatch(e, ShortcutList) == DefaultTable(e)
  {
    var l := ShortcutList;
    assert Fire(e, l[..1]) == Step(e, l[0]) by {
      assert l[..1][..0] == [];
    }
    assert Fire(e, l[..2]) == Fire(e, l[..1]) + Step(e, l[1]) by {
      assert l[..2][..1] == l[..1];
    }
    assert Fire(e, l[..3]) == Fire(e, l[..2]) + Step(e, l[2]) by {
      assert l[..3][..2] == l[..2];
    }
    assert Fire(e, l) == Fire(e, l[..3]) + Step(e, l[3]);
  }

  /**
   * Ctrl+L clears the screen, suppressing the browser's default before
   * clearing, whatever the key value: Ctrl defeats the fast path.
   */
  lemma CtrlLClearsAnyKey(key: string)
    ensures Dispatch(KeyEvent(key, "KeyL", true, false, false), ShortcutList) == [PreventDefault, Clear]
  {
    DefaultDispatch(KeyEvent(key, "KeyL", true, false, false));
  }

  /** Meta+V only refocuses the input and leaves the native paste alone. */
  lemma MetaVFocuses(key: string)
    ensures Dispatch(KeyEvent(key, "KeyV", false, true, false), ShortcutList) == [FocusInput]
    ensures PreventDefault !in Dispatch(KeyEvent(key, "KeyV", false, true, false), ShortcutList)
  {
    DefaultDispatch(KeyEvent(key, "KeyV", false, true, false));
  }

  /**
   * The paste entry is labelled "Ctrl + V" but demands Meta and no Ctrl, so
   * Ctrl+V itself does nothing.
   */
  lemma CtrlVDoesNothing(key: string)
    ensures Dispatch(KeyEvent(key, "KeyV", true, false, false), ShortcutList) == []
  {
    DefaultDispatch(KeyEvent(key, "KeyV", true, false, false));
  }

  /** Plain Backspace and Enter refocus the input. */
  lemma BackspaceAndEnterFocus()
    ensures Dispatch(KeyEvent("Backspace", "Backspace", false, false, false), ShortcutList) == [FocusInput]
    ensures Dispatch(KeyEvent("Enter", "Enter", false, false, false), ShortcutList) == [FocusInput]
  {
    NoAutoFocusBelowA(KeyEvent("Backspace", "Backspace", false, false, false));
    NoAutoFocusBelowA(KeyEvent("Enter", "Enter", false, false, false));
    DefaultDispatch(KeyEvent("Backspace", "Backspace", false, false, false));
    DefaultDispatch(KeyEvent("Enter", "Enter", false, false, false));
  }

  /** Ctrl+Shift+L is not Ctrl+L: the extra Shift means no entry fires. */
  lemma CtrlShiftLDoesNothing(key: string)
    ensures Dispatch(KeyEvent(key, "KeyL", true, false, true), ShortcutList) == []
  {
    DefaultDispatch(KeyEvent(key, "KeyL", true, false, true));
  }

  /** An event outside the fast path whose code or modifiers match no entry does nothing. */
  lemma UnmatchedDoesNothing(e: KeyEvent)
    requires !AutoFocus(e)
    requires forall i :: 0 <= i < |ShortcutList| ==> !Matches(e, ShortcutList[i])
    ensures Dispatch(e, ShortcutList) == []
  {
    FireNoMatch(e, ShortcutList);
  }
}
