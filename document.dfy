/**
 * `registerShortcuts` and the page's single keydown handler slot
 * (`document.onkeydown`). The terminal collaborator is represented by an opaque
 * handle; every effect the handler performs is appended to the page's log,
 * tagged with the terminal the handler was bound to.
 */
module KeyboardDocument {
  import opened Shortcuts

  /** An opaque identity for a terminal instance. */
  type TerminalHandle = nat

  /** The handler `registerShortcuts` installs: it closes over one terminal. */
  datatype Handler = Handler(terminal: TerminalHandle)

  /** One performed effect and the terminal whose handler performed it. */
  datatype Record = Record(terminal: TerminalHandle, effect: Effect)

  /** Tags each effect of a sequence with the terminal `t`. */
  function Tagged(t: TerminalHandle, effects: seq<Effect>): (r: seq<Record>)
    ensures |r| == |effects|
  {
    if effects == [] then [] else [Record(t, effects[0])] + Tagged(t, effects[1..])
  }

  /** Every tagged record carries the effect at the same position and the terminal `t`. */
  lemma {:induction false} TaggedAt(t: TerminalHandle, effects: seq<Effect>, i: nat)
    requires i < |effects|
    ensures Tagged(t, effects)[i] == Record(t, effects[i])
  {
    if i > 0 {
      TaggedAt(t, effects[1..], i - 1);
    }
  }

  /** Tagging two effect sequences in a row is tagging each of them. */
  lemma {:induction false} TaggedAppend(t: TerminalHandle, a: seq<Effect>, b: seq<Effect>)
    ensures Tagged(t, a + b) == Tagged(t, a) + Tagged(t, b)
  {
    if a != [] {
      assert (a + b)[1..] == a[1..] + b;
      TaggedAppend(t, a[1..], b);
    } else {
      assert a + b == b;
    }
  }

  /** What one keydown event appends to the log under the slot's current content. */
  function KeyDownRecords(slot: Option<Handler>, e: KeyEvent): seq<Record> {
    match slot
    case None => []
    case Some(h) => Tagged(h.terminal, Dispatch(e, ShortcutList))
  }

  /** The page: one overwritable handler slot and the log of performed effects. */
  class Document {
    var onkeydown: Option<Handler>
    var log: seq<Record>

    constructor ()
      ensures onkeydown == None && log == []
    {
      onkeydown := None;
      log := [];
    }

    /** `registerShortcuts(terminal)`: overwrite the slot with a handler bound to `t`. */
    method RegisterShortcuts(t: TerminalHandle)
      modifies this`onkeydown
      ensures onkeydown == Some(Handler(t))
      ensures log == old(log)
    {
      onkeydown := Some(Handler(t));
    }

    /**
     * A keydown event reaches the page: the installed handler, if any, runs the
     * fast path or the matching loop over the default registry, performing each
     * action's effects in turn.
     */
    method KeyDown(e: KeyEvent)
      modifies this`log
      ensures onkeydown == old(onkeydown)
      ensures log == old(log) + KeyDownRecords(onkeydown, e)
    {
      if onkeydown.None? {
        return;
      }
      var t := onkeydown.value.terminal;
      if AutoFocus(e) {
        log := log + [Record(t, FocusInput)];
        return;
      }
      RunShortcuts(t, e, ShortcutList);
    }

    /**
     * The matching loop of the handler bound to `t`: walk `registry` in order and
     * let every matching entry perform its action; no early exit.
     */
    method RunShortcuts(t: TerminalHandle, e: KeyEvent, registry: seq<Shortcut>)
      modifies this`log
      ensures log == old(log) + Tagged(t, Fire(e, registry))
    {
      for i := 0 to |registry|
        invariant log == old(log) + Tagged(t, Fire(e, registry[..i]))
      {
        assert registry[..i + 1][..i] == registry[..i];
        TaggedAppend(t, Fire(e, registry[..i]), Step(e, registry[i]));
        if Matches(e, registry[i]) {
          log := log + Tagged(t, registry[i].action);
        }
      }
      assert registry[..|registry|] == registry;
    }
  }

  /**
   * Registering twice, with the same terminal or another, leaves one handler:
   * a following keydown performs its effects once, all bound to the terminal of
   * the later registration.
   */
  method RegisterTwiceThenKeyDown(t1: TerminalHandle, t2: TerminalHandle, e: KeyEvent)
    returns (slot: Option<Handler>, log: seq<Record>)
    ensures slot == Some(Handler(t2))
    ensures |log| == |Dispatch(e, ShortcutList)|
    ensures forall i :: 0 <= i < |log| ==> log[i] == Record(t2, Dispatch(e, ShortcutList)[i])
  {
    var d := new Document();
    d.RegisterShortcuts(t1);
    d.RegisterShortcuts(t2);
    d.KeyDown(e);
    slot, log := d.onkeydown, d.log;
    forall i | 0 <= i < |log| ensures log[i] == Record(t2, Dispatch(e, ShortcutList)[i]) {
      TaggedAt(t2, Dispatch(e, ShortcutList), i);
    }
  }

  /** Under a registered handler, Ctrl+L logs the default suppression and then the clear for that terminal. */
  method CtrlLAfterRegistration(t: TerminalHandle) returns (log: seq<Record>)
    ensures log == [Record(t, PreventDefault), Record(t, Clear)]
  {
    var d := new Document();
    d.RegisterShortcuts(t);
    CtrlLClearsAnyKey("l");
    d.KeyDown(KeyEvent("l", "KeyL", true, false, false));
    log := d.log;
    TaggedAt(t, [PreventDefault, Clear], 0);
    TaggedAt(t, [PreventDefault, Clear], 1);
  }
}
