/** `Element` (release 0.6.3): display name, attribute reads, the
    disabled-element guard on user actions, the event names of the key and
    mouse helpers, and the highlight save/restore over the background colour. */
module Elements {
  import opened Wrappers
  import opened Utility
  import opened Native
  import AttributeBag

  /** What the wrapper reads from its DOM element. */
  datatype Element = Element(
    id: Option<string>,
    title: Option<string>,
    text: Option<string>,       // `innerText`
    disabled: bool,             // `IHTMLElement3.disabled`
    native: NativeElement
  )

  /** `Enabled` is the negation of the DOM's `disabled` flag. */
  predicate Enabled(e: Element) {
    !e.disabled
  }

  /** `ToString`: the title when it is neither null nor empty, else the text. */
  function ToString(e: Element): (r: Option<string>)
    ensures r == FirstNotNullOrEmpty([e.title], e.text)
  {
    if !IsNullOrEmpty(e.title) then e.title else e.text
  }

  /** `GetAttributeValue`: the attribute cast to a string; any failure of the
      read or of the cast (`DBNull`, a non-string object) yields `null`. */
  function GetAttributeValue(e: Element, attributeName: string): (r: Option<string>)
    ensures r.Some? <==> e.native.getAttribute(attributeName).Returns? && e.native.getAttribute(attributeName).value.Text?
    ensures r.Some? ==> r.value == e.native.getAttribute(attributeName).value.s
  {
    match e.native.getAttribute(attributeName)
    case Throws => None
    case Returns(Text(s)) => Some(s)
    case Returns(_) => None
  }

  /** For a plain attribute name, `GetAttributeValue` and the attribute bag
      agree on strings and on null; they part on non-string values, which the
      bag prints and the element drops, and on a throwing read, which the bag
      propagates and the element turns into null. */
  lemma GetAttributeValueVersusBag(e: Element, name: string)
    requires AttributeBag.Route(name).PlainAttribute?
    ensures var bag := AttributeBag.NewBag(Some(e.native), 0);
      match e.native.getAttribute(name)
      case Returns(Text(s)) => AttributeBag.GetValue(bag, Some(name)) == Success(GetAttributeValue(e, name))
      case Returns(NullRef) => AttributeBag.GetValue(bag, Some(name)) == Success(GetAttributeValue(e, name))
      case Returns(DBNull) => AttributeBag.GetValue(bag, Some(name)) == Success(GetAttributeValue(e, name))
      case Returns(Other(repr)) => AttributeBag.GetValue(bag, Some(name)) == Success(Some(repr)) && GetAttributeValue(e, name).None?
      case Throws => AttributeBag.GetValue(bag, Some(name)).Failure? && GetAttributeValue(e, name).None?
  {
  }

  /** The key and mouse helpers, each of which fires one fixed event. */
  datatype EventHelper = KeyDown | KeyPress | KeyUp | Blur | Change | MouseEnter | MouseDown | MouseUp

  /** The event name each helper passes to `FireEvent`. */
  function HelperEventName(h: EventHelper): string {
    match h
    case KeyDown => "onKeyDown"
    case KeyPress => "onKeyPress"
    case KeyUp => "onKeyUp"
    case Blur => "onBlur"
    case Change => "onChange"
    case MouseEnter => "onMouseEnter"
    case MouseDown => "onmousedown"
    case MouseUp => "onmouseup"
  }

  /** Every helper fires an `on`-prefixed event, and no two helpers fire the same one. */
  lemma HelperEventNamesAreDistinct(a: EventHelper, b: EventHelper)
    ensures "on" <= HelperEventName(a)
    ensures HelperEventName(a) == HelperEventName(b) ==> a == b
  {
  }

  /** The user actions on an element. */
  datatype Action =
    | Click
    | ClickNoWait(ranBeforeJoin: nat)   // worker steps done when `Join(500)` returns
    | Focus
    | DoubleClick
    | FireEvent(eventName: string)
    | Helper(helper: EventHelper)

  /** What performing an action does, in order. */
  datatype Step =
    | Highlight(on: bool)
    | NativeClick
    | NativeFocus
    | Dispatch(eventName: string)
    | WaitForComplete
    | StartClickThread    // the background thread that runs `Click`

  /** `ElementDisabledException`, carrying the element's id. */
  datatype ElementDisabled = ElementDisabled(id: Option<string>)

  /** The steps of `FireEvent` once the guard has passed. */
  function FireSteps(eventName: string): seq<Step> {
    [Highlight(true), Dispatch(eventName), WaitForComplete, Highlight(false)]
  }

  /** The steps of `Click` once its guard has passed. */
  function ClickSteps(): seq<Step> {
    [Highlight(true), NativeClick, WaitForComplete, Highlight(false)]
  }

  /** The steps of `ClickNoWait` once its guard has passed: it highlights,
      starts `Click` on a worker thread and un-highlights once `Join(500)`
      returns. The worker's own guard passes (the element is the one just
      checked); `ranBeforeJoin` of its steps run before the outer
      un-highlight and the rest after it (the last two orders coincide).
      Each `Highlight` call is one step: the threads never interleave
      inside one. */
  function ClickNoWaitSteps(ranBeforeJoin: nat): (steps: seq<Step>)
    ensures ranBeforeJoin == 0 ==> Highlights(steps) == [true, false, true, false]
    ensures ranBeforeJoin > 0 ==> Highlights(steps) == [true, true, false, false]
    ensures Dispatched(steps) == []
    ensures NativeClick in steps
  {
    if ranBeforeJoin == 0 then
      [Highlight(true), StartClickThread, Highlight(false), Highlight(true), NativeClick, WaitForComplete, Highlight(false)]
    else if ranBeforeJoin == 1 then
      [Highlight(true), StartClickThread, Highlight(true), Highlight(false), NativeClick, WaitForComplete, Highlight(false)]
    else if ranBeforeJoin == 2 then
      [Highlight(true), StartClickThread, Highlight(true), NativeClick, Highlight(false), WaitForComplete, Highlight(false)]
    else
      [Highlight(true), StartClickThread, Highlight(true), NativeClick, WaitForComplete, Highlight(false), Highlight(false)]
  }

  /** `ClickNoWait` is its own highlight and thread start, then the worker's
      `Click` cut where `Join(500)` returns, with the outer un-highlight at the cut. */
  lemma ClickNoWaitInterleavesClick(ranBeforeJoin: nat)
    ensures var cut := if ranBeforeJoin < |ClickSteps()| then ranBeforeJoin else |ClickSteps()|;
      ClickNoWaitSteps(ranBeforeJoin)
        == [Highlight(true), StartClickThread] + ClickSteps()[..cut] + [Highlight(false)] + ClickSteps()[cut..]
  {
    var c := ClickSteps();
    assert c[..0] == [] && c[0..] == c;
    assert c[..1] == [Highlight(true)] && c[1..] == [NativeClick, WaitForComplete, Highlight(false)];
    assert c[..2] == [Highlight(true), NativeClick] && c[2..] == [WaitForComplete, Highlight(false)];
    assert c[..3] == [Highlight(true), NativeClick, WaitForComplete] && c[3..] == [Highlight(false)];
    assert c[..4] == c && c[4..] == [];
  }

  /** The steps of an action once its guard has passed. */
  function ActionSteps(a: Action): seq<Step> {
    match a
    case Click => ClickSteps()
    case ClickNoWait(k) => ClickNoWaitSteps(k)
    case Focus => [NativeFocus] + FireSteps("onFocus")
    case DoubleClick => FireSteps("onDblClick")
    case FireEvent(n) => FireSteps(n)
    case Helper(h) => FireSteps(HelperEventName(h))
  }

  /** The events an action dispatches, in order. */
  function Dispatched(steps: seq<Step>): seq<string> {
    if |steps| == 0 then []
    else (if steps[0].Dispatch? then [steps[0].eventName] else []) + Dispatched(steps[1..])
  }

  /** The highlight switches an action makes, in order. */
  function Highlights(steps: seq<Step>): seq<bool> {
    if |steps| == 0 then []
    else (if steps[0].Highlight? then [steps[0].on] else []) + Highlights(steps[1..])
  }

  /** Performs an action: every one of them throws `ElementDisabledException`
      with the element's id on a disabled element and does nothing else;
      otherwise it highlights once and un-highlights once, except that
      `ClickNoWait` adds the highlight pair of the `Click` its worker runs. */
  function Perform(e: Element, a: Action): (r: Result<seq<Step>, ElementDisabled>)
    ensures r.Failure? <==> !Enabled(e)
    ensures r.Failure? ==> r.error == ElementDisabled(e.id)
    ensures r.Success? && !a.ClickNoWait? ==> Highlights(r.value) == [true, false]
    ensures r.Success? && a.ClickNoWait? ==>
      Highlights(r.value) == if a.ranBeforeJoin == 0 then [true, false, true, false] else [true, true, false, false]
    ensures r.Success? && (a.Click? || a.ClickNoWait?) ==> NativeClick in r.value
    ensures r.Success? && a.FireEvent? ==> Dispatched(r.value) == [a.eventName]
    ensures r.Success? && a.Helper? ==> Dispatched(r.value) == [HelperEventName(a.helper)]
    ensures r.Success? && a.Focus? ==> Dispatched(r.value) == ["onFocus"] && r.value[0] == NativeFocus
    ensures r.Success? && a.DoubleClick? ==> Dispatched(r.value) == ["onDblClick"]
    ensures r.Success? && (a.Click? || a.ClickNoWait?) ==> Dispatched(r.value) == []
  {
    if !Enabled(e) then Failure(ElementDisabled(e.id)) else Success(ActionSteps(a))
  }

  /** The background-colour slot of the element's style: whether reading and
      writing it succeed, and its current value. */
  datatype StyleSlot = StyleSlot(readable: bool, writable: bool, background: Option<string>)

  /** The style slot plus the saved original colour (`originalcolor`). */
  datatype HighlightState = HighlightState(style: StyleSlot, saved: Option<string>)

  /** `Highlight(on)`. On: save the background and paint it yellow; if the
      read or the write throws, the saved colour is null and nothing is
      painted. Off: put back the saved colour, or transparent when none is
      saved; a throwing write is ignored; the saved colour is cleared. */
  function SetHighlight(s: HighlightState, on: bool): (r: HighlightState)
    ensures r.style.readable == s.style.readable && r.style.writable == s.style.writable
    ensures on && s.style.readable && s.style.writable ==>
      r.style.background == Some("yellow") && r.saved == s.style.background
    ensures on && !(s.style.readable && s.style.writable) ==> r.style == s.style && r.saved.None?
    ensures !on ==> r.saved.None?
    ensures !on && s.style.writable ==> r.style.background == (if s.saved.Some? then s.saved else Some("transparent"))
    ensures !on && !s.style.writable ==> r.style == s.style
  {
    if on then
      if s.style.readable && s.style.writable then
        HighlightState(s.style.(background := Some("yellow")), s.style.background)
      else HighlightState(s.style, None)
    else
      var restored := if s.style.writable then s.style.(background := if s.saved.Some? then s.saved else Some("transparent")) else s.style;
      HighlightState(restored, None)
  }

  /** On then off puts the original background back when it was a colour,
      and leaves transparent when it was null; nothing stays saved. */
  lemma HighlightPairRestores(s: HighlightState)
    requires s.style.readable && s.style.writable
    ensures var r := SetHighlight(SetHighlight(s, true), false);
      && r.saved.None?
      && r.style.background == (if s.style.background.Some? then s.style.background else Some("transparent"))
  {
  }

  /** An off without a matching on paints the background transparent. */
  lemma UnmatchedOffPaintsTransparent(s: HighlightState)
    requires s.style.writable
    ensures SetHighlight(SetHighlight(s, false), false).style.background == Some("transparent")
  {
  }

  /** Runs the highlight switches of a step sequence over the style slot. */
  function RunHighlights(s: HighlightState, steps: seq<Step>): HighlightState
    decreases |steps|
  {
    if |steps| == 0 then s
    else RunHighlights(if steps[0].Highlight? then SetHighlight(s, steps[0].on) else s, steps[1..])
  }

  /** Runs a sequence of highlight switches. */
  function RunSwitches(s: HighlightState, switches: seq<bool>): HighlightState
    decreases |switches|
  {
    if |switches| == 0 then s else RunSwitches(SetHighlight(s, switches[0]), switches[1..])
  }

  /** Only the highlight switches of a step sequence touch the style slot. */
  lemma {:induction false} RunHighlightsIsRunSwitches(s: HighlightState, steps: seq<Step>)
    ensures RunHighlights(s, steps) == RunSwitches(s, Highlights(steps))
    decreases |steps|
  {
    if |steps| > 0 {
      var next := if steps[0].Highlight? then SetHighlight(s, steps[0].on) else s;
      RunHighlightsIsRunSwitches(next, steps[1..]);
      assert steps == [steps[0]] + steps[1..];
      if steps[0].Highlight? {
        assert Highlights(steps) == [steps[0].on] + Highlights(steps[1..]);
      } else {
        assert Highlights(steps) == Highlights(steps[1..]);
      }
    }
  }

  /** Whether the worker of a `ClickNoWait` highlights before the outer
      un-highlight, so that the two highlight pairs overlap. */
  predicate WorkerOverlaps(a: Action) {
    a.ClickNoWait? && a.ranBeforeJoin > 0
  }

  /** Two overlapping highlight pairs: the inner on saves the yellow the
      outer on painted, so the colour is lost and the last off paints transparent. */
  lemma OverlappingPairsLoseBackground(s: HighlightState)
    requires s.style.readable && s.style.writable
    ensures RunSwitches(s, [true, true, false]).style.background == Some("yellow")
    ensures RunSwitches(s, [true, true, false, false]).style.background == Some("transparent")
    ensures RunSwitches(s, [true, true, false, false]).saved.None?
  {
    var on := SetHighlight(s, true);
    var twice := SetHighlight(on, true);
    var inner := SetHighlight(twice, false);
    assert [true, true, false][1..] == [true, false] && [true, false][1..] == [false];
    assert RunSwitches(s, [true, true, false]) == RunSwitches(inner, []);
    assert [true, true, false, false][1..] == [true, false, false] && [true, false, false][1..] == [false, false];
    assert RunSwitches(s, [true, true, false, false]) == RunSwitches(inner, [false]);
    assert RunSwitches(inner, [false]) == RunSwitches(SetHighlight(inner, false), []);
  }

  /** One highlight pair over a coloured background puts it back. */
  lemma OnePairRestores(s: HighlightState)
    requires s.style.readable && s.style.writable && s.style.background.Some?
    ensures RunSwitches(s, [true, false]).style == s.style
    ensures RunSwitches(s, [true, false]).saved.None?
  {
    var on := SetHighlight(s, true);
    HighlightPairRestores(s);
    assert RunSwitches(s, [true, false]) == RunSwitches(on, [false]);
    assert RunSwitches(on, [false]) == RunSwitches(SetHighlight(on, false), []);
  }

  /** Any action on an enabled element leaves a readable and writable
      coloured background as it found it, with nothing saved, unless the
      `ClickNoWait` worker's highlight overlaps the outer one: the worker
      then saves the yellow, and the background ends transparent (each
      `Highlight` call is taken as one step the other thread cannot split). */
  lemma ActionRestoresBackground(e: Element, a: Action, s: HighlightState)
    requires Enabled(e)
    requires s.style.readable && s.style.writable && s.style.background.Some?
    ensures !WorkerOverlaps(a) ==> RunHighlights(s, Perform(e, a).value).style == s.style
    ensures WorkerOverlaps(a) ==> RunHighlights(s, Perform(e, a).value).style.background == Some("transparent")
    ensures RunHighlights(s, Perform(e, a).value).saved.None?
  {
    var steps := Perform(e, a).value;
    RunHighlightsIsRunSwitches(s, steps);
    if WorkerOverlaps(a) {
      OverlappingPairsLoseBackground(s);
    } else if a.ClickNoWait? {
      assert Highlights(steps) == Pairs(2);
      PairsRestoreBackground(s, 2);
    } else {
      OnePairRestores(s);
    }
  }

  /** As written, a `ClickNoWait` whose worker highlights before the outer
      un-highlight turns a red background transparent, when each `Highlight`
      call runs whole. */
  lemma ClickNoWaitLosesBackground(e: Element, ranBeforeJoin: nat)
    requires Enabled(e) && ranBeforeJoin > 0
    ensures var s := HighlightState(StyleSlot(true, true, Some("red")), None);
      RunHighlights(s, Perform(e, ClickNoWait(ranBeforeJoin)).value).style.background == Some("transparent")
  {
    ActionRestoresBackground(e, ClickNoWait(ranBeforeJoin), HighlightState(StyleSlot(true, true, Some("red")), None));
  }

  /** A highlight that counts how deeply it is nested: only the outermost on
      saves and paints, and only the off that closes it restores. This is
      the save/restore `Highlight` evidently intends once `ClickNoWait` and
      its worker's `Click` overlap. */
  datatype NestedHighlight = NestedHighlight(state: HighlightState, depth: nat)

  /** One nested highlight switch. */
  function SetHighlightNested(n: NestedHighlight, on: bool): (r: NestedHighlight)
    ensures on ==> r.depth == n.depth + 1
    ensures !on ==> r.depth == if n.depth == 0 then 0 else n.depth - 1
    ensures (on && n.depth == 0) || (!on && n.depth <= 1) ==> r.state == SetHighlight(n.state, on)
    ensures (on && n.depth > 0) || (!on && n.depth > 1) ==> r.state == n.state
  {
    if on then NestedHighlight(if n.depth == 0 then SetHighlight(n.state, true) else n.state, n.depth + 1)
    else if n.depth <= 1 then NestedHighlight(SetHighlight(n.state, false), 0)
    else NestedHighlight(n.state, n.depth - 1)
  }

  /** Runs a sequence of nested highlight switches. */
  function RunNested(n: NestedHighlight, switches: seq<bool>): NestedHighlight
    decreases |switches|
  {
    if |switches| == 0 then n else RunNested(SetHighlightNested(n, switches[0]), switches[1..])
  }

  /** Where highlight pairs do not overlap, the nested highlight behaves
      exactly like the plain one. */
  lemma {:induction false} NestedAgreesOnPairs(s: HighlightState, n: nat)
    ensures RunNested(NestedHighlight(s, 0), Pairs(n)) == NestedHighlight(RunSwitches(s, Pairs(n)), 0)
    decreases n
  {
    if n > 0 {
      var back := SetHighlight(SetHighlight(s, true), false);
      assert Pairs(n)[1..] == [false] + Pairs(n - 1);
      assert ([false] + Pairs(n - 1))[1..] == Pairs(n - 1);
      assert RunNested(NestedHighlight(s, 0), Pairs(n)) == RunNested(NestedHighlight(back, 0), Pairs(n - 1));
      assert RunSwitches(s, Pairs(n)) == RunSwitches(back, Pairs(n - 1));
      NestedAgreesOnPairs(back, n - 1);
    }
  }

  /** With the nested highlight, every action on an enabled element, under
      every schedule of the `ClickNoWait` worker, leaves a readable and
      writable coloured background as it found it. */
  lemma NestedActionRestoresBackground(e: Element, a: Action, s: HighlightState)
    requires Enabled(e)
    requires s.style.readable && s.style.writable && s.style.background.Some?
    ensures var r := RunNested(NestedHighlight(s, 0), Highlights(Perform(e, a).value));
      r.state.style == s.style && r.state.saved.None? && r.depth == 0
  {
    var start := NestedHighlight(s, 0);
    var switches := Highlights(Perform(e, a).value);
    if WorkerOverlaps(a) {
      var on := SetHighlightNested(start, true);
      var twice := SetHighlightNested(on, true);
      var inner := SetHighlightNested(twice, false);
      HighlightPairRestores(s);
      assert [true, true, false, false][1..] == [true, false, false];
      assert [true, false, false][1..] == [false, false] && [false, false][1..] == [false];
      assert RunNested(start, switches) == RunNested(inner, [false]);
      assert RunNested(inner, [false]) == RunNested(SetHighlightNested(inner, false), []);
    } else {
      var pairs := if a.ClickNoWait? then 2 else 1;
      assert switches == Pairs(pairs);
      NestedAgreesOnPairs(s, pairs);
      PairsRestoreBackground(s, pairs);
    }
  }

  /** `n` highlight pairs: on, off, on, off, ... */
  function Pairs(n: nat): (switches: seq<bool>)
    ensures |switches| == 2 * n
    ensures forall k :: 0 <= k < |switches| ==> switches[k] == (k % 2 == 0)
  {
    if n == 0 then [] else [true, false] + Pairs(n - 1)
  }

  /** `Flash`: five highlight pairs (the pauses between them are not
      modelled). Unlike the user actions it has no disabled-element guard. */
  function Flash(): (steps: seq<Step>)
    ensures Highlights(steps) == Pairs(5)
    ensures Dispatched(steps) == []
  {
    var pair := [Highlight(true), Highlight(false)];
    assert Highlights(pair) == [true, false] && Dispatched(pair) == [];
    HighlightsOfRepeat(pair, 5);
    Repeat(pair, 5)
  }

  /** `n` copies of a step sequence, one after another. */
  function Repeat(steps: seq<Step>, n: nat): seq<Step> {
    if n == 0 then [] else steps + Repeat(steps, n - 1)
  }

  /** Highlights and dispatched events distribute over concatenation. */
  lemma {:induction false} HighlightsAppend(a: seq<Step>, b: seq<Step>)
    ensures Highlights(a + b) == Highlights(a) + Highlights(b)
    ensures Dispatched(a + b) == Dispatched(a) + Dispatched(b)
    decreases |a|
  {
    if |a| == 0 {
      assert a + b == b;
    } else {
      HighlightsAppend(a[1..], b);
      assert (a + b)[0] == a[0] && (a + b)[1..] == a[1..] + b;
    }
  }

  /** Repeating one on/off pair gives `n` pairs and dispatches nothing. */
  lemma {:induction false} HighlightsOfRepeat(pair: seq<Step>, n: nat)
    requires Highlights(pair) == [true, false] && Dispatched(pair) == []
    ensures Highlights(Repeat(pair, n)) == Pairs(n)
    ensures Dispatched(Repeat(pair, n)) == []
  {
    if n > 0 {
      HighlightsOfRepeat(pair, n - 1);
      HighlightsAppend(pair, Repeat(pair, n - 1));
    }
  }

  /** Any number of highlight pairs from a readable and writable coloured
      background leaves it as it was, with nothing saved. */
  lemma {:induction false} PairsRestoreBackground(s: HighlightState, n: nat)
    requires s.style.readable && s.style.writable && s.style.background.Some?
    requires n > 0
    ensures RunSwitches(s, Pairs(n)).style == s.style
    ensures RunSwitches(s, Pairs(n)).saved.None?
    decreases n
  {
    var on := SetHighlight(s, true);
    var back := SetHighlight(on, false);
    HighlightPairRestores(s);
    assert Pairs(n)[1..] == [false] + Pairs(n - 1);
    assert RunSwitches(s, Pairs(n)) == RunSwitches(on, [false] + Pairs(n - 1));
    assert ([false] + Pairs(n - 1))[1..] == Pairs(n - 1);
    assert RunSwitches(on, [false] + Pairs(n - 1)) == RunSwitches(back, Pairs(n - 1));
    if n > 1 {
      PairsRestoreBackground(back, n - 1);
    }
  }

  /** Flashing, which has no guard, leaves a readable and writable
      coloured background as it found it. */
  lemma FlashRestoresBackground(s: HighlightState)
    requires s.style.readable && s.style.writable && s.style.background.Some?
    ensures RunHighlights(s, Flash()).style == s.style
    ensures RunHighlights(s, Flash()).saved.None?
  {
    RunHighlightsIsRunSwitches(s, Flash());
    PairsRestoreBackground(s, 5);
  }
}
