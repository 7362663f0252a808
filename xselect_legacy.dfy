/**
 * The older x-select / x-option widget (src/x-select.js): the same
 * selection protocol as the newer one, without keyboard support or tab
 * indices, and with the summary's minimum width set, in `ch`, to the
 * longest option text.
 *
 * As in the newer variant, the options are values held by the container
 * in document order, a bubbling event is a direct call of the container's
 * handler, and each emitted `input` event is logged with the container's
 * value at the time. Each listener is a method of class Container, proved
 * equal to a function on the container's State.
 */
module XSelectLegacy {
  import opened Common

  /** One x-option: its value (fixed by its constructor), its text content
      and whether it carries the `selected` attribute. */
  datatype Item = Item(value: string, text: string, selected: bool)

  /** Everything a container's listeners read or change; `minWidth` is the
      summary's style.minWidth in `ch`, and `listeners` / `controller`
      record the window click subscriptions as in the newer variant. */
  datatype State = State(
    items: seq<Item>,
    open: bool,
    value: string,
    summary: Option<nat>,
    minWidth: nat,
    listeners: seq<bool>,
    controller: Option<nat>,
    inputLog: seq<string>)

  function Selection(items: seq<Item>): seq<bool> {
    seq(|items|, j requires 0 <= j < |items| => items[j].selected)
  }

  function Values(items: seq<Item>): seq<string> {
    seq(|items|, j requires 0 <= j < |items| => items[j].value)
  }

  /** The value of the first option carrying `selected`, or "" when none. */
  function SelectedValue(items: seq<Item>): string {
    match FirstTrue(Selection(items))
    case Some(k) => items[k].value
    case None => ""
  }

  function Max(a: nat, b: nat): nat {
    if a < b then b else a
  }

  /** The min-width of the summary, in `ch`: the fold of Math.max over the
      options' text lengths, starting from 0. It is the longest option
      text, or 0 without options. */
  function MaxTextLength(items: seq<Item>): (r: nat)
    ensures forall j :: 0 <= j < |items| ==> |items[j].text| <= r
    ensures |items| == 0 ==> r == 0
    ensures |items| > 0 ==> exists j :: 0 <= j < |items| && r == |items[j].text|
  {
    if |items| == 0 then 0
    else Max(MaxTextLength(items[..|items| - 1]), |items[|items| - 1].text|)
  }

  /** At most one option is selected, the summary shows it, the value
      mirrors it, and a live listener is the current controller's, only
      while open. */
  ghost predicate Inv(s: State) {
    && AtMostOne(Selection(s.items))
    && s.summary == FirstTrue(Selection(s.items))
    && s.value == SelectedValue(s.items)
    && (s.controller.Some? ==> s.controller.value < |s.listeners|)
    && (forall j :: 0 <= j < |s.listeners| && s.listeners[j] ==> s.controller == Some(j) && s.open)
  }

  // -----------------------------------------------------------------------
  // The listeners, as functions on State.

  /** A container upgraded before any of its option children. Its
      constructor's `this.value = this.getAttribute("value")` may find
      children that are not yet upgraded: their `value` is undefined, which
      loosely equals a missing attribute's null, so they dispatch `select`,
      but the handler ignores a target that is not yet an x-option. Nothing
      changes, and the container starts with no option. Neither constructor
      touches the `open` attribute: `openAttr` is whether the markup carries
      it. An open start has no window listener (and, in the newer variant,
      no tab index) until open() is next called. */
  function Initial(openAttr: bool): State {
    State([], openAttr, "", None, 0, [], None, [])
  }

  /** `selected` set on option k and removed from every other option. */
  function Marked(items: seq<Item>, k: nat): seq<Item> {
    seq(|items|, j requires 0 <= j < |items| => items[j].(selected := j == k))
  }

  /** open(force): `open` becomes force when given and is toggled
      otherwise; #attachClickOutside aborts the current controller and,
      when open, registers a fresh listener under a new controller. */
  function Opened(s: State, force: Option<bool>): State {
    var o := if force.Some? then force.value else !s.open;
    s.(open := o,
       listeners := Aborted(s.listeners, s.controller) + (if o then [true] else []),
       controller := if o then Some(|s.listeners|) else s.controller)
  }

  /** #selectHandler for a request from option k: mark it, show it in the
      summary, take its value, open(false), and dispatch `input` unless
      silent. */
  function Mediated(s: State, k: nat, silent: bool): State
    requires k < |s.items|
  {
    var shown := s.(items := Marked(s.items, k), summary := Some(k), value := s.items[k].value);
    var closed := Opened(shown, Some(false));
    closed.(inputLog := closed.inputLog + (if silent then [] else [closed.value]))
  }

  /** #selectHandler: a target that is not an option is ignored. */
  function Selected(s: State, target: Target, silent: bool): State
    requires target.OptionAt? ==> target.index < |s.items|
  {
    match target
    case NotAnOption => s
    case OptionAt(k) => Mediated(s, k, silent)
  }

  /** The `value` setter's callback run over options 0 .. n-1: each whose
      value equals v dispatches a non-silent select request. */
  function Dispatched(s: State, v: string, n: nat): (r: State)
    requires n <= |s.items|
    ensures |r.items| == |s.items|
  {
    if n == 0 then s
    else
      var t := Dispatched(s, v, n - 1);
      if s.items[n - 1].value == v then Mediated(t, n - 1, false) else t
  }

  /** The slotchange listener: the min-width becomes the longest option
      text; then, with no option carrying `selected`, the first option is
      selected silently. (With no option at all the listener throws after
      setting the width; see Container.SlotChange.) */
  function SlotChanged(s: State): State {
    var sized := s.(minWidth := MaxTextLength(s.items));
    if FirstTrue(Selection(s.items)).None? && |s.items| > 0 then Mediated(sized, 0, true) else sized
  }

  /** An x-option upgraded as the last child. `selectedAttr` is whether it
      carries `selected` when its constructor runs (an earlier option's
      mediation may already have removed the attribute from the markup);
      if so, its constructor's select() reaches the container's handler. */
  function Appended(s: State, valueAttr: Option<string>, text: string, selectedAttr: bool): State {
    var t := WithOption(s, valueAttr, text);
    if selectedAttr then Mediated(t, |s.items|, false) else t
  }

  /** The option list grown by an option without `selected`. */
  function WithOption(s: State, valueAttr: Option<string>, text: string): State {
    s.(items := s.items + [Item(OptionValue(valueAttr, text), text, false)])
  }

  /** The option click listener: a selected option ignores the click. */
  function Clicked(s: State, i: nat): State
    requires i < |s.items|
  {
    if s.items[i].selected then s else Mediated(s, i, false)
  }

  /** clickOutside and the `click-outside` listener: a click whose target
      is not inside the container calls open(false). */
  function ClickedOutside(s: State, targetInside: bool): State {
    if targetInside then s else Opened(s, Some(false))
  }

  /** A click reaching the window runs the click-outside listener only
      while it is registered. */
  function WindowClicked(s: State, targetInside: bool): State {
    if s.controller.Some? && s.controller.value < |s.listeners| && s.listeners[s.controller.value]
    then ClickedOutside(s, targetInside)
    else s
  }

  /** disconnectedCallback: aborts the current controller. */
  function Disconnected(s: State): State {
    s.(listeners := Aborted(s.listeners, s.controller))
  }

  // -----------------------------------------------------------------------
  // Properties of the listeners.

  /** After open(force) the flag is force, or toggled; exactly one listener
      is live when open and none when closed; nothing else changes; and the
      invariant is kept. */
  lemma OpenedFacts(s: State, force: Option<bool>)
    requires Inv(s)
    ensures Opened(s, force).open == (if force.Some? then force.value else !s.open)
    ensures CountTrue(Opened(s, force).listeners) == (if Opened(s, force).open then 1 else 0)
    ensures Opened(s, force).open ==> Opened(s, force).listeners[|s.listeners|]
    ensures Opened(s, force).items == s.items && Opened(s, force).value == s.value
    ensures Opened(s, force).summary == s.summary && Opened(s, force).minWidth == s.minWidth
    ensures Opened(s, force).inputLog == s.inputLog
    ensures Inv(Opened(s, force))
  {
    var r := Opened(s, force);
    if r.open {
      assert OnlyAt(r.listeners, |s.listeners|);
      OnlyAtCountsOne(r.listeners, |s.listeners|);
    } else {
      NoneTrueIffCountZero(r.listeners);
    }
  }

  /** Mediating a request from option k: k alone is selected, shown and
      mirrored in the value, the list is closed with no listener live, the
      option values, texts and min-width are kept, and `input` is
      dispatched exactly when the request is not silent. */
  lemma MediatedFacts(s: State, k: nat, silent: bool)
    requires Inv(s) && k < |s.items|
    ensures Inv(Mediated(s, k, silent))
    ensures OnlyAt(Selection(Mediated(s, k, silent).items), k)
    ensures Mediated(s, k, silent).value == s.items[k].value
    ensures Mediated(s, k, silent).summary == Some(k)
    ensures !Mediated(s, k, silent).open && CountTrue(Mediated(s, k, silent).listeners) == 0
    ensures Mediated(s, k, silent).controller == s.controller
    ensures Values(Mediated(s, k, silent).items) == Values(s.items)
    ensures Mediated(s, k, silent).minWidth == s.minWidth
    ensures Mediated(s, k, silent).inputLog == s.inputLog + (if silent then [] else [s.items[k].value])
  {
    var shown := s.(items := Marked(s.items, k), summary := Some(k), value := s.items[k].value);
    assert Selection(shown.items)[k];
    assert OnlyAt(Selection(shown.items), k);
    OnlyAtCountsOne(Selection(shown.items), k);
    OpenedFacts(shown, Some(false));
    assert Values(Mediated(s, k, silent).items) == Values(s.items);
  }

  /** The state a silent mediation of option k settles on, with `log` as
      the record of `input` events. */
  function Settle(s: State, k: nat, log: seq<string>): State
    requires k < |s.items|
  {
    Mediated(s, k, true).(inputLog := log)
  }

  /** A non-silent mediation settles like a silent one and logs the value. */
  lemma MediatedLoud(s: State, k: nat)
    requires k < |s.items|
    ensures Mediated(s, k, false) == Settle(s, k, s.inputLog + [s.items[k].value])
  {
  }

  /** A second mediation overrides the first: where a container settles
      depends on the last request only. */
  lemma MediatedTwice(s: State, k1: nat, k2: nat, log: seq<string>)
    requires k1 < |s.items| && k2 < |s.items|
    ensures Mediated(Settle(s, k1, log), k2, false) == Settle(s, k2, log + [s.items[k2].value])
  {
    var once := Settle(s, k1, log);
    AbortTwice(s.listeners, s.controller);
    assert Mediated(once, k2, false).items == Mediated(s, k2, true).items;
  }

  /** Mediation keeps the option values. */
  lemma MediatedValues(s: State, k: nat, silent: bool)
    requires k < |s.items|
    ensures Values(Mediated(s, k, silent).items) == Values(s.items)
  {
  }

  /** The setter's callback keeps the option values. */
  lemma {:induction false} DispatchedValues(s: State, v: string, n: nat)
    requires n <= |s.items|
    ensures Values(Dispatched(s, v, n).items) == Values(s.items)
  {
    if n > 0 {
      DispatchedValues(s, v, n - 1);
      if s.items[n - 1].value == v {
        MediatedValues(Dispatched(s, v, n - 1), n - 1, false);
      }
    }
  }

  /** One more option run through the setter's callback. */
  lemma DispatchedNext(s: State, v: string, n: nat)
    requires n < |s.items|
    ensures Dispatched(s, v, n).items[n].value == s.items[n].value
    ensures Dispatched(s, v, n + 1)
            == if s.items[n].value == v then Mediated(Dispatched(s, v, n), n, false) else Dispatched(s, v, n)
  {
    DispatchedValues(s, v, n);
    assert Values(Dispatched(s, v, n).items)[n] == Values(s.items)[n];
  }

  /** What the `value` setter's callback has done after options 0 .. n-1:
      nothing when none of them has value v; otherwise it has settled on
      the last that has, with one `input` carrying v per match. */
  ghost function DispatchSpec(s: State, v: string, n: nat): State
    requires n <= |s.items|
  {
    match LastIndexOf(Values(s.items)[..n], v)
    case None => s
    case Some(k) => Settle(s, k, s.inputLog + Repeat(v, CountOf(Values(s.items)[..n], v)))
  }

  /** How DispatchSpec grows by one option. */
  lemma DispatchSpecStep(s: State, v: string, n: nat)
    requires n < |s.items|
    ensures s.items[n].value != v ==> DispatchSpec(s, v, n + 1) == DispatchSpec(s, v, n)
    ensures s.items[n].value == v ==> DispatchSpec(s, v, n + 1) == Mediated(DispatchSpec(s, v, n), n, false)
  {
    var vals := Values(s.items);
    assert vals[..n + 1] == vals[..n] + [vals[n]];
    LastIndexOfSnoc(vals[..n], vals[n], v);
    CountOfSnoc(vals[..n], vals[n], v);
    if vals[n] == v {
      DispatchSpecHit(s, v, n);
    }
  }

  /** An option of value v: the callback settles on it, with one more
      `input` carrying v. */
  lemma DispatchSpecHit(s: State, v: string, n: nat)
    requires n < |s.items| && s.items[n].value == v
    requires LastIndexOf(Values(s.items)[..n + 1], v) == Some(n)
    requires CountOf(Values(s.items)[..n + 1], v) == CountOf(Values(s.items)[..n], v) + 1
    ensures DispatchSpec(s, v, n + 1) == Mediated(DispatchSpec(s, v, n), n, false)
  {
    var c := CountOf(Values(s.items)[..n], v);
    var log := s.inputLog + Repeat(v, c);
    assert s.inputLog + Repeat(v, c + 1) == log + [v] by {
      assert Repeat(v, c + 1) == Repeat(v, c) + [v];
    }
    assert DispatchSpec(s, v, n + 1) == Settle(s, n, log + [v]);
    match LastIndexOf(Values(s.items)[..n], v)
    case None =>
      assert c == 0 && log == s.inputLog;
      MediatedLoud(s, n);
    case Some(k) =>
      MediatedTwice(s, k, n, log);
  }

  /** The `value` setter's callback over options 0 .. n-1 does what
      DispatchSpec describes. */
  lemma {:induction false} DispatchedFacts(s: State, v: string, n: nat)
    requires n <= |s.items|
    ensures Dispatched(s, v, n) == DispatchSpec(s, v, n)
  {
    if n > 0 {
      DispatchedFacts(s, v, n - 1);
      DispatchSpecStep(s, v, n - 1);
    } else {
      assert Values(s.items)[..0] == [];
    }
  }

  /** The setter keeps the invariant. */
  lemma DispatchedInv(s: State, v: string, n: nat)
    requires Inv(s) && n <= |s.items|
    ensures Inv(Dispatched(s, v, n))
  {
    DispatchedFacts(s, v, n);
    match LastIndexOf(Values(s.items)[..n], v)
    case None =>
    case Some(k) => MediatedFacts(s, k, true);
  }

  /** Setting `value` to v: with no option of value v nothing changes;
      otherwise the last such option alone is selected, the value is v and
      the list is closed; one `input` is dispatched per option of value v;
      the min-width is untouched. */
  lemma SetValueFacts(s: State, v: string)
    requires Inv(s)
    ensures LastIndexOf(Values(s.items), v).None? ==> Dispatched(s, v, |s.items|) == s
    ensures LastIndexOf(Values(s.items), v).Some? ==>
              (OnlyAt(Selection(Dispatched(s, v, |s.items|).items), LastIndexOf(Values(s.items), v).value)
               && Dispatched(s, v, |s.items|).value == v && !Dispatched(s, v, |s.items|).open)
    ensures Dispatched(s, v, |s.items|).inputLog == s.inputLog + Repeat(v, CountOf(Values(s.items), v))
    ensures Dispatched(s, v, |s.items|).minWidth == s.minWidth
  {
    DispatchedFacts(s, v, |s.items|);
    assert Values(s.items)[..|s.items|] == Values(s.items);
    match LastIndexOf(Values(s.items), v)
    case None =>
      assert CountOf(Values(s.items), v) == 0;
    case Some(k) =>
      MediatedFacts(s, k, true);
  }

  /** The slotchange listener keeps the invariant and sizes the summary to
      the longest option text; it selects the first option, without an
      `input`, exactly when no option carries `selected`. */
  lemma SlotChangedFacts(s: State)
    requires Inv(s)
    ensures Inv(SlotChanged(s))
    ensures SlotChanged(s).minWidth == MaxTextLength(s.items)
    ensures SlotChanged(s).inputLog == s.inputLog
    ensures NoneTrue(Selection(s.items)) && |s.items| > 0 ==>
              OnlyAt(Selection(SlotChanged(s).items), 0) && SlotChanged(s).value == s.items[0].value
    ensures !NoneTrue(Selection(s.items)) ==> SlotChanged(s) == s.(minWidth := MaxTextLength(s.items))
  {
    var sized := s.(minWidth := MaxTextLength(s.items));
    if NoneTrue(Selection(s.items)) && |s.items| > 0 {
      MediatedFacts(sized, 0, true);
    }
  }

  /** An option appended without `selected` adds its value and an unset
      flag, and keeps the invariant: the selection, summary and value stay. */
  lemma WithOptionFacts(s: State, valueAttr: Option<string>, text: string)
    requires Inv(s)
    ensures Inv(WithOption(s, valueAttr, text))
    ensures Values(WithOption(s, valueAttr, text).items) == Values(s.items) + [OptionValue(valueAttr, text)]
    ensures Selection(WithOption(s, valueAttr, text).items) == Selection(s.items) + [false]
  {
    var t := WithOption(s, valueAttr, text);
    assert Selection(t.items) == Selection(s.items) + [false];
    assert Values(t.items) == Values(s.items) + [OptionValue(valueAttr, text)];
    AppendUnset(Selection(s.items));
    AtMostOneIffCountAtMostOne(Selection(s.items));
    AtMostOneIffCountAtMostOne(Selection(t.items));
  }

  /** Appending an option keeps the invariant; one carrying `selected` is
      then the only selected option and its value the container's. */
  lemma AppendedFacts(s: State, valueAttr: Option<string>, text: string, selectedAttr: bool)
    requires Inv(s)
    ensures Inv(Appended(s, valueAttr, text, selectedAttr))
    ensures Values(Appended(s, valueAttr, text, selectedAttr).items) == Values(s.items) + [OptionValue(valueAttr, text)]
    ensures selectedAttr ==> OnlyAt(Selection(Appended(s, valueAttr, text, selectedAttr).items), |s.items|)
    ensures selectedAttr ==> Appended(s, valueAttr, text, selectedAttr).value == OptionValue(valueAttr, text)
    ensures !selectedAttr ==> Selection(Appended(s, valueAttr, text, selectedAttr).items) == Selection(s.items) + [false]
    ensures !selectedAttr ==> Appended(s, valueAttr, text, selectedAttr).value == s.value
    ensures Appended(s, valueAttr, text, selectedAttr).inputLog
              == s.inputLog + (if selectedAttr then [OptionValue(valueAttr, text)] else [])
  {
    WithOptionFacts(s, valueAttr, text);
    if selectedAttr {
      MediatedFacts(WithOption(s, valueAttr, text), |s.items|, false);
    }
  }

  /** Disconnecting leaves no listener live and changes nothing else: the
      `open` attribute, the options, the value and the log stay. */
  lemma DisconnectedFacts(s: State)
    requires Inv(s)
    ensures Inv(Disconnected(s)) && CountTrue(Disconnected(s).listeners) == 0
    ensures Disconnected(s).open == s.open && Disconnected(s).items == s.items
    ensures Disconnected(s).value == s.value && Disconnected(s).inputLog == s.inputLog
  {
    NoneTrueIffCountZero(Disconnected(s).listeners);
  }

  // -----------------------------------------------------------------------
  // The x-select element.

  class Container {
    var items: seq<Item>
    var open: bool
    var value: string
    var summary: Option<nat>
    var minWidth: nat
    var listeners: seq<bool>
    var controller: Option<nat>
    var inputLog: seq<string>

    ghost function Snap(): State
      reads this
    {
      State(items, open, value, summary, minWidth, listeners, controller, inputLog)
    }

    ghost predicate Valid()
      reads this
    {
      Inv(Snap())
    }

    constructor (openAttr: bool)
      ensures Snap() == Initial(openAttr) && Valid()
    {
      items := [];
      open := openAttr;
      value := "";
      summary := None;
      minWidth := 0;
      listeners := [];
      controller := None;
      inputLog := [];
    }

    /** open(force). */
    method Open(force: Option<bool>)
      modifies this
      ensures Snap() == Opened(old(Snap()), force)
      ensures old(Valid()) ==> Valid()
      ensures open == (if force.Some? then force.value else !old(open))
      ensures old(Valid()) ==> CountTrue(listeners) == (if open then 1 else 0)
    {
      ghost var s := Snap();
      open := if force.Some? then force.value else !open;
      if open {
        AttachClickOutside(false);
      } else {
        AttachClickOutside(true);
      }
      if Inv(s) {
        OpenedFacts(s, force);
      }
    }

    /** #attachClickOutside(remove). */
    method AttachClickOutside(remove: bool)
      modifies this`listeners, this`controller
      ensures listeners == Aborted(old(listeners), old(controller)) + (if remove then [] else [true])
      ensures controller == if remove then old(controller) else Some(|old(listeners)|)
    {
      listeners := Aborted(listeners, controller);
      if !remove {
        controller := Some(|listeners|);
        listeners := listeners + [true];
      }
    }

    /** #selectHandler(e); MediatedFacts says what it achieves. */
    method SelectHandler(target: Target, silent: bool)
      requires Valid()
      requires target.OptionAt? ==> target.index < |items|
      modifies this
      ensures Snap() == Selected(old(Snap()), target, silent)
      ensures Valid()
    {
      if target.NotAnOption? {
        return;
      }
      var k := target.index;
      MarkSelected(k);
      summary := Some(k);
      value := items[k].value;
      Open(Some(false));
      if !silent {
        inputLog := inputLog + [value];
      }
      MediatedFacts(old(Snap()), k, silent);
    }

    /** The selection steps of #selectHandler: `selected` set on option k,
        then removed from every other option. */
    method MarkSelected(k: nat)
      requires k < |items|
      modifies this`items
      ensures items == Marked(old(items), k)
    {
      items := items[k := items[k].(selected := true)];
      var j := 0;
      while j < |items|
        invariant 0 <= j <= |items| == |old(items)|
        invariant forall m :: 0 <= m < j ==> items[m] == Marked(old(items), k)[m]
        invariant forall m :: j <= m < |items| ==> items[m] == old(items[m]).(selected := m == k || old(items[m].selected))
      {
        if j != k {
          items := items[j := items[j].(selected := false)];
        }
        j := j + 1;
      }
    }

    /** The `value` getter: the value of the selected option, or "" when
        no option is selected. */
    method Value() returns (v: string)
      requires Valid()
      ensures v == SelectedValue(items)
    {
      v := value;
    }

    /** The `value` setter; SetValueFacts says what it achieves. */
    method SetValue(v: string)
      requires Valid()
      modifies this
      ensures Snap() == Dispatched(old(Snap()), v, |old(items)|)
      ensures Valid()
    {
      ghost var s := Snap();
      var i := 0;
      while i < |items|
        invariant |items| == |s.items| && 0 <= i <= |items|
        invariant Snap() == Dispatched(s, v, i)
      {
        Dispatch(s, v, i);
        i := i + 1;
      }
      DispatchedInv(s, v, i);
    }

    /** The setter's callback on option i: a select request when its value
        equals v. */
    method Dispatch(ghost s: State, v: string, i: nat)
      requires Inv(s) && i < |s.items| && Snap() == Dispatched(s, v, i)
      modifies this
      ensures Snap() == Dispatched(s, v, i + 1)
    {
      DispatchedInv(s, v, i);
      DispatchedNext(s, v, i);
      if items[i].value == v {
        SelectHandler(OptionAt(i), false);
      }
    }

    /** The slotchange listener. With no option at all, `querySelector`
        yields null and the call throws, after the width was set. */
    method SlotChange() returns (outcome: Outcome)
      requires Valid()
      modifies this
      ensures Snap() == SlotChanged(old(Snap())) && Valid()
      ensures outcome == (if |old(items)| == 0 then TypeError else Completed)
      ensures minWidth == MaxTextLength(old(items))
    {
      SlotChangedFacts(Snap());
      minWidth := MaxTextLength(items);
      var noSelected := FirstTrue(Selection(items)).None?;
      if noSelected {
        if |items| == 0 {
          return TypeError;
        }
        SelectHandler(OptionAt(0), true);
      }
      return Completed;
    }

    /** An x-option upgraded as the last child. */
    method AppendOption(valueAttr: Option<string>, text: string, selectedAttr: bool)
      requires Valid()
      modifies this
      ensures Snap() == Appended(old(Snap()), valueAttr, text, selectedAttr) && Valid()
      ensures Values(items) == Values(old(items)) + [OptionValue(valueAttr, text)]
      ensures selectedAttr ==> (OnlyAt(Selection(items), |old(items)|) && value == OptionValue(valueAttr, text)
                                && inputLog == old(inputLog) + [value])
      ensures !selectedAttr ==> (Selection(items) == Selection(old(items)) + [false]
                                 && value == old(value) && inputLog == old(inputLog))
    {
      WithOptionFacts(Snap(), valueAttr, text);
      AppendedFacts(Snap(), valueAttr, text, selectedAttr);
      items := items + [Item(OptionValue(valueAttr, text), text, false)];
      if selectedAttr {
        SelectHandler(OptionAt(|items| - 1), false);
      }
    }

    /** The option click listener. */
    method Click(i: nat)
      requires Valid() && i < |items|
      modifies this
      ensures Snap() == Clicked(old(Snap()), i) && Valid()
      ensures old(items[i].selected) ==> unchanged(this)
      ensures !old(items[i].selected) ==>
                (OnlyAt(Selection(items), i) && value == items[i].value && !open
                 && inputLog == old(inputLog) + [value])
    {
      if items[i].selected {
        return;
      }
      MediatedFacts(Snap(), i, false);
      SelectHandler(OptionAt(i), false);
    }

    /** The summary's click listener: open(). */
    method SummaryClick()
      requires Valid()
      modifies this
      ensures Snap() == Opened(old(Snap()), None) && Valid()
      ensures open == !old(open) && CountTrue(listeners) == (if open then 1 else 0)
    {
      Open(None);
    }

    /** clickOutside bound to this container, with its `click-outside`
        listener. */
    method ClickOutside(targetInside: bool)
      requires Valid()
      modifies this
      ensures Snap() == ClickedOutside(old(Snap()), targetInside) && Valid()
      ensures targetInside ==> unchanged(this)
      ensures !targetInside ==> (!open && CountTrue(listeners) == 0 && items == old(items)
                                 && value == old(value) && inputLog == old(inputLog))
    {
      if !targetInside {
        Open(Some(false));
        OpenedFacts(old(Snap()), Some(false));
      }
    }

    /** A click reaching the window: the click-outside listener runs only
        while it is registered. */
    method WindowClick(targetInside: bool)
      requires Valid()
      modifies this
      ensures Snap() == WindowClicked(old(Snap()), targetInside) && Valid()
      ensures NoneTrue(old(listeners)) || targetInside ==> unchanged(this)
      ensures !NoneTrue(old(listeners)) && !targetInside ==> (!open && items == old(items) && value == old(value))
    {
      if controller.Some? && listeners[controller.value] {
        ClickOutside(targetInside);
      }
    }

    /** disconnectedCallback. */
    method Disconnect()
      requires Valid()
      modifies this
      ensures Snap() == Disconnected(old(Snap())) && Valid()
      ensures CountTrue(listeners) == 0 && open == old(open)
    {
      listeners := Aborted(listeners, controller);
      DisconnectedFacts(old(Snap()));
    }
  }
}
