/**
 * The newer x-select / x-option widget (src/x-select/x-select.js): a
 * container that mediates `select` requests from its options, shows the
 * selected option in its summary, opens and closes a list, dismisses the
 * list on a click outside, and makes the non-selected options
 * focus-reachable while the list is open.
 *
 * DOM plumbing is abstracted: the options are values held by the
 * container in document order, a bubbling event is a direct call of the
 * container's handler, and each emitted `input` event is logged with the
 * container's value at the time of emission.
 *
 * Each listener of the container is a method of class Container, proved
 * equal to a function on the container's State; the protocol's
 * properties are lemmas about those functions.
 */
module XSelect {
  import opened Common

  /** One x-option: its value (fixed by its constructor), whether it
      carries the `selected` attribute, and its tabIndex (absent, or the 0
      the open container gives it). */
  datatype Item = Item(value: string, selected: bool, tabIndex: Option<int>)

  /** Everything a container's listeners read or change. `listeners`
      holds every window click listener the container registered, true
      while the signal it was registered with is not aborted; `controller`
      is the listener #clickOutsideController governs, None for the
      controller the container was created with, which never had one. */
  datatype State = State(
    items: seq<Item>,
    open: bool,
    value: string,
    summary: Option<nat>,
    listeners: seq<bool>,
    controller: Option<nat>,
    inputLog: seq<string>)

  function Selection(items: seq<Item>): seq<bool> {
    seq(|items|, j requires 0 <= j < |items| => items[j].selected)
  }

  function Values(items: seq<Item>): seq<string> {
    seq(|items|, j requires 0 <= j < |items| => items[j].value)
  }

  /** The value of the first option carrying `selected`, or "" when none. */
  function SelectedValue(items: seq<Item>): string {
    match FirstTrue(Selection(items))
    case Some(k) => items[k].value
    case None => ""
  }

  /** The same options with the same selection; tab indices may differ. */
  ghost predicate SameOptions(a: seq<Item>, b: seq<Item>) {
    |a| == |b| && forall j :: 0 <= j < |a| ==> a[j].value == b[j].value && a[j].selected == b[j].selected
  }

  /** Enter and Space activate the summary and an option. */
  predicate IsActivationKey(key: string) {
    key == "Enter" || key == " "
  }

  /** Selection, summary, value and subscription agree: at most one option
      is selected, the summary shows it, the value mirrors it, and a live
      listener is the current controller's, and only while open. */
  ghost predicate Coherent(s: State) {
    && AtMostOne(Selection(s.items))
    && s.summary == FirstTrue(Selection(s.items))
    && s.value == SelectedValue(s.items)
    && (s.controller.Some? ==> s.controller.value < |s.listeners|)
    && (forall j :: 0 <= j < |s.listeners| && s.listeners[j] ==> s.controller == Some(j) && s.open)
  }

  /** Coherent, and only the non-selected options of an open container
      carry a tab index, which is 0. */
  ghost predicate Inv(s: State) {
    && Coherent(s)
    && forall j :: 0 <= j < |s.items| ==>
         s.items[j].tabIndex == None || (s.open && !s.items[j].selected && s.items[j].tabIndex == Some(0))
  }

  // -----------------------------------------------------------------------
  // The listeners, as functions on State.

  /** A container upgraded before any of its option children. Its
      constructor's `this.value = this.getAttribute("value")` may find
      children that are not yet upgraded: their `value` is undefined, which
      loosely equals a missing attribute's null, so they dispatch `select`,
      but the handler ignores a target that is not yet an x-option. Nothing
      changes, and the container starts with no option. Neither constructor
      touches the `open` attribute: `openAttr` is whether the markup carries
      it. An open start has no window listener (and, in the newer variant,
      no tab index) until open() is next called. */
  function Initial(openAttr: bool): State {
    State([], openAttr, "", None, [], None, [])
  }

  /** `selected` set on option k and removed from every other option. */
  function Marked(items: seq<Item>, k: nat): seq<Item> {
    seq(|items|, j requires 0 <= j < |items| => items[j].(selected := j == k))
  }

  /** #toggleTabIndex(state): on true, tabIndex 0 on every option without
      `selected`; on false, no option keeps a tab index. */
  function TabIndexed(items: seq<Item>, state: bool): seq<Item> {
    seq(|items|, j requires 0 <= j < |items| =>
      if !state then items[j].(tabIndex := None)
      else if items[j].selected then items[j]
      else items[j].(tabIndex := Some(0)))
  }

  /** open(force): `open` becomes force when given and is toggled
      otherwise; #attachClickOutside aborts the current controller and,
      when open, registers a fresh listener under a new controller; then
      the tab indices follow the open state. */
  function Opened(s: State, force: Option<bool>): State {
    var o := if force.Some? then force.value else !s.open;
    s.(open := o,
       listeners := Aborted(s.listeners, s.controller) + (if o then [true] else []),
       controller := if o then Some(|s.listeners|) else s.controller,
       items := TabIndexed(s.items, o))
  }

  /** #selectHandler for a request from option k: mark it, show it in the
      summary, take its value, open(false), and dispatch `input` unless
      silent. */
  function Mediated(s: State, k: nat, silent: bool): State
    requires k < |s.items|
  {
    var shown := s.(items := Marked(s.items, k), summary := Some(k), value := s.items[k].value);
    var closed := Opened(shown, Some(false));
    closed.(inputLog := closed.inputLog + (if silent then [] else [closed.value]))
  }

  /** #selectHandler: a target that is not an option is ignored. */
  function Selected(s: State, target: Target, silent: bool): State
    requires target.OptionAt? ==> target.index < |s.items|
  {
    match target
    case NotAnOption => s
    case OptionAt(k) => Mediated(s, k, silent)
  }

  /** The `value` setter's callback run over options 0 .. n-1: each whose
      value equals v dispatches a non-silent select request. */
  function Dispatched(s: State, v: string, n: nat): (r: State)
    requires n <= |s.items|
    ensures |r.items| == |s.items|
  {
    if n == 0 then s
    else
      var t := Dispatched(s, v, n - 1);
      if s.items[n - 1].value == v then Mediated(t, n - 1, false) else t
  }

  /** The slotchange listener, min-width aside: with no option carrying
      `selected`, the first option is selected silently. (With no option at
      all the listener throws; see Container.SlotChange.) */
  function SlotChanged(s: State): State {
    if FirstTrue(Selection(s.items)).None? && |s.items| > 0 then Mediated(s, 0, true) else s
  }

  /** An x-option upgraded as the last child. `selectedAttr` is whether it
      carries `selected` when its constructor runs (an earlier option's
      mediation may already have removed the attribute from the markup);
      if so, its constructor's select() reaches the container's handler. */
  function Appended(s: State, valueAttr: Option<string>, text: string, selectedAttr: bool): State {
    var t := WithOption(s, valueAttr, text);
    if selectedAttr then Mediated(t, |s.items|, false) else t
  }

  /** The option list grown by an option without `selected` or tab index. */
  function WithOption(s: State, valueAttr: Option<string>, text: string): State {
    s.(items := s.items + [Item(OptionValue(valueAttr, text), false, None)])
  }

  /** The option click listener: a selected option ignores the click. */
  function Clicked(s: State, i: nat): State
    requires i < |s.items|
  {
    if s.items[i].selected then s else Mediated(s, i, false)
  }

  /** The option keydown listener: ignored on a selected option, and for
      keys other than Enter and Space. */
  function KeyedDown(s: State, i: nat, key: string): State
    requires i < |s.items|
  {
    if s.items[i].selected then s
    else if IsActivationKey(key) then Mediated(s, i, false)
    else s
  }

  /** The summary's keydown listener: Enter and Space toggle the list. */
  function SummaryKeyedDown(s: State, key: string): State {
    if IsActivationKey(key) then Opened(s, None) else s
  }

  /** clickOutside and the `click-outside` listener: a click whose target
      is not inside the container calls open(false). */
  function ClickedOutside(s: State, targetInside: bool): State {
    if targetInside then s else Opened(s, Some(false))
  }

  /** A click reaching the window runs the click-outside listener only
      while it is registered. */
  function WindowClicked(s: State, targetInside: bool): State {
    if s.controller.Some? && s.controller.value < |s.listeners| && s.listeners[s.controller.value]
    then ClickedOutside(s, targetInside)
    else s
  }

  /** disconnectedCallback: aborts the current controller. */
  function Disconnected(s: State): State {
    s.(listeners := Aborted(s.listeners, s.controller))
  }

  // -----------------------------------------------------------------------
  // Properties of the listeners.

  lemma InitialInv(openAttr: bool)
    ensures Inv(Initial(openAttr)) && CountTrue(Initial(openAttr).listeners) == 0
    ensures Initial(openAttr).open == openAttr
  {
  }

  /** After open(force) the flag is force, or toggled; exactly one listener
      is live when open and none when closed; non-selected options are
      focus-reachable when open and no option is when closed; the options,
      selection and value do not change; and the invariant is kept. */
  lemma OpenedFacts(s: State, force: Option<bool>)
    requires Coherent(s)
    ensures Opened(s, force).open == (if force.Some? then force.value else !s.open)
    ensures CountTrue(Opened(s, force).listeners) == (if Opened(s, force).open then 1 else 0)
    ensures Opened(s, force).open ==> Opened(s, force).listeners[|s.listeners|]
    ensures SameOptions(Opened(s, force).items, s.items)
    ensures Opened(s, force).open ==> forall j :: 0 <= j < |s.items| && !s.items[j].selected ==>
              Opened(s, force).items[j].tabIndex == Some(0)
    ensures !Opened(s, force).open ==> forall j :: 0 <= j < |s.items| ==> Opened(s, force).items[j].tabIndex == None
    ensures Opened(s, force).value == s.value && Opened(s, force).summary == s.summary
    ensures Opened(s, force).inputLog == s.inputLog
    ensures Coherent(Opened(s, force))
    ensures Inv(s) || !Opened(s, force).open ==> Inv(Opened(s, force))
  {
    var r := Opened(s, force);
    assert Selection(r.items) == Selection(s.items);
    assert Values(r.items) == Values(s.items);
    if r.open {
      assert OnlyAt(r.listeners, |s.listeners|);
      OnlyAtCountsOne(r.listeners, |s.listeners|);
    } else {
      NoneTrueIffCountZero(r.listeners);
    }
  }

  /** Mediating a request from option k: k alone is selected, shown and
      mirrored in the value, the list is closed with no listener live and
      no tab index left, the option values are kept, and `input` is
      dispatched exactly when the request is not silent. */
  lemma MediatedFacts(s: State, k: nat, silent: bool)
    requires Coherent(s) && k < |s.items|
    ensures Inv(Mediated(s, k, silent))
    ensures OnlyAt(Selection(Mediated(s, k, silent).items), k)
    ensures Mediated(s, k, silent).value == s.items[k].value
    ensures Mediated(s, k, silent).summary == Some(k)
    ensures !Mediated(s, k, silent).open && CountTrue(Mediated(s, k, silent).listeners) == 0
    ensures Mediated(s, k, silent).controller == s.controller
    ensures Values(Mediated(s, k, silent).items) == Values(s.items)
    ensures forall j :: 0 <= j < |s.items| ==> Mediated(s, k, silent).items[j].tabIndex == None
    ensures Mediated(s, k, silent).inputLog == s.inputLog + (if silent then [] else [s.items[k].value])
  {
    var shown := s.(items := Marked(s.items, k), summary := Some(k), value := s.items[k].value);
    assert Selection(shown.items)[k];
    assert OnlyAt(Selection(shown.items), k);
    OnlyAtCountsOne(Selection(shown.items), k);
    OpenedFacts(shown, Some(false));
    var r := Mediated(s, k, silent);
    assert Selection(r.items) == Selection(shown.items);
    assert Values(r.items) == Values(s.items);
  }

  /** The state a silent mediation of option k settles on, with `log` as
      the record of `input` events. */
  function Settle(s: State, k: nat, log: seq<string>): State
    requires k < |s.items|
  {
    Mediated(s, k, true).(inputLog := log)
  }

  /** A non-silent mediation settles like a silent one and logs the value. */
  lemma MediatedLoud(s: State, k: nat)
    requires k < |s.items|
    ensures Mediated(s, k, false) == Settle(s, k, s.inputLog + [s.items[k].value])
  {
  }

  /** A second mediation overrides the first: where a container settles
      depends on the last request only. */
  lemma MediatedTwice(s: State, k1: nat, k2: nat, log: seq<string>)
    requires k1 < |s.items| && k2 < |s.items|
    ensures Mediated(Settle(s, k1, log), k2, false) == Settle(s, k2, log + [s.items[k2].value])
  {
    var once := Settle(s, k1, log);
    AbortTwice(s.listeners, s.controller);
    assert Mediated(once, k2, false).items == Mediated(s, k2, true).items;
  }

  /** Mediation keeps the option values. */
  lemma MediatedValues(s: State, k: nat, silent: bool)
    requires k < |s.items|
    ensures Values(Mediated(s, k, silent).items) == Values(s.items)
  {
  }

  /** The setter's callback keeps the option values. */
  lemma {:induction false} DispatchedValues(s: State, v: string, n: nat)
    requires n <= |s.items|
    ensures Values(Dispatched(s, v, n).items) == Values(s.items)
  {
    if n > 0 {
      DispatchedValues(s, v, n - 1);
      if s.items[n - 1].value == v {
        MediatedValues(Dispatched(s, v, n - 1), n - 1, false);
      }
    }
  }

  /** One more option run through the setter's callback. */
  lemma DispatchedNext(s: State, v: string, n: nat)
    requires n < |s.items|
    ensures Dispatched(s, v, n).items[n].value == s.items[n].value
    ensures Dispatched(s, v, n + 1)
            == if s.items[n].value == v then Mediated(Dispatched(s, v, n), n, false) else Dispatched(s, v, n)
  {
    DispatchedValues(s, v, n);
    assert Values(Dispatched(s, v, n).items)[n] == Values(s.items)[n];
  }

  /** What the `value` setter's callback has done after options 0 .. n-1:
      nothing when none of them has value v; otherwise it has settled on
      the last that has, with one `input` carrying v per match. */
  ghost function DispatchSpec(s: State, v: string, n: nat): State
    requires n <= |s.items|
  {
    match LastIndexOf(Values(s.items)[..n], v)
    case None => s
    case Some(k) => Settle(s, k, s.inputLog + Repeat(v, CountOf(Values(s.items)[..n], v)))
  }

  /** How DispatchSpec grows by one option. */
  lemma DispatchSpecStep(s: State, v: string, n: nat)
    requires n < |s.items|
    ensures s.items[n].value != v ==> DispatchSpec(s, v, n + 1) == DispatchSpec(s, v, n)
    ensures s.items[n].value == v ==> DispatchSpec(s, v, n + 1) == Mediated(DispatchSpec(s, v, n), n, false)
  {
    var vals := Values(s.items);
    assert vals[..n + 1] == vals[..n] + [vals[n]];
    LastIndexOfSnoc(vals[..n], vals[n], v);
    CountOfSnoc(vals[..n], vals[n], v);
    if vals[n] == v {
      DispatchSpecHit(s, v, n);
    }
  }

  /** An option of value v: the callback settles on it, with one more
      `input` carrying v. */
  lemma DispatchSpecHit(s: State, v: string, n: nat)
    requires n < |s.items| && s.items[n].value == v
    requires LastIndexOf(Values(s.items)[..n + 1], v) == Some(n)
    requires CountOf(Values(s.items)[..n + 1], v) == CountOf(Values(s.items)[..n], v) + 1
    ensures DispatchSpec(s, v, n + 1) == Mediated(DispatchSpec(s, v, n), n, false)
  {
    var c := CountOf(Values(s.items)[..n], v);
    var log := s.inputLog + Repeat(v, c);
    assert s.inputLog + Repeat(v, c + 1) == log + [v] by {
      assert Repeat(v, c + 1) == Repeat(v, c) + [v];
    }
    assert DispatchSpec(s, v, n + 1) == Settle(s, n, log + [v]);
    match LastIndexOf(Values(s.items)[..n], v)
    case None =>
      assert c == 0 && log == s.inputLog;
      MediatedLoud(s, n);
    case Some(k) =>
      MediatedTwice(s, k, n, log);
  }

  /** The `value` setter's callback over options 0 .. n-1 does what
      DispatchSpec describes. */
  lemma {:induction false} DispatchedFacts(s: State, v: string, n: nat)
    requires n <= |s.items|
    ensures Dispatched(s, v, n) == DispatchSpec(s, v, n)
  {
    if n > 0 {
      DispatchedFacts(s, v, n - 1);
      DispatchSpecStep(s, v, n - 1);
    } else {
      assert Values(s.items)[..0] == [];
    }
  }

  /** The setter keeps the invariant. */
  lemma DispatchedInv(s: State, v: string, n: nat)
    requires Inv(s) && n <= |s.items|
    ensures Inv(Dispatched(s, v, n))
  {
    DispatchedFacts(s, v, n);
    match LastIndexOf(Values(s.items)[..n], v)
    case None =>
    case Some(k) => MediatedFacts(s, k, true);
  }

  /** Setting `value` to v: with no option of value v nothing changes;
      otherwise the last such option alone is selected, the value is v and
      the list is closed; one `input` is dispatched per option of value v. */
  lemma SetValueFacts(s: State, v: string)
    requires Inv(s)
    ensures LastIndexOf(Values(s.items), v).None? ==> Dispatched(s, v, |s.items|) == s
    ensures LastIndexOf(Values(s.items), v).Some? ==>
              (OnlyAt(Selection(Dispatched(s, v, |s.items|).items), LastIndexOf(Values(s.items), v).value)
               && Dispatched(s, v, |s.items|).value == v && !Dispatched(s, v, |s.items|).open)
    ensures Dispatched(s, v, |s.items|).inputLog == s.inputLog + Repeat(v, CountOf(Values(s.items), v))
  {
    DispatchedFacts(s, v, |s.items|);
    assert Values(s.items)[..|s.items|] == Values(s.items);
    match LastIndexOf(Values(s.items), v)
    case None =>
      assert CountOf(Values(s.items), v) == 0;
    case Some(k) =>
      MediatedFacts(s, k, true);
  }

  /** The slot change keeps the invariant and dispatches no `input`. With
      no option carrying `selected` and at least one option, option 0 alone
      becomes selected and its value the container's; otherwise nothing
      changes (the empty list throws before any change). */
  lemma SlotChangedFacts(s: State)
    requires Inv(s)
    ensures Inv(SlotChanged(s))
    ensures SlotChanged(s).inputLog == s.inputLog
    ensures NoneTrue(Selection(s.items)) && |s.items| > 0 ==>
              OnlyAt(Selection(SlotChanged(s).items), 0) && SlotChanged(s).value == s.items[0].value
              && !SlotChanged(s).open && SlotChanged(s).summary == Some(0)
    ensures !NoneTrue(Selection(s.items)) || |s.items| == 0 ==> SlotChanged(s) == s
  {
    if NoneTrue(Selection(s.items)) && |s.items| > 0 {
      MediatedFacts(s, 0, true);
    }
  }

  /** An option appended without `selected` adds its value and an unset
      flag, and keeps the invariant: the selection, summary and value stay. */
  lemma WithOptionFacts(s: State, valueAttr: Option<string>, text: string)
    requires Inv(s)
    ensures Inv(WithOption(s, valueAttr, text))
    ensures Values(WithOption(s, valueAttr, text).items) == Values(s.items) + [OptionValue(valueAttr, text)]
    ensures Selection(WithOption(s, valueAttr, text).items) == Selection(s.items) + [false]
  {
    var t := WithOption(s, valueAttr, text);
    assert Selection(t.items) == Selection(s.items) + [false];
    assert Values(t.items) == Values(s.items) + [OptionValue(valueAttr, text)];
    AppendUnset(Selection(s.items));
    AtMostOneIffCountAtMostOne(Selection(s.items));
    AtMostOneIffCountAtMostOne(Selection(t.items));
  }

  /** Appending an option keeps the invariant; one carrying `selected` is
      then the only selected option and its value the container's. */
  lemma AppendedFacts(s: State, valueAttr: Option<string>, text: string, selectedAttr: bool)
    requires Inv(s)
    ensures Inv(Appended(s, valueAttr, text, selectedAttr))
    ensures Values(Appended(s, valueAttr, text, selectedAttr).items) == Values(s.items) + [OptionValue(valueAttr, text)]
    ensures selectedAttr ==> OnlyAt(Selection(Appended(s, valueAttr, text, selectedAttr).items), |s.items|)
    ensures selectedAttr ==> Appended(s, valueAttr, text, selectedAttr).value == OptionValue(valueAttr, text)
    ensures !selectedAttr ==> Selection(Appended(s, valueAttr, text, selectedAttr).items) == Selection(s.items) + [false]
    ensures !selectedAttr ==> Appended(s, valueAttr, text, selectedAttr).value == s.value
    ensures Appended(s, valueAttr, text, selectedAttr).inputLog
              == s.inputLog + (if selectedAttr then [OptionValue(valueAttr, text)] else [])
  {
    WithOptionFacts(s, valueAttr, text);
    if selectedAttr {
      MediatedFacts(WithOption(s, valueAttr, text), |s.items|, false);
    }
  }

  /** Disconnecting leaves no listener live and changes nothing else: the
      `open` attribute, the options, the value and the log stay. */
  lemma DisconnectedFacts(s: State)
    requires Inv(s)
    ensures Inv(Disconnected(s)) && CountTrue(Disconnected(s).listeners) == 0
    ensures Disconnected(s).open == s.open && Disconnected(s).items == s.items
    ensures Disconnected(s).value == s.value && Disconnected(s).inputLog == s.inputLog
  {
    NoneTrueIffCountZero(Disconnected(s).listeners);
  }

  // -----------------------------------------------------------------------
  // The demo page: four options with values "0" .. "3", none marked
  // `selected`, slotted into a fresh container.

  function Unmounted(): State {
    var s1 := Appended(Initial(false), Some("0"), "sine", false);
    var s2 := Appended(s1, Some("1"), "square", false);
    var s3 := Appended(s2, Some("2"), "ramp-up", false);
    Appended(s3, Some("3"), "ramp-down", false)
  }

  function Mounted(): State {
    SlotChanged(Unmounted())
  }

  lemma UnmountedFacts()
    ensures Inv(Unmounted())
    ensures Values(Unmounted().items) == ["0", "1", "2", "3"]
    ensures Selection(Unmounted().items) == [false, false, false, false]
    ensures Unmounted().inputLog == []
  {
    InitialInv(false);
    var s1 := Appended(Initial(false), Some("0"), "sine", false);
    var s2 := Appended(s1, Some("1"), "square", false);
    var s3 := Appended(s2, Some("2"), "ramp-up", false);
    WithOptionFacts(Initial(false), Some("0"), "sine");
    WithOptionFacts(s1, Some("1"), "square");
    WithOptionFacts(s2, Some("2"), "ramp-up");
    WithOptionFacts(s3, Some("3"), "ramp-down");
  }

  /** Mounting selects the first option silently: the value is "0" and no
      `input` was dispatched. */
  lemma AutoSelectFirstScenario()
    ensures Inv(Mounted()) && |Mounted().items| == 4
    ensures Mounted().value == "0" && Mounted().inputLog == [] && OnlyAt(Selection(Mounted().items), 0)
  {
    UnmountedFacts();
    assert Unmounted().items[0].value == Values(Unmounted().items)[0];
    MediatedFacts(Unmounted(), 0, true);
  }

  /** Activating option "2" after mounting: the value is "2", option "2"
      alone is selected, the list is closed, and exactly one `input` was
      dispatched, with the container reporting "2". */
  lemma MediationScenario()
    ensures |Mounted().items| == 4
    ensures Inv(Clicked(Mounted(), 2))
    ensures Clicked(Mounted(), 2).value == "2"
    ensures !Clicked(Mounted(), 2).items[0].selected && Clicked(Mounted(), 2).items[2].selected
    ensures !Clicked(Mounted(), 2).open && Clicked(Mounted(), 2).inputLog == ["2"]
  {
    AutoSelectFirstScenario();
    UnmountedFacts();
    MediatedFacts(Unmounted(), 0, true);
    assert !Mounted().items[2].selected by {
      assert Selection(Mounted().items)[2] == Mounted().items[2].selected;
    }
    assert Mounted().items[2].value == Values(Mounted().items)[2];
    MediatedFacts(Mounted(), 2, false);
    var r := Clicked(Mounted(), 2);
    assert Selection(r.items)[0] == r.items[0].selected && Selection(r.items)[2] == r.items[2].selected;
  }

  /** Opening a closed list and then clicking outside it: the registered
      listener fires, the list is closed again with no listener live, and
      no selection, value or `input` changes. */
  lemma OutsideDismissal(s: State)
    requires Inv(s) && !s.open
    ensures Opened(s, None).controller == Some(|s.listeners|) && Opened(s, None).listeners[|s.listeners|]
    ensures !WindowClicked(Opened(s, None), false).open
    ensures CountTrue(WindowClicked(Opened(s, None), false).listeners) == 0
    ensures Selection(WindowClicked(Opened(s, None), false).items) == Selection(s.items)
    ensures WindowClicked(Opened(s, None), false).value == s.value
    ensures WindowClicked(Opened(s, None), false).inputLog == s.inputLog
  {
    var listed := Opened(s, None);
    OpenedFacts(s, None);
    OpenedFacts(listed, Some(false));
    assert Selection(listed.items) == Selection(s.items);
    var dismissed := WindowClicked(listed, false);
    assert Selection(dismissed.items) == Selection(listed.items);
  }

  // -----------------------------------------------------------------------
  // The x-select element.

  class Container {
    var items: seq<Item>
    var open: bool
    var value: string
    var summary: Option<nat>
    var listeners: seq<bool>
    var controller: Option<nat>
    var inputLog: seq<string>

    ghost function Snap(): State
      reads this
    {
      State(items, open, value, summary, listeners, controller, inputLog)
    }

    ghost predicate Valid()
      reads this
    {
      Inv(Snap())
    }

    constructor (openAttr: bool)
      ensures Snap() == Initial(openAttr) && Valid()
    {
      items := [];
      open := openAttr;
      value := "";
      summary := None;
      listeners := [];
      controller := None;
      inputLog := [];
    }

    /** open(force). */
    method Open(force: Option<bool>)
      modifies this
      ensures Snap() == Opened(old(Snap()), force)
      ensures old(Valid()) ==> Valid()
      ensures open == (if force.Some? then force.value else !old(open))
      ensures old(Coherent(Snap())) ==> CountTrue(listeners) == (if open then 1 else 0)
    {
      ghost var s := Snap();
      open := if force.Some? then force.value else !open;
      if open {
        AttachClickOutside(false);
        ToggleTabIndex(true);
      } else {
        AttachClickOutside(true);
        ToggleTabIndex(false);
      }
      if Coherent(s) {
        OpenedFacts(s, force);
      }
    }

    /** #toggleTabIndex(state). */
    method ToggleTabIndex(state: bool)
      modifies this`items
      ensures items == TabIndexed(old(items), state)
    {
      var j := 0;
      while j < |items|
        invariant 0 <= j <= |items| == |old(items)|
        invariant forall m :: 0 <= m < j ==> items[m] == TabIndexed(old(items), state)[m]
        invariant forall m :: j <= m < |items| ==> items[m] == old(items[m])
      {
        if !state {
          items := items[j := items[j].(tabIndex := None)];
        } else if !items[j].selected {
          items := items[j := items[j].(tabIndex := Some(0))];
        }
        j := j + 1;
      }
    }

    /** #attachClickOutside(remove). */
    method AttachClickOutside(remove: bool)
      modifies this`listeners, this`controller
      ensures listeners == Aborted(old(listeners), old(controller)) + (if remove then [] else [true])
      ensures controller == if remove then old(controller) else Some(|old(listeners)|)
    {
      listeners := Aborted(listeners, controller);
      if !remove {
        controller := Some(|listeners|);
        listeners := listeners + [true];
      }
    }

    /** #selectHandler(e); MediatedFacts says what it achieves. */
    method SelectHandler(target: Target, silent: bool)
      requires Valid()
      requires target.OptionAt? ==> target.index < |items|
      modifies this
      ensures Snap() == Selected(old(Snap()), target, silent)
      ensures Valid()
    {
      if target.NotAnOption? {
        return;
      }
      var k := target.index;
      MarkSelected(k);
      summary := Some(k);
      value := items[k].value;
      Open(Some(false));
      if !silent {
        inputLog := inputLog + [value];
      }
      MediatedFacts(old(Snap()), k, silent);
    }

    /** The selection steps of #selectHandler: `selected` set on option k,
        then removed from every other option. */
    method MarkSelected(k: nat)
      requires k < |items|
      modifies this`items
      ensures items == Marked(old(items), k)
    {
      items := items[k := items[k].(selected := true)];
      var j := 0;
      while j < |items|
        invariant 0 <= j <= |items| == |old(items)|
        invariant forall m :: 0 <= m < j ==> items[m] == Marked(old(items), k)[m]
        invariant forall m :: j <= m < |items| ==> items[m] == old(items[m]).(selected := m == k || old(items[m].selected))
      {
        if j != k {
          items := items[j := items[j].(selected := false)];
        }
        j := j + 1;
      }
    }

    /** The `value` getter: the value of the selected option, or "" when
        no option is selected. */
    method Value() returns (v: string)
      requires Valid()
      ensures v == SelectedValue(items)
    {
      v := value;
    }

    /** The `value` setter; SetValueFacts says what it achieves. */
    method SetValue(v: string)
      requires Valid()
      modifies this
      ensures Snap() == Dispatched(old(Snap()), v, |old(items)|)
      ensures Valid()
    {
      ghost var s := Snap();
      var i := 0;
      while i < |items|
        invariant |items| == |s.items| && 0 <= i <= |items|
        invariant Snap() == Dispatched(s, v, i)
      {
        Dispatch(s, v, i);
        i := i + 1;
      }
      DispatchedInv(s, v, i);
    }

    /** The setter's callback on option i: a select request when its value
        equals v. */
    method Dispatch(ghost s: State, v: string, i: nat)
      requires Inv(s) && i < |s.items| && Snap() == Dispatched(s, v, i)
      modifies this
      ensures Snap() == Dispatched(s, v, i + 1)
    {
      DispatchedInv(s, v, i);
      DispatchedNext(s, v, i);
      if items[i].value == v {
        SelectHandler(OptionAt(i), false);
      }
    }

    /** The slotchange listener (the min-width in pixels aside). With no
        option at all, `querySelector` yields null and the call throws. */
    method SlotChange() returns (outcome: Outcome)
      requires Valid()
      modifies this
      ensures Snap() == SlotChanged(old(Snap())) && Valid()
      ensures outcome == (if |old(items)| == 0 then TypeError else Completed)
      ensures !NoneTrue(Selection(old(items))) || |old(items)| == 0 ==> unchanged(this)
      ensures NoneTrue(Selection(old(items))) && |old(items)| > 0 ==>
                (OnlyAt(Selection(items), 0) && value == items[0].value && inputLog == old(inputLog))
    {
      SlotChangedFacts(Snap());
      var noSelected := FirstTrue(Selection(items)).None?;
      if noSelected {
        if |items| == 0 {
          return TypeError;
        }
        SelectHandler(OptionAt(0), true);
      }
      return Completed;
    }

    /** An x-option upgraded as the last child. */
    method AppendOption(valueAttr: Option<string>, text: string, selectedAttr: bool)
      requires Valid()
      modifies this
      ensures Snap() == Appended(old(Snap()), valueAttr, text, selectedAttr) && Valid()
      ensures Values(items) == Values(old(items)) + [OptionValue(valueAttr, text)]
      ensures selectedAttr ==> (OnlyAt(Selection(items), |old(items)|) && value == OptionValue(valueAttr, text)
                                && inputLog == old(inputLog) + [value])
      ensures !selectedAttr ==> (Selection(items) == Selection(old(items)) + [false]
                                 && value == old(value) && inputLog == old(inputLog))
    {
      WithOptionFacts(Snap(), valueAttr, text);
      AppendedFacts(Snap(), valueAttr, text, selectedAttr);
      items := items + [Item(OptionValue(valueAttr, text), false, None)];
      if selectedAttr {
        SelectHandler(OptionAt(|items| - 1), false);
      }
    }

    /** The option click listener. */
    method Click(i: nat)
      requires Valid() && i < |items|
      modifies this
      ensures Snap() == Clicked(old(Snap()), i) && Valid()
      ensures old(items[i].selected) ==> unchanged(this)
      ensures !old(items[i].selected) ==>
                (OnlyAt(Selection(items), i) && value == items[i].value && !open
                 && inputLog == old(inputLog) + [value])
    {
      if items[i].selected {
        return;
      }
      SelectHandler(OptionAt(i), false);
    }

    /** The option keydown listener. */
    method KeyDown(i: nat, key: string)
      requires Valid() && i < |items|
      modifies this
      ensures Snap() == KeyedDown(old(Snap()), i, key) && Valid()
      ensures old(items[i].selected) || !IsActivationKey(key) ==> unchanged(this)
      ensures !old(items[i].selected) && IsActivationKey(key) ==>
                (OnlyAt(Selection(items), i) && value == items[i].value && !open
                 && inputLog == old(inputLog) + [value])
    {
      if items[i].selected {
        return;
      }
      if IsActivationKey(key) {
        SelectHandler(OptionAt(i), false);
      }
    }

    /** The summary's click listener: open(). */
    method SummaryClick()
      requires Valid()
      modifies this
      ensures Snap() == Opened(old(Snap()), None) && Valid()
      ensures open == !old(open) && CountTrue(listeners) == (if open then 1 else 0)
    {
      Open(None);
    }

    /** The summary's keydown listener. */
    method SummaryKeyDown(key: string)
      requires Valid()
      modifies this
      ensures Snap() == SummaryKeyedDown(old(Snap()), key) && Valid()
      ensures !IsActivationKey(key) ==> unchanged(this)
      ensures IsActivationKey(key) ==> open == !old(open) && CountTrue(listeners) == (if open then 1 else 0)
    {
      if IsActivationKey(key) {
        Open(None);
      }
    }

    /** clickOutside bound to this container, with its `click-outside`
        listener. */
    method ClickOutside(targetInside: bool)
      requires Valid()
      modifies this
      ensures Snap() == ClickedOutside(old(Snap()), targetInside) && Valid()
      ensures targetInside ==> unchanged(this)
      ensures !targetInside ==> (!open && CountTrue(listeners) == 0 && Selection(items) == Selection(old(items))
                                 && value == old(value) && inputLog == old(inputLog))
    {
      if !targetInside {
        Open(Some(false));
        OpenedFacts(old(Snap()), Some(false));
        assert Selection(items) == Selection(old(items));
      }
    }

    /** A click reaching the window: the click-outside listener runs only
        while it is registered. */
    method WindowClick(targetInside: bool)
      requires Valid()
      modifies this
      ensures Snap() == WindowClicked(old(Snap()), targetInside) && Valid()
      ensures NoneTrue(old(listeners)) || targetInside ==> unchanged(this)
      ensures !NoneTrue(old(listeners)) && !targetInside ==>
                (!open && Selection(items) == Selection(old(items)) && value == old(value))
    {
      if controller.Some? && listeners[controller.value] {
        ClickOutside(targetInside);
      }
    }

    /** disconnectedCallback. */
    method Disconnect()
      requires Valid()
      modifies this
      ensures Snap() == Disconnected(old(Snap())) && Valid()
      ensures CountTrue(listeners) == 0 && open == old(open)
    {
      listeners := Aborted(listeners, controller);
      DisconnectedFacts(old(Snap()));
    }
  }
}
