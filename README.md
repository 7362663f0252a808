# x-select: a verified model of the selection protocol

The repository ships two variants of a pair of custom elements: `x-select`, a
drop-down container, and `x-option`, one choice inside it.

- `src/x-select/x-select.js` is the newer variant. It adds keyboard support and
  tab-index management.
- `src/x-select.js` is the older one. It sizes the summary by the character
  count of the longest option.

Each variant is a small state machine. Options ask to be selected by
dispatching a bubbling `select` event, which carries a `silent` flag. The
container mediates each request:
- the requesting option becomes the only one carrying `selected`;
- the summary shows a copy of that option;
- the container's value becomes the option's value;
- the list closes;
- an `input` event is dispatched unless the request was silent.

While the list is open, a window click listener dismisses it on a click
outside the container. That listener is registered under an
`AbortController`, which is aborted on every close and on disconnect.

The model has three modules:

- `Common` (`common.dfy`) holds what the two variants share:
  - how an option derives its value;
  - the abort of a click-outside controller;
  - folds over flag and value sequences: the first selected option, counts,
    and the last and number of matches of a value.
- `XSelect` (`xselect.dfy`) models the newer variant.
- `XSelectLegacy` (`xselect_legacy.dfy`) models the older one.

Each variant module has three parts:

- A `State` datatype. It holds:
  - the options in document order (value, `selected` and, in the newer
    variant, tabIndex);
  - the `open` flag and the private `#value`;
  - which option the summary shows;
  - in the older variant, the summary's min-width in `ch`;
  - every window click listener registered so far, each live or aborted,
    and which one the current controller governs;
  - the log of `input` events, each recorded with the container's value
    when it was dispatched.
- One function per listener, for example `Opened`, `Mediated`, `Dispatched`
  (the `value` setter's callback), `SlotChanged`, `Clicked` and
  `WindowClicked`. Lemmas prove the protocol's properties about these
  functions over all inputs, including the invariant `Inv` that every
  listener keeps:
  - at most one option is selected;
  - the summary shows the selected option;
  - the value mirrors it;
  - a live listener exists only while open, and only the current
    controller's;
  - in the newer variant, only the non-selected options of an open list
    carry a tab index, and it is 0.
- A class `Container` whose fields are the state. Each method models one
  listener or private method, loops included, and is proved to leave the
  object in exactly the state the matching function describes.

Event bubbling is a direct call of the container's handler. An option is
addressed by its index in the container's list. An `x-option` being upgraded
as the container's last child is `AppendOption`.

## Model

| member | source | states |
|---|---|---|
| Common.OptionValue | src/x-select/x-select.js:259-261 | an option's value is its `value` attribute when that is present and non-empty, otherwise its text content |
| Common.FirstTrue | src/x-select/x-select.js:102-107 | the first selected option in document order: it is selected, no earlier one is, and there is none exactly when no option carries `selected` |
| Common.AtMostOneIffCountAtMostOne | src/x-select/x-select.js:154-160 | at most one option is selected exactly when at most one is counted |
| Common.OnlyAtCountsOne | src/x-select/x-select.js:154-160 | when exactly option k is marked, one option is selected and it is the first selected one |
| Common.AppendUnset | src/x-select/x-select.js:259-265 | an option added without `selected` changes neither the first selected option nor the number selected |
| Common.NoneTrueIffCountZero | src/x-select/x-select.js:197-199 | no listener is live exactly when the live count is 0 |
| Common.Aborted | src/x-select/x-select.js:185-186 | `abort()` removes exactly the listener registered under the current controller and no other |
| Common.AbortTwice | src/x-select/x-select.js:197-199 | aborting an already aborted controller changes nothing |
| Common.LastIndexOf | src/x-select/x-select.js:177-183 | the last option whose value equals v, so later ones do not; none exactly when no option has value v |
| Common.CountOf | src/x-select/x-select.js:177-183 | the number of options of value v, which is 0 exactly when none has it |
| Common.LastIndexOfSnoc | src/x-select/x-select.js:178-182 | one more option visited: a match becomes the last match, otherwise the last match stays |
| Common.CountOfSnoc | src/x-select/x-select.js:178-182 | one more option visited: the match count grows by one exactly on a match |
| XSelect.Initial | src/x-select/x-select.js:58-72 | the state a container starts in: no option, `open` exactly as the markup's attribute (the constructor never touches it), value "", no summary, no listener and an empty log (see InitialInv) |
| XSelect.Marked | src/x-select/x-select.js:154-160 | `selected` is set on option k and removed from every other option; the proof obligations of the loop that does this sit with Container.MarkSelected |
| XSelect.TabIndexed | src/x-select/x-select.js:129-141 | on true every option without `selected` gets tabIndex 0 and a selected one keeps its own; on false no option keeps a tab index (see OpenedFacts) |
| XSelect.Opened | src/x-select/x-select.js:117-126 | `open(force)`: set or toggle `open`, abort the current controller and, when open, register one fresh listener, then set the tab indices (see OpenedFacts) |
| XSelect.Mediated | src/x-select/x-select.js:148-171 | the handler for a request from option k: mark k, show it, take its value, `open(false)`, then log `input` unless silent (see MediatedFacts) |
| XSelect.Selected | src/x-select/x-select.js:144-146 | the handler ignores a target that is not an x-option and mediates otherwise |
| XSelect.SlotChanged | src/x-select/x-select.js:102-108 | with no option carrying `selected` and at least one option, option 0 is mediated silently; otherwise nothing changes (see AutoSelectFirstScenario and Container.SlotChange) |
| XSelect.Appended | src/x-select/x-select.js:259-265 | an option upgraded as the last child; one carrying `selected` at that point makes a non-silent request (see AppendedFacts) |
| XSelect.WithOption | src/x-select/x-select.js:259-261 | the option list grown by one option of the derived value, not selected and without a tab index (see WithOptionFacts) |
| XSelect.Clicked | src/x-select/x-select.js:281-284 | a click on a selected option is ignored; any other click makes a non-silent request (see MediationScenario) |
| XSelect.KeyedDown | src/x-select/x-select.js:272-277 | a key on a selected option is ignored; Enter or Space on any other option makes a non-silent request; other keys are ignored |
| XSelect.SummaryKeyedDown | src/x-select/x-select.js:82-88 | Enter or Space on the summary calls `open()`; other keys change nothing |
| XSelect.ClickedOutside | src/x-select/x-select.js:111-113 | a click outside the container calls `open(false)`; a click inside changes nothing |
| XSelect.WindowClicked | src/x-select/x-select.js:5-9 | a window click runs clickOutside only while the current controller's listener is live (see OutsideDismissal) |
| XSelect.Disconnected | src/x-select/x-select.js:197-199 | disconnect aborts the current controller and changes nothing else (see DisconnectedFacts) |
| XSelect.InitialInv | src/x-select/x-select.js:58-72 | open or closed as its markup says, a container upgraded before its options (the requests its `value` attribute provokes from not-yet-upgraded children are ignored) starts with no option, satisfies the invariant and has no live listener |
| XSelect.SlotChangedFacts | src/x-select/x-select.js:102-108 | the slot change keeps the invariant and dispatches no `input`. With no option selected and at least one option, option 0 alone becomes selected, is shown, gives its value, and the list is closed; otherwise the state is unchanged |
| XSelect.OpenedFacts | src/x-select/x-select.js:117-126 | `open(force)` sets `open` to force or toggles it. Afterwards exactly one listener is live when open and none when closed. Open means each non-selected option has tabIndex 0; closed means no option has a tab index. Options, selection, value, summary and log are unchanged, and the invariant is kept |
| XSelect.MediatedFacts | src/x-select/x-select.js:144-172 | after mediating a request from option k: k alone is selected and is shown; the value is k's value; the list is closed with no live listener and no tab index; the values are kept; `input` is logged exactly when not silent |
| XSelect.MediatedLoud | src/x-select/x-select.js:169-171 | a non-silent request ends in the same state as a silent one, plus one `input` carrying the new value |
| XSelect.MediatedTwice | src/x-select/x-select.js:154-167 | a second mediation overrides the first: the state depends only on the last request, and the `input` log accumulates |
| XSelect.MediatedValues | src/x-select/x-select.js:154-160 | mediation never changes an option's value |
| XSelect.Dispatched | src/x-select/x-select.js:177-183 | the setter's callback never adds or removes options |
| XSelect.DispatchedValues | src/x-select/x-select.js:177-183 | the setter's callback keeps every option's value |
| XSelect.DispatchedNext | src/x-select/x-select.js:178-182 | visiting option n mediates a non-silent request from it exactly when its value equals v |
| XSelect.DispatchSpecStep | src/x-select/x-select.js:178-182 | DispatchSpec, the settled state after a prefix, grows by one mediation per match and is unchanged otherwise |
| XSelect.DispatchSpecHit | src/x-select/x-select.js:178-182 | a matching option becomes the one settled on, with one more `input` carrying v |
| XSelect.DispatchedFacts | src/x-select/x-select.js:177-183 | the setter's loop over options 0..n-1 changes nothing when none has value v, and otherwise settles on the last match with one `input` per match |
| XSelect.DispatchedInv | src/x-select/x-select.js:177-183 | the setter keeps the invariant |
| XSelect.SetValueFacts | src/x-select/x-select.js:177-183 | setting `value` to v does nothing when no option has value v. Otherwise the last option of value v alone is selected, the value is v and the list is closed. One `input` carrying v is dispatched per option of value v, even if it was already selected |
| XSelect.WithOptionFacts | src/x-select/x-select.js:259-262 | an option added without `selected` appends its value and an unset flag and keeps the invariant |
| XSelect.AppendedFacts | src/x-select/x-select.js:259-265 | adding an option keeps the invariant. One carrying `selected` when upgraded becomes the only selected option, its value becomes the container's, and one `input` carrying that value is logged. Any other option leaves selection, value and log as they were |
| XSelect.DisconnectedFacts | src/x-select/x-select.js:197-199 | after disconnect no listener is live and the invariant holds; `open`, the options, the value and the log are kept |
| XSelect.UnmountedFacts | src/x-select/x-select.js:259-265 | four options "0".."3" without `selected` yield values ["0","1","2","3"], no selection and no `input` |
| XSelect.AutoSelectFirstScenario | src/x-select/x-select.js:102-108 | after the slot change of that list, option "0" alone is selected, the value is "0" and no `input` was dispatched |
| XSelect.MediationScenario | src/x-select/x-select.js:281-284 | then clicking option "2" leaves the value "2", option "2" selected and option "0" not, the list closed, and exactly one `input`, reporting "2" |
| XSelect.OutsideDismissal | src/x-select/x-select.js:5-9 | opening a closed list registers a live listener. A click outside then closes the list, leaves no live listener, and changes no selection, no value and no log |
| XSelect.Container.constructor | src/x-select/x-select.js:62-72 | a new container is `Initial(openAttr)`, keeping the markup's `open` attribute, and satisfies the invariant |
| XSelect.Container.Open | src/x-select/x-select.js:117-126 | the new state is `Opened(old, force)`, the invariant is kept, and `open` is force or toggled |
| XSelect.Container.ToggleTabIndex | src/x-select/x-select.js:129-141 | the loop leaves exactly `TabIndexed(old options, state)` |
| XSelect.Container.AttachClickOutside | src/x-select/x-select.js:185-194 | the current controller is aborted; unless removing, one fresh live listener is registered under a new controller |
| XSelect.Container.SelectHandler | src/x-select/x-select.js:144-172 | the new state is `Selected(old, target, silent)`: unchanged for a non-option target, otherwise the mediation of MediatedFacts. The invariant is kept |
| XSelect.Container.MarkSelected | src/x-select/x-select.js:154-160 | the loop leaves only option k carrying `selected`; nothing else about the options changes |
| XSelect.Container.Value | src/x-select/x-select.js:174-176 | the getter returns the value of the first selected option, or "" when none is selected |
| XSelect.Container.SetValue | src/x-select/x-select.js:177-183 | the new state is `Dispatched(old, v, n)` over all n options (see SetValueFacts), and the invariant is kept |
| XSelect.Container.Dispatch | src/x-select/x-select.js:178-182 | one iteration of the setter's callback advances the state from `Dispatched(s, v, i)` to `Dispatched(s, v, i + 1)` |
| XSelect.Container.SlotChange | src/x-select/x-select.js:90-109 | with no option selected, option 0 is selected silently; with one selected, nothing changes. An empty list ends in a TypeError with the state unchanged |
| XSelect.Container.AppendOption | src/x-select/x-select.js:259-265 | an upgraded option appends its value. With `selected`, it becomes the only selected option, its value the container's, and one `input` is logged; otherwise selection, value and log are kept |
| XSelect.Container.Click | src/x-select/x-select.js:281-284 | clicking a selected option changes nothing; clicking another one selects it alone, closes the list, and logs one `input` with its value |
| XSelect.Container.KeyDown | src/x-select/x-select.js:272-277 | on a selected option, or for keys other than Enter and Space, nothing changes; otherwise as a click |
| XSelect.Container.SummaryClick | src/x-select/x-select.js:76-80 | clicking the summary toggles `open`, leaving one live listener when open and none when closed |
| XSelect.Container.SummaryKeyDown | src/x-select/x-select.js:82-88 | Enter and Space on the summary toggle `open`; other keys change nothing |
| XSelect.Container.ClickOutside | src/x-select/x-select.js:111-113 | a click inside changes nothing. A click outside closes the list with no live listener, and keeps the selection, value and log |
| XSelect.Container.WindowClick | src/x-select/x-select.js:189-192 | a window click reaches clickOutside only while a listener is live; with none live, nothing changes |
| XSelect.Container.Disconnect | src/x-select/x-select.js:197-199 | disconnect aborts the current controller, so no listener is live; `open` is left as it was |
| XSelectLegacy.Initial | src/x-select.js:56-71 | the state a container starts in: no option, `open` exactly as the markup's attribute (the constructor never touches it), value "", no summary, min-width 0, no listener and an empty log |
| XSelectLegacy.Marked | src/x-select.js:125-131 | `selected` is set on option k and removed from every other option; the loop that does this is Container.MarkSelected |
| XSelectLegacy.Opened | src/x-select.js:107-114 | `open(force)`: set or toggle `open`, abort the current controller and, when open, register one fresh listener (see OpenedFacts) |
| XSelectLegacy.Mediated | src/x-select.js:121-142 | the handler for a request from option k: mark k, show it, take its value, `open(false)`, then log `input` unless silent (see MediatedFacts) |
| XSelectLegacy.Selected | src/x-select.js:117-119 | the handler ignores a target that is not an x-option and mediates otherwise |
| XSelectLegacy.SlotChanged | src/x-select.js:81-99 | the min-width becomes the longest option text; then, with no option carrying `selected` and at least one option, option 0 is mediated silently (see SlotChangedFacts) |
| XSelectLegacy.Appended | src/x-select.js:223-229 | an option upgraded as the last child; one carrying `selected` at that point makes a non-silent request (see AppendedFacts) |
| XSelectLegacy.WithOption | src/x-select.js:223-225 | the option list grown by one option of the derived value and its text, not selected (see WithOptionFacts) |
| XSelectLegacy.Clicked | src/x-select.js:237-240 | a click on a selected option is ignored; any other click makes a non-silent request |
| XSelectLegacy.ClickedOutside | src/x-select.js:101-103 | a click outside the container calls `open(false)`; a click inside changes nothing |
| XSelectLegacy.WindowClicked | src/x-select.js:5-9 | a window click runs clickOutside only while the current controller's listener is live |
| XSelectLegacy.Disconnected | src/x-select.js:168-170 | disconnect aborts the current controller and changes nothing else (see DisconnectedFacts) |
| XSelectLegacy.MaxTextLength | src/x-select.js:84-90 | the summary's min-width in `ch` is at least every option's text length and equals one of them, or is 0 without options |
| XSelectLegacy.OpenedFacts | src/x-select.js:107-114 | `open(force)` sets `open` to force or toggles it. Afterwards exactly one listener is live when open and none when closed. Nothing else changes, and the invariant is kept |
| XSelectLegacy.MediatedFacts | src/x-select.js:117-143 | after mediating a request from option k: k alone is selected and is shown; the value is k's value; the list is closed with no live listener; values and min-width are kept; `input` is logged exactly when not silent |
| XSelectLegacy.MediatedLoud | src/x-select.js:140-142 | a non-silent request ends in the same state as a silent one, plus one `input` carrying the new value |
| XSelectLegacy.MediatedTwice | src/x-select.js:125-138 | a second mediation overrides the first; the `input` log accumulates |
| XSelectLegacy.MediatedValues | src/x-select.js:125-131 | mediation never changes an option's value |
| XSelectLegacy.Dispatched | src/x-select.js:148-154 | the setter's callback never adds or removes options |
| XSelectLegacy.DispatchedValues | src/x-select.js:148-154 | the setter's callback keeps every option's value |
| XSelectLegacy.DispatchedNext | src/x-select.js:149-153 | visiting option n mediates a non-silent request from it exactly when its value equals v |
| XSelectLegacy.DispatchSpecStep | src/x-select.js:149-153 | the settled state after a prefix grows by one mediation per match and is unchanged otherwise |
| XSelectLegacy.DispatchSpecHit | src/x-select.js:149-153 | a matching option becomes the one settled on, with one more `input` carrying v |
| XSelectLegacy.DispatchedFacts | src/x-select.js:148-154 | the setter's loop over options 0..n-1 changes nothing when none has value v, and otherwise settles on the last match with one `input` per match |
| XSelectLegacy.DispatchedInv | src/x-select.js:148-154 | the setter keeps the invariant |
| XSelectLegacy.SetValueFacts | src/x-select.js:148-154 | setting `value` to v does nothing when no option has value v. Otherwise the last option of value v alone is selected, the value is v and the list is closed. One `input` is dispatched per match, and the min-width is untouched |
| XSelectLegacy.SlotChangedFacts | src/x-select.js:81-99 | the slot change sets the min-width to the longest option text, dispatches no `input`, and keeps the invariant. It selects option 0 when none was selected and changes no selection otherwise |
| XSelectLegacy.WithOptionFacts | src/x-select.js:223-225 | an option added without `selected` appends its value and an unset flag and keeps the invariant |
| XSelectLegacy.AppendedFacts | src/x-select.js:223-229 | adding an option keeps the invariant. One carrying `selected` when upgraded becomes the only selected option, its value becomes the container's, and one `input` carrying that value is logged. Any other option leaves selection, value and log as they were |
| XSelectLegacy.DisconnectedFacts | src/x-select.js:168-170 | after disconnect no listener is live and the invariant holds; `open`, the options, the value and the log are kept |
| XSelectLegacy.Container.constructor | src/x-select.js:61-71 | a new container is `Initial(openAttr)`, keeping the markup's `open` attribute, with min-width 0, and satisfies the invariant |
| XSelectLegacy.Container.Open | src/x-select.js:107-114 | the new state is `Opened(old, force)`; the invariant is kept; `open` is force or toggled; the live count is 1 when open and 0 when closed |
| XSelectLegacy.Container.AttachClickOutside | src/x-select.js:156-165 | the current controller is aborted; unless removing, one fresh live listener is registered under a new controller |
| XSelectLegacy.Container.SelectHandler | src/x-select.js:117-143 | the new state is `Selected(old, target, silent)`: unchanged for a non-option target, otherwise the mediation of MediatedFacts. The invariant is kept |
| XSelectLegacy.Container.MarkSelected | src/x-select.js:125-131 | the loop leaves only option k carrying `selected`; nothing else about the options changes |
| XSelectLegacy.Container.Value | src/x-select.js:145-147 | the getter returns the value of the first selected option, or "" when none is selected |
| XSelectLegacy.Container.SetValue | src/x-select.js:148-154 | the new state is `Dispatched(old, v, n)` over all n options (see SetValueFacts), and the invariant is kept |
| XSelectLegacy.Container.Dispatch | src/x-select.js:149-153 | one iteration of the setter's callback advances the state from `Dispatched(s, v, i)` to `Dispatched(s, v, i + 1)` |
| XSelectLegacy.Container.SlotChange | src/x-select.js:81-99 | the new state is `SlotChanged(old)` (see SlotChangedFacts). An empty list ends in a TypeError after the min-width is set to 0 |
| XSelectLegacy.Container.AppendOption | src/x-select.js:223-229 | an upgraded option appends its value. With `selected`, it becomes the only selected option, its value the container's, and one `input` is logged; otherwise selection, value and log are kept |
| XSelectLegacy.Container.Click | src/x-select.js:237-240 | clicking a selected option changes nothing; clicking another one selects it alone, closes the list, and logs one `input` with its value |
| XSelectLegacy.Container.SummaryClick | src/x-select.js:75-79 | clicking the summary toggles `open`, leaving one live listener when open and none when closed |
| XSelectLegacy.Container.ClickOutside | src/x-select.js:101-103 | a click inside changes nothing. A click outside closes the list with no live listener, and keeps the options, value and log |
| XSelectLegacy.Container.WindowClick | src/x-select.js:160-163 | a window click reaches clickOutside only while a listener is live; with none live, nothing changes |
| XSelectLegacy.Container.Disconnect | src/x-select.js:168-170 | disconnect aborts the current controller, so no listener is live; `open` is left as it was |

## Where the code differs from what one might expect

The model follows the code in each case.

- **Empty option list.** One might expect auto-selection simply not to run when there are no options. In the code, the slot-change listener calls `select` on the result of `querySelector`, which is `null`, so the listener throws. `SlotChange` returns `TypeError` in both variants. The older variant has already set the min-width to `0ch` at that point.
- **The value setter.** Clicking or pressing a key on the selected option is a no-op. The setter has no such guard: it dispatches a non-silent request from every option of the given value. So setting the current value mediates again and dispatches `input`, once per matching option, and the last match wins (`SetValueFacts`).
- **`selected` in markup.** One might expect the selection made at mount to be silent. But an option that carries `selected` calls `select()` in its constructor without the silent flag, so mounting such markup dispatches `input` (`AppendedFacts`). Only the slot-change auto-selection is silent.
- **Several options marked `selected`.** One might expect the last marked option to win. When markup is parsed into a container in one batch, the handler's `querySelectorAll("x-option")` loop (src/x-select/x-select.js:156-160, src/x-select.js:127-131) also strips `selected` from children not yet upgraded. So the first marked option to be upgraded wins, and later ones no longer carry `selected` when their constructors check it. The model's `selectedAttr` is the attribute at that check, so such a later option is an `AppendOption` with `selectedAttr` false. Given `selectedAttr` true twice, the model lets the second option win, as happens when options are upgraded one by one.
- **The container's `value` attribute.** One might expect it to select the option of that value at construction. In the code, the constructor runs the setter while the child options are not yet upgraded. A child that is not yet upgraded has an `undefined` value, which loosely equals the `null` of a missing attribute, so it dispatches `select`. But the handler drops each such request because its target is not yet an x-option (src/x-select/x-select.js:145, src/x-select.js:118). The container starts as `Initial`, with no option (`InitialInv`). It also keeps any `open` attribute of its markup: such a container starts open, with no window listener and, in the newer variant, no tab index, and its first summary click closes it.
- **Forcing `open`.** Each call of `open(true)` aborts the current listener and registers a fresh one. Repeated forcing therefore keeps exactly one live listener, but not the same one.

## Left out

- Shadow DOM construction, templates and CSS: presentation only.
- The newer variant's min-width in pixels from `getBoundingClientRect`: it needs browser layout and floating point, so `XSelect.SlotChanged` leaves the width out.
- `cloneNode` and the summary's DOM: the summary is the index of the option it shows. The clone's value is taken to be the option's own value. That holds as long as host code does not change an option's `value` attribute or text after the option's constructor ran.
- The newer variant also removes the `tabindex` attribute from that clone (src/x-select/x-select.js:152). The model has no separate clone.
- Event propagation and `stopPropagation`: a request reaches exactly its own container's handler.
- `window.addEventListener` and `AbortController`: each is a token in the `listeners` sequence, live until aborted.
- The host document: where a click lands is the `targetInside` parameter.
- Text length: `MaxTextLength` counts characters, while JavaScript's `.length` counts UTF-16 code units. The two differ for text outside the Basic Multilingual Plane.
- The setter's loose `==`: the model compares strings exactly. The only non-string it is given in the code is the `null` of a missing `value` attribute, in the constructor, where only children not yet upgraded can match it and their requests are dropped. Host code may also assign a non-string, for example `el.value = 2`, which the loose `==` matches to an option of value "2" (src/x-select/x-select.js:179, src/x-select.js:150); the parameter `v: string` cannot express such a call.
- Upgrade order: the model assumes the container is upgraded before its options. `Initial` has no option, and options enter only through `AppendOption`. If options were upgraded first, a `selected` option's request would reach no handler, and a `value` attribute would match upgraded options and dispatch `input`.
- `AppendOption`: the options in `items` are the upgraded ones only. A child not yet upgraded can lose its `selected` attribute to another option's mediation, and the model sees this only through the `selectedAttr` it is given.
- Options inserted anywhere but at the end, options removed, and host code setting or clearing `selected` directly are not modelled. `AppendOption` is the only structural change.
- Host code setting or clearing the `open` attribute directly is not modelled. Clearing it while the window listener is live would leave a live listener on a closed list, which the invariant rules out. Only the markup's `open` at construction (`openAttr`) is modelled.
- An option added while the list is open gets no tab index until the list is next opened. This is faithful to the code, and the invariant allows it.
- `connectedCallback` is empty in both variants, so re-inserting a disconnected container does not restore a listener. The model only has `Disconnect`.
- test/app.js mounts markup and logs events. Its markup (four options of values "0" .. "3", none marked `selected`) is the one the scenario lemmas `UnmountedFacts`, `AutoSelectFirstScenario` and `MediationScenario` use. Its logging is not modelled. src/types.d.ts only declares types and is not part of this model.
