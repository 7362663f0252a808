/**
 * Definitions shared by both variants of the x-select / x-option widget:
 * the event target of a `select` request, the completion of a listener,
 * how an option derives its value, the abort of a click-outside
 * controller, and the folds over flag and value sequences the two
 * containers are specified with.
 */
module Common {

  datatype Option<+T> = None | Some(value: T)

  /** The target of a `select` event as the container's handler sees it:
      something that is not an x-option, or the option at an index of the
      container's option list. */
  datatype Target = NotAnOption | OptionAt(index: nat)

  /** How a listener returned: normally, or by throwing a TypeError. */
  datatype Outcome = Completed | TypeError

  /** The value an x-option fixes in its constructor: its `value` attribute
      when that is present and non-empty, otherwise its text content
      (`valueAttr || this.textContent`; a missing attribute reads as null). */
  function OptionValue(valueAttr: Option<string>, text: string): (v: string)
    ensures valueAttr.Some? && valueAttr.value != "" ==> v == valueAttr.value
    ensures valueAttr.None? || valueAttr.value == "" ==> v == text
  {
    if valueAttr.Some? && valueAttr.value != "" then valueAttr.value else text
  }

  // ---------------------------------------------------------------------
  // Flag sequences: which options carry `selected`, which window
  // listeners are still registered.

  ghost predicate NoneTrue(flags: seq<bool>) {
    forall j :: 0 <= j < |flags| ==> !flags[j]
  }

  ghost predicate AtMostOne(flags: seq<bool>) {
    forall i, j :: 0 <= i < |flags| && 0 <= j < |flags| && flags[i] && flags[j] ==> i == j
  }

  /** Exactly the flag at k is set. */
  ghost predicate OnlyAt(flags: seq<bool>, k: nat) {
    k < |flags| && forall j :: 0 <= j < |flags| ==> flags[j] == (j == k)
  }

  /** The number of set flags. */
  function CountTrue(flags: seq<bool>): nat {
    if |flags| == 0 then 0 else (if flags[0] then 1 else 0) + CountTrue(flags[1..])
  }

  /** The first set flag in order (the first option in document order that
      carries `selected`), if any. */
  function FirstTrue(flags: seq<bool>): (r: Option<nat>)
    ensures r.Some? ==> r.value < |flags| && flags[r.value]
    ensures r.Some? ==> forall j :: 0 <= j < r.value ==> !flags[j]
    ensures r.None? <==> NoneTrue(flags)
  {
    if |flags| == 0 then None
    else if flags[0] then Some(0)
    else match FirstTrue(flags[1..])
      case Some(k) => Some(k + 1)
      case None => None
  }

  lemma {:induction false} NoneTrueIffCountZero(flags: seq<bool>)
    ensures NoneTrue(flags) <==> CountTrue(flags) == 0
  {
    if |flags| > 0 {
      NoneTrueIffCountZero(flags[1..]);
      if NoneTrue(flags) {
        assert NoneTrue(flags[1..]) by {
          forall j | 0 <= j < |flags| - 1 ensures !flags[1..][j] { assert flags[1..][j] == flags[j + 1]; }
        }
      }
      if CountTrue(flags) == 0 {
        forall j | 0 <= j < |flags| ensures !flags[j] {
          if j > 0 { assert flags[j] == flags[1..][j - 1]; }
        }
      }
    }
  }

  /** At most one flag is set exactly when at most one is counted. */
  lemma {:induction false} AtMostOneIffCountAtMostOne(flags: seq<bool>)
    ensures AtMostOne(flags) <==> CountTrue(flags) <= 1
  {
    if |flags| > 0 {
      var tail := flags[1..];
      AtMostOneIffCountAtMostOne(tail);
      NoneTrueIffCountZero(tail);
      if AtMostOne(flags) {
        assert AtMostOne(tail) by {
          forall i, j | 0 <= i < |tail| && 0 <= j < |tail| && tail[i] && tail[j] ensures i == j {
            assert flags[i + 1] && flags[j + 1];
          }
        }
      }
      if CountTrue(flags) <= 1 {
        forall i, j | 0 <= i < |flags| && 0 <= j < |flags| && flags[i] && flags[j] ensures i == j {
          if i > 0 { assert tail[i - 1]; }
          if j > 0 { assert tail[j - 1]; }
        }
      }
    }
  }

  /** An unset flag appended at the end changes neither the first set flag
      nor the count. */
  lemma {:induction false} AppendUnset(flags: seq<bool>)
    ensures FirstTrue(flags + [false]) == FirstTrue(flags)
    ensures CountTrue(flags + [false]) == CountTrue(flags)
  {
    if |flags| > 0 {
      assert (flags + [false])[1..] == flags[1..] + [false];
      AppendUnset(flags[1..]);
    }
  }

  /** A single set flag is counted once and is the first one. */
  lemma {:induction false} OnlyAtCountsOne(flags: seq<bool>, k: nat)
    requires OnlyAt(flags, k)
    ensures CountTrue(flags) == 1 && FirstTrue(flags) == Some(k)
  {
    assert AtMostOne(flags);
    AtMostOneIffCountAtMostOne(flags);
    NoneTrueIffCountZero(flags);
    assert flags[k];
  }

  // ---------------------------------------------------------------------
  // Click-outside subscriptions. `listeners[t]` is true while the window
  // click listener registered under controller t is still in place; a
  // container's current controller is `Some(t)`, or None for the
  // controller it was created with, which never had a listener.

  /** AbortController.abort() on the current controller: the listener
      registered under it, if any, is removed; nothing else changes. */
  function Aborted(listeners: seq<bool>, controller: Option<nat>): (r: seq<bool>)
    ensures |r| == |listeners|
    ensures forall j :: 0 <= j < |r| ==> r[j] == (listeners[j] && controller != Some(j))
  {
    if controller.Some? && controller.value < |listeners| then listeners[controller.value := false]
    else listeners
  }

  /** Aborting is idempotent: aborting an aborted controller changes nothing. */
  lemma AbortTwice(listeners: seq<bool>, controller: Option<nat>)
    ensures Aborted(Aborted(listeners, controller), controller) == Aborted(listeners, controller)
  {
    var once := Aborted(listeners, controller);
    assert forall j :: 0 <= j < |once| ==> Aborted(once, controller)[j] == once[j];
  }

  // ---------------------------------------------------------------------
  // Option values: which options the `value` setter dispatches from.

  /** The last index at which v occurs, if any. */
  function LastIndexOf(s: seq<string>, v: string): (r: Option<nat>)
    ensures r.Some? ==> r.value < |s| && s[r.value] == v
    ensures r.Some? ==> forall j :: r.value < j < |s| ==> s[j] != v
    ensures r.None? <==> forall j :: 0 <= j < |s| ==> s[j] != v
  {
    if |s| == 0 then None
    else match LastIndexOf(s[1..], v)
      case Some(k) => Some(k + 1)
      case None => if s[0] == v then Some(0) else None
  }

  /** The number of occurrences of v. */
  function CountOf(s: seq<string>, v: string): (n: nat)
    ensures n <= |s|
    ensures n == 0 <==> LastIndexOf(s, v).None?
  {
    if |s| == 0 then 0 else (if s[0] == v then 1 else 0) + CountOf(s[1..], v)
  }

  lemma {:induction false} LastIndexOfSnoc(s: seq<string>, x: string, v: string)
    ensures LastIndexOf(s + [x], v) == if x == v then Some(|s|) else LastIndexOf(s, v)
  {
    if |s| > 0 {
      assert (s + [x])[1..] == s[1..] + [x];
      LastIndexOfSnoc(s[1..], x, v);
    }
  }

  lemma {:induction false} CountOfSnoc(s: seq<string>, x: string, v: string)
    ensures CountOf(s + [x], v) == CountOf(s, v) + (if x == v then 1 else 0)
  {
    if |s| > 0 {
      assert (s + [x])[1..] == s[1..] + [x];
      CountOfSnoc(s[1..], x, v);
    }
  }

  function Repeat(v: string, n: nat): (r: seq<string>)
    ensures |r| == n && forall j :: 0 <= j < n ==> r[j] == v
  {
    seq(n, _ => v)
  }
}
