/** Keyboard tabbing among the child controls of the main window
    (DefaultMainWindow::HandleTabbing). The controls are siblings in z-order;
    tabbing moves the focus to the next sibling, cyclically, that is visible
    and has the WS_TABSTOP style, going backwards while shift is held. */
module Tabbing {
  import opened Optional

  /** A sibling as HandleTabbing tests it: IsWindowVisible, and WS_TABSTOP in
      its style. */
  datatype Sibling = Sibling(visible: bool, tabStop: bool)

  predicate Eligible(s: Sibling) {
    s.visible && s.tabStop
  }

  predicate HasTabStop(sibs: seq<Sibling>) {
    exists i :: 0 <= i < |sibs| && Eligible(sibs[i])
  }

  /** The sibling k steps away from f: forward as GW_HWNDNEXT, wrapping to
      GW_HWNDFIRST after the last sibling, or backward as GW_HWNDPREV, wrapping
      to GW_HWNDLAST before the first. Step n comes back to f. */
  function Cyclic(n: nat, f: nat, k: nat, reverse: bool): (i: nat)
    requires f < n && k <= n
    ensures i < n
    ensures k == 0 || k == n <==> i == f
  {
    if !reverse then (if f + k < n then f + k else f + k - n)
    else (if f >= k then f - k else f + n - k)
  }

  /** Every sibling is reached within one round from any starting point. */
  lemma CyclicReaches(n: nat, f: nat, i: nat, reverse: bool) returns (k: nat)
    requires f < n && i < n
    ensures 1 <= k <= n && Cyclic(n, f, k, reverse) == i
  {
    if !reverse {
      k := if i > f then i - f else i + n - f;
    } else {
      k := if i < f then f - i else f + n - i;
    }
  }

  lemma TabStopReachable(sibs: seq<Sibling>, f: nat, reverse: bool)
    requires f < |sibs|
    ensures HasTabStop(sibs) <==>
      exists k :: 1 <= k <= |sibs| && Eligible(sibs[Cyclic(|sibs|, f, k, reverse)])
  {
    if HasTabStop(sibs) {
      var i :| 0 <= i < |sibs| && Eligible(sibs[i]);
      var k := CyclicReaches(|sibs|, f, i, reverse);
    }
  }

  /** The fewest steps, at least `from`, from f to an eligible sibling. */
  function StepsFrom(sibs: seq<Sibling>, f: nat, reverse: bool, from: nat): (k: nat)
    requires f < |sibs| && 1 <= from <= |sibs|
    requires exists j :: from <= j <= |sibs| && Eligible(sibs[Cyclic(|sibs|, f, j, reverse)])
    ensures from <= k <= |sibs| && Eligible(sibs[Cyclic(|sibs|, f, k, reverse)])
    ensures forall j :: from <= j < k ==> !Eligible(sibs[Cyclic(|sibs|, f, j, reverse)])
    decreases |sibs| - from
  {
    if Eligible(sibs[Cyclic(|sibs|, f, from, reverse)]) then from
    else StepsFrom(sibs, f, reverse, from + 1)
  }

  /** Index of the sibling that tabbing from f focuses. */
  function NextTabStop(sibs: seq<Sibling>, f: nat, reverse: bool): (i: nat)
    requires f < |sibs| && HasTabStop(sibs)
    ensures i < |sibs| && Eligible(sibs[i])
  {
    TabStopReachable(sibs, f, reverse);
    Cyclic(|sibs|, f, StepsFrom(sibs, f, reverse, 1), reverse)
  }

  /** The step count k is the one NextTabStop takes when it is the first that
      reaches an eligible sibling. */
  lemma NearestIsNext(sibs: seq<Sibling>, f: nat, reverse: bool, k: nat)
    requires f < |sibs| && 1 <= k <= |sibs|
    requires Eligible(sibs[Cyclic(|sibs|, f, k, reverse)])
    requires forall j :: 1 <= j < k ==> !Eligible(sibs[Cyclic(|sibs|, f, j, reverse)])
    ensures HasTabStop(sibs)
    ensures NextTabStop(sibs, f, reverse) == Cyclic(|sibs|, f, k, reverse)
  {
    TabStopReachable(sibs, f, reverse);
    var m := StepsFrom(sibs, f, reverse, 1);
    assert m <= k;
  }

  /** Tabbing forward from a sibling before the last eligible one focuses the
      nearest eligible sibling after it. */
  lemma TabForward(sibs: seq<Sibling>, f: nat, next: nat)
    requires f < next < |sibs| && Eligible(sibs[next])
    requires forall j :: f < j < next ==> !Eligible(sibs[j])
    ensures HasTabStop(sibs) && NextTabStop(sibs, f, false) == next
  {
    var n := |sibs|;
    forall j | 1 <= j < next - f
      ensures !Eligible(sibs[Cyclic(n, f, j, false)])
    {
      assert Cyclic(n, f, j, false) == f + j;
    }
    NearestIsNext(sibs, f, false, next - f);
  }

  /** Tabbing forward from the last eligible sibling wraps to the first. */
  lemma TabWrapsToFirst(sibs: seq<Sibling>, last: nat, first: nat)
    requires first <= last < |sibs|
    requires Eligible(sibs[first]) && Eligible(sibs[last])
    requires forall j :: 0 <= j < first ==> !Eligible(sibs[j])
    requires forall j :: last < j < |sibs| ==> !Eligible(sibs[j])
    ensures HasTabStop(sibs) && NextTabStop(sibs, last, false) == first
  {
    var n := |sibs|;
    var k := first + n - last;
    forall j | 1 <= j < k
      ensures !Eligible(sibs[Cyclic(n, last, j, false)])
    {
      if last + j < n {
        assert Cyclic(n, last, j, false) == last + j;
      } else {
        assert Cyclic(n, last, j, false) == last + j - n < first;
      }
    }
    assert Cyclic(n, last, k, false) == first;
    NearestIsNext(sibs, last, false, k);
  }

  /** Tabbing backward (shift held) from the first eligible sibling wraps to
      the last. */
  lemma ShiftTabWrapsToLast(sibs: seq<Sibling>, first: nat, last: nat)
    requires first <= last < |sibs|
    requires Eligible(sibs[first]) && Eligible(sibs[last])
    requires forall j :: 0 <= j < first ==> !Eligible(sibs[j])
    requires forall j :: last < j < |sibs| ==> !Eligible(sibs[j])
    ensures HasTabStop(sibs) && NextTabStop(sibs, first, true) == last
  {
    var n := |sibs|;
    var k := first + n - last;
    forall j | 1 <= j < k
      ensures !Eligible(sibs[Cyclic(n, first, j, true)])
    {
      if first >= j {
        assert Cyclic(n, first, j, true) == first - j;
      } else {
        assert Cyclic(n, first, j, true) == first + n - j > last;
      }
    }
    assert Cyclic(n, first, k, true) == last;
    NearestIsNext(sibs, first, true, k);
  }

  /** One turn of HandleTabbing's do/while loop from `focus`: GetWindow with
      GW_HWNDNEXT (GW_HWNDPREV when reverse), and GW_HWNDFIRST (GW_HWNDLAST)
      when that returns NULL. */
  function Step(n: nat, focus: nat, reverse: bool): (next: nat)
    requires focus < n
    ensures next < n
  {
    var candidate: int := if reverse then focus - 1 else focus + 1;
    if 0 <= candidate < n then candidate
    else if reverse then n - 1 else 0
  }

  lemma StepIsCyclic(n: nat, f: nat, t: nat, reverse: bool)
    requires f < n && t < n
    ensures Step(n, Cyclic(n, f, t, reverse), reverse) == Cyclic(n, f, t + 1, reverse)
  {
  }

  /** HandleTabbing as written: the do/while loop has no bound and exits only
      on a visible WS_TABSTOP sibling, so it returns only when one exists. */
  method HandleTabbing(sibs: seq<Sibling>, focus: nat, shift: bool) returns (next: nat)
    requires focus < |sibs|
    requires HasTabStop(sibs)
    ensures next < |sibs| && Eligible(sibs[next])
    ensures next == NextTabStop(sibs, focus, shift)
  {
    var n := |sibs|;
    TabStopReachable(sibs, focus, shift);
    ghost var w :| 1 <= w <= n && Eligible(sibs[Cyclic(n, focus, w, shift)]);
    var current := focus;
    ghost var t := 0;
    while true
      invariant 0 <= t < w
      invariant current == Cyclic(n, focus, t, shift)
      invariant forall j :: 1 <= j <= t ==> !Eligible(sibs[Cyclic(n, focus, j, shift)])
      decreases n - t
    {
      StepIsCyclic(n, focus, t, shift);
      var candidate: int := if shift then current - 1 else current + 1;
      if 0 <= candidate < n && Eligible(sibs[candidate]) {
        NearestIsNext(sibs, focus, shift, t + 1);
        next := candidate;
        break;
      }
      if !(0 <= candidate < n) {
        candidate := if shift then n - 1 else 0;
        if Eligible(sibs[candidate]) {
          NearestIsNext(sibs, focus, shift, t + 1);
          next := candidate;
          break;
        }
      }
      current := candidate;
      t := t + 1;
    }
  }

  /** HandleTabbing with the loop bounded by one round of the siblings: it
      focuses the same sibling as HandleTabbing when there is one to focus and
      reports None, leaving the focus alone, when there is not. */
  method HandleTabbingBounded(sibs: seq<Sibling>, focus: nat, shift: bool) returns (next: Option<nat>)
    requires focus < |sibs|
    ensures next.Some? <==> HasTabStop(sibs)
    ensures next.Some? ==> next.value == NextTabStop(sibs, focus, shift)
  {
    var n := |sibs|;
    var current := focus;
    var t := 0;
    while t < n
      invariant 0 <= t <= n
      invariant current == Cyclic(n, focus, t, shift)
      invariant forall j :: 1 <= j <= t ==> !Eligible(sibs[Cyclic(n, focus, j, shift)])
    {
      StepIsCyclic(n, focus, t, shift);
      current := Step(n, current, shift);
      if Eligible(sibs[current]) {
        NearestIsNext(sibs, focus, shift, t + 1);
        return Some(current);
      }
      t := t + 1;
    }
    TabStopReachable(sibs, focus, shift);
    return None;
  }
}
