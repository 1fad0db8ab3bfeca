/**
 * The trailing-edge debounce of the quality slider, in logical time. Every
 * slider input clears the pending timer and arms a new one `DebounceTime`
 * milliseconds later; a clock reading at or past the deadline fires the timer,
 * which is then idle until the next input.
 */
module Debounce {
  import opened Wrappers

  /** `CONFIG.debounceTime`, in milliseconds. */
  const DebounceTime: int := 500

  /** `state.debounceTimer`: nothing pending, or a callback due at `deadline`. */
  datatype Timer = Idle | Pending(deadline: int)

  /** What the controller observes: a slider input carrying the slider's value, or the clock. */
  datatype Event = Input(at: int, value: nat) | Clock(at: int)

  predicate Due(t: Timer, now: int) {
    t.Pending? && t.deadline <= now
  }

  /**
   * One event's effect on the timer: an input clears whatever was pending and
   * re-arms; a clock reading only ever fires a due timer, never arms one.
   */
  function Step(t: Timer, e: Event): (r: Timer)
    ensures e.Input? ==> r.Pending? && r.deadline == e.at + DebounceTime
    ensures e.Clock? ==> (r == t <==> !Due(t, e.at))
    ensures e.Clock? && r != t ==> r.Idle?
  {
    match e
    case Input(at, _) => Pending(at + DebounceTime)
    case Clock(now) => if Due(t, now) then Idle else t
  }

  /**
   * The timer after a history of events, starting idle. A pending deadline is
   * always 500 ms after some input of the history.
   */
  function Run(es: seq<Event>): (r: Timer)
    ensures r.Pending? ==> exists j :: 0 <= j < |es| && es[j].Input? && r.deadline == es[j].at + DebounceTime
    decreases |es|
  {
    if es == [] then Idle else Step(Run(es[..|es| - 1]), es[|es| - 1])
  }

  /** The timer fires at event `k`: a clock reading that finds it due. */
  predicate FiresAt(es: seq<Event>, k: nat)
    requires k < |es|
  {
    es[k].Clock? && Due(Run(es[..k]), es[k].at)
  }

  /** The slider's value after a history: that of the last input, or the initial one. */
  function SliderAfter(initial: nat, es: seq<Event>): nat
    decreases |es|
  {
    if es == [] then initial
    else if es[|es| - 1].Input? then es[|es| - 1].value
    else SliderAfter(initial, es[..|es| - 1])
  }

  /** Position of the last input of a history. */
  function LastInput(es: seq<Event>): (r: Option<nat>)
    ensures r.Some? ==> r.value < |es| && es[r.value].Input?
    ensures r.Some? ==> forall m :: r.value < m < |es| ==> es[m].Clock?
    ensures r.None? ==> forall m :: 0 <= m < |es| ==> es[m].Clock?
    decreases |es|
  {
    if es == [] then None
    else if es[|es| - 1].Input? then Some(|es| - 1)
    else LastInput(es[..|es| - 1])
  }

  /** Some clock reading after input `j` has already reached its deadline. */
  predicate ElapsedSince(es: seq<Event>, j: nat)
    requires j < |es|
  {
    exists m :: j < m < |es| && es[m].Clock? && es[m].at >= es[j].at + DebounceTime
  }

  /**
   * Reference description of the timer: pending at the last input's time plus
   * the debounce window, unless no input happened or the clock has since
   * reached that deadline.
   */
  function Expected(es: seq<Event>): Timer {
    match LastInput(es)
    case None => Idle
    case Some(j) => if ElapsedSince(es, j) then Idle else Pending(es[j].at + DebounceTime)
  }

  lemma {:induction false} RunMatchesExpected(es: seq<Event>)
    ensures Run(es) == Expected(es)
    decreases |es|
  {
    if es != [] {
      var n := |es| - 1;
      var p := es[..n];
      RunMatchesExpected(p);
      assert forall m :: 0 <= m < n ==> p[m] == es[m];
      if es[n].Clock? {
        assert LastInput(es) == LastInput(p);
        if LastInput(p).Some? {
          var j := LastInput(p).value;
          if ElapsedSince(p, j) {
            var m :| j < m < |p| && p[m].Clock? && p[m].at >= p[j].at + DebounceTime;
            assert es[m] == p[m];
          } else if es[n].at >= es[j].at + DebounceTime {
            assert ElapsedSince(es, j);
          } else {
            forall m | j < m < |es| && es[m].Clock?
              ensures es[m].at < es[j].at + DebounceTime
            {
              if m < n {
                assert p[m] == es[m];
              }
            }
          }
        }
      }
    }
  }

  /**
   * The timer fires at event `k` exactly when `k` is a clock reading and some
   * earlier input `j` has been followed only by clock readings before its
   * deadline, which reading `k` reaches.
   */
  lemma FiresIffQuiet(es: seq<Event>, k: nat)
    requires k < |es|
    ensures FiresAt(es, k) <==>
      es[k].Clock? &&
      exists j :: 0 <= j < k && es[j].Input? && es[k].at >= es[j].at + DebounceTime &&
        forall m :: j < m < k ==> es[m].Clock? && es[m].at < es[j].at + DebounceTime
  {
    var p := es[..k];
    RunMatchesExpected(p);
    assert forall m :: 0 <= m < k ==> p[m] == es[m];
    if FiresAt(es, k) {
      var j := LastInput(p).value;
      assert !ElapsedSince(p, j);
      assert forall m :: j < m < k ==> es[m].Clock? && es[m].at < es[j].at + DebounceTime;
    }
    if es[k].Clock? && exists j :: (0 <= j < k && es[j].Input? && es[k].at >= es[j].at + DebounceTime &&
        forall m :: j < m < k ==> es[m].Clock? && es[m].at < es[j].at + DebounceTime)
    {
      var j :| 0 <= j < k && es[j].Input? && es[k].at >= es[j].at + DebounceTime &&
        forall m :: j < m < k ==> es[m].Clock? && es[m].at < es[j].at + DebounceTime;
      LastInputIsUnique(p, j);
      assert !ElapsedSince(p, j);
    }
  }

  /** An input followed only by clock readings is the last input. */
  lemma {:induction false} LastInputIsUnique(es: seq<Event>, j: nat)
    requires j < |es| && es[j].Input?
    requires forall m :: j < m < |es| ==> es[m].Clock?
    ensures LastInput(es) == Some(j)
    decreases |es|
  {
    var n := |es| - 1;
    if j < n {
      var p := es[..n];
      assert es[n].Clock?;
      assert forall m :: 0 <= m < n ==> p[m] == es[m];
      LastInputIsUnique(p, j);
    }
  }

  /** Two firings always have a slider input between them: at most one per burst. */
  lemma AtMostOncePerBurst(es: seq<Event>, k1: nat, k2: nat)
    requires k1 < k2 < |es|
    requires FiresAt(es, k1) && FiresAt(es, k2)
    ensures exists i :: k1 < i < k2 && es[i].Input?
  {
    FiresIffQuiet(es, k2);
    var j :| 0 <= j < k2 && es[j].Input? && es[k2].at >= es[j].at + DebounceTime &&
      forall m :: j < m < k2 ==> es[m].Clock? && es[m].at < es[j].at + DebounceTime;
    if j < k1 {
      FiresIffQuiet(es, k1);
      assert false;
    }
    assert k1 < j;
  }

  /** The slider's value is that of the last input, if there was one. */
  lemma {:induction false} SliderIsLastInput(initial: nat, es: seq<Event>)
    ensures LastInput(es).Some? ==> SliderAfter(initial, es) == es[LastInput(es).value].value
    ensures LastInput(es).None? ==> SliderAfter(initial, es) == initial
    decreases |es|
  {
    if es != [] && es[|es| - 1].Clock? {
      var p := es[..|es| - 1];
      SliderIsLastInput(initial, p);
    }
  }

  /**
   * When the timer fires, the slider holds the value of the input that armed it:
   * re-compression uses the value current at fire time, which is the latest one.
   */
  lemma FiringUsesLatestValue(initial: nat, es: seq<Event>, k: nat)
    requires k < |es| && FiresAt(es, k)
    ensures exists j :: (0 <= j < k && es[j].Input? && es[k].at >= es[j].at + DebounceTime &&
      SliderAfter(initial, es[..k]) == es[j].value &&
      forall m :: j < m < k ==> es[m].Clock?)
  {
    var p := es[..k];
    RunMatchesExpected(p);
    SliderIsLastInput(initial, p);
    var j := LastInput(p).value;
    assert es[j] == p[j];
    assert forall m :: j < m < k ==> es[m] == p[m];
  }
}
