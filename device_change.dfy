/** The device-change handler: a burst of host notifications leads to one
    re-selection of the microphone and one refresh of the device list. Time is an
    abstract clock in milliseconds; timers are due times, not real waits. */
module DeviceChange {

  /** A handled event schedules a re-selection this long after it. */
  const ReselectDelay: int := 3000
  /** ... and clears the `eventHandled` flag this long after it. */
  const DebounceWindow: int := 5000

  function Last(s: seq<int>): int
    requires s != []
  {
    s[|s| - 1]
  }

  /** Reference definition: the times of the events the handler acts on, given the
      times of all device-change events in order. An event is acted on when the flag
      is clear, that is when no event was acted on yet or the last acted-on event is
      at least the debounce window in the past (the clearing timer runs before an
      event that arrives at the instant it is due). */
  function Debounce(events: seq<int>): (acted: seq<int>)
    ensures |acted| <= |events|
    ensures events != [] ==> acted != [] && acted[0] == events[0]
    decreases |events|
  {
    if events == [] then []
    else
      var prev := Debounce(events[..|events| - 1]);
      var t := Last(events);
      if prev == [] || t >= Last(prev) + DebounceWindow then prev + [t] else prev
  }

  /** The due times of the re-selections scheduled for the acted-on events. */
  function Shifted(acted: seq<int>, d: int): (r: seq<int>)
    ensures |r| == |acted|
    decreases |acted|
  {
    if acted == [] then [] else Shifted(acted[..|acted| - 1], d) + [Last(acted) + d]
  }

  /** Scheduling one more re-selection appends its due time. */
  lemma ShiftedStep(acted: seq<int>, t: int, d: int)
    ensures Shifted(acted + [t], d) == Shifted(acted, d) + [t + d]
  {
    assert (acted + [t])[..|acted|] == acted;
  }

  /** The i-th re-selection is due `d` after the i-th acted-on event. */
  lemma {:induction false} ShiftedAt(acted: seq<int>, d: int, i: nat)
    requires i < |acted|
    ensures Shifted(acted, d)[i] == acted[i] + d
    decreases |acted|
  {
    var init := acted[..|acted| - 1];
    assert Shifted(acted, d) == Shifted(init, d) + [Last(acted) + d];
    if i < |init| {
      ShiftedAt(init, d, i);
    }
  }

  /** One more event: acted on exactly when the flag would be clear. */
  lemma DebounceStep(events: seq<int>, t: int)
    ensures var prev := Debounce(events);
      Debounce(events + [t]) == if prev == [] || t >= Last(prev) + DebounceWindow then prev + [t] else prev
  {
    assert (events + [t])[..|events|] == events;
  }

  predicate Spaced(acted: seq<int>) {
    forall i :: 0 <= i < |acted| - 1 ==> acted[i] + DebounceWindow <= acted[i + 1]
  }

  /** Acted-on events are at least the debounce window apart. */
  lemma {:induction false} DebounceSpaced(events: seq<int>)
    ensures Spaced(Debounce(events))
    decreases |events|
  {
    if events != [] {
      var init := events[..|events| - 1];
      DebounceSpaced(init);
      assert events == init + [Last(events)];
      DebounceStep(init, Last(events));
      var prev := Debounce(init);
      var acted := Debounce(events);
      if acted != prev {
        forall i | 0 <= i < |acted| - 1 ensures acted[i] + DebounceWindow <= acted[i + 1] {
          if i < |prev| - 1 {
            assert acted[i] == prev[i] && acted[i + 1] == prev[i + 1];
          } else {
            assert acted[i] == Last(prev) && acted[i + 1] == Last(events);
          }
        }
      }
    }
  }

  lemma {:induction false} SpacedBelowLast(acted: seq<int>)
    requires acted != [] && Spaced(acted)
    ensures forall i :: 0 <= i < |acted| ==> acted[i] <= Last(acted)
    decreases |acted|
  {
    if |acted| > 1 {
      var init := acted[..|acted| - 1];
      assert Spaced(init) by {
        forall i | 0 <= i < |init| - 1 ensures init[i] + DebounceWindow <= init[i + 1] {
          assert init[i] == acted[i] && init[i + 1] == acted[i + 1];
        }
      }
      SpacedBelowLast(init);
      forall i | 0 <= i < |acted| ensures acted[i] <= Last(acted) {
        if i < |init| {
          assert acted[i] == init[i] <= Last(init) == acted[|acted| - 2];
        }
      }
    }
  }

  /** The latest event is acted on exactly when every event acted on before it lies
      at least the debounce window in the past; otherwise nothing changes. */
  lemma ActsIffQuiet(events: seq<int>)
    requires events != []
    ensures var prev := Debounce(events[..|events| - 1]); var t := Last(events);
      (Debounce(events) == prev + [t] <==> forall i :: 0 <= i < |prev| ==> prev[i] <= t - DebounceWindow)
      && (Debounce(events) == prev || Debounce(events) == prev + [t])
  {
    var init := events[..|events| - 1];
    var prev := Debounce(init);
    var t := Last(events);
    assert events == init + [t];
    DebounceStep(init, t);
    if prev != [] {
      DebounceSpaced(init);
      SpacedBelowLast(prev);
      if t < Last(prev) + DebounceWindow {
        assert Debounce(events) != prev + [t] by {
          assert |Debounce(events)| == |prev|;
        }
      }
    }
  }

  /** A burst of events that all fall inside one debounce window is acted on once,
      at its first event. */
  lemma {:induction false} BurstActsOnce(events: seq<int>)
    requires events != []
    requires forall i :: 0 <= i < |events| ==> events[0] <= events[i] < events[0] + DebounceWindow
    ensures Debounce(events) == [events[0]]
    decreases |events|
  {
    if |events| > 1 {
      var init := events[..|events| - 1];
      assert forall i :: 0 <= i < |init| ==> init[i] == events[i];
      BurstActsOnce(init);
      assert events == init + [Last(events)];
      DebounceStep(init, Last(events));
    }
  }

  /** The flag is set exactly when an event at `t` is not acted on. */
  lemma FlagDecides(events: seq<int>, t: int, eventHandled: bool)
    requires eventHandled <==> Debounce(events) != [] && t < Last(Debounce(events)) + DebounceWindow
    ensures Debounce(events + [t]) == if eventHandled then Debounce(events) else Debounce(events) + [t]
  {
    DebounceStep(events, t);
  }

  /** The state the handler closes over: the `eventHandled` flag and the timers it
      has scheduled. */
  class DeviceChangeReactor {
    /** The abstract clock. */
    var now: int
    var eventHandled: bool
    /** When the pending timer that clears `eventHandled` is due. */
    var resetAt: int
    /** Due times of the scheduled re-selections of the microphone, in order. */
    var reselections: seq<int>
    /** Number of device-list refreshes started. */
    var refreshes: nat
    /** Times of every device-change event delivered so far, and of those acted on. */
    ghost var events: seq<int>
    ghost var acted: seq<int>

    ghost predicate Valid()
      reads this
    {
      acted == Debounce(events)
      && (events != [] ==> Last(events) <= now)
      && reselections == Shifted(acted, ReselectDelay)
      && refreshes == |acted|
      && (eventHandled <==> acted != [] && now < Last(acted) + DebounceWindow)
      && (eventHandled ==> resetAt == Last(acted) + DebounceWindow)
    }

    /** The flag starts clear and nothing is scheduled. */
    constructor (start: int)
      ensures Valid()
      ensures now == start && !eventHandled
      ensures events == [] && reselections == [] && refreshes == 0
    {
      now, eventHandled, resetAt := start, false, start;
      reselections, refreshes := [], 0;
      events, acted := [], [];
    }

    /** Lets time pass to `t`; the timer clearing the flag runs if it is due by then. */
    method AdvanceTo(t: int)
      requires Valid() && now <= t
      modifies this
      ensures Valid()
      ensures now == t && events == old(events) && acted == old(acted)
      ensures reselections == old(reselections) && refreshes == old(refreshes) && resetAt == old(resetAt)
      ensures eventHandled == (old(eventHandled) && t < old(resetAt))
    {
      if eventHandled && resetAt <= t {
        eventHandled := false;
      }
      now := t;
    }

    /** A device-change notification at the current time. When the flag is clear it
        sets it, schedules a re-selection `ReselectDelay` later and the clearing of
        the flag `DebounceWindow` later, and starts a device-list refresh; when the
        flag is set the event is ignored. */
    method OnDeviceChange() returns (handled: bool)
      requires Valid()
      modifies this
      ensures Valid()
      ensures handled == !old(eventHandled)
      ensures events == old(events) + [now] && now == old(now)
      ensures acted == if handled then old(acted) + [now] else old(acted)
      ensures handled ==> eventHandled && resetAt == now + DebounceWindow
      ensures reselections == if handled then old(reselections) + [now + ReselectDelay] else old(reselections)
      ensures refreshes == if handled then old(refreshes) + 1 else old(refreshes)
    {
      handled := !eventHandled;
      FlagDecides(events, now, eventHandled);
      events := events + [now];
      if handled {
        ShiftedStep(acted, now, ReselectDelay);
        acted := acted + [now];
        eventHandled := true;
        reselections := reselections + [now + ReselectDelay];
        resetAt := now + DebounceWindow;
        refreshes := refreshes + 1;
      }
    }
  }
}
