/** The brightness dimmer of one deck (streamdeck_ui/dimmer.py).

    The source arms a `threading.Timer` that calls `dim()` after `timeout`
    seconds. Here the timer is the flag `timerArmed`, and its expiry is the
    explicit event `Fire`. The brightness callback is recorded: every value it
    was called with is appended to `calls`. */
module Dimmers {

  /** The dimmer's settings and its three flags. */
  datatype DimmerState = DimmerState(
    timeout: int,
    brightness: int,
    brightnessDimmed: int,
    stopped: bool,
    dimmed: bool,
    timerArmed: bool)

  /** The result of one operation: the new state, the brightness values passed
      to the callback (in call order), and what `reset` returns. */
  datatype Outcome = Outcome(next: DimmerState, callbacks: seq<int>, woke: bool)

  predicate SameSettings(a: DimmerState, b: DimmerState) {
    a.timeout == b.timeout && a.brightness == b.brightness && a.brightnessDimmed == b.brightnessDimmed
  }

  /** A stopped or dimmed dimmer never has a timer pending. */
  predicate Inv(s: DimmerState) {
    (s.stopped || s.dimmed) ==> !s.timerArmed
  }

  /** A fresh dimmer: not stopped, not dimmed, no timer. */
  function Initial(timeout: int, brightness: int, brightnessDimmed: int): (s: DimmerState)
    ensures !s.stopped && !s.dimmed && !s.timerArmed && Inv(s)
  {
    DimmerState(timeout, brightness, brightnessDimmed, false, false, false)
  }

  /** `reset`: restart the countdown and undo a dim. */
  function ResetStep(s: DimmerState): (o: Outcome)
    ensures SameSettings(o.next, s) && Inv(o.next)
    ensures !o.next.stopped && !o.next.dimmed
    ensures o.next.timerArmed <==> s.timeout != 0
    ensures o.callbacks == (if s.dimmed then [s.brightness] else [])
    ensures o.woke <==> s.dimmed && s.brightnessDimmed < 20
  {
    var restarted := s.(stopped := false, timerArmed := s.timeout != 0);
    if s.dimmed then
      Outcome(restarted.(dimmed := false), [s.brightness], s.brightnessDimmed < 20)
    else
      Outcome(restarted, [], false)
  }

  /** `dim(toggle)`. It returns nothing, so `woke` is always false here. */
  function DimStep(s: DimmerState, toggle: bool): (o: Outcome)
    ensures SameSettings(o.next, s) && !o.woke
    ensures Inv(s) ==> Inv(o.next)
    ensures s.stopped ==> o.next == s && o.callbacks == []
    ensures !s.stopped && toggle && s.dimmed ==>
              o.next == ResetStep(s).next && o.callbacks == ResetStep(s).callbacks
    ensures !s.stopped && !(toggle && s.dimmed) && s.timerArmed ==>
              o.next == s.(timerArmed := false, dimmed := true) && o.callbacks == [s.brightnessDimmed]
    ensures !s.stopped && !(toggle && s.dimmed) && !s.timerArmed ==>
              o.next == s && o.callbacks == []
  {
    if s.stopped then Outcome(s, [], false)
    else if toggle && s.dimmed then
      var r := ResetStep(s);
      Outcome(r.next, r.callbacks, false)
    else if s.timerArmed then
      Outcome(s.(timerArmed := false, dimmed := true), [s.brightnessDimmed], false)
    else Outcome(s, [], false)
  }

  /** `stop`: cancel the timer, restore the brightness, become stopped. A
      KeyError raised by the callback is swallowed, so the outcome is the same
      whether or not the callback fails. The dimmed flag is left as it was. */
  function StopStep(s: DimmerState): (o: Outcome)
    ensures SameSettings(o.next, s) && Inv(o.next) && !o.woke
    ensures o.next.stopped && !o.next.timerArmed && o.next.dimmed == s.dimmed
    ensures o.callbacks == [s.brightness]
  {
    Outcome(s.(timerArmed := false, stopped := true), [s.brightness], false)
  }

  /** The events that drive a dimmer. `Fire` is the timer expiring; it can only
      happen while a timer is armed, and otherwise is ignored. */
  datatype Event = Reset | Dim(toggle: bool) | Stop | Fire

  function Apply(s: DimmerState, e: Event): DimmerState {
    match e
    case Reset => ResetStep(s).next
    case Dim(toggle) => DimStep(s, toggle).next
    case Stop => StopStep(s).next
    case Fire => if s.timerArmed then DimStep(s, false).next else s
  }

  function Run(s: DimmerState, events: seq<Event>): DimmerState
    decreases |events|
  {
    if |events| == 0 then s else Run(Apply(s, events[0]), events[1..])
  }

  /** With timeout 0 the dimmer never arms a timer, so once awake and without a
      timer it never becomes dimmed, whatever happens. */
  lemma {:induction false} NoTimeoutNeverDims(s: DimmerState, events: seq<Event>)
    requires s.timeout == 0 && !s.dimmed && !s.timerArmed
    ensures !Run(s, events).dimmed && !Run(s, events).timerArmed
    decreases |events|
  {
    if |events| > 0 {
      NoTimeoutNeverDims(Apply(s, events[0]), events[1..]);
    }
  }

  /** Every sequence of events keeps the invariant. */
  lemma {:induction false} RunKeepsInv(s: DimmerState, events: seq<Event>)
    requires Inv(s)
    ensures Inv(Run(s, events))
    decreases |events|
  {
    if |events| > 0 {
      RunKeepsInv(Apply(s, events[0]), events[1..]);
    }
  }

  /** A second `reset` in a row changes nothing and reports no wake. */
  lemma ResetTwice(s: DimmerState)
    ensures ResetStep(ResetStep(s).next).next == ResetStep(s).next
    ensures ResetStep(ResetStep(s).next).callbacks == []
    ensures !ResetStep(ResetStep(s).next).woke
  {
  }

  /** With timeout 10, brightness 100 and dimmed brightness 20: after the timer
      fires the deck is at 20, and a reset brings it back to 100 but reports no
      wake, because 20 is not below 20. */
  lemma AutoDimThenReset()
    ensures var s := ResetStep(Initial(10, 100, 20)).next;
            var d := DimStep(s, false);
            s.timerArmed && d.next.dimmed && d.callbacks == [20] &&
            ResetStep(d.next).callbacks == [100] && !ResetStep(d.next).woke &&
            ResetStep(d.next).next.timerArmed
  {
  }

  /** One deck's dimmer as the source's object: public settings, private flags,
      and the record of callback invocations. */
  class Dimmer {
    var timeout: int
    var brightness: int
    var brightnessDimmed: int
    var stopped: bool
    var dimmed: bool
    var timerArmed: bool
    var calls: seq<int>

    function State(): DimmerState
      reads this
    {
      DimmerState(timeout, brightness, brightnessDimmed, stopped, dimmed, timerArmed)
    }

    constructor (timeout: int, brightness: int, brightnessDimmed: int)
      ensures State() == Initial(timeout, brightness, brightnessDimmed) && calls == []
    {
      this.timeout := timeout;
      this.brightness := brightness;
      this.brightnessDimmed := brightnessDimmed;
      stopped, dimmed, timerArmed := false, false, false;
      calls := [];
    }

    method Stop()
      modifies this
      ensures State() == StopStep(old(State())).next
      ensures calls == old(calls) + StopStep(old(State())).callbacks
    {
      timerArmed := false;
      calls := calls + [brightness];
      stopped := true;
    }

    method Reset() returns (woke: bool)
      modifies this
      ensures State() == ResetStep(old(State())).next
      ensures calls == old(calls) + ResetStep(old(State())).callbacks
      ensures woke == ResetStep(old(State())).woke
    {
      stopped := false;
      timerArmed := timeout != 0;
      woke := false;
      if dimmed {
        calls := calls + [brightness];
        dimmed := false;
        if brightnessDimmed < 20 {
          woke := true;
        }
      }
    }

    method Dim(toggle: bool)
      modifies this
      ensures State() == DimStep(old(State()), toggle).next
      ensures calls == old(calls) + DimStep(old(State()), toggle).callbacks
    {
      if stopped {
        return;
      }
      if toggle && dimmed {
        var _ := Reset();
      } else if timerArmed {
        timerArmed := false;
        calls := calls + [brightnessDimmed];
        dimmed := true;
      }
    }

    /** The timer expiring: the timer thread calls `dim()`. */
    method Fire()
      requires timerArmed
      modifies this
      ensures State() == DimStep(old(State()), false).next
      ensures calls == old(calls) + DimStep(old(State()), false).callbacks
    {
      Dim(false);
    }
  }
}
