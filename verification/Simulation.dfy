/** The sensor Simulation of main.py: a ramp that turns round at its ends and freezes while the wire is
    broken, and two counters. Readings are exact, in tenths of a degree. */
module Simulation {

  const LOWEST: int := 180
  const HIGHEST: int := 260
  const STEP: int := 5
  const NUDGE: int := 11

  datatype State = State(lastSecond: nat, rising: bool, reading: int, binary: bool, multiState: nat, broken: bool)

  const START := State(0, true, 215, false, 1, false)

  /** The direction for the next step: reversed only at or past an end. */
  function Turn(reading: int, rising: bool): bool {
    if reading >= HIGHEST then false else if reading <= LOWEST then true else rising
  }

  /** One pass of the main loop, `second` whole seconds after the first: at most one step a second. */
  function Tick(s: State, second: nat, broken: bool): State {
    if second == s.lastSecond then s else
    var rising := if broken then s.rising else Turn(s.reading, s.rising);
    State(second, rising,
          if broken then s.reading else if rising then s.reading + STEP else s.reading - STEP,
          if second % 3 == 0 then !s.binary else s.binary,
          if second % 4 == 0 then s.multiState % 3 + 1 else s.multiState,
          broken)
  }

  class Simulation {
    var lastSecond: nat
    var rising: bool
    var reading: int
    var binary: bool
    var multiState: nat
    var broken: bool

    ghost function View(): State
      reads this
    {
      State(lastSecond, rising, reading, binary, multiState, broken)
    }

    constructor ()
      ensures View() == START
    {
      lastSecond, rising, reading := 0, true, 215;
      binary, multiState, broken := false, 1, false;
    }

    /** `sensor_simulation_tick` */
    method SensorTick(second: nat, wireBroken: bool)
      modifies this
      ensures View() == Tick(old(View()), second, wireBroken)
    {
      if second == lastSecond {
        return;
      }
      lastSecond := second;
      if wireBroken != broken {
        broken := wireBroken;
      }
      if !broken {
        if reading >= HIGHEST {
          rising := false;
        } else if reading <= LOWEST {
          rising := true;
        }
        reading := if rising then reading + STEP else reading - STEP;
      }
      if second % 3 == 0 {
        binary := !binary;
      }
      if second % 4 == 0 {
        multiState := multiState % 3 + 1;
      }
    }

    /** An arrow key. */
    method Nudge(up: bool)
      modifies this`reading
      ensures reading == old(reading) + if up then 11 else -11
    {
      reading := if up then reading + NUDGE else reading - NUDGE;
    }
  }

  // -- runs ----------------------------------------------------------------------

  datatype Sample = Sample(second: nat, broken: bool)

  function Run(s: State, ticks: seq<Sample>): State
    decreases |ticks|
  {
    if ticks == [] then s else Run(Tick(s, ticks[0].second, ticks[0].broken), ticks[1..])
  }

  /** How many ticks find a new second with the wire whole. */
  function Healthy(lastSecond: nat, ticks: seq<Sample>): nat
    decreases |ticks|
  {
    if ticks == [] then 0
    else (if ticks[0].second != lastSecond && !ticks[0].broken then 1 else 0) + Healthy(ticks[0].second, ticks[1..])
  }

  /** A triangle wave of period 32, from 0 up to 16 and back. */
  function Triangle(phase: nat): nat {
    var p := phase % 32;
    if p <= 16 then p else 32 - p
  }

  predicate OnWave(s: State, phase: nat) {
    && s.reading == LOWEST + STEP * Triangle(phase)
    && (0 < phase % 32 < 16 ==> s.rising) && (16 < phase % 32 ==> !s.rising)
  }

  lemma TickOnWave(s: State, second: nat, broken: bool, phase: nat)
    requires OnWave(s, phase)
    ensures OnWave(Tick(s, second, broken), if second != s.lastSecond && !broken then phase + 1 else phase)
  {
    assert (phase + 1) % 32 == if phase % 32 == 31 then 0 else phase % 32 + 1;
  }

  lemma {:induction false} RunOnWave(s: State, ticks: seq<Sample>, phase: nat)
    requires OnWave(s, phase)
    ensures OnWave(Run(s, ticks), phase + Healthy(s.lastSecond, ticks))
    decreases |ticks|
  {
    hide OnWave;
    if ticks != [] {
      var t := ticks[0];
      TickOnWave(s, t.second, t.broken, phase);
      RunOnWave(Tick(s, t.second, t.broken), ticks[1..],
                if t.second != s.lastSecond && !t.broken then phase + 1 else phase);
    }
  }

  /** Over every schedule of ticks and faults: the reading is the triangle wave at 7 plus the healthy seconds
      acted on, so it stays within 18.0 and 26.0 degrees. */
  lemma ReadingClosedForm(ticks: seq<Sample>)
    ensures Run(START, ticks).reading == LOWEST + STEP * Triangle(7 + Healthy(0, ticks))
    ensures LOWEST <= Run(START, ticks).reading <= HIGHEST
  {
    RunOnWave(START, ticks, 7);
  }

  /** While the wire is broken the reading keeps its last good value, and Reliability says so. */
  lemma {:induction false} FrozenWhileBroken(s: State, ticks: seq<Sample>)
    requires forall i | 0 <= i < |ticks| :: ticks[i].broken
    ensures Run(s, ticks).reading == s.reading && Healthy(s.lastSecond, ticks) == 0
    ensures (exists i :: 0 <= i < |ticks| && ticks[i].second != s.lastSecond) || s.broken ==> Run(s, ticks).broken
    decreases |ticks|
  {
    if ticks != [] {
      FrozenWhileBroken(Tick(s, ticks[0].second, ticks[0].broken), ticks[1..]);
      if (exists i :: 0 <= i < |ticks| && ticks[i].second != s.lastSecond) && ticks[0].second == s.lastSecond {
        var i :| 0 <= i < |ticks| && ticks[i].second != s.lastSecond;
        assert ticks[1..][i - 1] == ticks[i];
      }
    }
  }

  /** Tick `j` finds a second other than the one before it. */
  predicate FindsNew(lastSecond: nat, ticks: seq<Sample>, j: nat)
    requires j < |ticks|
  {
    ticks[j].second != if j == 0 then lastSecond else ticks[j - 1].second
  }

  lemma {:induction false} RunLast(s: State, ticks: seq<Sample>)
    requires ticks != []
    ensures var n := |ticks| - 1; Run(s, ticks) == Tick(Run(s, ticks[..n]), ticks[n].second, ticks[n].broken)
    decreases |ticks|
  {
    hide Tick;
    if |ticks| == 1 {
      assert ticks[..0] == [] && ticks[1..] == [];
    } else {
      var n := |ticks| - 1;
      RunLast(Tick(s, ticks[0].second, ticks[0].broken), ticks[1..]);
      assert ticks[1..][..n - 1] == ticks[..n][1..];
    }
  }

  lemma {:induction false} RunSecond(s: State, ticks: seq<Sample>)
    ensures Run(s, ticks).lastSecond == if ticks == [] then s.lastSecond else ticks[|ticks| - 1].second
    decreases |ticks|
  {
    hide Tick;
    if ticks != [] {
      TickSecond(s, ticks[0].second, ticks[0].broken);
      RunSecond(Tick(s, ticks[0].second, ticks[0].broken), ticks[1..]);
    }
  }

  /** Reliability is the wire as the latest tick in a new second found it, broken or repaired, and what it was if no
      tick found a new second. */
  lemma {:induction false} ReliabilityFollowsWire(s: State, ticks: seq<Sample>)
    ensures (forall j | 0 <= j < |ticks| :: !FindsNew(s.lastSecond, ticks, j)) ==> Run(s, ticks).broken == s.broken
    ensures forall j | 0 <= j < |ticks| && FindsNew(s.lastSecond, ticks, j)
                       && forall k | j < k < |ticks| :: !FindsNew(s.lastSecond, ticks, k) ::
              Run(s, ticks).broken == ticks[j].broken
    decreases |ticks|
  {
    if ticks != [] {
      var n := |ticks| - 1;
      var before := ticks[..n];
      RunLast(s, ticks);
      RunSecond(s, before);
      ReliabilityFollowsWire(s, before);
      assert forall j | 0 <= j < n :: FindsNew(s.lastSecond, before, j) == FindsNew(s.lastSecond, ticks, j);
      assert FindsNew(s.lastSecond, ticks, n) == (ticks[n].second != Run(s, before).lastSecond);
    }
  }

  /** A second tick in the same second changes nothing, whatever the wire does meanwhile. */
  lemma SameSecond(s: State, second: nat, broken: bool, again: bool)
    ensures Tick(Tick(s, second, broken), second, again) == Tick(s, second, broken)
  {
  }

  /** Every second is acted on: each tick is in the current second or the next. */
  predicate EverySecond(lastSecond: nat, ticks: seq<Sample>)
    decreases |ticks|
  {
    ticks == [] ||
    ((ticks[0].second == lastSecond || ticks[0].second == lastSecond + 1) && EverySecond(ticks[0].second, ticks[1..]))
  }

  predicate OnCount(s: State) {
    s.binary == (s.lastSecond / 3 % 2 == 1) && s.multiState == s.lastSecond / 4 % 3 + 1
  }

  lemma TickOnCount(s: State, broken: bool)
    requires OnCount(s)
    ensures OnCount(Tick(s, s.lastSecond + 1, broken))
  {
    EveryThird(s.lastSecond);
    EveryFourth(s.lastSecond);
  }

  lemma EveryThird(n: nat)
    ensures ((n + 1) / 3 % 2 == 1) == if (n + 1) % 3 == 0 then !(n / 3 % 2 == 1) else n / 3 % 2 == 1
  {
    var q := n / 3;
    assert (n + 1) / 3 == if (n + 1) % 3 == 0 then q + 1 else q;
  }

  lemma EveryFourth(n: nat)
    ensures (n + 1) / 4 % 3 + 1 == if (n + 1) % 4 == 0 then (n / 4 % 3 + 1) % 3 + 1 else n / 4 % 3 + 1
  {
    var q: nat := n / 4;
    assert n == 4 * q + n % 4;
    if n % 4 == 3 {
      assert n + 1 == 4 * (q + 1);
      NextOfThree(q);
    }
  }

  lemma NextOfThree(q: nat)
    ensures (q + 1) % 3 == (q % 3 + 1) % 3
  {
  }

  /** Faults or not, the binary input is floor(s/3) mod 2 and the multi-state input floor(s/4) mod 3 + 1. */
  lemma {:induction false} CountersClosedForm(s: State, ticks: seq<Sample>)
    requires OnCount(s) && EverySecond(s.lastSecond, ticks)
    ensures OnCount(Run(s, ticks))
    decreases |ticks|
  {
    hide OnCount;
    if ticks != [] {
      var t := ticks[0];
      if t.second != s.lastSecond {
        TickOnCount(s, t.broken);
      }
      CountersClosedForm(Tick(s, t.second, t.broken), ticks[1..]);
    }
  }

  lemma CountersFromStart(ticks: seq<Sample>)
    requires EverySecond(0, ticks)
    ensures var t := Run(START, ticks);
            t.binary == (t.lastSecond / 3 % 2 == 1) && t.multiState == t.lastSecond / 4 % 3 + 1
  {
    CountersClosedForm(START, ticks);
  }

  // -- recovery after nudges -----------------------------------------------------------

  /** How far the reading is outside 17.6 .. 26.4 degrees. */
  function Distance(reading: int): nat {
    if reading > 264 then reading - 264 else if reading < 176 then 176 - reading else 0
  }

  function Minus(a: nat, b: nat): nat { if b < a then a - b else 0 }

  lemma TickApproaches(s: State, second: nat, broken: bool)
    ensures Distance(Tick(s, second, broken).reading)
            == if second != s.lastSecond && !broken then Minus(Distance(s.reading), STEP) else Distance(s.reading)
  {
  }

  /** From any reading, wherever nudges left it: each healthy second acted on brings it half a degree nearer
      to the band, and once inside it stays. So it is inside exactly when there have been
      distance/0.5 such seconds, rounded up. */
  lemma {:induction false} RampRecovers(s: State, ticks: seq<Sample>)
    ensures Distance(Run(s, ticks).reading) == Minus(Distance(s.reading), STEP * Healthy(s.lastSecond, ticks))
    ensures 176 <= Run(s, ticks).reading <= 264
            <==> Healthy(s.lastSecond, ticks) >= (Distance(s.reading) + STEP - 1) / STEP
    decreases |ticks|
  {
    hide Tick;
    if ticks != [] {
      var t := ticks[0];
      TickApproaches(s, t.second, t.broken);
      TickSecond(s, t.second, t.broken);
      RampRecovers(Tick(s, t.second, t.broken), ticks[1..]);
    }
  }

  lemma TickSecond(s: State, second: nat, broken: bool)
    ensures Tick(s, second, broken).lastSecond == second
  {
  }
}
