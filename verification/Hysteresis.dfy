/** The control law forgets everything but the last sample outside the band between the switching
    thresholds (src/obc_app.c:216-222). */
module Hysteresis {
  import opened Octets
  import opened Onboard
  import opened Postings
  import opened ThermalControl

  predicate NoCommand(steps: seq<Step>) {
    forall i :: 0 <= i < |steps| ==> !steps[i].Command?
  }

  /** What the thermistor shows at the minor cycles among these steps. */
  function Samples(o: Obc, steps: seq<Step>): seq<i16> {
    if steps == [] then [] else
    var n := |steps| - 1;
    Samples(o, steps[..n]) + (if steps[n].Cycle? then [Onward(o, steps[..n]).board.sensor] else [])
  }

  predicate InBand(t: i16) {
    50 < t < 250
  }

  /** The side on which the latest sample outside the band lies: cold is true. */
  function Side(ts: seq<i16>): Option<bool> {
    if ts == [] then None
    else if InBand(ts[|ts| - 1]) then Side(ts[..|ts| - 1])
    else Some(ts[|ts| - 1] <= 50)
  }

  function FirstSide(ts: seq<i16>): Option<bool> {
    if ts == [] then None
    else if FirstSide(ts[..|ts| - 1]).Some? then FirstSide(ts[..|ts| - 1])
    else if InBand(ts[|ts| - 1]) then None
    else Some(ts[|ts| - 1] <= 50)
  }

  /** How often the samples cross the whole band, from one side to the other. */
  function Traversals(ts: seq<i16>): nat {
    if ts == [] then 0 else
    var before, last := ts[..|ts| - 1], ts[|ts| - 1];
    var crossed := !InBand(last) && Side(before).Some? && Side(before).value != (last <= 50);
    Traversals(before) + (if crossed then 1 else 0)
  }

  /** How often the heater line has been switched: the heater events attempted so far. */
  function Switches(o: Obc): nat {
    |AuxOf(o.raised, 5)|
  }

  function HeaterAfter(start: bool, ts: seq<i16>): bool {
    if Side(ts).Some? then Side(ts).value else start
  }

  lemma NominalSample(c: Control, t: i16)
    requires c.mode.Nominal? && t < 400
    ensures c.Sample(t).mode.Nominal?
    ensures c.Sample(t).heaterOn == if InBand(t) then c.heaterOn else t <= 50
    ensures |AuxOf(c.Sample(t).raised, EVT_HEATER)|
         == |AuxOf(c.raised, EVT_HEATER)| + (if c.Sample(t).heaterOn != c.heaterOn then 1 else 0)
  {
    hide AuxOf;
    var on := t <= 50;
    AuxOfCall(c.(heaterOn := on, line := on), EVT_HEATER, INFORMATIVE, Bit(on), EVT_HEATER);
  }

  lemma NoticeIsNoSwitch(raised: seq<EventCall>, tail: seq<EventCall>)
    requires |tail| <= 1 && (|tail| == 1 ==> tail[0].id == EVT_OVERFLOW)
    ensures AuxOf(raised + tail, EVT_HEATER) == AuxOf(raised, EVT_HEATER)
  {
    if |tail| == 0 {
      assert raised + tail == raised;
    } else {
      assert (raised + tail)[..|raised|] == raised;
    }
  }

  lemma NominalCycle(o: Obc)
    requires o.mode.Nominal? && o.board.sensor < 400
    ensures var t := o.board.sensor; var o' := Tick(o);
      && o'.mode.Nominal?
      && o'.heaterOn == (if InBand(t) then o.heaterOn else t <= 50)
      && Switches(o') == Switches(o) + (if o'.heaterOn != o.heaterOn then 1 else 0)
  {
    hide Tick, AuxOf, Thermal, Acquire, Control.Sample;
    TickSamples(o);
    NominalSample(ControlOf(o), o.board.sensor);
    NoticeIsNoSwitch(ControlOf(o).Sample(o.board.sensor).raised, NoticeCalls(Thermal(Acquire(o))));
  }

  lemma QuietStep(o: Obc, s: Step)
    requires s.Fetch? || s.Sense?
    ensures Apply(o, s).mode == o.mode && Apply(o, s).heaterOn == o.heaterOn && Switches(Apply(o, s)) == Switches(o)
  {
    hide AuxOf, Tick, ProcessTc;
  }

  /** From o to o' by way of these samples: the heater is on exactly if the latest sample outside
      the band was cold (or, if there was none, if it was on before); and it switched once per
      complete traversal of the band, plus once at the start if the first sample outside the band
      disagrees with it. */
  ghost predicate Regulated(o: Obc, ts: seq<i16>, o': Obc) {
    && o'.mode.Nominal?
    && o'.heaterOn == HeaterAfter(o.heaterOn, ts)
    && (FirstSide(ts).Some? <==> Side(ts).Some?)
    && Switches(o') - Switches(o)
       == Traversals(ts) + (if FirstSide(ts).Some? && FirstSide(ts).value != o.heaterOn then 1 else 0)
  }

  lemma CycleRegulated(o: Obc, ts: seq<i16>, o': Obc)
    requires Regulated(o, ts, o') && o'.board.sensor < 400
    ensures Regulated(o, ts + [o'.board.sensor], Tick(o'))
  {
    hide Tick, Switches;
    NominalCycle(o');
    assert (ts + [o'.board.sensor])[..|ts|] == ts;
  }

  /** Left without commands in NOMINAL below the alarm threshold, whatever the sensor does between
      the cycles and whatever the downlink fetches. */
  lemma {:induction false} HysteresisExact(o: Obc, steps: seq<Step>)
    requires o.mode.Nominal? && NoCommand(steps)
    requires forall i :: 0 <= i < |Samples(o, steps)| ==> Samples(o, steps)[i] < 400
    ensures Regulated(o, Samples(o, steps), Onward(o, steps))
  {
    hide Apply, Tick, Regulated, Switches;
    if steps == [] {
      NothingRegulated(o);
    } else {
      var n := |steps| - 1;
      var before := Onward(o, steps[..n]);
      var ts, all := Samples(o, steps[..n]), Samples(o, steps);
      assert forall i :: 0 <= i < |ts| ==> ts[i] == all[i];
      HysteresisExact(o, steps[..n]);
      if steps[n].Cycle? {
        assert all[|ts|] == before.board.sensor;
        ApplyUnfolds(before, steps[n]);
        CycleRegulated(o, ts, before);
      } else {
        assert all == ts;
        QuietStep(before, steps[n]);
        SameRegulated(o, ts, before, Apply(before, steps[n]));
      }
    }
  }

  lemma NothingRegulated(o: Obc)
    requires o.mode.Nominal?
    ensures Regulated(o, [], o)
  {
  }

  lemma SameRegulated(o: Obc, ts: seq<i16>, o': Obc, o'': Obc)
    requires Regulated(o, ts, o')
    requires o''.mode == o'.mode && o''.heaterOn == o'.heaterOn && Switches(o'') == Switches(o')
    ensures Regulated(o, ts, o'')
  {
  }

  predicate LastOutside(ts: seq<i16>, k: nat)
    requires k < |ts|
  {
    !InBand(ts[k]) && forall i :: k < i < |ts| ==> InBand(ts[i])
  }

  /** Side in terms of the samples themselves. */
  lemma {:induction false} SideMeaning(ts: seq<i16>)
    ensures Side(ts) == None <==> forall i :: 0 <= i < |ts| ==> InBand(ts[i])
    ensures Side(ts).Some? ==>
      exists k :: 0 <= k < |ts| && LastOutside(ts, k) && Side(ts).value == (ts[k] <= 50)
  {
    if ts != [] {
      var n := |ts| - 1;
      SideMeaning(ts[..n]);
      if InBand(ts[n]) && Side(ts[..n]).Some? {
        var k :| 0 <= k < n && LastOutside(ts[..n], k) && Side(ts[..n]).value == (ts[..n][k] <= 50);
        assert ts[k] == ts[..n][k];
        forall i | k < i < |ts|
          ensures InBand(ts[i])
        {
          if i < n {
            assert ts[i] == ts[..n][i];
          }
        }
        assert LastOutside(ts, k);
      } else if !InBand(ts[n]) {
        assert LastOutside(ts, n);
      } else {
        assert forall i :: 0 <= i < n ==> ts[i] == ts[..n][i];
      }
    }
  }
}
