/**
  The daemon and a Python client behind its socket look at the same zones:
  the reader (src/daemon/thermal_reader.c), the wire and both decisions in one.
 */
module SharedTelemetry {
  import opened Wrappers
  import opened Telemetry
  import opened TelemetryWire
  import opened ThermalReader

  /** Under the maximum, the default, the client reads the daemon's number and decides alike, whatever the zones. */
  lemma MaxReadingsAgree(p: Policy, zones: seq<Entry>, r: Option<real>)
    requires MirrorsDaemon(p)
    requires (forall e | e in zones :: Readable(e)) && IsReading(zones, Max, r)
    ensures SampleOf(Received(TelemetrySample(r))) == TelemetrySample(r)
    ensures p.Evaluate(SampleOf(Received(TelemetrySample(r)))).Some? <==> Violated(TelemetrySample(r))
  {
    if r.Some? {
      var hottest :| hottest in zones && Celsius(hottest) == r.value;
      MillidegreesAgree(p, TelemetrySample(r), hottest.temp.value);
    }
  }

  /** Under the mean a violation is missed exactly in the band. */
  lemma MeanMissedIff(p: Policy, zones: seq<Entry>, r: Option<real>)
    requires MirrorsDaemon(p) && IsReading(zones, Mean, r)
    ensures Missed(p, TelemetrySample(r)) <==> zones != [] && 85.0 < Total(zones) / |zones| as real <= 85.0005
  {
    DecisionsAgree(p, TelemetrySample(r));
  }

  const ZONE0: Entry := Entry("thermal_zone0", Some("cpu"), Millidegrees(85000))
  const ZONE1: Entry := Entry("thermal_zone1", Some("cpu"), Millidegrees(85000))
  const ZONE2: Entry := Entry("thermal_zone2", Some("cpu"), Millidegrees(85001))

  lemma TotalOfThree(a: Entry, b: Entry, c: Entry)
    ensures Total([a, b, c]) == Celsius(a) + Celsius(b) + Celsius(c)
  {
    assert [a, b, c][..2] == [a, b];
    assert [a, b][..1] == [a];
    assert [a][..0] == [];
    assert Total([a]) == Celsius(a);
    assert Total([a, b]) == Total([a]) + Celsius(b);
  }

  /** Three zones, two at 85 degrees and one a thousandth above: the daemon falls back and the client does not. */
  lemma MeanCanBeMissed(p: Policy) returns (r: Option<real>)
    requires MirrorsDaemon(p)
    ensures IsReading([ZONE0, ZONE1, ZONE2], Mean, r) && Missed(p, TelemetrySample(r))
  {
    TotalOfThree(ZONE0, ZONE1, ZONE2);
    var mean := 255.001 / 3.0;
    r := Some(mean);
    assert IsReading([ZONE0, ZONE1, ZONE2], Mean, r);
    MeanMissedIff(p, [ZONE0, ZONE1, ZONE2], r);
  }
}
