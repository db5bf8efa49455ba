/** An aircraft first heard on the ground: where two surface reports put it. */
module AdsbGround {
  import opened BitStrings
  import opened Cpr
  import opened CprGlobal
  import opened CprSurface
  import opened AircraftTracking
  import opened AdsbEndToEnd
  import opened AdsbReference

  /** The two surface reports can be decoded together. */
  predicate GroundPair(even: Site, odd: Site) {
    var nl := CprNL(SentLat(even, false, true));
    Valid(even) && Valid(odd) && CloseOnGround(even.lat, odd.lat, 59) && (nl > 1 ==> CloseOnGround(even.lon, odd.lon, nl - 1))
  }

  lemma GroundStored(ac: AircraftState, me: seq<byte>, now: real)
    requires Untracked(ac) && |me| >= 7
    ensures var next := SurfacePosition(ac, me, now);
            && !next.posValid && next.onGround && next.altitude == 0
            && if OddFlag(me) then next.hasOdd && next.oddLat == LatField(me) && next.oddLon == LonField(me) && next.oddTime == now
               else next.hasEven && next.evenLat == LatField(me) && next.evenLon == LonField(me) && next.evenTime == now
  {
    hide LatField, LonField, OddFlag, DecodeCPRGlobal, DecodeCPRSurfaceGlobal, MaxJump;
  }

  /** A second surface report of the other format is decoded together with the first if and only if they are less
      than ten seconds apart. */
  lemma SecondOnGround(ac: AircraftState, me: seq<byte>, now: real, lat: real, lon: real, was: real)
    requires !ac.posValid && |me| >= 7
    requires if OddFlag(me) then ac.hasEven && ac.evenLat == lat && ac.evenLon == lon && ac.evenTime == was
             else ac.hasOdd && ac.oddLat == lat && ac.oddLon == lon && ac.oddTime == was
    ensures var next := SurfacePosition(ac, me, now);
            var fix := if OddFlag(me) then DecodeCPRSurfaceGlobal(lat, lon, LatField(me), LonField(me), true)
                       else DecodeCPRSurfaceGlobal(LatField(me), LonField(me), lat, lon, false);
            && (next.posValid <==> Abs(now - was) < 10.0 && fix.Fix?)
            && (next.posValid ==> next.latitude == fix.lat && next.longitude == fix.lon && next.lastPosTime == now)
  {
    hide LatField, LonField, OddFlag, DecodeCPRGlobal, DecodeCPRSurfaceGlobal, MaxJump;
  }

  /** Both reports from the northern hemisphere, with the same number of longitude zones. */
  predicate North(even: Site, odd: Site) {
    var (q0, q1) := (SentLat(even, false, true), SentLat(odd, true, true));
    0.0 <= q0 < 90.0 && 0.0 <= q1 < 90.0 && CprNL(q0) == CprNL(q1)
  }

  /** The aircraft is where the report says. */
  ghost predicate StandsRight(ac: AircraftState, p: Site, odd: bool) {
    ac.posValid && ac.latitude == SentLat(p, odd, true) && SameModTurns(ac.longitude, SentLon(p, odd, true))
  }

  /** Two surface reports of a new aircraft, in either order: it is put where the later one was sent from if and
      only if they are less than ten seconds apart, both northern, and sent between Greenwich and 90 degrees east;
      from any other northern longitude it is put at that longitude modulo 90 degrees. */
  lemma GroundPairLocates(ac: AircraftState, even: Site, odd: Site, oddLast: bool, me0: seq<byte>, me1: seq<byte>, t0: real, t1: real, seen: real)
    requires Untracked(ac) && GroundPair(even, odd)
    requires Sent(me0, if oddLast then even else odd, !oddLast, true)
    requires Sent(me1, if oddLast then odd else even, oddLast, true)
    ensures var next := SurfacePosition(SurfacePosition(ac, me0, t0).(lastSeen := seen), me1, t1);
            var last := if oddLast then odd else even;
            && (StandsRight(next, last, oddLast)
                <==> Abs(t1 - t0) < 10.0 && North(even, odd) && InFirstQuarter(SentLon(last, oddLast, true)))
            && (Abs(t1 - t0) < 10.0 && North(even, odd) ==>
                  next.posValid && next.latitude == SentLat(last, oddLast, true) && next.longitude == Fold(SentLon(last, oddLast, true)))
  {
    var (first, last) := if oddLast then (even, odd) else (odd, even);
    SentFields(me0, first, !oddLast, true);
    SentFields(me1, last, oddLast, true);
    hide LatField, LonField, OddFlag, SurfacePosition, Altitude;
    hide CprNL, CloseOnGround, DecodeCPRSurfaceGlobal, LonZones, Abs, Sent, SameModTurns, InFirstQuarter, Fold, Reported, Fraction, Valid;
    GroundStored(ac, me0, t0);
    SecondOnGround(SurfacePosition(ac, me0, t0).(lastSeen := seen), me1, t1, LatField(me0), LonField(me0), t0);
    ValidRange(even);
    ValidRange(odd);
    GroundRightIff(even.lat, even.lon, odd.lat, odd.lon, oddLast);
  }

  lemma ValidRange(p: Site)
    requires Valid(p)
    ensures -90.0 <= p.lat <= 90.0
  {
  }

  /** For instance, an aircraft that is first heard on the ground at (45, -90) is put at (45, 0). */
  lemma GroundExample(ac: AircraftState, height: nat, me0: seq<byte>, me1: seq<byte>, t0: real, t1: real)
    requires Untracked(ac) && height < 2048 && Abs(t1 - t0) < 10.0
    requires Sent(me0, Site(45.0, -90.0, height), false, true) && Sent(me1, Site(45.0, -90.0, height), true, true)
    ensures var next := SurfacePosition(SurfacePosition(ac, me0, t0), me1, t1);
            next.posValid && next.latitude == 45.0 && next.longitude == 0.0
  {
    var p := Site(45.0, -90.0, height);
    ExampleReported(p);
    ExamplePair(p);
    hide SurfacePosition, SentLat, SentLon, Sent, Abs, GroundPair, Fold, CprNL;
    FoldIs(-90.0, -1, 0.0);
    GroundPairLocates(ac, p, p, true, me0, me1, t0, t1, SurfacePosition(ac, me0, t0).lastSeen);
  }

  lemma ExampleReported(p: Site)
    requires p.lat == 45.0 && p.lon == -90.0
    ensures SentLat(p, false, true) == 45.0 && SentLat(p, true, true) == 45.0
    ensures SentLon(p, true, true) == -90.0
  {
    assert CprNL(45.0) == 42;
  }

  lemma ExamplePair(p: Site)
    requires Valid(p) && p.lat == 45.0 && p.lon == -90.0
    ensures GroundPair(p, p) && North(p, p)
  {
    ExampleReported(p);
    assert CprNL(45.0) == 42;
    hide SentLat;
  }
}
