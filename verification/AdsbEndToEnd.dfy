/** ADS-B from end to end: an even and an odd position report, sent as Mode-S squitters in Beast
    messages, put the aircraft within half a bin of where the later report was sent from. */
module AdsbEndToEnd {
  import opened BitStrings
  import opened Sequences
  import opened Cpr
  import opened CprGlobal
  import opened AircraftTracking
  import opened AdsbDecoder
  import opened AdsbStream
  import opened BeastLoss
  import Crc24
  import Crc24Standard

  // ---------- the transmitter ----------

  /** The 56-bit field of an airborne position message (RTCA DO-260B section 2.2.3.2.3): status is the
      surveillance status and antenna flag, code the altitude code, yz and xz the coordinates. */
  function PackReport(tc: nat, status: nat, code: nat, timed: bool, odd: bool, yz: nat, xz: nat): (me: seq<byte>)
    requires tc < 32 && status < 8 && code < 4096 && yz < BINS && xz < BINS
    ensures |me| == 7 && me[0] / 8 == tc
  {
    [tc * 8 + status,
     code / 16,
     code % 16 * 16 + (if timed then 8 else 0) + (if odd then 4 else 0) + yz / 32768,
     yz / 128 % 256,
     yz % 128 * 2 + xz / 65536,
     xz / 256 % 256,
     xz % 256]
  }

  /** An altitude of 25 n - 1000 feet, with the Q bit set. */
  function AltitudeCode(n: nat): (code: nat)
    requires n < 2048
    ensures code < 4096
  {
    n / 16 * 32 + 16 + n % 16
  }

  lemma LatitudeBits(high: nat, yz: nat, low: nat)
    requires yz < BINS && low < 2
    ensures (4 * high + yz / 32768) % 4 * 32768 + yz / 128 % 256 * 128 + (yz % 128 * 2 + low) / 2 == yz
  {
    assert yz / 128 == yz / 32768 * 256 + yz / 128 % 256;
  }

  lemma LongitudeBits(high: nat, xz: nat)
    requires xz < BINS
    ensures (2 * high + xz / 65536) % 2 * 65536 + xz / 256 % 256 * 256 + xz % 256 == xz
  {
    assert xz / 256 == xz / 65536 * 256 + xz / 256 % 256;
  }

  lemma FormatBit(high: nat, odd: bool, low: nat)
    requires low < 4
    ensures (8 * high + (if odd then 4 else 0) + low) / 4 % 2 == if odd then 1 else 0
  {
  }

  lemma PositionFields(tc: nat, status: nat, code: nat, timed: bool, odd: bool, yz: nat, xz: nat)
    requires tc < 32 && status < 8 && code < 4096 && yz < BINS && xz < BINS
    ensures var me := PackReport(tc, status, code, timed, odd, yz, xz);
            && LatField(me) == yz as real / BINS as real
            && LonField(me) == xz as real / BINS as real
            && OddFlag(me) == odd
  {
    var me := PackReport(tc, status, code, timed, odd, yz, xz);
    var high := code % 16 * 2 + if timed then 1 else 0;
    LatitudeBits(2 * high + if odd then 1 else 0, yz, xz / 65536);
    LongitudeBits(yz % 128, xz);
    FormatBit(high, odd, yz / 32768);
    assert me[2] as int == 8 * high + (if odd then 4 else 0) + yz / 32768;
    assert me[4] as int == yz % 128 * 2 + xz / 65536;
  }

  lemma CodeOf(n: nat)
    requires n < 2048
    ensures var code := AltitudeCode(n); code / 16 % 2 == 1 && code / 32 % 128 * 16 + code % 16 == n
  {
    var code := AltitudeCode(n);
    assert code == 32 * (n / 16) + (16 + n % 16);
    assert code / 32 == n / 16 && code % 32 == 16 + n % 16;
    assert code / 16 == 2 * (n / 16) + 1;
  }

  /** The altitude is read back, in the range that is accepted. */
  lemma AltitudeField(tc: nat, status: nat, n: nat, timed: bool, odd: bool, yz: nat, xz: nat)
    requires tc < 32 && status < 8 && n < 2048 && yz < BINS && xz < BINS
    ensures var me := PackReport(tc, status, AltitudeCode(n), timed, odd, yz, xz);
            Altitude(me) == 25 * n - 1000 && ValidAltitude(Altitude(me))
  {
    var code := AltitudeCode(n);
    CodeOf(n);
    hide AltitudeCode;
    var me := PackReport(tc, status, code, timed, odd, yz, xz);
    var low := (if timed then 8 else 0) + (if odd then 4 else 0) + yz / 32768;
    assert me[2] as int == code % 16 * 16 + low && low < 16;
    assert me[1] as int * 16 + me[2] as int / 16 == code;
  }

  /** Without the Q bit the altitude is a hundred feet for each unit of the low eleven bits of the code. */
  lemma AltitudeInHundreds(tc: nat, status: nat, code: nat, timed: bool, odd: bool, yz: nat, xz: nat)
    requires tc < 32 && status < 8 && code < 4096 && code / 16 % 2 == 0 && yz < BINS && xz < BINS
    ensures Altitude(PackReport(tc, status, code, timed, odd, yz, xz))
         == 100 * if code < 2048 then code else code - 2048
  {
    var me := PackReport(tc, status, code, timed, odd, yz, xz);
    var low := (if timed then 8 else 0) + (if odd then 4 else 0) + yz / 32768;
    assert me[2] as int == code % 16 * 16 + low && low < 16;
    assert me[1] as int * 16 + me[2] as int / 16 == code;
  }

  /** A position message is refused, and nothing is stored, if and only if it is shorter than seven bytes or says
      60000 feet or more. */
  lemma AltitudeRefused(ac: AircraftState, me: seq<byte>, now: real)
    ensures |me| < 7 || Altitude(me) >= 60000 ==> AirbornePosition(ac, me, now) == ac
    ensures |me| >= 7 && Altitude(me) < 60000 ==>
              AirbornePosition(ac, me, now).altitude == Altitude(me) && AirbornePosition(ac, me, now).msgCount == ac.msgCount + 1
  {
    if |me| >= 7 {
      AltitudeAtLeast(me);
    }
    hide Altitude, LatField, LonField, OddFlag, Attempt;
  }

  lemma AltitudeAtLeast(me: seq<byte>)
    requires |me| >= 7
    ensures Altitude(me) >= -1000
  {
  }

  /** Where and how high the aircraft is when it sends a report. */
  datatype Site = Site(lat: real, lon: real, height: nat)

  predicate Valid(p: Site) {
    -90.0 <= p.lat <= 90.0 && p.height < 2048
  }

  /** The position report of one format sent from a site. */
  function ReportFrom(p: Site, odd: bool, tc: nat, status: nat, timed: bool): (me: seq<byte>)
    requires Valid(p) && 9 <= tc <= 18 && status < 8
    ensures |me| == 7 && me[0] / 8 == tc
  {
    PackReport(tc, status, AltitudeCode(p.height), timed, odd,
               Encode(p.lat, LatZones(odd)), Encode(p.lon, LonZones(Reported(p.lat, LatZones(odd)), odd)))
  }

  /** A message field that starts with the report of a site. */
  predicate Sends(me: seq<byte>, p: Site, odd: bool) {
    && Valid(p) && |me| >= 7
    && exists tc: nat, status: nat, timed :: 9 <= tc <= 18 && status < 8 && me[..7] == ReportFrom(p, odd, tc, status, timed)
  }

  lemma FrontFields(me: seq<byte>)
    requires |me| >= 7
    ensures LatField(me) == LatField(me[..7]) && LonField(me) == LonField(me[..7])
    ensures OddFlag(me) == OddFlag(me[..7]) && Altitude(me) == Altitude(me[..7])
  {
  }

  /** What the receiver reads in it. */
  lemma ReportFields(me: seq<byte>, p: Site, odd: bool)
    requires Sends(me, p, odd)
    ensures LatField(me) == Fraction(p.lat, LatZones(odd))
    ensures LonField(me) == Fraction(p.lon, LonZones(Reported(p.lat, LatZones(odd)), odd))
    ensures OddFlag(me) == odd && Altitude(me) == 25 * p.height - 1000 && ValidAltitude(Altitude(me))
  {
    hide LatField, LonField, OddFlag, Altitude, ValidAltitude, PackReport, AltitudeCode, Encode, Reported, CprNL;
    var tc: nat, status: nat, timed :| 9 <= tc <= 18 && status < 8 && me[..7] == ReportFrom(p, odd, tc, status, timed);
    FrontFields(me);
    var yz, xz := Encode(p.lat, LatZones(odd)), Encode(p.lon, LonZones(Reported(p.lat, LatZones(odd)), odd));
    PositionFields(tc, status, AltitudeCode(p.height), timed, odd, yz, xz);
    AltitudeField(tc, status, p.height, timed, odd, yz, xz);
  }

  // ---------- two reports ----------

  /** No position and no report to pair a new one with. */
  predicate Untracked(ac: AircraftState) {
    !ac.posValid && !ac.hasEven && !ac.hasOdd
  }

  lemma FirstReport(ac: AircraftState, me: seq<byte>, now: real)
    requires Untracked(ac) && |me| >= 7 && ValidAltitude(Altitude(me))
    ensures AirbornePosition(ac, me, now)
         == StoreReport(ac.(altitude := Altitude(me), msgCount := ac.msgCount + 1), LatField(me), LonField(me), OddFlag(me), now)
  {
    hide Altitude, LatField, LonField, OddFlag, DecodeCPRGlobal, DecodeCPRSurfaceGlobal, ValidAltitude, MaxJump;
  }

  lemma FirstStored(ac: AircraftState, me: seq<byte>, now: real)
    requires Untracked(ac) && |me| >= 7 && ValidAltitude(Altitude(me))
    ensures var next := AirbornePosition(ac, me, now);
            && !next.posValid
            && if OddFlag(me) then next.hasOdd && next.oddLat == LatField(me) && next.oddLon == LonField(me) && next.oddTime == now
               else next.hasEven && next.evenLat == LatField(me) && next.evenLon == LonField(me) && next.evenTime == now
  {
    hide AirbornePosition, Altitude, LatField, LonField, OddFlag, ValidAltitude;
    FirstReport(ac, me, now);
  }

  /** A second report of the other format within ten seconds is decoded together with the first. */
  lemma SecondReport(ac: AircraftState, me: seq<byte>, now: real, lat: real, lon: real, was: real)
    requires !ac.posValid && |me| >= 7 && ValidAltitude(Altitude(me)) && Abs(now - was) < 10.0
    requires if OddFlag(me) then ac.hasEven && ac.evenLat == lat && ac.evenLon == lon && ac.evenTime == was
             else ac.hasOdd && ac.oddLat == lat && ac.oddLon == lon && ac.oddTime == was
    ensures var next := AirbornePosition(ac, me, now);
            var fix := if OddFlag(me) then DecodeCPRGlobal(lat, lon, LatField(me), LonField(me), true)
                       else DecodeCPRGlobal(LatField(me), LonField(me), lat, lon, false);
            && next.altitude == Altitude(me)
            && (fix.Fix? ==> next.posValid && next.latitude == fix.lat && next.longitude == fix.lon && next.lastPosTime == now)
            && (fix.NoFix? ==> !next.posValid)
  {
    hide Altitude, LatField, LonField, OddFlag, DecodeCPRGlobal, DecodeCPRSurfaceGlobal, ValidAltitude, MaxJump;
  }

  /** The two reports can be decoded together: close enough, and the same number of longitude zones. */
  predicate Pair(even: Site, odd: Site) {
    var nl := CprNL(Reported(even.lat, 60));
    && CloseEnough(even.lat, odd.lat, 59)
    && nl == CprNL(Reported(odd.lat, 59)) && (nl > 1 ==> CloseEnough(even.lon, odd.lon, nl - 1))
  }

  /** The later report put the aircraft at its height and within half a bin of its place. */
  ghost predicate At(ac: AircraftState, p: Site, odd: bool, now: real) {
    && ac.posValid && ac.lastPosTime == now && ac.altitude == 25 * p.height - 1000
    && Recovers(Fix(ac.latitude, ac.longitude), p.lat, p.lon, odd)
  }

  /** Two position reports of a new aircraft, in either order. */
  lemma PairLocates(ac: AircraftState, even: Site, odd: Site, oddLast: bool, me0: seq<byte>, me1: seq<byte>, t0: real, t1: real, seen: real)
    requires Untracked(ac) && Pair(even, odd) && Abs(t1 - t0) < 10.0
    requires Sends(me0, if oddLast then even else odd, !oddLast)
    requires Sends(me1, if oddLast then odd else even, oddLast)
    ensures At(AirbornePosition(AirbornePosition(ac, me0, t0).(lastSeen := seen), me1, t1), if oddLast then odd else even, oddLast, t1)
  {
    var first, last := if oddLast then even else odd, if oddLast then odd else even;
    ReportFields(me0, first, !oddLast);
    ReportFields(me1, last, oddLast);
    hide LatField, LonField, OddFlag, Altitude, AirbornePosition, ValidAltitude, StoreReport;
    hide Fraction, Reported, CprNL, CloseEnough, DecodeCPRGlobal, LonZones, Abs, Sends, NearModTurns, HalfBinWidth;
    FirstStored(ac, me0, t0);
    SecondReport(AirbornePosition(ac, me0, t0).(lastSeen := seen), me1, t1, LatField(me0), LonField(me0), t0);
    GlobalDecode(even.lat, even.lon, odd.lat, odd.lon, oddLast);
  }

  // ---------- squitters ----------

  function ParityBytes(r: seq<bool>): (bytes: seq<byte>)
    requires |r| == 24
    ensures |bytes| == 3
  {
    ValueBound(r[..8]);
    ValueBound(r[8..16]);
    ValueBound(r[16..]);
    assert Pow2(8) == 256;
    [Value(r[..8]), Value(r[8..16]), Value(r[16..])]
  }

  /** A 112-bit extended squitter, of a transponder (downlink format 17) or not (18), its parity by the generator of
      the standard. */
  function Squitter(df: nat, capability: nat, icao: nat, me: seq<byte>): (msg: seq<byte>)
    requires df in {17, 18} && capability < 8 && icao < 0x100_0000 && |me| == 7
    ensures |msg| == 14
  {
    var data: seq<byte> := [8 * df + capability, icao / 65536, icao / 256 % 256, icao % 256] + me;
    data + ParityBytes(Crc24.Crc(Crc24Standard.Standard(), data))
  }

  lemma SquitterAccepted(df: nat, capability: nat, icao: nat, me: seq<byte>)
    requires df in {17, 18} && capability < 8 && icao < 0x100_0000 && |me| == 7
    ensures var msg := Squitter(df, capability, icao, me);
            && Crc24.Accepts(Crc24.ModeS(), msg) && msg[0] / 8 == df && IcaoOf(msg) == icao && msg[4..] == me + msg[11..]
  {
    hide Crc24.Crc, Crc24.ModeS, Crc24Standard.Standard, Value, Bits;
    Crc24Standard.GeneratorIsStandard();
    var data: seq<byte> := [8 * df + capability, icao / 65536, icao / 256 % 256, icao % 256] + me;
    var r := Crc24.Crc(Crc24.ModeS(), data);
    var msg := Squitter(df, capability, icao, me);
    assert msg[..11] == data;
    BitsOfValue(r[..8]);
    BitsOfValue(r[8..16]);
    BitsOfValue(r[16..]);
    assert r == r[..8] + r[8..16] + r[16..];
    assert msg[11] == ParityBytes(r)[0] && msg[12] == ParityBytes(r)[1] && msg[13] == ParityBytes(r)[2];
  }

  /** The type codes of position messages (RTCA DO-260B section 2.2.3.2.3.1): 5 to 8 on the ground, 9 to 18 in the
      air with barometric altitude, 20 to 22 with geometric height. */
  predicate OnGround(tc: nat) {
    tc in {5, 6, 7, 8}
  }

  predicate InTheAir(tc: nat) {
    tc in {9, 10, 11, 12, 13, 14, 15, 16, 17, 18, 20, 21, 22}
  }

  /** What a squitter with any message does: it is a sign of life of the aircraft it names and, by its type code,
      an airborne position, a surface position or neither; no other aircraft changes and no error is counted. */
  lemma SquitterApplied(t: Tracking, df: nat, capability: nat, icao: nat, me: seq<byte>, now: real)
    requires df in {17, 18} && capability < 8 && icao < 0x100_0000 && |me| == 7
    ensures var ac := StateOf(t.aircraft, icao).(lastSeen := now);
            var tc := me[0] / 8;
            var next := if InTheAir(tc) then AirbornePosition(ac, me, now) else if OnGround(tc) then SurfacePosition(ac, me, now) else ac;
            Track(t, Squitter(df, capability, icao, me), now) == t.(aircraft := t.aircraft[icao := next])
  {
    hide Crc24.Accepts, Crc24.ModeS, AirbornePosition, SurfacePosition, Squitter, StateOf;
    SquitterAccepted(df, capability, icao, me);
    var msg := Squitter(df, capability, icao, me);
    assert msg[4..][..7] == me && msg[4..][0] == me[0];
    FirstSeven(StateOf(t.aircraft, icao).(lastSeen := now), msg[4..], now);
  }

  /** A position message is its first seven bytes. */
  lemma FirstSeven(ac: AircraftState, me: seq<byte>, now: real)
    requires |me| >= 7
    ensures AirbornePosition(ac, me, now) == AirbornePosition(ac, me[..7], now)
    ensures SurfacePosition(ac, me, now) == SurfacePosition(ac, me[..7], now)
  {
    FrontFields(me);
    hide LatField, LonField, OddFlag, Altitude, Attempt;
  }

  /** A squitter with an airborne position updates the aircraft it names and nothing else. */
  lemma SquitterTracked(t: Tracking, msg: seq<byte>, icao: nat, p: Site, odd: bool, now: real)
    requires Announces(msg, icao, p, odd)
    ensures |msg| == 14
    ensures Track(t, msg, now)
         == t.(aircraft := t.aircraft[icao := AirbornePosition(StateOf(t.aircraft, icao).(lastSeen := now), msg[4..], now)])
    ensures Sends(msg[4..], p, odd)
  {
    hide Crc24.Accepts, Crc24.ModeS, AirbornePosition, SurfacePosition, Squitter, ReportFrom, StateOf, Track;
    var df: nat, capability: nat, me :| df in {17, 18} && capability < 8 && |me| == 7 && Sends(me, p, odd) && msg == Squitter(df, capability, icao, me);
    SquitterAccepted(df, capability, icao, me);
    assert me[..7] == me && msg[4..][..7] == me;
    var tc: nat, status: nat, timed :| 9 <= tc <= 18 && status < 8 && me[..7] == ReportFrom(p, odd, tc, status, timed);
    SquitterApplied(t, df, capability, icao, me, now);
    FirstSeven(StateOf(t.aircraft, icao).(lastSeen := now), msg[4..], now);
  }

  /** A squitter from this aircraft, sent from this site. */
  ghost predicate Announces(msg: seq<byte>, icao: nat, p: Site, odd: bool) {
    icao < 0x100_0000 &&
    exists df: nat, capability: nat, me ::
      df in {17, 18} && capability < 8 && |me| == 7 && Sends(me, p, odd) && msg == Squitter(df, capability, icao, me)
  }

  /** End to end: two streams of Beast data, read in any chunks and with other messages cut short in
      them, each carrying one squitter of an aircraft not seen before. */
  lemma StreamsLocate(s: State, icao: nat, even: Site, odd: Site, oddLast: bool,
                      items0: seq<Item>, chunks0: seq<seq<byte>>, msg0: seq<byte>, t0: real,
                      items1: seq<Item>, chunks1: seq<seq<byte>>, msg1: seq<byte>, t1: real)
    requires s.rest == [] && icao !in s.tracking.aircraft
    requires Pair(even, odd) && Abs(t1 - t0) < 10.0
    requires BeastLoss.Valid(items0) && Followed(items0) && Concat(chunks0) == Stream(items0) && SentModeSLong(items0) == [msg0]
    requires BeastLoss.Valid(items1) && Followed(items1) && Concat(chunks1) == Stream(items1) && SentModeSLong(items1) == [msg1]
    requires Announces(msg0, icao, if oddLast then even else odd, !oddLast)
    requires Announces(msg1, icao, if oddLast then odd else even, oddLast)
    ensures var aircraft := FeedAll(FeedAll(s, chunks0, t0), chunks1, t1).tracking.aircraft;
            icao in aircraft && At(aircraft[icao], if oddLast then odd else even, oddLast, t1)
  {
    hide *;
    var s0 := FeedAll(s, chunks0, t0);
    LossyStreamTracking(s, items0, chunks0, t0);
    LossyStreamTracking(s0, items1, chunks1, t1);
    OnePayload(s.tracking, msg0, t0);
    OnePayload(s0.tracking, msg1, t1);
    SquitterTracked(s.tracking, msg0, icao, if oddLast then even else odd, !oddLast, t0);
    SquitterTracked(s0.tracking, msg1, icao, if oddLast then odd else even, oddLast, t1);
    NewcomerLocated(s.tracking.aircraft, s0.tracking.aircraft, icao, even, odd, oddLast, msg0[4..], msg1[4..], t0, t1);
  }

  // ---------- from the transmitter on ----------

  /** How a report is sent: everything in the squitter and the Beast message around it that does not depend
      on the site. */
  datatype Link = Link(df: nat, capability: nat, tc: nat, status: nat, timed: bool, head: seq<byte>)

  predicate ValidLink(k: Link) {
    k.df in {17, 18} && k.capability < 8 && 9 <= k.tc <= 18 && k.status < 8 && |k.head| == 7
  }

  function SquitterFrom(icao: nat, p: Site, odd: bool, k: Link): (msg: seq<byte>)
    requires icao < 0x100_0000 && Valid(p) && ValidLink(k)
    ensures |msg| == 14
  {
    Squitter(k.df, k.capability, icao, ReportFrom(p, odd, k.tc, k.status, k.timed))
  }

  function BeastFrom(icao: nat, p: Site, odd: bool, k: Link): seq<byte>
    requires icao < 0x100_0000 && Valid(p) && ValidLink(k)
  {
    Wire(0x33, k.head + SquitterFrom(icao, p, odd, k))
  }

  lemma BeastMessage(icao: nat, p: Site, odd: bool, k: Link)
    requires icao < 0x100_0000 && Valid(p) && ValidLink(k)
    ensures var items := [Whole(0x33, k.head + SquitterFrom(icao, p, odd, k))];
            && BeastLoss.Valid(items) && Followed(items) && Stream(items) == BeastFrom(icao, p, odd, k)
            && SentModeSLong(items) == [SquitterFrom(icao, p, odd, k)]
  {
    hide SquitterFrom, Wire;
    var item := Whole(0x33, k.head + SquitterFrom(icao, p, odd, k));
    assert [item][1..] == [] && Stream([]) == [] && SentModeSLong([]) == [];
  }

  lemma SquitterAnnounces(icao: nat, p: Site, odd: bool, k: Link)
    requires icao < 0x100_0000 && Valid(p) && ValidLink(k)
    ensures Announces(SquitterFrom(icao, p, odd, k), icao, p, odd)
  {
    hide Squitter, ReportFrom;
    var me := ReportFrom(p, odd, k.tc, k.status, k.timed);
    assert me[..7] == me;
    assert Sends(me, p, odd);
  }

  /** End to end, from two sites to the map: an aircraft not seen before sends an even and an odd report
      within ten seconds, in either order; whatever the chunks the bytes arrive in, the decoder then has it
      at its height and within half a bin of where it sent the later one. */
  lemma SitesLocate(s: State, icao: nat, even: Site, odd: Site, oddLast: bool, k0: Link, k1: Link,
                    chunks0: seq<seq<byte>>, t0: real, chunks1: seq<seq<byte>>, t1: real)
    requires s.rest == [] && icao !in s.tracking.aircraft && icao < 0x100_0000
    requires Valid(even) && Valid(odd) && Pair(even, odd) && Abs(t1 - t0) < 10.0 && ValidLink(k0) && ValidLink(k1)
    requires Concat(chunks0) == BeastFrom(icao, if oddLast then even else odd, !oddLast, k0)
    requires Concat(chunks1) == BeastFrom(icao, if oddLast then odd else even, oddLast, k1)
    ensures var aircraft := FeedAll(FeedAll(s, chunks0, t0), chunks1, t1).tracking.aircraft;
            icao in aircraft && At(aircraft[icao], if oddLast then odd else even, oddLast, t1)
  {
    hide *;
    var first, last := if oddLast then even else odd, if oddLast then odd else even;
    BeastMessage(icao, first, !oddLast, k0);
    BeastMessage(icao, last, oddLast, k1);
    SquitterAnnounces(icao, first, !oddLast, k0);
    SquitterAnnounces(icao, last, oddLast, k1);
    HeadLength(k0);
    HeadLength(k1);
    StreamsLocate(s, icao, even, odd, oddLast,
                  [Whole(0x33, k0.head + SquitterFrom(icao, first, !oddLast, k0))], chunks0, SquitterFrom(icao, first, !oddLast, k0), t0,
                  [Whole(0x33, k1.head + SquitterFrom(icao, last, oddLast, k1))], chunks1, SquitterFrom(icao, last, oddLast, k1), t1);
  }

  lemma HeadLength(k: Link)
    requires ValidLink(k)
    ensures |k.head| == 7
  {
  }

  /** For instance, two reports from one place always pair if its two reported latitudes have the same
      number of longitude zones, as they do below 10 degrees. */
  lemma OnePlacePairs(p: Site)
    requires -10.0 <= p.lat <= 10.0
    ensures Pair(p, p)
  {
    hide Reported;
    HalfBin(p.lat, 60);
    HalfBin(p.lat, 59);
    assert HalfBinWidth(60) < 0.1 && HalfBinWidth(59) < 0.1;
  }

  lemma OnePayload(t: Tracking, msg: seq<byte>, now: real)
    ensures TrackPayloads(t, [msg], now) == Track(t, msg, now)
  {
    hide Track;
    assert [msg][1..] == [];
  }

  lemma NewcomerLocated(before: map<nat, AircraftState>, between: map<nat, AircraftState>, icao: nat, even: Site, odd: Site,
                        oddLast: bool, me0: seq<byte>, me1: seq<byte>, t0: real, t1: real)
    requires icao !in before && Pair(even, odd) && Abs(t1 - t0) < 10.0
    requires Sends(me0, if oddLast then even else odd, !oddLast) && Sends(me1, if oddLast then odd else even, oddLast)
    requires between == before[icao := AirbornePosition(StateOf(before, icao).(lastSeen := t0), me0, t0)]
    ensures At(AirbornePosition(StateOf(between, icao).(lastSeen := t1), me1, t1), if oddLast then odd else even, oddLast, t1)
  {
    hide AirbornePosition, Pair, Sends, At, Abs;
    var ac := NewAircraft(icao).(lastSeen := t0);
    PairLocates(ac, even, odd, oddLast, me0, me1, t0, t1, t1);
  }
}
