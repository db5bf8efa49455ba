# StreamGrid: a verified model of its data paths

StreamGrid streams positions of aircraft and ships to browsers. Radio data comes in as Beast bytes
(ADS-B) or NMEA lines (AIS), is decoded into tracked vehicles, packed into binary frames of 64-byte
records, fanned out by an edge server that filters per client, carried over a length-prefixed stream,
and unpacked by a worker into a buffer shared with the renderer. A grid index answers box queries.

This project models those paths in Dafny and proves what they are for.

| Path | Modules |
|---|---|
| Beast framing: parsing, chunking, loss | `BeastFraming`, `BeastLoss` |
| Mode-S CRC-24 over GF(2) | `Gf2`, `Crc24`, `Crc24Standard`, `Crc24Example` |
| Compact position reporting | `Cpr`, `CprZones`, `CprGlobal`, `CprLocal`, `CprSurface` |
| Aircraft tracking and the position gate | `Geometry`, `AircraftTracking`, `AdsbDecoder`, `AdsbStream`, `AdsbEndToEnd`, `AdsbReference`, `AdsbFlight`, `AdsbGround` |
| AIS lines, armour and reassembly | `Nmea`, `NmeaExample`, `AisBits`, `AisReassembly`, `AisSharing`, `AisBroadcast` |
| AIS messages, vessels and their gate | `VesselTracking`, `AisDecoder`, `AisStream`, `AisPacking`, `AisReports`, `AisStaticVoyage` |
| Frame codec and the stream to the worker | `LittleEndian`, `FrameCodec`, `Doubles`, `FrameLink` |
| Edge fan-out | `EdgeServer`, `EntityLookup`, `EdgeSelection`, `FanoutRuns`, `FanoutHistory`, `FanoutPanics` |
| Grid index | `SpatialGrid` |
| Shared vocabulary | `Arithmetic`, `BitStrings`, `Options`, `Sequences` |

Code that changes state keeps its form: `AdsbDecoder.Decoder` and `Aircraft`, `AisDecoder.Decoder` and
`Vessel`, `EdgeServer.Server` and `Client`, `FrameLink.Worker` and `SpatialGrid.Index` are classes whose
methods are proved against functions on values, and the properties are then proved of those functions,
over all inputs and all runs. `dafny verify dfyconfig.toml` checks everything.

Conventions. Numbers are exact: coordinates and times are reals, wire integers have their width written
out, and 64-bit floating-point fields of a frame record are opaque words compared as the numbers they
encode. Bytes are integers below 256; registers and message bits are sequences of booleans, highest bit
first. Clock readings are parameters, in seconds, and 0 stands for Go's zero time. The sender's side,
which the repository does not contain, is written from the standards and not from the receiver's tables,
but for the zone table that position encoding shares with decoding, which `CprZones.TableIsFormula`
checks: RTCA DO-260B section A.1.7 for position encoding and sections 2.2.3.2.3 and 2.2.3.2.4 for the
airborne and surface position messages, ICAO Annex 10 Volume IV section 3.1.2.3.3 for the parity, IEC
61162-1 section 7 for sentences and their checksums, ITU-R M.1371-5 Annex 8 for the AIS messages. The
Beast messages have the lengths that applications/adsb/decoder.go:108-118 lists. A double is the number
that IEEE 754 section 3.4 gives it.

## Main results

The other rows of the table below build up to these.

- Beast: `BeastFraming.ChunkingIndependence`, `BeastLoss.LossIsolationInChunks`, `BeastLoss.CutDecided`.
- CRC: `Crc24.AcceptsMultiples`, `Crc24.BurstDetected`, `Crc24Standard.OddErrorDetected`, over `Gf2.DivisionTheorem`.
- Positions: `CprGlobal.GlobalDecode`, `CprGlobal.GlobalRightIff`, `CprSurface.GroundRightIff`,
  `CprLocal.LocalCoordinateExact`, `CprLocal.GlobalFeedback`, `CprZones.TableIsFormula`,
  `AdsbReference.LocalRight`, `AdsbFlight.OneZoneLow`, `AdsbFlight.FlightFollowed`.
- Aircraft: `AircraftTracking.RunSafety`, `AdsbStream.TrackedSafety`, `AdsbStream.LossyStreamTracking`,
  `AdsbEndToEnd.SitesLocate`, `AdsbGround.GroundPairLocates`.
- AIS lines: `Nmea.AcceptedIff`, `Nmea.AtoiIs`.
- AIS reassembly: `AisReassembly.Isolation`, `AisReassembly.Interleaving`, `AisSharing.EachDeliveredIff`,
  `AisBroadcast.Broadcast`.
- Vessels: `VesselTracking.RunSafety`, `VesselTracking.LimitOverRun`, `AisStream.StoredSafety`,
  `AisStaticVoyage.ShipHeardAmongOthers`, `AisReports.ClassAHeard`.
- Frames: `FrameCodec.FrameRoundTrip`, `FrameLink.Delivery`, `FrameLink.EndToEnd`, `FrameLink.LastShown`.
- Fan-out: `EdgeSelection.InViewIff`, `EdgeSelection.SubscriberQueues`, `EdgeSelection.Resubscribed`,
  `FanoutRuns.FanoutSafety`, `FanoutHistory.NewestBroadcasts`, `FanoutHistory.QueuedFrames`, `FanoutPanics.PanicIff`.
- Grid: `SpatialGrid.QueryComplete`, `SpatialGrid.QueryExact`, `SpatialGrid.QueryInDegrees`.

## What the proofs found

- The comment above the CRC constant (applications/adsb/crc.go:6-8) leaves out the x^12 term; the
  constant at line 18 is the generator that is used and that the proofs are about.
- The local position decode (applications/adsb/cpr_local.go:37, 54) takes a truncated remainder where the
  global decode takes a floored one. It returns the position nearest to the reference if and only if the
  reference is non-negative or a whole number of zones, and one zone too low otherwise
  (`CprLocal.LocalCoordinateExact`). That concerns nearly every position south of the equator or west of
  Greenwich.
- Such a fix is not always stopped: the gate lets it through if it is at most a quarter of a degree per
  second away and under sixty seconds have passed since the last fix (`AdsbFlight.OneZoneLow`, for any
  longitude). Where only the latitude moves that is from 24 s on in the air and from 6 s on on the ground
  (`AdsbFlight.OneZoneSouth`): an aircraft at (-3, 0) is moved to (-9, 0) by its own next report 30 seconds
  later (`AdsbFlight.SouthExample`). Further south the longitude moves too, because the wrong latitude has
  fewer longitude zones, and it takes longer: an aircraft at (-33, 39.6) still stays after 25 seconds
  (`AdsbFlight.StaysExample`). `AdsbFlight.Followed` says exactly when the next position is the one the
  report stands for, at any reference, and `AdsbFlight.FlightFollowed` the same of whole flights.
- On the ground the global decode selects no quadrant: two reports from nearby give a latitude modulo 90
  degrees (`CprSurface.GroundDecode`) and, north of the equator, a longitude modulo 90 degrees. An aircraft
  first heard on the ground is put where it is if and only if it is northern and between Greenwich and 90
  degrees east (`CprSurface.GroundRightIff`, `AdsbGround.GroundPairLocates`). One at (45, -90) is put at
  (45, 0) (`AdsbGround.GroundExample`).
- The global decode tells apart positions only up to whole zones: it is right about the later report if and
  only if the rounded gap between the two reported latitudes is a multiple of that report's zone count, the
  zone counts agree and the longitude index is right (`CprGlobal.GlobalRightIff`).
- The gate compares longitudes as plain numbers, so an aircraft that crosses the 180 degree meridian is lost
  there (`AdsbFlight.LostAcrossMeridian`, `AircraftTracking.MeridianNotCrossed`).
- A message cut short holds back the complete messages behind it exactly until twice its own length is in
  the buffer (`BeastLoss.CutDecided`); with 46 bytes behind the last one nothing is lost
  (`BeastLoss.LossIsolation`).
- A dropped frame counts as sent: broadcast again, it is not queued (`FanoutHistory.DroppedNotResent`). Of
  all the broadcasts since it joined, a client's view is wrong at exactly the ids whose last outgoing record
  was dropped and differs from the one it holds (`FanoutHistory.NewestBroadcasts`).
- The read pump closes a client's queue before the client is removed (edge/server.go:361), and sending on
  a closed channel panics. A run panics if and only if a read pump has closed a queue and a visit to that
  client that gives rise to a frame ends afterwards (`FanoutPanics.PanicIff`); `FanoutPanics.CloseThenSend`
  gives the two orders of events.
- AIS messages with the same key, as when they lack a sequence id and have the same number of parts, are
  delivered if and only if no part of another one falls between their own. What is completed are the
  stretches from a first part to the next final one, so parts of different messages can be put together
  (`AisSharing.EachDeliveredIff`, `AisSharing.SpanIff`).
- The 50-knot limit for cargo ships and tankers is checked when a position report writes a speed. It is
  left exactly by a type 5, 19 or 24 message that declares a vessel over 50 knots one without writing a
  speed, and by a type 9 message that writes a higher speed to one (`VesselTracking.LimitKept`,
  `VesselTracking.LimitOverRun`; `AisReports.FastCargoShip` is an input).
- The AIS sentinels for an unknown position are out of range anyway (`AisReports.AvailableIsOnGlobe`).
- A grid query visits a cell of the table twice if and only if its box has more columns than the grid and
  at least two rows, and its second row begins inside the table (`SpatialGrid.VisitsTwiceIff`); it then
  returns the entities there twice (`SpatialGrid.DoubledEntity`). An entity whose own column is past the
  grid, at longitude 180, is filed in the next row and returned for boxes it is not in
  (`SpatialGrid.StrayIff`). West of 180 degrees a query is exactly a scan (`SpatialGrid.QueryInDegrees`).
- The worker passes a frame's timestamp through a double (web/src/transport-worker.ts:168): it is shown as
  sent if and only if it has at most 53 significant bits (`FrameLink.EndToEnd`), and rounding never
  reorders timestamps (`Doubles.DoubleOrder`).

## Model

| member | source | states |
|---|---|---|
| BeastFraming.FindStart | applications/adsb/decoder.go:87-100 | what is found is a marker byte followed by something else than a second marker byte |
| BeastFraming.StepMonotone | applications/adsb/decoder.go:86-160 | once a pass of the loop decides, bytes arriving later do not change the decision and are only appended to what remains |
| BeastFraming.ParseSplit | applications/adsb/decoder.go:82-163 | feeding a and then b gives the events of feeding a + b, in order, and the same leftover |
| BeastFraming.ChunkingIndependence | applications/adsb/decoder.go:82-163 | for every stream and every split into Feed calls, events and leftover are those of one call on the whole stream |
| BeastFraming.Leftover | applications/adsb/decoder.go:86-160 | the leftover has no marker, or starts with one and is under 46 bytes |
| BeastFraming.FrameStep | applications/adsb/decoder.go:106-159 | a complete frame at the front is delivered, and exactly its raw bytes are consumed, whatever follows it |
| BeastFraming.ShortStep | applications/adsb/decoder.go:129-143 | a frame cut short by a marker, with twice its length in the buffer, is reported as bad and only its marker byte is skipped |
| BeastLoss.UnescapeWire | applications/adsb/decoder.go:166-190 | unescaping inverts the sender's escaping and stops at the next marker |
| BeastLoss.WireLength | applications/adsb/decoder.go:193-212 | the raw length found for a message is the length the sender put on the wire |
| BeastLoss.SameMessages | applications/adsb/decoder.go:106-118 | the messages known are exactly Mode-AC with 2 data bytes, Mode-S short with 7, Mode-S long with 14 and status with 14, behind 7 bytes of timestamp and signal |
| BeastLoss.OtherTypeSkipped | applications/adsb/decoder.go:106-123 | a marker with any other type byte is skipped, its first byte only |
| BeastLoss.WholeStep | applications/adsb/decoder.go:106-159 | a complete message, of the sender's own table of types and lengths, in front of anything is delivered with its payload and parsing goes on right behind it |
| BeastLoss.CutDecided | applications/adsb/decoder.go:106-143 | a cut message in front of anything is recognised if and only if twice its own length is in the buffer, and the framer waits otherwise |
| BeastLoss.CutStep | applications/adsb/decoder.go:129-143 | with twice its own length in the buffer a message cut short anywhere after its type byte is reported, and parsing goes on behind its marker |
| BeastLoss.HeldBack | applications/adsb/decoder.go:129-143 | with less than twice its length in the buffer a cut message, and everything behind it, waits |
| BeastLoss.FalseMarker | applications/adsb/decoder.go:86-160 | bytes of a cut message that look like a marker never yield a Mode-S long message and never consume the next real one |
| BeastLoss.LossIsolation | applications/adsb/decoder.go:82-212 | in any stream with cut messages, at least 46 bytes following the last, the Mode-S long payloads are exactly those of the complete messages, in order, and nothing is left over |
| BeastLoss.RoundTrip | applications/adsb/decoder.go:82-212 | without cuts every message of every type, in the lengths of the sender's own table, is read back with no framing error |
| BeastLoss.LossIsolationInChunks | applications/adsb/decoder.go:82-212 | loss isolation for every way of cutting the stream into reads |
| Crc24.UnmaskedStep | applications/adsb/crc.go:25-32 | the 32-bit table computation, masked only at the end, agrees with the 24-bit division step |
| Crc24.FillEntry | applications/adsb/crc.go:25-33 | a table entry is eight division steps of its index on top of the register |
| Crc24.InitTable | applications/adsb/crc.go:23-35 | the table holds the right entry for every byte |
| Crc24.ComputeCRC24 | applications/adsb/crc.go:38-45 | the table-driven loop computes the byte-wise CRC of any data |
| Crc24.ValidateCRC | applications/adsb/crc.go:50-78 | for the generator given, accepts exactly messages of format 11, 17 or 18 whose CRC is their parity field, and returns the difference of the two |
| Crc24.CrcIsRemainder | applications/adsb/crc.go:38-45 | the CRC is the remainder of data times x^24 divided by the generator |
| Crc24.WholeMessageCheck | applications/adsb/crc.go:58-68 | the CRC over all N bytes is zero if and only if the CRC of the first N - 3 is the last three |
| Crc24.AcceptsMultiples | applications/adsb/crc.go:50-78 | validation accepts exactly the multiples of the generator polynomial, among messages of seven bytes or more of the formats it can check |
| Crc24.CrcLinear | applications/adsb/crc.go:38-45 | the CRC of the exclusive or of two messages is the exclusive or of their CRCs |
| Crc24.BurstDetected | applications/adsb/crc.go:50-78 | an accepted message with any non-zero error within 24 consecutive bits is rejected, wherever the burst falls |
| Crc24Standard.GeneratorIsStandard | applications/adsb/crc.go:18 | the constant has exactly the terms 24 to 12, 10, 3 and 0 |
| Crc24Standard.OddErrorDetected | applications/adsb/crc.go:50-78 | an accepted message with any odd number of bits in error is rejected |
| Crc24Example.ReceivedAccepted | applications/adsb/crc.go:50-78 | the squitter 8D4840D6202CC371C32CE0576098 is accepted |
| Gf2.DivisionTheorem | applications/adsb/crc.go:25-32 | the shift register computes quotient and remainder of polynomial division |
| Gf2.Divisibility | applications/adsb/crc.go:58-68 | a remainder is zero if and only if the message is a multiple of the generator |
| Gf2.BurstRem | applications/adsb/crc.go:58-68 | an error confined to 24 consecutive bits never leaves remainder zero |
| Cpr.ZonesFall | applications/adsb/decoder.go:739-861 | the number of longitude zones is symmetric and never rises towards a pole, 59 exactly below 10.47 degrees and 1 exactly from 87 degrees on |
| CprZones.Drops | applications/adsb/decoder.go:739-861 | there are n zones or more exactly below the boundary for n |
| CprZones.TableIsFormula | applications/adsb/decoder.go:739-861 | each of the 58 boundaries satisfies cos(lat) sin(pi / n) = sin(pi / 60) to ten decimals |
| Cpr.ModOfInts | applications/adsb/decoder.go:863-869 | the decoder's mod is the mathematical modulus on whole numbers, negative ones included |
| CprGlobal.HalfBin | applications/adsb/decoder.go:687-700 | a report stands for a position within half a bin of the one encoded |
| CprGlobal.ZoneIndexExact | applications/adsb/decoder.go:687-688 | for positions close enough the rounded index is (n + 1) i1 - n i0, for every pair of zone counts |
| CprGlobal.GlobalLatitude | applications/adsb/decoder.go:683-700 | j is 60 i1 - 59 i0 and both latitudes are the reported ones, within [-90, 90] and half a bin of the true ones, wrap of the 17-bit field included |
| CprGlobal.LonIndex | applications/adsb/decoder.go:709-722 | m modulo the zone count is the true zone, for every number of longitude zones |
| CprGlobal.GlobalLongitude | applications/adsb/decoder.go:709-727 | the longitude is in [-180, 180), the reported one modulo full turns and within half a bin of the true one modulo full turns |
| CprGlobal.GlobalDecode | applications/adsb/decoder.go:683-735 | a pair of reports gives no fix if the zone counts differ, and otherwise one within half a bin of the more recent position |
| CprGlobal.CloseLatitudes | applications/adsb/decoder.go:683-692 | positions at most 0.05 degrees of latitude apart are close enough |
| CprGlobal.ZoneIndexIs | applications/adsb/decoder.go:687-688 | for reports from anywhere the rounded index is (n + 1) i1 - n i0 plus the rounded gap between the reported coordinates |
| CprGlobal.GlobalRightIff | applications/adsb/decoder.go:683-735 | the global decode of two reports from anywhere is right about the later one if and only if the rounded gap between the latitudes is a multiple of its zone count, both decoded latitudes have the same number of longitude zones and the longitude index is its zone modulo the zone count |
| CprGlobal.CloseDecode | applications/adsb/decoder.go:683-735 | with the reported latitudes at most half a unit apart that is: the same number of longitude zones, and a rounded longitude gap that is a multiple of the later zone count |
| CprSurface.GroundLatitude | applications/adsb/decoder.go:633-646 | the latitudes of the surface decode are the reported ones modulo 90 degrees |
| CprSurface.GroundDecode | applications/adsb/decoder.go:633-679 | whatever the longitudes: no fix exactly if those latitudes have different numbers of longitude zones, else one in [0, 90) by [0, 90) |
| CprSurface.GroundRightIff | applications/adsb/decoder.go:633-679 | the surface decode of two reports from nearby is right about the later one if and only if both reported latitudes are in [0, 90) with the same number of longitude zones and the later longitude is in [0, 90); northern fixes have the reported longitude modulo 90 degrees |
| CprLocal.NearestUnique | applications/adsb/cpr_local.go:36-38 | exactly one position with the reported fraction lies within half a zone of the reference |
| CprLocal.LocalCoordinateExact | applications/adsb/cpr_local.go:36-55 | the decoded coordinate is that nearest one if and only if the reference is non-negative or on a zone boundary, and one zone lower otherwise |
| CprLocal.LocalDecode | applications/adsb/cpr_local.go:28-65 | both coordinates of the local decode, and exactly when it refuses |
| CprLocal.OwnReference | applications/adsb/cpr_local.go:36-38 | a reference that already has the fraction is returned, or the point one zone below a negative one |
| CprLocal.GlobalFeedback | applications/adsb/cpr_local.go:28-65 | a global fix fed back with its own report is returned if and only if its coordinates are non-negative or have fraction zero, or there is one longitude zone |
| Geometry.Triangle | applications/adsb/cpr_local.go:80-93 | planar distances obey the triangle inequality |
| Geometry.TrackLength | applications/adsb/cpr_local.go:80-93 | along any series of gated hops, the ends are no further apart than the limits add up to |
| AircraftTracking.ApplyStep | applications/adsb/decoder.go:340-378 | one report either leaves the position alone or makes it a fix between the poles within the gate: 0.83 degrees from sixty seconds on, a quarter of a degree per second below and at least 0.01, a quarter of a degree if the clock did not advance |
| AircraftTracking.GateInNumbers | applications/adsb/cpr_local.go:80-98 | the gate as that inequality of squares, for any two positions and times |
| AircraftTracking.RunGate | applications/adsb/decoder.go:340-378 | over any run, consecutive fixes satisfy it |
| AircraftTracking.RunSafety | applications/adsb/decoder.go:340-378 | over any run of airborne and surface messages every fix is between the poles and within the gate of the one before |
| AircraftTracking.RunLength | applications/adsb/cpr_local.go:68-98 | any two fixes of a run are at most as far apart as the gate allowed in between |
| AircraftTracking.MeridianNotCrossed | applications/adsb/cpr_local.go:80-98 | over any run consecutive fixes are under 15 degrees apart in both coordinates as plain numbers, and the longitude changes sign only within 15 degrees of zero |
| AircraftTracking.SpeedBound | applications/adsb/cpr_local.go:84-88 | with gaps of 0.04 s to under 60 s, any two fixes are within 0.25 degrees per elapsed second |
| AdsbDecoder.Aircraft.constructor | applications/adsb/decoder.go:30-55 | a new aircraft has no position and no reports |
| AdsbDecoder.Aircraft.PositionAllowed | applications/adsb/cpr_local.go:68-98 | without a position anything passes; else exactly a squared distance of at most 0.83^2 from sixty seconds on, (dt / 4)^2 from 0.04, 0.01^2 below, 0.25^2 if the clock did not advance |
| AdsbDecoder.Aircraft.StoreCpr | applications/adsb/decoder.go:327-338 | a report replaces the stored one of its own format only |
| AdsbDecoder.Aircraft.TryDecode | applications/adsb/decoder.go:340-370 | local decode first, global decode when that fails, both behind the gate |
| AdsbDecoder.Aircraft.Locate | applications/adsb/decoder.go:327-378 | the whole new state of the aircraft after a position report |
| AdsbDecoder.Aircraft.DecodeAirbornePosition | applications/adsb/decoder.go:287-379 | the whole new state after an airborne position message, implausible altitudes refused |
| AdsbDecoder.Aircraft.DecodeSurfacePosition | applications/adsb/decoder.go:484-592 | the whole new state after a surface position message |
| AdsbDecoder.Decoder.constructor | applications/adsb/decoder.go:68-73 | an empty decoder |
| AdsbDecoder.Decoder.Lookup | applications/adsb/decoder.go:235-242 | the aircraft with this address, added if new; no other changes |
| AdsbDecoder.Decoder.DecodeModeSLong | applications/adsb/decoder.go:215-260 | a message updates the aircraft it names if its parity and format are right, and no other |
| AdsbDecoder.Decoder.FindMarker | applications/adsb/decoder.go:87-95 | the index of the first marker, or -1 if there is none |
| AdsbDecoder.Decoder.Unescape | applications/adsb/decoder.go:166-190 | the loop computes the unescaped bytes up to the next marker |
| AdsbDecoder.Decoder.FindConsumed | applications/adsb/decoder.go:193-212 | the loop computes the raw length of one message, within the buffer |
| AdsbDecoder.Decoder.DecodeFrame | applications/adsb/decoder.go:106-159 | one pass of the loop: buffer, aircraft and counters afterwards, or nothing changed when data is missing |
| AdsbDecoder.Decoder.Feed | applications/adsb/decoder.go:82-163 | buffer, aircraft, counters and result are those of parsing the old buffer and the data together |
| AdsbDecoder.Decoder.PruneStale | applications/adsb/cpr_local.go:112-125 | exactly the aircraft not seen for sixty seconds are dropped, and as many are reported |
| AdsbStream.DecoderChunking | applications/adsb/decoder.go:82-163 | for calls at one clock reading, aircraft, counters and buffer do not depend on how a stream was cut into calls |
| AdsbStream.OnlyPayloadsMatter | applications/adsb/decoder.go:154-159 | framing errors and other message types change no aircraft |
| AdsbStream.LossyStreamTracking | applications/adsb/decoder.go:82-260 | a lossy stream leaves exactly the aircraft that its complete Mode-S long messages alone leave |
| AdsbStream.ErrorsCounted | applications/adsb/decoder.go:82-225 | every framing error and every Mode-S long message with wrong parity or format is counted once, and nothing else is |
| AdsbStream.StreamCounted | applications/adsb/decoder.go:82-225 | of a stream without cuts, in any chunks, every message is counted once, and the errors are the Mode-S long messages refused |
| AdsbStream.AircraftHistory | applications/adsb/decoder.go:215-260 | the tracked state of an aircraft is the run of its own accepted position reports, whatever else was heard |
| AdsbStream.FeedsTrack | applications/adsb/decoder.go:82-260 | after any calls of Feed, each at its own time, the tracked aircraft are those of the completed messages, each handled at the time of the call that completed it |
| AdsbStream.TrackedSafety | applications/adsb/decoder.go:82-379 | run safety of every aircraft after any calls of Feed with any bytes, each at its own clock reading |
| AdsbEndToEnd.ReportFields | applications/adsb/decoder.go:292-319 | fields of an airborne position message are read as they were sent, altitude included |
| AdsbEndToEnd.AltitudeInHundreds | applications/adsb/decoder.go:297-309 | without the Q bit the altitude is a hundred feet per unit of the low eleven bits of the code |
| AdsbEndToEnd.AltitudeRefused | applications/adsb/decoder.go:288-325 | a message is refused, with nothing stored, if and only if it is short or says 60000 feet or more |
| AdsbEndToEnd.PairLocates | applications/adsb/decoder.go:340-378 | two reports of different format within ten seconds, in either order, give a new aircraft a position within half a bin of where the later one was sent |
| AdsbEndToEnd.SquitterAccepted | applications/adsb/crc.go:50-78 | a squitter of format 17 or 18, its parity computed with the generator of the standard, is accepted and names its aircraft |
| AdsbEndToEnd.SquitterApplied | applications/adsb/decoder.go:215-260 | what a squitter with any message does to the aircraft it names, by type code: 5 to 8 on the ground, 9 to 18 and 20 to 22 in the air, else only a sign of life; and to no other aircraft |
| AdsbEndToEnd.SquitterTracked | applications/adsb/decoder.go:215-260 | a position squitter updates the aircraft it names and nothing else |
| AdsbEndToEnd.StreamsLocate | applications/adsb/decoder.go:82-379 | from Beast bytes in any chunks, with other messages cut short, to a position within half a bin of the true one |
| AdsbEndToEnd.SitesLocate | applications/adsb/decoder.go:82-379 | the same from the two sites on: the reports are packed, given their parity, escaped and sent, and the aircraft ends up at its height and within half a bin of the later site |
| AdsbEndToEnd.OnePlacePairs | applications/adsb/decoder.go:683-707 | two reports from one place within 10 degrees of the equator can always be decoded together |
| AdsbReference.SentFields | applications/adsb/decoder.go:292-319 | fields of airborne and surface position messages are read as they were sent |
| AdsbReference.FixAccuracy | applications/adsb/cpr_local.go:28-65 | the fix a report stands for is within half a bin of where it was sent, in longitude modulo full turns, in the air and on the ground |
| AdsbReference.LocalIsNear | applications/adsb/cpr_local.go:28-65 | at any reference the local decode of a report is in each coordinate the nearest position less the shift of an unsafe reference, with the longitude zones of the shifted latitude, and refused if off the globe |
| AdsbReference.LocalRight | applications/adsb/cpr_local.go:28-65 | at any reference the local decode is the position the report stands for if and only if that position, once shifted up, is within half a zone in both coordinates |
| AdsbReference.NearbyRight | applications/adsb/cpr_local.go:28-65 | from within half a zone it is right if and only if both reference coordinates are non-negative or whole numbers of zones, or the longitude has a single zone |
| AdsbFlight.ReportStep | applications/adsb/decoder.go:340-378 | what a report sent from a site does to a tracked aircraft: position, altitude and stored reports |
| AdsbFlight.LocalTaken | applications/adsb/decoder.go:340-378 | from any reference on the globe the position becomes the point of the local decode, one zone low in each coordinate where the reference is unsafe, if and only if that point is on the globe and the gate allows the jump |
| AdsbFlight.FarJump | applications/adsb/cpr_local.go:80-98 | the gate lets a jump of more than 0.83 degrees through if and only if it is at most a quarter of a degree per second and under sixty seconds have passed |
| AdsbFlight.JumpWindow | applications/adsb/cpr_local.go:80-98 | the gate lets a jump of d degrees, more than 0.83, through exactly from 4 d seconds to under sixty |
| AdsbFlight.OneZoneLow | applications/adsb/decoder.go:340-378 | at an unsafe latitude and any longitude a report from nearby puts the aircraft one zone too far south if and only if that point is on the globe, at most a quarter of a degree per second away, and under sixty seconds have passed; on the ground for reports from up to 0.67 degrees further north |
| AdsbFlight.OneZoneSouth | applications/adsb/decoder.go:340-378 | reporting from where it stands, with an unsafe latitude, a safe longitude and as many longitude zones one zone further south, it is put there if and only if that is on the globe and 4 d to under sixty seconds have passed |
| AdsbFlight.OneZoneWest | applications/adsb/decoder.go:340-378 | reporting from where it stands, with a safe latitude and an unsafe longitude at least a zone from the antimeridian, it is put one zone too far west if and only if 4 e to under sixty seconds have passed |
| AdsbFlight.SouthExample | applications/adsb/decoder.go:340-378 | an aircraft at (-3, 0) reports from there 30 seconds later and is put at (-9, 0) |
| AdsbFlight.StaysExample | applications/adsb/decoder.go:340-378 | an aircraft at (-33, 39.6) reports from there 25 seconds later and stays, the point one zone low being too far away |
| AdsbFlight.Followed | applications/adsb/decoder.go:340-378 | at any reference the next position is the one the report stands for if and only if the gate, in numbers, allows it and the local decode is right, or is stopped and the global decode is right |
| AdsbFlight.FollowedAlone | applications/adsb/decoder.go:340-378 | without a fresh report of the other format, from nearby: if and only if the gate allows it and the reference is safe or there is one longitude zone |
| AdsbFlight.FollowedAfterSilence | applications/adsb/cpr_local.go:84-96 | after sixty seconds or more without a fix, a report within 0.83 degrees where the local decode is right is taken |
| AdsbFlight.PairRight | applications/adsb/decoder.go:358-370 | a fresh report of the other format from a site that pairs with this one makes the global decode right at any reference |
| AdsbFlight.FarRight | applications/adsb/decoder.go:358-370 | in the air the global decode with a stored report from any site is right if and only if that report is under ten seconds away, the two sites decode right together and the longitude is in [-180, 180) |
| AdsbFlight.LostAcrossMeridian | applications/adsb/cpr_local.go:80-98 | a report that stands for a longitude 15 degrees or more away as a plain number is never followed |
| AdsbFlight.FlightFollowed | applications/adsb/decoder.go:287-592 | over any flight, in the air and on the ground, the aircraft stands at the right position after every report if and only if each report met that condition, stated in terms of the sites and the gate in numbers |
| AdsbGround.GroundPairLocates | applications/adsb/decoder.go:484-592 | two surface reports of a new aircraft, in either order, put it where the later one was sent from if and only if they are under ten seconds apart, both northern, and that longitude is in [0, 90); from another northern longitude it is put at it modulo 90 degrees |
| AdsbGround.GroundExample | applications/adsb/decoder.go:484-592 | an aircraft first heard on the ground at (45, -90) is put at (45, 0) |
| AisBits.DecodeSixBit | applications/ais/decoder.go:674-694 | the nested loops compute the bits of the payload less its fill bits; a negative count appends zeros |
| AisBits.CharValue | applications/ais/decoder.go:682-686 | the characters '0' to 'W' and '`' to 'w' stand for 0 to 39 and 40 to 63, and what any other one stands for |
| AisBits.SixBitsAt | applications/ais/decoder.go:682-688 | each bit of a character is the shifted two's complement bit the code takes, also below '0' |
| AisBits.BitsToUint | applications/ais/decoder.go:697-705 | the loop computes the number in the field, skipping what lies beyond the end |
| AisBits.BitsToInt | applications/ais/decoder.go:708-715 | sign extension by setting the high bits of a 64-bit word gives the two's complement number |
| AisBits.BitsToString | applications/ais/decoder.go:718-730 | the loop computes the letters of a text field |
| AisBits.PaddingTrimmed | applications/ais/decoder.go:293-301 | what is kept of a text is its front up to the last character that is neither '@' nor ' ' |
| AisBits.ArmourRoundTrip | applications/ais/decoder.go:674-694 | bits of any length, filled up and armoured, are decoded again |
| AisBits.SignedRoundTrip | applications/ais/decoder.go:708-715 | every number in range survives two's complement and back |
| AisBits.TextRoundTrip | applications/ais/decoder.go:718-730 | text of the six-bit alphabet packed anywhere in a message is read back |
| Nmea.VerifyChecksum | applications/ais/decoder.go:733-757 | accepts exactly the sentences whose two hex digits after the last star are the exclusive or of the bytes between, which Nmea.ChecksumIsParity gives bit by bit |
| Nmea.ChecksumIsParity | applications/ais/decoder.go:744-748 | bit k of the checksum is set if and only if an odd number of characters have bit k set |
| Nmea.AcceptedIff | applications/ais/decoder.go:733-757 | a sentence is accepted if and only if the two characters behind its last star are, in either case, the hexadecimal digits of those parities over the characters between |
| NmeaExample.LineAccepted | applications/ais/decoder.go:733-757 | the line !AIVDM,1,1,,B,15M67N0000G?Uf6E`FepT@0n00S8,0*09 is accepted |
| Nmea.ChecksumDetectsChange | applications/ais/decoder.go:733-757 | a sentence with any one character of its body changed is refused |
| Nmea.ChecksumAccepts | applications/ais/decoder.go:733-757 | a sentence with those parities appended in hexadecimal is accepted |
| Nmea.SplitJoin | applications/ais/decoder.go:93 | splitting at commas inverts joining fields without commas |
| Nmea.SpaceTrimmed | applications/ais/decoder.go:76 | of a line everything from its first to its last character that is not white space is kept |
| Nmea.IgnoredIff | applications/ais/decoder.go:76-84 | exactly the lines beginning with !AIVDM or !AIVDO are not ignored |
| Nmea.AtoiDecimal | applications/ais/decoder.go:99-106 | a number written in decimal is parsed back |
| Nmea.AtoiIs | applications/ais/decoder.go:99-106 | digits with or without a sign denote their number, brought into 64 bits; anything else is zero unless its leading digits alone overflow |
| Nmea.FormatRoundTrip | applications/ais/decoder.go:76-106 | a written line, with blanks around it, parses to the sentence it was written from |
| AisReassembly.StepAlone | applications/ais/decoder.go:109-134 | a sentence changes nothing for other keys, and what it does for its own depends on nothing else |
| AisReassembly.Isolation | applications/ais/decoder.go:109-134 | non-interference: what becomes of the sentences of a key in any stream is what becomes of them on their own |
| AisReassembly.GroupCompletes | applications/ais/decoder.go:109-134 | the parts of a message in order complete it once, from its own parts, and leave no entry, whatever was pending |
| AisReassembly.Interleaving | applications/ais/decoder.go:109-134 | in any interleaving, a key whose sentences are whole messages in order gets each delivered once, with its own payload |
| AisReassembly.SinglesPass | applications/ais/decoder.go:109-134 | messages of one sentence come through as they are, whatever is pending |
| AisReassembly.NothingPending | applications/ais/decoder.go:126-133 | when every key's sentences are whole messages in order, no fragment is left |
| AisReassembly.SharedKey | applications/ais/decoder.go:109-134 | two messages of any sizes under one key, merged in any way after anything: both delivered if one follows the other, exactly one message completed otherwise, nothing left pending |
| AisReassembly.BothDeliveredIff | applications/ais/decoder.go:109-134 | in any stream, when the sentences of a key are two messages merged in any way, both are delivered if and only if one ends before the other begins |
| AisSharing.Stretches | applications/ais/decoder.go:109-134 | of any sentences of a key, exactly the stretches are completed, each as the message of its sentences, and the open one stays pending |
| AisSharing.SpanIff | applications/ais/decoder.go:109-134 | a stretch runs from a first part to a final one with neither in between |
| AisSharing.EachDeliveredIff | applications/ais/decoder.go:109-134 | of any number of messages under one key, merged in any way in any stream, each is completed from exactly its own sentences if and only if no other one's falls between them |
| AisReassembly.EmptyIdsMix | applications/ais/decoder.go:110-113 | an input that fails: two interleaved messages of two parts without sequence ids |
| AisBroadcast.LastPartDecodes | applications/ais/decoder.go:109-168 | the last part of a message decodes it and drops its parts, whatever lines came before and between |
| AisBroadcast.EarlierPartsWait | applications/ais/decoder.go:114-128 | the parts before the last are kept, return false and change nothing else |
| AisBroadcast.Broadcast | applications/ais/decoder.go:75-168 | any bits, armoured, cut anywhere into any number of sentences and fed, are decoded at the last line and only there |
| AisDecoder.Vessel.Move | applications/ais/decoder.go:186-241 | position and speed afterwards: range, speed and jump checks |
| AisDecoder.Vessel.DecodePositionClassA | applications/ais/decoder.go:172-258 | the whole new state of the vessel after types 1, 2 and 3 |
| AisDecoder.Vessel.DecodeStaticVoyage | applications/ais/decoder.go:262-308 | the whole new state after type 5 |
| AisDecoder.Vessel.DecodePositionClassB | applications/ais/decoder.go:312-390 | the whole new state after type 18 |
| AisDecoder.Vessel.DecodePositionClassBExtended | applications/ais/decoder.go:394-475 | the whole new state after type 19 |
| AisDecoder.Vessel.DecodeStaticClassB | applications/ais/decoder.go:481-519 | the whole new state after type 24, part A or B |
| AisDecoder.Vessel.DecodeBaseStation | applications/ais/decoder.go:524-569 | the whole new state after types 4 and 11 |
| AisDecoder.Vessel.DecodeSarPosition | applications/ais/decoder.go:573-625 | the whole new state after type 9 |
| AisDecoder.Vessel.DecodeAtoN | applications/ais/decoder.go:629-669 | the whole new state after type 21 |
| AisDecoder.Decoder.Lookup | applications/ais/decoder.go:199-204 | the vessel with this number, added if new; no other changes |
| AisDecoder.Decoder.Collect | applications/ais/decoder.go:109-134 | the fragments afterwards, and whether the message waits, is an orphan part or is complete with which payload |
| AisDecoder.Decoder.DecodeMessage | applications/ais/decoder.go:136-167 | counters and vessels afterwards, and the result |
| AisDecoder.Decoder.FeedLine | applications/ais/decoder.go:75-168 | fragments, vessels, counters and result for any line at all |
| VesselTracking.GateIsExact | applications/ais/decoder.go:223-229 | the 0.33 degree gate is dLat^2 + dLon^2 <= 198000^2 in units of 1/600000 degree |
| VesselTracking.MotionStep | applications/ais/decoder.go:210-241 | a report either leaves the position alone or makes it a fix in range that the gate allows |
| VesselTracking.StepSpeed | applications/ais/decoder.go:210-241 | a speed that is written is at most 102 knots, and 50 for ship types 60 to 89, the message's own ship type included |
| VesselTracking.RunSafety | applications/ais/decoder.go:172-519 | over any run of checked messages every fix is in range and within the gate of the one before, and the speed is plausible |
| VesselTracking.DriftBound | applications/ais/decoder.go:218-230 | n steps of under five minutes move a vessel at most 0.33 n degrees |
| VesselTracking.LimitKept | applications/ais/decoder.go:210-216 | any message keeps a vessel within the 50-knot limit if and only if it is not one that declares a faster vessel a cargo ship or tanker without writing a speed, nor a type 9 that writes a higher one |
| VesselTracking.LimitOverRun | applications/ais/decoder.go:172-519 | over any run of any messages the limit holds throughout if and only if no message of the run is one of those |
| VesselTracking.MessagesCounted | applications/ais/decoder.go:172-669 | over any run a vessel counts the messages that were decoded and was last seen at the last of them |
| AisReports.FastCargoShip | applications/ais/decoder.go:172-519 | an input that leaves the limit: 80 knots, then a type 24 part B that declares a cargo ship |
| AisStream.FragmentsAfter | applications/ais/decoder.go:75-134 | the decoder's fragments are those of the sentences in the lines it was fed |
| AisStream.VesselHistory | applications/ais/decoder.go:75-168 | the stored state of a vessel is the run of its own messages, whatever else was fed |
| AisStream.LinesCounted | applications/ais/decoder.go:75-168 | over any stream every line that is not ignored and leaves no message waiting is counted exactly once, as a message or as an error |
| AisStream.StoredSafety | applications/ais/decoder.go:75-519 | run safety of every vessel that any stream of lines leads to |
| AisPacking.PartOfConcat | applications/ais/decoder.go:697-705 | every field packed into a message lies at the sum of the widths before it |
| AisReports.MotionInUnits | applications/ais/decoder.go:186-248 | the position, speed, course and heading of a report, stated in whole wire units, accepted and refused |
| AisReports.AvailableIsOnGlobe | applications/ais/decoder.go:190-192 | the range and sentinel tests together are the range test |
| AisReports.ClassAStored | applications/ais/decoder.go:172-258 | a class A report as sent, and everything it does to the vessel |
| AisReports.ClassBStored | applications/ais/decoder.go:312-390 | a class B report as sent, and everything it does |
| AisReports.ClassBExtendedStored | applications/ais/decoder.go:394-475 | an extended class B report as sent: its ship type counts for its own speed |
| AisReports.NameStored | applications/ais/decoder.go:498-503 | a type 24 part A stores exactly the name sent, without its padding |
| AisReports.TypeAndCallsignStored | applications/ais/decoder.go:504-511 | a type 24 part B stores exactly the ship type and callsign sent |
| AisReports.BaseStored | applications/ais/decoder.go:524-569 | a base station report as sent, not gated |
| AisReports.SarStored | applications/ais/decoder.go:573-625 | a search and rescue report as sent, not gated |
| AisReports.AidStored | applications/ais/decoder.go:629-669 | an aid to navigation report as sent, not gated |
| AisReports.ClassAHeard | applications/ais/decoder.go:75-258 | a class A report written as a line: the decoder's whole new state |
| AisReports.OthersIgnored | applications/ais/decoder.go:136-167 | exactly messages of types 1 to 5, 9, 11, 18, 19, 21 and 24 with the bits their type needs reach a vessel, and only their own; any other is counted and changes nothing else |
| AisReports.RunStands | applications/ais/decoder.go:186-188 | after any run of any messages the stored position is in whole units, as those theorems ask |
| AisStaticVoyage.PackRoundTrip | applications/ais/decoder.go:262-289 | the fields read from a packed type 5 message are those of the ship |
| AisStaticVoyage.ShipHeard | applications/ais/decoder.go:75-308 | any type 5 fields, packed to 424 bits, armoured, split into any number of sentences and fed: only the last line returns true, and exactly those fields are stored, texts right-trimmed |
| AisStaticVoyage.ShipHeardAmongOthers | applications/ais/decoder.go:75-308 | the same with any other lines before and between the parts |
| LittleEndian.WordOfBytesMod | generator/generator.go:77-91 | a word written in n little-endian bytes keeps its value modulo 256^n |
| FrameCodec.MarshalBinary | generator/generator.go:77-91 | the 64 bytes written, and nothing beyond them |
| FrameCodec.UnmarshalBinary | generator/generator.go:95-109 | the entity whose record these 64 bytes are, every field within its width |
| FrameCodec.RecordOfUnrecord | generator/generator.go:77-109 | any 64 bytes are the record of the entity read from them |
| FrameCodec.RecordRoundTrip | generator/generator.go:77-109 | an entity is read back from its record bit for bit |
| FrameCodec.MarshalFrameHeader | generator/generator.go:113-119 | the 16 header bytes written, and nothing beyond them |
| FrameCodec.EncodeFrame | generator/generator.go:408-427 | a new buffer holding exactly header and records |
| FrameCodec.EncodeFrameInto | generator/generator.go:430-452 | a buffer too small is untouched and gives 0; otherwise the frame is written and bytes past it are unchanged |
| FrameCodec.DecodeFrame | protocol/src/lib.rs:111-141 | header and entities of a frame, or nothing for a short one or a wrong magic number |
| FrameCodec.HeaderRoundTrip | generator/generator.go:113-119 | a header is read back |
| FrameCodec.FrameStart | generator/generator.go:113-119 | every frame begins with "FRGS", version 1 and type 0 |
| FrameCodec.FrameRoundTrip | protocol/src/lib.rs:111-141 | decoding an encoded frame, whatever follows it, gives the entities bit for bit up to 65535, and in general the first n mod 65536 |
| FrameLink.WriteFrames | edge/server.go:468-482 | the bytes written are length prefixes and frames in order |
| FrameLink.FrameLenIs | web/src/transport-worker.ts:142 | the length prefix is read as the signed 32-bit number with the value of its bytes modulo 2^32 |
| FrameLink.DrainSplit | web/src/transport-worker.ts:128-149 | reading a and then b finds the frames of a + b, and keeps the same leftover |
| FrameLink.DrainWire | web/src/transport-worker.ts:140-148 | frames under 2^31 bytes are found again exactly, with nothing left |
| FrameLink.Delivery | web/src/transport-worker.ts:128-149 | at any moment, frames processed followed by those still to come are those written, in order, and the leftover holds no complete frame |
| FrameLink.Worker.Publish | web/src/transport-worker.ts:174-189 | the shared buffer afterwards: sequence number, count, timestamp and records |
| FrameLink.Worker.ProcessFrame | web/src/transport-worker.ts:157-195 | a well-formed frame is published under a new sequence number, anything else is ignored |
| FrameLink.Worker.OnChunk | web/src/transport-worker.ts:128-149 | buffer, processed frames and shared buffer after a chunk |
| FrameLink.EndToEnd | web/src/transport-worker.ts:157-195 | from the generator's entities to the renderer's buffer: the next 32-bit sequence number, the count, the first entities bit for bit, and the timestamp rounded to 53 significant bits, which is the one sent if and only if rounding loses nothing; the rest of the buffer is unchanged |
| FrameLink.LastShown | web/src/transport-worker.ts:157-195 | whatever frames came before, the buffer shows the last one under the number of well-formed frames, modulo 2^32 |
| Doubles.WordExact | web/src/transport-worker.ts:168-185 | the word written for a timestamp is the timestamp if and only if it is a whole number of units, as every one below 2^53 is |
| Doubles.DoubleNear | web/src/transport-worker.ts:168 | the number a timestamp is rounded to is at most half a unit away |
| Doubles.TiesToEven | web/src/transport-worker.ts:168 | half way between two neighbours it is the one with an even significand |
| Doubles.DoubleOrder | web/src/transport-worker.ts:168 | rounding keeps the order of timestamps |
| EdgeServer.BuildFilteredFrame | edge/server.go:231-240 | a new frame of the given records under the old header with its own count |
| EdgeServer.FilterEntities | edge/server.go:170-198 | the loop selects exactly the records in view and changed, in order |
| EdgeServer.Client.OnSubscribe | edge/server.go:370-383 | the viewport is set and delta tracking started if it was off |
| EdgeServer.Client.OnUnsubscribe | edge/server.go:386-391 | both are cleared |
| EdgeServer.Client.CloseQueue | edge/server.go:358-362 | the queue is closed, and nothing else of the client changes |
| EdgeServer.Client.TrySend | edge/server.go:220-224 | a full queue drops the frame, a closed one panics |
| EdgeServer.Client.Record | edge/server.go:207-218 | the delta map after records were sent |
| EdgeServer.Client.Deliver | edge/server.go:155-225 | the client's whole new state for a snapshot and a frame |
| EdgeServer.Server.AddClient | edge/server.go:336-345 | a client under an id never used before, the counter right |
| EdgeServer.Server.RemoveClient | edge/server.go:348-350 | this client is gone and no other, the counter right |
| EdgeServer.Server.BroadcastFrameFiltered | edge/server.go:136-227 | every client is served according to its own state, and by nothing else, unless one that is to be sent a frame has its queue closed: then, and only then, the server panics |
| EdgeSelection.LessIsOrder | edge/server.go:186 | the comparison of two finite doubles is the order of the numbers that sign, exponent and fraction denote |
| EdgeSelection.SpecialWords | edge/server.go:186 | an infinity is beyond every number, and a NaN is neither below nor above anything |
| EdgeSelection.RecordFields | edge/server.go:38-44 | the id, sequence number, latitude and longitude that the edge server reads in a record are those of the entity |
| EdgeSelection.InViewWords | edge/server.go:184-189 | a record is in view if and only if the entity's latitude and longitude are not below or above their own bounds, for any words |
| EdgeSelection.InViewIff | edge/server.go:184-189 | for numbers: if and only if minLat <= latitude <= maxLat and minLon <= longitude <= maxLon |
| EdgeSelection.FilteredIsFrame | edge/server.go:231-240 | filtering a frame of some entities gives the generator's frame of the ones kept |
| EdgeSelection.SubscriberGets | edge/server.go:155-206 | a subscriber is sent the frame of exactly the entities within its bounds that it does not have with that sequence number, or nothing |
| EdgeSelection.SubscriberQueues | edge/server.go:155-225 | a broadcast to a subscriber queues exactly that frame, or drops it if the queue is full; it decodes to those entities bit for bit, and either way they count as sent |
| EdgeSelection.FirstSubscription | edge/server.go:155-206 | a first subscription is sent everything within its bounds, and a client that has unsubscribed every frame as it is |
| EdgeSelection.Resubscribed | edge/server.go:155-383 | after a change of the viewport a client is sent exactly the entities within the new bounds that it does not have, and none sent in the frame before |
| EntityLookup.FilteredRoundTrip | edge/server.go:231-240 | a filtered frame parses back to exactly its records |
| EntityLookup.OutgoingEntities | edge/server.go:155-206 | the records in an outgoing frame are those in view and changed; none when nothing is sent |
| EntityLookup.FindRecorded | edge/server.go:208-218 | the delta map holds the sequence number last sent for every id |
| FanoutRuns.FilteredShape | edge/server.go:155-240 | every filtered frame has 16 + 64 k bytes for k records in its header, an order-preserving selection of one broadcast frame, all in view and changed |
| FanoutRuns.CommitKeepsFifo | edge/server.go:220-224 | a commit keeps the queue bounded, first in first out and in broadcast order |
| FanoutRuns.FanoutSafety | edge/server.go:136-227 | over all runs of connects, queue closes, disconnects, subscription changes, reads and two-step broadcasts: counter right, ids not reused, queues bounded and in broadcast order |
| FanoutRuns.ClientsNumbered | edge/server.go:336-343 | clients are numbered in the order they connect, from 1 on |
| FanoutRuns.EveryoneCovered | edge/server.go:147-226 | over all runs every client is visited by one broadcast after the other, and has been visited by every one since it joined once none is under way |
| FanoutHistory.QueuedFrames | edge/server.go:136-240 | over all runs every frame ever queued for a client is one broadcast in the run, or a selection of one in order, all in the viewport and changed since the delta map that this client had at one moment of that broadcast |
| FanoutRuns.CommitKeepsDelta | edge/server.go:208-224 | a commit keeps the delta invariant at every id, whatever subscription changes came since the snapshot |
| FanoutRuns.DeltaRefinement | edge/server.go:147-226 | over all runs a client's view holds for an id the newest record in its visits inside the viewport in force if and only if that id's last outgoing record was not dropped, or equals the one it had |
| FanoutRuns.NoDropsNoLoss | edge/server.go:147-226 | the view is exactly the newest records of the visits if and only if no id is stale |
| FanoutHistory.NewestBroadcasts | edge/server.go:136-227 | once no broadcast is under way a client's visits are of exactly the frames broadcast since it joined, in order, each with a state it had during that broadcast; its view holds the newest of their records inside the viewport in force at exactly the ids that are not stale |
| FanoutHistory.DroppedNotResent | edge/server.go:207-224 | a frame dropped under delta tracking is not queued when it is broadcast again, as its records count as sent |
| FanoutPanics.PanicIff | edge/server.go:136-227 | a run panics if and only if a read pump has closed the queue of a client and, later in the run, a visit to it that gives rise to a frame ends |
| FanoutPanics.ClosedIff | edge/server.go:358-362 | a client's queue is closed if and only if its read pump closed it earlier in the run |
| FanoutPanics.OwesIffOpen | edge/server.go:147-226 | the server owes a client a frame exactly from the beginning of a visit that gives rise to one to its end |
| FanoutPanics.CloseThenSend | edge/server.go:356-364 | two such inputs: the queue is closed during a visit, or before a broadcast while the client is still registered |
| FanoutPanics.RemovedInTime | edge/server.go:348-350 | a client closed and removed before the broadcast reaches it is not served and nothing panics |
| SpatialGrid.Index.constructor | compute/src/lib.rs:17-26 | an empty table of the right size |
| SpatialGrid.Index.Clear | compute/src/lib.rs:29-33 | no entity is left |
| SpatialGrid.Index.Insert | compute/src/lib.rs:36-41 | the table stays the index of everything inserted since the last clear |
| SpatialGrid.Index.Query | compute/src/lib.rs:44-60 | the concatenation of the covered cells, row by row |
| SpatialGrid.Saturates | compute/src/lib.rs:45-48 | conversion to an unsigned 32-bit number gives the nearest one |
| SpatialGrid.CellIs | compute/src/lib.rs:62-66 | a cell number is row times width plus column if that has 32 bits, and wraps to 0 at 2^32 |
| SpatialGrid.BoxCovers | compute/src/lib.rs:44-66 | the cell of a position in the box is covered, even where cell numbers wrap around |
| SpatialGrid.QueryComplete | compute/src/lib.rs:44-60 | a query returns every live entity in the box whose cell is within the table |
| SpatialGrid.VisitsTwiceIff | compute/src/lib.rs:44-60 | a query visits a cell of the table twice if and only if the box has more columns than the grid, at least two rows, and a second row that begins inside the table |
| SpatialGrid.QueryExact | compute/src/lib.rs:44-60 | the result is exactly what a scan for the covered cells finds, each entity once per insert, if and only if no cell holding something is visited twice, which only happens in such a box |
| SpatialGrid.DoubledEntity | compute/src/lib.rs:44-60 | in such a box an entity in the first cell of the second row is returned once too often |
| SpatialGrid.QueryAgrees | compute/src/lib.rs:44-66 | the result is exactly the live entities in the box's rows and columns if and only if no cell holding something is visited twice and no entity is a stray |
| SpatialGrid.NoStray | compute/src/lib.rs:44-66 | no entity is a stray in a box inside the grid if its own column is inside the grid |
| SpatialGrid.QueryIsScan | compute/src/lib.rs:44-66 | with the box's last column and every entity's column inside the grid the result is exactly the live entities in the box's rows and columns |
| SpatialGrid.QueryInDegrees | compute/src/lib.rs:17-66 | for any cell size that 32-bit cell numbers do for, with entities and box west of 180 degrees, the result is that scan |
| SpatialGrid.StrayIff | compute/src/lib.rs:62-66 | some box inside the grid returns an entity that is not in its rows and columns if and only if that entity's column is past the grid |
| SpatialGrid.StrayExample | compute/src/lib.rs:44-66 | an input: an entity at longitude 180 is returned for a box further north that ends at longitude -170 |
| SpatialGrid.LastColumnCountsTwice | compute/src/lib.rs:44-60 | an input that doubles: in a query for the whole world an entity at longitude 180 comes back twice |

## Left out

- Sockets, TLS, HTTP, reconnects, tickers, logging, callbacks, locks and the command lines: clock readings, received bytes and lines are parameters. A call of Feed or FeedLine sees one clock reading.
- Floating-point rounding: positions are exact reals, and a distance is compared by its square where the code compares square roots.
- Callsign, velocity, surface speed, heading and vertical rate of aircraft: single-branch facts that touch nothing modelled here.
- AisBits.DecodeSixBit: lines are ASCII; a multi-byte character would be one rune to the original. A fill count so negative that the bits do not fit in memory ends the original instead.
- AisBits.BitsToUint: the original's word is 64 bits wide; no field read is wider than 30.
- AIS types 4, 9, 11 and 21 in the run-safety claims: their positions bypass the gate by design.
- VesselTracking.RunSafety: times are not 0, Go's zero time, which no running clock returns.
- AIS snapshots, active counts and pruning, and the conversions of aircraft and vessels to entity records.
- FanoutHistory.NewestBroadcasts: one broadcast at a time, as the pipeline calls it; concurrent broadcasters sharing a delta map are not modelled. A panic ends the model's run.
- FrameCodec.DecodeFrame: the original reinterprets the header in place and panics if the frame does not start at an address divisible by 8 (protocol/src/lib.rs:116); memory addresses are not modelled.
- FrameLink.Delivery: a frame of 2^31 bytes or more makes the worker's length negative; the model stops there, without the wrap-around slices of the original.
- FrameLink.EndToEnd: the order in which the renderer sees the shared buffer is not modelled.
- SpatialGrid.Index.constructor: the cell size is positive; 32-bit products wrap around as in a release build.
- SpatialGrid.QueryExact: the number of the box's last cell has 32 bits; where it wraps around only SpatialGrid.BoxCovers and SpatialGrid.QueryComplete are stated.
- WebGPU renderer, shaders, map, generator movement, benchmarks and their replay of the framing.
