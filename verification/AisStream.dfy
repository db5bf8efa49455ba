/** Streams of lines through the AIS decoder: its fragments are those of the sentences it was fed, and
    each vessel is the result of its own messages. */
module AisStream {
  import opened AisBits
  import opened AisDecoder
  import opened AisReassembly
  import opened BitStrings
  import opened Nmea
  import opened Sequences
  import opened VesselTracking

  datatype Heard = Heard(line: string, now: real)

  function FeedAll(st: State, lines: seq<Heard>): State {
    if lines == [] then st else Feed(FeedAll(st, lines[..|lines| - 1]), lines[|lines| - 1].line, lines[|lines| - 1].now).0
  }

  function SentenceIn(line: string): seq<Sentence> {
    match ParseLine(line)
    case Parsed(s) => [s]
    case _ => []
  }

  /** The sentences that a series of lines carries. */
  function SentencesOf(lines: seq<Heard>): seq<Sentence> {
    if lines == [] then [] else SentencesOf(lines[..|lines| - 1]) + SentenceIn(lines[|lines| - 1].line)
  }

  lemma FeedFragments(st: State, line: string, now: real)
    ensures Feed(st, line, now).0.fragments
         == match ParseLine(line)
            case Parsed(s) => Assemble(st.fragments, s).0
            case _ => st.fragments
  {
    hide ParseLine, Assemble, DecodedBits, Update, Decodable;
  }

  /** The decoder's fragments are those of the sentences it was fed. */
  lemma {:induction false} FragmentsAfter(st: State, lines: seq<Heard>)
    ensures FeedAll(st, lines).fragments == After(st.fragments, SentencesOf(lines))
  {
    if lines != [] {
      hide Feed, ParseLine, Assemble, After;
      var front, last := lines[..|lines| - 1], lines[|lines| - 1];
      FragmentsAfter(st, front);
      FeedFragments(FeedAll(st, front), last.line, last.now);
      var before := SentencesOf(front);
      match ParseLine(last.line) {
        case Parsed(s) => CompletedAppend(st.fragments, before, s);
        case _ => assert before + [] == before;
      }
    }
  }

  /** A line that is neither ignored nor a part of a message still incomplete. */
  predicate Counts(st: State, line: string) {
    match ParseLine(line)
    case Ignored => false
    case Damaged => true
    case Parsed(s) => !Assemble(st.fragments, s).1.Waiting?
  }

  function CountedLines(st: State, lines: seq<Heard>): nat {
    if lines == [] then 0
    else CountedLines(st, lines[..|lines| - 1])
         + if Counts(FeedAll(st, lines[..|lines| - 1]), lines[|lines| - 1].line) then 1 else 0
  }

  lemma LineCounted(st: State, line: string, now: real)
    ensures var after := Feed(st, line, now).0;
            && after.msgCount + after.errCount == st.msgCount + st.errCount + (if Counts(st, line) then 1 else 0)
            && after.msgCount >= st.msgCount && after.errCount >= st.errCount
  {
    hide ParseLine, Assemble, DecodedBits, Update, Decodable;
  }

  /** Over any stream every such line is counted exactly once, as a message or as an error. */
  lemma {:induction false} LinesCounted(st: State, lines: seq<Heard>)
    ensures var after := FeedAll(st, lines);
            && after.msgCount + after.errCount == st.msgCount + st.errCount + CountedLines(st, lines)
            && after.msgCount >= st.msgCount && after.errCount >= st.errCount
  {
    if lines != [] {
      hide Feed, Counts;
      LinesCounted(st, lines[..|lines| - 1]);
      LineCounted(FeedAll(st, lines[..|lines| - 1]), lines[|lines| - 1].line, lines[|lines| - 1].now);
    }
  }

  // ---------- the history of one vessel ----------

  /** The message that a line completes, if it can be decoded. */
  function MessageIn(st: State, line: string): seq<seq<bool>> {
    match ParseLine(line)
    case Parsed(s) =>
      (match Assemble(st.fragments, s).1
       case Complete(payload) =>
         var bits := DecodedBits(payload, s.fill);
         if |bits| >= 6 && Decodable(bits) then [bits] else []
       case _ => [])
    case _ => []
  }

  /** The line's message, if it is one from this vessel. */
  function ReportIn(st: State, h: Heard, mmsi: nat): seq<Report> {
    var m := MessageIn(st, h.line);
    if m != [] && Mmsi(m[0]) == mmsi then [Report(m[0], h.now)] else []
  }

  function ReportsOf(st: State, lines: seq<Heard>, mmsi: nat): seq<Report> {
    if lines == [] then []
    else
      var front, last := lines[..|lines| - 1], lines[|lines| - 1];
      ReportsOf(st, front, mmsi) + ReportIn(FeedAll(st, front), last, mmsi)
  }

  /** A line applies its message to its vessel, and leaves every other vessel as it is. */
  lemma FeedStep(st: State, h: Heard, mmsi: nat)
    ensures var before, after := StateOf(st.vessels, mmsi), StateOf(Feed(st, h.line, h.now).0.vessels, mmsi);
            after == if ReportIn(st, h, mmsi) == [] then before else Apply(before, ReportIn(st, h, mmsi)[0])
    ensures Feed(st, h.line, h.now).1 <==> MessageIn(st, h.line) != []
  {
    hide ParseLine, Assemble, DecodedBits, Update, Decodable, Mmsi, NewVessel;
  }

  lemma RunOneMore(v: VesselState, reports: seq<Report>, more: seq<Report>)
    requires |more| <= 1
    ensures Run(v, reports + more) == if more == [] then Run(v, reports) else Apply(Run(v, reports), more[0])
  {
    hide Apply;
    if more == [] {
      assert reports + more == reports;
    } else {
      assert (reports + more)[..|reports|] == reports;
    }
  }

  /** The stored state of a vessel is the run of its own messages, whatever else was fed. */
  lemma {:induction false} VesselHistory(st: State, lines: seq<Heard>, mmsi: nat)
    requires mmsi !in st.vessels
    ensures StateOf(FeedAll(st, lines).vessels, mmsi) == Run(NewVessel(mmsi), ReportsOf(st, lines, mmsi))
  {
    if lines != [] {
      hide Feed, StateOf, MessageIn, Apply, NewVessel;
      var front, last := lines[..|lines| - 1], lines[|lines| - 1];
      VesselHistory(st, front, mmsi);
      FeedStep(FeedAll(st, front), last, mmsi);
      RunOneMore(NewVessel(mmsi), ReportsOf(st, front, mmsi), ReportIn(FeedAll(st, front), last, mmsi));
    }
  }

  /** Run safety of whatever the decoder stores: in any stream of lines that brings a vessel only messages
      whose positions are checked, its fixes are in range and within the gate of one another, it stands
      where the last one put it, and its speed is plausible. */
  lemma StoredSafety(st: State, lines: seq<Heard>, mmsi: nat)
    requires mmsi !in st.vessels && AllChecked(ReportsOf(st, lines, mmsi))
    ensures Safe(StateOf(FeedAll(st, lines).vessels, mmsi), Fixes(NewVessel(mmsi), ReportsOf(st, lines, mmsi)))
  {
    hide Run, Fixes, FeedAll, StateOf, ReportsOf, Safe, AllChecked;
    VesselHistory(st, lines, mmsi);
    RunSafety(mmsi, ReportsOf(st, lines, mmsi));
  }
}
