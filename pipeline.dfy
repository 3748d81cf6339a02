/**
 * How the pieces meet: a telnet session is stored by the logger, read back by
 * the dashboard's loader, shown by its transcript view, counted (or not) by
 * its token tally, and replayed on the console.
 */
module Pipeline {
  import opened Wrappers
  import opened Text
  import opened Json
  import Logger
  import Telnet
  import Dashboard
  import Replay

  /** The stored form of a finished telnet session. */
  function TelnetEntry(peername: Option<string>, clock: nat -> string, d: Telnet.Dialogue): Json {
    Logger.Entry(Telnet.SessionRecord(peername, clock, d))
  }

  /** What the store needs of `json.dumps` for a record to come back: one non-empty
      line with no carriage return and no surrounding whitespace, which `json.loads`
      turns back into the record. */
  predicate RoundTrips(r: Json, lib: Lib) {
    var line := lib.dumps(r);
    && line != "" && '\n' !in line && '\r' !in line
    && !IsSpace(line[0]) && !IsSpace(line[|line| - 1])
    && lib.loads(line) == Some(r)
  }

  /** Loading the store's file gives back exactly the records appended to it, in
      order, with no line skipped as blank or malformed. */
  lemma StoreRoundTrip(records: seq<Json>, lib: Lib)
    requires forall k :: 0 <= k < |records| ==> RoundTrips(records[k], lib)
    ensures Dashboard.Kept(SplitLines(UniversalNewlines(Logger.FileText(records, lib))), lib) == records
    ensures Dashboard.MalformedCount(SplitLines(UniversalNewlines(Logger.FileText(records, lib))), lib) == 0
  {
    var dumped := Logger.Dumped(records, lib);
    SplitTerminatedLines(dumped);
    TerminatedFreeOf(dumped, '\r');
    UniversalNewlinesKeepsPlain(Logger.FileText(records, lib), "");
    assert Logger.FileText(records, lib) + "" == Logger.FileText(records, lib);
    var lines := SplitLines(Logger.FileText(records, lib));
    assert |lines| == |records|;
    forall k | 0 <= k < |lines|
      ensures Dashboard.ClassifyLine(lines[k], lib) == Dashboard.Parsed(records[k])
    {
      StripDropsLineFeed(lib.dumps(records[k]));
    }
    Dashboard.AllParsedKept(lines, records, lib);
    Dashboard.EveryLineAccounted(lines, lib);
  }

  /** The transcript view finds none of its own keys in a stored record and falls
      back to its `data` field, shown as indented JSON when it is a non-empty dict. */
  lemma DashboardShowsStoredData(r: Logger.LogRecord, lib: Lib)
    requires r.data.JObj? && r.data.fields != map[]
    ensures Dashboard.ExtractTranscript(Logger.Entry(r), lib) == Some(lib.dumpsIndented(r.data))
  {
    var fields := Logger.Entry(r).fields;
    assert fields.Keys == Logger.RecordKeys;
    assert Dashboard.BranchOf(Logger.Entry(r)) == Dashboard.FallbackKeyed;
    var keys := Dashboard.FallbackOrder;
    assert keys[2] == "data" && !Dashboard.Hit(fields, keys[0]) && !Dashboard.Hit(fields, keys[1]);
  }

  /** A telnet session shows on the dashboard as its `data` dict, indented. */
  lemma DashboardShowsTelnetData(peername: Option<string>, clock: nat -> string, d: Telnet.Dialogue, lib: Lib)
    ensures Dashboard.ExtractTranscript(TelnetEntry(peername, clock, d), lib)
         == Some(lib.dumpsIndented(Telnet.SessionRecord(peername, clock, d).data))
  {
    var r := Telnet.SessionRecord(peername, clock, d);
    assert "transcript" in r.data.fields;
    DashboardShowsStoredData(r, lib);
  }

  /** The token tally ignores telnet records: they have no `events`. */
  lemma TallyIgnoresTelnet(sessions: seq<Json>, peername: Option<string>, clock: nat -> string, d: Telnet.Dialogue)
    ensures Dashboard.Tokens(sessions + [TelnetEntry(peername, clock, d)]) == Dashboard.Tokens(sessions)
  {
    var fields := TelnetEntry(peername, clock, d).fields;
    assert "events" !in fields;
    Dashboard.NoEventsNoTokens(sessions, TelnetEntry(peername, clock, d));
  }

  /** Replay picks the list nested under a stored record's `data`, even an empty one. */
  lemma ReplaySelectsStoredTranscript(r: Logger.LogRecord, events: seq<Json>)
    requires r.data.JObj? && "transcript" in r.data.fields && r.data.fields["transcript"] == JArr(events)
    ensures Replay.SelectTranscript(Logger.Entry(r)) == Some(JArr(events))
  {
    assert Logger.Entry(r).fields.Keys == Logger.RecordKeys;
  }

  /** Replay picks the transcript of a telnet record. */
  lemma ReplaySelectsTelnetTranscript(peername: Option<string>, clock: nat -> string, d: Telnet.Dialogue)
    ensures Replay.SelectTranscript(TelnetEntry(peername, clock, d)) == Some(JArr(Telnet.Stamped(d.steps, clock)))
  {
    ReplaySelectsStoredTranscript(Telnet.SessionRecord(peername, clock, d), Telnet.Stamped(d.steps, clock));
  }

  /** The replayed line of a telnet step in fixed-delay mode. */
  function FixedLine(s: Telnet.Step): string {
    (if s.dir == Telnet.In then "IN:  " else "OUT: ") + s.text
  }

  /** The replayed line of a telnet step in timestamp mode. */
  function TimedLine(s: Telnet.Step): string {
    (if s.dir == Telnet.In then "IN: " else "OUT") + " " + s.text
  }

  lemma InboundIffIn(dir: Telnet.Dir)
    ensures LowerStartsWith(Telnet.DirName(dir), "in") <==> dir == Telnet.In
  {
    var name := Telnet.DirName(dir);
    if dir == Telnet.Out {
      assert name[0] == 'o' && LowerChar(name[0]) != "in"[0];
    } else {
      assert name[0] == 'i' && name[1] == 'n';
      assert LowerChar(name[0]) == 'i' && LowerChar(name[1]) == 'n';
    }
  }

  /** Every stamped telnet event has a replay line, which says who spoke and what. */
  lemma StampedLines(steps: seq<Telnet.Step>, clock: nat -> string, timed: bool, lib: Lib)
    ensures var events := Telnet.Stamped(steps, clock);
      && (forall k :: 0 <= k < |events| ==> Replay.EntryLine(events[k], timed, lib).Some?)
      && forall k :: 0 <= k < |events| ==>
           Replay.EntryLine(events[k], timed, lib).value == (if timed then TimedLine(steps[k]) else FixedLine(steps[k]))
  {
    forall k | 0 <= k < |steps| {
      InboundIffIn(steps[k].dir);
    }
  }

  /** Replaying a stored telnet session without timestamps (at a non-zero speed) prints
      every exchanged line in order, each followed by the fixed pause, or only the
      notice for a session with no events. */
  lemma TelnetFixedReplay(peername: Option<string>, clock: nat -> string, d: Telnet.Dialogue,
                          speed: real, lib: Lib, seconds: Replay.Clock)
    requires speed != 0.0
    ensures var pb := Replay.ReplaySpec(TelnetEntry(peername, clock, d), speed, false, lib, seconds);
      && pb.outcome == Replay.Finished
      && (d.steps == [] ==> pb.actions == [Replay.Say(Replay.NoTranscript)])
      && (d.steps != [] ==> pb.actions == Replay.SayThenSleep(seq(|d.steps|, k requires 0 <= k < |d.steps| => FixedLine(d.steps[k])), Replay.FixedWait(speed)))
  {
    ReplaySelectsTelnetTranscript(peername, clock, d);
    var events := Telnet.Stamped(d.steps, clock);
    StampedLines(d.steps, clock, false, lib);
    Replay.FixedShape(events, speed, lib);
    assert Replay.Lines(events, false, lib) == seq(|d.steps|, k requires 0 <= k < |d.steps| => FixedLine(d.steps[k]));
  }

  /** Replaying a stored telnet session with its timestamps, when every clock reading
      parses and the readings never go backwards: every exchanged line is printed in
      order after its pause, and the pauses add up to the session's span divided by
      the speed. */
  lemma TelnetTimedReplay(peername: Option<string>, clock: nat -> string, d: Telnet.Dialogue,
                          speed: real, lib: Lib, seconds: Replay.Clock, times: seq<real>)
    requires d.steps != [] && speed > 0.0
    requires |times| == |d.steps| && Replay.NonDecreasing(times)
    requires forall k :: 0 <= k < |times| ==> seconds(RemoveChar(clock(k + 1) + "Z", 'Z')) == Some(times[k])
    ensures var pb := Replay.ReplaySpec(TelnetEntry(peername, clock, d), speed, true, lib, seconds);
      && pb.outcome == Replay.Finished
      && pb.actions == Replay.SleepThenSay(Replay.Waits(Replay.Intervals(times), 0.0, speed),
                                           seq(|d.steps|, k requires 0 <= k < |d.steps| => TimedLine(d.steps[k])))
      && Replay.Sum(Replay.Waits(Replay.Intervals(times), 0.0, speed)) == (times[|times| - 1] - times[0]) / speed
  {
    var events := Telnet.Stamped(d.steps, clock);
    TelnetTimedMode(peername, clock, d, speed, lib, seconds, times);
    StampedLines(d.steps, clock, true, lib);
    Replay.TimedReplayDuration(events, times, speed, lib);
    assert Replay.Lines(events, true, lib) == seq(|d.steps|, k requires 0 <= k < |d.steps| => TimedLine(d.steps[k]));
  }

  /** With parseable readings, a telnet record is replayed in timestamp mode. */
  lemma TelnetTimedMode(peername: Option<string>, clock: nat -> string, d: Telnet.Dialogue,
                        speed: real, lib: Lib, seconds: Replay.Clock, times: seq<real>)
    requires d.steps != []
    requires |times| == |d.steps|
    requires forall k :: 0 <= k < |times| ==> seconds(RemoveChar(clock(k + 1) + "Z", 'Z')) == Some(times[k])
    ensures Replay.ReplaySpec(TelnetEntry(peername, clock, d), speed, true, lib, seconds)
         == Replay.TimedFrom(Telnet.Stamped(d.steps, clock), Replay.Intervals(times), 0.0, speed, lib)
  {
    ReplaySelectsTelnetTranscript(peername, clock, d);
    var events := Telnet.Stamped(d.steps, clock);
    assert forall k :: 0 <= k < |events| ==> Replay.HasTs(events[k]) == Some(true);
    AllTsFound(events);
    Replay.TimesParsed(events, seconds, times);
    Replay.TimedWithParsedTs(TelnetEntry(peername, clock, d), speed, lib, seconds, times);
  }

  lemma {:induction false} AllTsFound(entries: seq<Json>)
    requires forall k :: 0 <= k < |entries| ==> Replay.HasTs(entries[k]) == Some(true)
    ensures Replay.AllHaveTs(entries) == Some(true)
  {
    if entries != [] {
      AllTsFound(entries[1..]);
    }
  }
}
