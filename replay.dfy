/**
 * Replaying a recorded session on the console: choose the transcript, then
 * print one line per event, pausing either as the timestamps say (scaled by
 * the speed) or for a fixed short delay. The console and the sleeps are an
 * output trace of `Say` and `Sleep` actions; how a timestamp string becomes
 * seconds is a parameter.
 */
module Replay {
  import opened Wrappers
  import opened Text
  import opened Json

  /** One effect of the replay: `time.sleep(seconds)` or `print(line)`. */
  datatype Action = Sleep(seconds: real) | Say(line: string)

  /** How the replay ends: it runs to the end, or Python raises and it stops there. */
  datatype Outcome = Finished | Raised

  datatype Playback = Playback(actions: seq<Action>, outcome: Outcome)

  /** `seconds` turns a timestamp (its "Z" removed) into seconds, or `None` where
      `datetime.fromisoformat` raises. */
  type Clock = string -> Option<real>

  const NoTranscript := "No transcript found in session."

  /** Actions done before the rest of the replay. */
  function Prepend(done: seq<Action>, rest: Playback): Playback {
    Playback(done + rest.actions, rest.outcome)
  }

  /** `sess.get("data", {}).get("transcript") or sess.get("transcript") or []`; `None`
      where `.get` is applied to something that is not a dict. */
  function SelectTranscript(sess: Json): (t: Option<Json>)
    ensures t.Some? <==> sess.JObj? && GetOr(sess.fields, "data", JObj(map[])).JObj?
    ensures t.Some? && Truthy(Get(GetOr(sess.fields, "data", JObj(map[])).fields, "transcript")) ==>
      t.value == Get(GetOr(sess.fields, "data", JObj(map[])).fields, "transcript")
    ensures t.Some? && !Truthy(Get(GetOr(sess.fields, "data", JObj(map[])).fields, "transcript"))
            && Truthy(Get(sess.fields, "transcript")) ==>
      t.value == Get(sess.fields, "transcript")
    ensures t.Some? && !Truthy(Get(GetOr(sess.fields, "data", JObj(map[])).fields, "transcript"))
            && !Truthy(Get(sess.fields, "transcript")) ==>
      t.value == JArr([])
  {
    if !sess.JObj? then None
    else
      var data := GetOr(sess.fields, "data", JObj(map[]));
      if !data.JObj? then None
      else
        var nested := Get(data.fields, "transcript");
        var top := Get(sess.fields, "transcript");
        Some(if Truthy(nested) then nested else if Truthy(top) then top else JArr([]))
  }

  /** `"ts" in t` for one entry; `None` where `in` is not defined for it. */
  function HasTs(entry: Json): Option<bool> {
    match entry
    case JObj(fields) => Some("ts" in fields)
    case JStr(s) => Some(Contains(s, "ts"))
    case JArr(items) => Some(JStr("ts") in items)
    case _ => None
  }

  /** `all("ts" in t for t in transcript)`, which stops at the first entry without one. */
  function AllHaveTs(entries: seq<Json>): (all: Option<bool>)
    ensures all == Some(true) ==> forall k :: 0 <= k < |entries| ==> HasTs(entries[k]) == Some(true)
  {
    if entries == [] then Some(true)
    else
      match HasTs(entries[0])
      case None => None
      case Some(false) => Some(false)
      case Some(true) => AllHaveTs(entries[1..])
  }

  /** `[datetime.fromisoformat(t["ts"].replace("Z", "")) for t in transcript]`, in seconds. */
  function Times(entries: seq<Json>, seconds: Clock): (times: Option<seq<real>>)
    ensures times.Some? ==> |times.value| == |entries|
  {
    if entries == [] then Some([])
    else
      var e := entries[0];
      if !(e.JObj? && "ts" in e.fields && e.fields["ts"].JStr?) then None
      else
        match (seconds(RemoveChar(e.fields["ts"].s, 'Z')), Times(entries[1..], seconds))
        case (Some(t), Some(rest)) => Some([t] + rest)
        case _ => None
  }

  /** When every entry's `ts` parses, the times are the parsed readings, in order. */
  lemma {:induction false} TimesParsed(entries: seq<Json>, seconds: Clock, times: seq<real>)
    requires |entries| == |times|
    requires forall k :: 0 <= k < |entries| ==>
      entries[k].JObj? && "ts" in entries[k].fields && entries[k].fields["ts"].JStr?
      && seconds(RemoveChar(entries[k].fields["ts"].s, 'Z')) == Some(times[k])
    ensures Times(entries, seconds) == Some(times)
  {
    if entries != [] {
      TimesParsed(entries[1..], seconds, times[1..]);
      assert [times[0]] + times[1..] == times;
    }
  }

  /** The intervals from the first timestamp: `(t - base).total_seconds()`. */
  function Intervals(times: seq<real>): seq<real>
    requires times != []
  {
    seq(|times|, k requires 0 <= k < |times| => times[k] - times[0])
  }

  /** The console line of one entry: "IN:"/"OUT" then a space in timestamp mode,
      "IN:  "/"OUT: " in fixed mode, then `str(text)`. `None` where the entry is not a
      dict or its `dir` is not a string. */
  function EntryLine(entry: Json, timed: bool, lib: Lib): (line: Option<string>)
    ensures line.Some? <==> entry.JObj? && GetOr(entry.fields, "dir", JStr("?")).JStr?
  {
    if !entry.JObj? then None
    else
      var dir := GetOr(entry.fields, "dir", JStr("?"));
      var text := ToStr(GetOr(entry.fields, "text", JStr("")), lib);
      if !dir.JStr? then None
      else
        var inbound := LowerStartsWith(dir.s, "in");
        if timed then Some((if inbound then "IN: " else "OUT") + " " + text)
        else Some((if inbound then "IN:  " else "OUT: ") + text)
  }

  /** A console line says who spoke and what: it starts with "IN" exactly when the entry's
      `dir` starts with "in" in any case, with "OUT" otherwise, and ends with `str(text)`. */
  lemma EntryLineSaysWho(entry: Json, timed: bool, lib: Lib)
    requires EntryLine(entry, timed, lib).Some?
    ensures var line := EntryLine(entry, timed, lib).value;
      && (StartsWith(line, "IN") <==> LowerStartsWith(GetOr(entry.fields, "dir", JStr("?")).s, "in"))
      && (!LowerStartsWith(GetOr(entry.fields, "dir", JStr("?")).s, "in") ==> StartsWith(line, "OUT"))
      && EndsWith(line, ToStr(GetOr(entry.fields, "text", JStr("")), lib))
  {
    var line := EntryLine(entry, timed, lib).value;
    var text := ToStr(GetOr(entry.fields, "text", JStr("")), lib);
    var prefix := line[..|line| - |text|];
    if LowerStartsWith(GetOr(entry.fields, "dir", JStr("?")).s, "in") {
      assert prefix == "IN:  ";
    } else {
      assert prefix == if timed then "OUT " else "OUT: ";
      assert line[1] == 'U';
    }
    assert line == prefix + text;
  }

  /** `max(0.0, x)` */
  function AtLeastZero(x: real): (y: real)
    ensures y >= 0.0 && y >= x && (y == x || y == 0.0)
  {
    if x > 0.0 then x else 0.0
  }

  /** The pause of fixed-delay mode: `max(0.05, 0.5 / speed)`. */
  function FixedWait(speed: real): (w: real)
    requires speed != 0.0
    ensures w >= 0.05 && w >= 0.5 / speed && (w == 0.05 || w == 0.5 / speed)
  {
    if 0.5 / speed > 0.05 then 0.5 / speed else 0.05
  }

  /** Timestamp mode from some entry on, `last` being the previous interval. Dividing
      by a zero speed raises before the first sleep. */
  function TimedFrom(entries: seq<Json>, intervals: seq<real>, last: real, speed: real, lib: Lib): Playback
    requires |entries| == |intervals|
  {
    if entries == [] then Playback([], Finished)
    else if speed == 0.0 then Playback([], Raised)
    else
      var wait := AtLeastZero((intervals[0] - last) / speed);
      match EntryLine(entries[0], true, lib)
      case None => Playback([Sleep(wait)], Raised)
      case Some(line) => Prepend([Sleep(wait), Say(line)], TimedFrom(entries[1..], intervals[1..], intervals[0], speed, lib))
  }

  /** Fixed-delay mode from some entry on: print, then pause. A zero speed raises after
      the first line is printed. */
  function FixedFrom(entries: seq<Json>, speed: real, lib: Lib): Playback {
    if entries == [] then Playback([], Finished)
    else
      match EntryLine(entries[0], false, lib)
      case None => Playback([], Raised)
      case Some(line) =>
        if speed == 0.0 then Playback([Say(line)], Raised)
        else Prepend([Say(line), Sleep(FixedWait(speed))], FixedFrom(entries[1..], speed, lib))
  }

  /** `replay_transcript(sess, speed, keep_timestamps)` */
  function ReplaySpec(sess: Json, speed: real, keepTimestamps: bool, lib: Lib, seconds: Clock): Playback {
    match SelectTranscript(sess)
    case None => Playback([], Raised)
    case Some(t) =>
      if !Truthy(t) then Playback([Say(NoTranscript)], Finished)
      else if !t.JArr? then Playback([], Raised)
      else
        var entries := t.items;
        if !keepTimestamps then FixedFrom(entries, speed, lib)
        else
          match AllHaveTs(entries)
          case None => Playback([], Raised)
          case Some(false) => FixedFrom(entries, speed, lib)
          case Some(true) =>
            match Times(entries, seconds)
            case None => Playback([], Raised)
            case Some(times) => TimedFrom(entries, Intervals(times), 0.0, speed, lib)
  }

  /* ---------------------------------------------------------------------
   * The two replay loops
   * ------------------------------------------------------------------- */

  /** The timestamp loop: sleep for the scaled gap since the previous entry, then print. */
  method ReplayTimed(entries: seq<Json>, intervals: seq<real>, speed: real, lib: Lib) returns (pb: Playback)
    requires |entries| == |intervals|
    ensures pb == TimedFrom(entries, intervals, 0.0, speed, lib)
  {
    var actions: seq<Action> := [];
    var last := 0.0;
    var i := 0;
    while i < |entries|
      invariant 0 <= i <= |entries|
      invariant Prepend(actions, TimedFrom(entries[i..], intervals[i..], last, speed, lib))
             == TimedFrom(entries, intervals, 0.0, speed, lib)
    {
      assert entries[i..][1..] == entries[i + 1..] && intervals[i..][1..] == intervals[i + 1..];
      if speed == 0.0 {
        return Playback(actions, Raised);
      }
      var wait := AtLeastZero((intervals[i] - last) / speed);
      actions := actions + [Sleep(wait)];
      last := intervals[i];
      var line := EntryLine(entries[i], true, lib);
      if line.None? {
        return Playback(actions, Raised);
      }
      actions := actions + [Say(line.value)];
      i := i + 1;
    }
    return Playback(actions, Finished);
  }

  /** The fixed-delay loop: print, then pause for `max(0.05, 0.5 / speed)`. */
  method ReplayFixed(entries: seq<Json>, speed: real, lib: Lib) returns (pb: Playback)
    ensures pb == FixedFrom(entries, speed, lib)
  {
    var actions: seq<Action> := [];
    var i := 0;
    while i < |entries|
      invariant 0 <= i <= |entries|
      invariant Prepend(actions, FixedFrom(entries[i..], speed, lib)) == FixedFrom(entries, speed, lib)
    {
      assert entries[i..][1..] == entries[i + 1..];
      var line := EntryLine(entries[i], false, lib);
      if line.None? {
        return Playback(actions, Raised);
      }
      actions := actions + [Say(line.value)];
      if speed == 0.0 {
        return Playback(actions, Raised);
      }
      actions := actions + [Sleep(FixedWait(speed))];
      i := i + 1;
    }
    return Playback(actions, Finished);
  }

  /** `replay_transcript`: pick the transcript and the mode, then run the matching loop. */
  method ReplayTranscript(sess: Json, speed: real, keepTimestamps: bool, lib: Lib, seconds: Clock)
    returns (pb: Playback)
    ensures pb == ReplaySpec(sess, speed, keepTimestamps, lib, seconds)
  {
    var selected := SelectTranscript(sess);
    if selected.None? {
      return Playback([], Raised);
    }
    var t := selected.value;
    if !Truthy(t) {
      return Playback([Say(NoTranscript)], Finished);
    }
    if !t.JArr? {
      return Playback([], Raised);
    }
    var entries := t.items;
    var timed := false;
    if keepTimestamps {
      var all := AllHaveTs(entries);
      if all.None? {
        return Playback([], Raised);
      }
      timed := all.value;
    }
    if timed {
      var times := Times(entries, seconds);
      if times.None? {
        return Playback([], Raised);
      }
      pb := ReplayTimed(entries, Intervals(times.value), speed, lib);
    } else {
      pb := ReplayFixed(entries, speed, lib);
    }
  }

  /* ---------------------------------------------------------------------
   * What a replay looks like
   * ------------------------------------------------------------------- */

  /** The waits of timestamp mode, from a previous interval `last` on. */
  function Waits(intervals: seq<real>, last: real, speed: real): (waits: seq<real>)
    requires speed != 0.0
    ensures |waits| == |intervals|
  {
    if intervals == [] then []
    else [AtLeastZero((intervals[0] - last) / speed)] + Waits(intervals[1..], intervals[0], speed)
  }

  function Sum(xs: seq<real>): real {
    if xs == [] then 0.0 else xs[0] + Sum(xs[1..])
  }

  /** Sleep then print, entry after entry. */
  function SleepThenSay(waits: seq<real>, lines: seq<string>): seq<Action>
    requires |waits| == |lines|
  {
    if waits == [] then [] else [Sleep(waits[0]), Say(lines[0])] + SleepThenSay(waits[1..], lines[1..])
  }

  /** Print then sleep, entry after entry. */
  function SayThenSleep(lines: seq<string>, wait: real): seq<Action> {
    if lines == [] then [] else [Say(lines[0]), Sleep(wait)] + SayThenSleep(lines[1..], wait)
  }

  /** The lines of entries that all have one. */
  function Lines(entries: seq<Json>, timed: bool, lib: Lib): seq<string>
    requires forall k :: 0 <= k < |entries| ==> EntryLine(entries[k], timed, lib).Some?
  {
    seq(|entries|, k requires 0 <= k < |entries| => EntryLine(entries[k], timed, lib).value)
  }

  /** Timestamp mode runs to the end exactly when the speed is not zero (or there is
      nothing to replay) and every entry has a line; it then sleeps the waits and prints
      the lines, one per entry, in order. */
  lemma {:induction false} TimedShape(entries: seq<Json>, intervals: seq<real>, last: real, speed: real, lib: Lib)
    requires |entries| == |intervals|
    ensures var pb := TimedFrom(entries, intervals, last, speed, lib);
      pb.outcome == Finished <==>
        (entries == [] || speed != 0.0) && forall k :: 0 <= k < |entries| ==> EntryLine(entries[k], true, lib).Some?
    ensures var pb := TimedFrom(entries, intervals, last, speed, lib);
      pb.outcome == Finished && speed != 0.0 ==>
        pb.actions == SleepThenSay(Waits(intervals, last, speed), Lines(entries, true, lib))
  {
    if entries != [] && speed != 0.0 {
      TimedShape(entries[1..], intervals[1..], intervals[0], speed, lib);
      if EntryLine(entries[0], true, lib).Some? {
        assert forall k :: 1 <= k < |entries| ==> entries[k] == entries[1..][k - 1];
        if forall k :: 0 <= k < |entries| ==> EntryLine(entries[k], true, lib).Some? {
          assert Lines(entries, true, lib)[1..] == Lines(entries[1..], true, lib);
        }
      }
    }
  }

  /** Fixed-delay mode runs to the end exactly when every entry has a line and the speed
      is not zero (or there is nothing to replay); it then prints each line followed by
      the same pause. */
  lemma {:induction false} FixedShape(entries: seq<Json>, speed: real, lib: Lib)
    ensures var pb := FixedFrom(entries, speed, lib);
      pb.outcome == Finished <==>
        (entries == [] || speed != 0.0) && forall k :: 0 <= k < |entries| ==> EntryLine(entries[k], false, lib).Some?
    ensures var pb := FixedFrom(entries, speed, lib);
      pb.outcome == Finished && speed != 0.0 ==>
        pb.actions == SayThenSleep(Lines(entries, false, lib), FixedWait(speed))
  {
    if entries != [] {
      FixedShape(entries[1..], speed, lib);
      if EntryLine(entries[0], false, lib).Some? {
        assert forall k :: 1 <= k < |entries| ==> entries[k] == entries[1..][k - 1];
        if forall k :: 0 <= k < |entries| ==> EntryLine(entries[k], false, lib).Some? {
          assert Lines(entries, false, lib)[1..] == Lines(entries[1..], false, lib);
        }
      }
    }
  }

  /** Every wait of timestamp mode is non-negative, even when timestamps go backwards. */
  lemma {:induction false} WaitsNonNegative(intervals: seq<real>, last: real, speed: real)
    requires speed != 0.0
    ensures forall k :: 0 <= k < |intervals| ==> Waits(intervals, last, speed)[k] >= 0.0
  {
    if intervals != [] {
      WaitsNonNegative(intervals[1..], intervals[0], speed);
      var w := Waits(intervals, last, speed);
      assert forall k :: 1 <= k < |intervals| ==> w[k] == Waits(intervals[1..], intervals[0], speed)[k - 1];
    }
  }

  /** Each wait is the scaled gap to the previous interval (to `last` for the first),
      never below zero. */
  lemma {:induction false} WaitsClosedForm(intervals: seq<real>, last: real, speed: real)
    requires speed != 0.0
    ensures forall k :: 0 <= k < |intervals| ==>
      Waits(intervals, last, speed)[k] == AtLeastZero((intervals[k] - (if k == 0 then last else intervals[k - 1])) / speed)
  {
    if intervals != [] {
      WaitsClosedForm(intervals[1..], intervals[0], speed);
      var w := Waits(intervals, last, speed);
      assert forall k :: 1 <= k < |intervals| ==> w[k] == Waits(intervals[1..], intervals[0], speed)[k - 1];
    }
  }

  /** In timestamp mode the first wait is zero and every later one is the scaled gap
      between consecutive timestamps, or zero when they go backwards. */
  lemma TimedWaits(times: seq<real>, speed: real)
    requires times != [] && speed != 0.0
    ensures Waits(Intervals(times), 0.0, speed)[0] == 0.0
    ensures forall k :: 1 <= k < |times| ==>
      Waits(Intervals(times), 0.0, speed)[k] == AtLeastZero((times[k] - times[k - 1]) / speed)
  {
    var intervals := Intervals(times);
    WaitsClosedForm(intervals, 0.0, speed);
    assert forall k :: 1 <= k < |times| ==> intervals[k] - intervals[k - 1] == times[k] - times[k - 1];
  }

  /** Timestamps that never go backwards. */
  predicate NonDecreasing(xs: seq<real>) {
    forall j, k :: 0 <= j < k < |xs| ==> xs[j] <= xs[k]
  }

  lemma ScaledGaps(a: real, b: real, c: real, speed: real)
    requires speed > 0.0
    ensures (b - a) / speed + (c - b) / speed == (c - a) / speed
  {
    assert (b - a) / speed + (c - b) / speed == ((b - a) + (c - b)) / speed;
  }

  /** With timestamps that never go backwards and a positive speed, the waits add up
      to the recorded span divided by the speed. */
  lemma {:induction false} WaitsTelescope(intervals: seq<real>, last: real, speed: real)
    requires speed > 0.0 && intervals != []
    requires NonDecreasing(intervals) && last <= intervals[0]
    ensures Sum(Waits(intervals, last, speed)) == (intervals[|intervals| - 1] - last) / speed
  {
    var first := (intervals[0] - last) / speed;
    assert AtLeastZero(first) == first;
    if |intervals| > 1 {
      var rest := intervals[1..];
      assert NonDecreasing(rest) && intervals[0] <= rest[0];
      WaitsTelescope(rest, intervals[0], speed);
      ScaledGaps(last, intervals[0], rest[|rest| - 1], speed);
    }
  }

  /** In timestamp mode the whole replay lasts `(t_last - t_first) / speed`. */
  lemma TimedReplayDuration(entries: seq<Json>, times: seq<real>, speed: real, lib: Lib)
    requires |entries| == |times| && times != [] && speed > 0.0
    requires NonDecreasing(times)
    requires forall k :: 0 <= k < |entries| ==> EntryLine(entries[k], true, lib).Some?
    ensures TimedFrom(entries, Intervals(times), 0.0, speed, lib).outcome == Finished
    ensures TimedFrom(entries, Intervals(times), 0.0, speed, lib).actions
         == SleepThenSay(Waits(Intervals(times), 0.0, speed), Lines(entries, true, lib))
    ensures Sum(Waits(Intervals(times), 0.0, speed)) == (times[|times| - 1] - times[0]) / speed
  {
    var intervals := Intervals(times);
    TimedShape(entries, intervals, 0.0, speed, lib);
    assert NonDecreasing(intervals);
    WaitsTelescope(intervals, 0.0, speed);
  }

  /** Recorded at 0 s, 2 s and 5 s and replayed at double speed: 2.5 s of waiting. */
  lemma DoubleSpeedExample()
    ensures Sum(Waits([0.0, 2.0, 5.0], 0.0, 2.0)) == 2.5
  {
    assert NonDecreasing([0.0, 2.0, 5.0]);
    WaitsTelescope([0.0, 2.0, 5.0], 0.0, 2.0);
  }

  /** A zero speed raises: in timestamp mode before anything is printed, in
      fixed-delay mode right after the first line. */
  lemma ZeroSpeedRaises(entries: seq<Json>, intervals: seq<real>, lib: Lib)
    requires entries != [] && |entries| == |intervals|
    ensures TimedFrom(entries, intervals, 0.0, 0.0, lib) == Playback([], Raised)
    ensures FixedFrom(entries, 0.0, lib).outcome == Raised
    ensures |FixedFrom(entries, 0.0, lib).actions| <= 1
  {
  }

  /** An empty transcript prints the notice and nothing else. */
  lemma EmptyTranscriptNotice(sess: Json, speed: real, keepTimestamps: bool, lib: Lib, seconds: Clock)
    requires SelectTranscript(sess).Some? && !Truthy(SelectTranscript(sess).value)
    ensures ReplaySpec(sess, speed, keepTimestamps, lib, seconds) == Playback([Say(NoTranscript)], Finished)
  {
  }

  /** Timestamp mode is used only when asked for and every entry has a `ts`. */
  lemma TimedOnlyWithAllTs(sess: Json, speed: real, keepTimestamps: bool, lib: Lib, seconds: Clock)
    requires SelectTranscript(sess).Some? && SelectTranscript(sess).value.JArr?
    requires Truthy(SelectTranscript(sess).value)
    requires !keepTimestamps || AllHaveTs(SelectTranscript(sess).value.items) == Some(false)
    ensures ReplaySpec(sess, speed, keepTimestamps, lib, seconds)
         == FixedFrom(SelectTranscript(sess).value.items, speed, lib)
  {
  }

  /** Timestamp mode is used when asked for and every entry's `ts` parses. */
  lemma TimedWithParsedTs(sess: Json, speed: real, lib: Lib, seconds: Clock, times: seq<real>)
    requires SelectTranscript(sess).Some? && SelectTranscript(sess).value.JArr?
    requires Truthy(SelectTranscript(sess).value)
    requires AllHaveTs(SelectTranscript(sess).value.items) == Some(true)
    requires Times(SelectTranscript(sess).value.items, seconds) == Some(times)
    ensures ReplaySpec(sess, speed, true, lib, seconds)
         == TimedFrom(SelectTranscript(sess).value.items, Intervals(times), 0.0, speed, lib)
  {
  }

  /** The transcript nested under `data` is preferred to a top-level one. */
  lemma NestedTranscriptFirst(sess: Json)
    requires sess.JObj? && "data" in sess.fields && sess.fields["data"].JObj?
    requires "transcript" in sess.fields["data"].fields && Truthy(sess.fields["data"].fields["transcript"])
    ensures SelectTranscript(sess) == Some(sess.fields["data"].fields["transcript"])
  {
  }

  /** Fixed-delay pauses are never shorter than 0.05 s. */
  lemma FixedPausesAtLeast(entries: seq<Json>, speed: real, lib: Lib)
    ensures forall k :: 0 <= k < |FixedFrom(entries, speed, lib).actions| ==>
      FixedFrom(entries, speed, lib).actions[k].Sleep? ==> FixedFrom(entries, speed, lib).actions[k].seconds >= 0.05
    decreases |entries|
  {
    if entries != [] {
      FixedPausesAtLeast(entries[1..], speed, lib);
    }
  }
}
