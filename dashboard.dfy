/**
 * The dashboard's view of the session log: loading the JSON-lines file,
 * turning one record into readable transcript text, and the tally of the
 * first word of every received message.
 */
module Dashboard {
  import opened Wrappers
  import opened Text
  import opened Json

  /* ---------------------------------------------------------------------
   * `extract_transcript`
   * ------------------------------------------------------------------- */

  const RecvTag := "\U{1F464}"   // bust in silhouette: the client speaking
  const SendTag := "\U{1F4BB}"   // personal computer: the device answering

  /** The direction hint in front of an event's message. */
  function DirTag(d: Json): (tag: string)
    ensures tag == RecvTag <==> d == JStr("recv")
    ensures tag == SendTag <==> d == JStr("send")
    ensures tag == "" <==> d != JStr("recv") && d != JStr("send")
  {
    if d == JStr("recv") then RecvTag else if d == JStr("send") then SendTag else ""
  }

  /** `a or b or ... or last`: the first truthy value, else the last one. */
  function FirstTruthy(vs: seq<Json>, last: Json): (v: Json)
    ensures forall k :: 0 <= k < |vs| && Truthy(vs[k]) && (forall j :: 0 <= j < k ==> !Truthy(vs[j])) ==> v == vs[k]
    ensures (forall k :: 0 <= k < |vs| ==> !Truthy(vs[k])) ==> v == last
  {
    if vs == [] then last
    else if Truthy(vs[0]) then vs[0]
    else FirstTruthy(vs[1..], last)
  }

  /** The message of an event: the first truthy of `data`, `payload`, `message`, else "". */
  function Message(fields: map<string, Json>): Json {
    FirstTruthy([Get(fields, "data"), Get(fields, "payload"), Get(fields, "message")], JStr(""))
  }

  /**
   * One line of the events branch. A dict event is rendered as an optional
   * `[time] ` prefix, the direction tag, a space and the stripped message;
   * anything else as `str(e)`. A message that is not a string has no
   * `strip` and raises: `None`.
   */
  function EventLine(e: Json, lib: Lib): (line: Option<string>)
    ensures !e.JObj? ==> line == Some(ToStr(e, lib))
    ensures e.JObj? ==> (line.None? <==> !Message(e.fields).JStr?)
  {
    if !e.JObj? then Some(ToStr(e, lib))
    else
      var t := GetOr(e.fields, "time", JStr(""));
      var d := GetOr(e.fields, "dir", JStr(""));
      var msg := Message(e.fields);
      if !msg.JStr? then None
      else
        var timePart := if Truthy(t) then "[" + ToStr(t, lib) + "] " else "";
        Some(timePart + DirTag(d) + " " + Strip(msg.s))
  }

  /** A dict event's line opens with a bracketed time exactly when its `time` is truthy,
      and always ends with a space and the stripped message. */
  lemma TimePrefixOnlyWhenTimed(e: Json, lib: Lib)
    requires e.JObj? && Message(e.fields).JStr?
    ensures var line := EventLine(e, lib).value;
      && (StartsWith(line, "[") <==> Truthy(GetOr(e.fields, "time", JStr(""))))
      && EndsWith(line, " " + Strip(Message(e.fields).s))
  {
    var line := EventLine(e, lib).value;
    var tag := DirTag(GetOr(e.fields, "dir", JStr("")));
    var tail := " " + Strip(Message(e.fields).s);
    if !Truthy(GetOr(e.fields, "time", JStr(""))) {
      assert line == tag + tail;
      assert tag == "" || tag[0] != '[';
      assert line[0] != '[';
    }
    assert line[|line| - |tail|..] == tail;
  }

  /** The `lines` list of the events branch: one line per event, in order, or
      `None` as soon as one event raises. */
  function EventLines(events: seq<Json>, lib: Lib): (lines: Option<seq<string>>)
    ensures lines.Some? <==> forall k :: 0 <= k < |events| ==> EventLine(events[k], lib).Some?
    ensures lines.Some? ==> |lines.value| == |events|
    ensures lines.Some? ==> forall k :: 0 <= k < |events| ==> EventLine(events[k], lib) == Some(lines.value[k])
  {
    if events == [] then Some([])
    else
      match (EventLine(events[0], lib), EventLines(events[1..], lib))
      case (Some(first), Some(rest)) =>
        assert forall k :: 1 <= k < |events| ==> events[k] == events[1..][k - 1];
        Some([first] + rest)
      case (None, _) => None
      case (_, None) =>
        assert forall k :: 0 <= k < |events| - 1 ==> events[1..][k] == events[k + 1];
        None
  }

  /** A value as the fallback and request branches show it: indented JSON for
      a dict or a list, `str(v)` otherwise. */
  function Render(v: Json, lib: Lib): string {
    if IsContainer(v) then lib.dumpsIndented(v) else ToStr(v, lib)
  }

  /** The request branch: `"method path"` stripped, then the body after a blank line when
      the body is truthy. */
  function RequestText(req: map<string, Json>, lib: Lib): (text: string)
    ensures var first := Strip(ToStr(GetOr(req, "method", JStr("")), lib) + " " + ToStr(GetOr(req, "path", JStr("")), lib));
      && StartsWith(text, first)
      && (text == first <==> !Truthy(Get(req, "body")))
      && (Truthy(Get(req, "body")) ==> text[|first|..] == "\n\n" + Render(Get(req, "body"), lib))
  {
    var first := Strip(ToStr(GetOr(req, "method", JStr("")), lib) + " " + ToStr(GetOr(req, "path", JStr("")), lib));
    var body := Get(req, "body");
    if Truthy(body) then
      var text := first + "\n\n" + Render(body, lib);
      assert text[|first|..] == "\n\n" + Render(body, lib);
      text
    else first
  }

  const FallbackOrder := ["payload", "body", "data"]

  /** `session.get(key)` is truthy. */
  predicate Hit(session: map<string, Json>, key: string) {
    key in session && Truthy(session[key])
  }

  /** The fallback: the first of the keys present with a truthy value, rendered; "" when none is. */
  function Fallback(session: map<string, Json>, keys: seq<string>, lib: Lib): (text: string)
    ensures (forall k :: 0 <= k < |keys| ==> !Hit(session, keys[k])) ==> text == ""
    ensures forall k :: 0 <= k < |keys| && Hit(session, keys[k]) && (forall j :: 0 <= j < k ==> !Hit(session, keys[j])) ==>
      text == Render(session[keys[k]], lib)
  {
    if keys == [] then ""
    else if Hit(session, keys[0]) then Render(session[keys[0]], lib)
    else Fallback(session, keys[1..], lib)
  }

  /** Which branch of `extract_transcript` a record takes. */
  datatype Branch = NotADict | TranscriptKey | EventsList | RequestDict | FallbackKeyed

  function BranchOf(session: Json): Branch {
    if !session.JObj? then NotADict
    else
      var f := session.fields;
      if "transcript" in f && Truthy(f["transcript"]) then TranscriptKey
      else if "events" in f && f["events"].JArr? then EventsList
      else if "request" in f && f["request"].JObj? then RequestDict
      else FallbackKeyed
  }

  /**
   * `extract_transcript(session)`: the first branch that applies wins. `None`
   * where Python raises, which only an event whose message is not a string
   * can cause.
   */
  function ExtractTranscript(session: Json, lib: Lib): (text: Option<string>)
    ensures text.None? ==> BranchOf(session) == EventsList
  {
    match BranchOf(session)
    case NotADict => Some("")
    case TranscriptKey =>
      var t := session.fields["transcript"];
      Some(if t.JStr? then t.s else lib.dumpsIndented(t))
    case EventsList =>
      (match EventLines(session.fields["events"].items, lib)
       case None => None
       case Some(lines) => Some(Strip(Join("\n", lines))))
    case RequestDict => Some(RequestText(session.fields["request"].fields, lib))
    case FallbackKeyed => Some(Fallback(session.fields, FallbackOrder, lib))
  }

  /** A value that is not a dict has no transcript. */
  lemma NonDictIsEmpty(session: Json, lib: Lib)
    requires !session.JObj?
    ensures ExtractTranscript(session, lib) == Some("")
  {
  }

  /** A dict that none of the branches recognises also yields "", and no error. */
  lemma NothingFoundIsEmpty(fields: map<string, Json>, lib: Lib)
    requires !("transcript" in fields && Truthy(fields["transcript"]))
    requires !("events" in fields && fields["events"].JArr?)
    requires !("request" in fields && fields["request"].JObj?)
    requires forall key :: key in FallbackOrder ==> !(key in fields && Truthy(fields[key]))
    ensures ExtractTranscript(JObj(fields), lib) == Some("")
  {
    assert forall k :: 0 <= k < |FallbackOrder| ==> FallbackOrder[k] in FallbackOrder;
  }

  /** A truthy string transcript comes back verbatim. */
  lemma StringTranscriptVerbatim(fields: map<string, Json>, s: string, lib: Lib)
    requires "transcript" in fields && fields["transcript"] == JStr(s) && s != ""
    ensures ExtractTranscript(JObj(fields), lib) == Some(s)
  {
  }

  /** A truthy transcript wins: no other key of the record changes the result. */
  lemma TranscriptWins(fields: map<string, Json>, key: string, v: Json, lib: Lib)
    requires "transcript" in fields && Truthy(fields["transcript"]) && key != "transcript"
    ensures ExtractTranscript(JObj(fields[key := v]), lib) == ExtractTranscript(JObj(fields), lib)
  {
  }

  /** Without a truthy transcript, an events list wins over `request` and the fallback keys. */
  lemma EventsWin(fields: map<string, Json>, key: string, v: Json, lib: Lib)
    requires !("transcript" in fields && Truthy(fields["transcript"]))
    requires "events" in fields && fields["events"].JArr?
    requires key != "transcript" && key != "events"
    ensures ExtractTranscript(JObj(fields[key := v]), lib) == ExtractTranscript(JObj(fields), lib)
  {
  }

  /** Without a transcript or an events list, a request dict wins over the fallback keys. */
  lemma RequestWins(fields: map<string, Json>, key: string, v: Json, lib: Lib)
    requires !("transcript" in fields && Truthy(fields["transcript"]))
    requires !("events" in fields && fields["events"].JArr?)
    requires "request" in fields && fields["request"].JObj?
    requires key != "transcript" && key != "events" && key != "request"
    ensures ExtractTranscript(JObj(fields[key := v]), lib) == ExtractTranscript(JObj(fields), lib)
  {
  }

  /** The events branch: exactly the event lines, in order, joined by line feeds and stripped. */
  lemma EventsJoined(fields: map<string, Json>, lib: Lib)
    requires BranchOf(JObj(fields)) == EventsList
    ensures var events := fields["events"].items;
      && (ExtractTranscript(JObj(fields), lib).None? <==> exists k :: 0 <= k < |events| && EventLine(events[k], lib).None?)
      && (ExtractTranscript(JObj(fields), lib).Some? ==>
            ExtractTranscript(JObj(fields), lib).value
              == Strip(Join("\n", seq(|events|, k requires 0 <= k < |events| => EventLine(events[k], lib).value))))
  {
    var events := fields["events"].items;
    var lines := EventLines(events, lib);
    if lines.Some? {
      assert lines.value == seq(|events|, k requires 0 <= k < |events| => EventLine(events[k], lib).value);
    }
  }

  /** A record whose only key is a string `body` yields exactly that string. */
  lemma StringBodyOnly(s: string, lib: Lib)
    requires s != ""
    ensures ExtractTranscript(JObj(map["body" := JStr(s)]), lib) == Some(s)
  {
    var f := map["body" := JStr(s)];
    assert "payload" !in f;
    assert Fallback(f, FallbackOrder, lib) == Fallback(f, FallbackOrder[1..], lib);
  }

  /** The fallback takes the first truthy of `payload`, `body`, `data`: a truthy `payload`
      shadows the other two. */
  lemma PayloadFirst(fields: map<string, Json>, lib: Lib)
    requires BranchOf(JObj(fields)) == FallbackKeyed
    requires "payload" in fields && Truthy(fields["payload"])
    ensures ExtractTranscript(JObj(fields), lib) == Some(Render(fields["payload"], lib))
  {
  }

  /* ---------------------------------------------------------------------
   * `load_jsonl`
   * ------------------------------------------------------------------- */

  /** What a line of the file contributes: nothing for a blank line, the value
      `json.loads` returns, or a warning where it raises. */
  datatype LineResult = Blank | Parsed(value: Json) | Malformed

  function ClassifyLine(line: string, lib: Lib): LineResult {
    var ln := Strip(line);
    if ln == "" then Blank
    else match lib.loads(ln)
      case Some(v) => Parsed(v)
      case None => Malformed
  }

  /** The sessions kept from these lines, in file order. */
  function Kept(lines: seq<string>, lib: Lib): seq<Json> {
    if lines == [] then []
    else
      var last := ClassifyLine(lines[|lines| - 1], lib);
      Kept(lines[..|lines| - 1], lib) + (if last.Parsed? then [last.value] else [])
  }

  /** How many lines were skipped as malformed. */
  function MalformedCount(lines: seq<string>, lib: Lib): nat {
    if lines == [] then 0
    else MalformedCount(lines[..|lines| - 1], lib) + (if ClassifyLine(lines[|lines| - 1], lib).Malformed? then 1 else 0)
  }

  /** How many lines are blank. */
  function BlankCount(lines: seq<string>, lib: Lib): nat {
    if lines == [] then 0
    else BlankCount(lines[..|lines| - 1], lib) + (if ClassifyLine(lines[|lines| - 1], lib).Blank? then 1 else 0)
  }

  /** Every line is either blank, kept or warned about, exactly once. */
  lemma {:induction false} EveryLineAccounted(lines: seq<string>, lib: Lib)
    ensures |Kept(lines, lib)| + MalformedCount(lines, lib) + BlankCount(lines, lib) == |lines|
  {
    if lines != [] {
      EveryLineAccounted(lines[..|lines| - 1], lib);
    }
  }

  /** Lines made only of parseable text are all kept, in order. */
  lemma {:induction false} AllParsedKept(lines: seq<string>, values: seq<Json>, lib: Lib)
    requires |lines| == |values|
    requires forall k :: 0 <= k < |lines| ==> ClassifyLine(lines[k], lib) == Parsed(values[k])
    ensures Kept(lines, lib) == values
  {
    if lines != [] {
      var n := |lines| - 1;
      AllParsedKept(lines[..n], values[..n], lib);
      assert values == values[..n] + [values[n]];
    }
  }

  /** Kept values come out of the lines in order: keeping is compatible with appending lines. */
  lemma {:induction false} KeptAppend(a: seq<string>, b: seq<string>, lib: Lib)
    ensures Kept(a + b, lib) == Kept(a, lib) + Kept(b, lib)
    decreases |b|
  {
    if b == [] {
      assert a + b == a;
    } else {
      var n := |b| - 1;
      assert (a + b)[..|a + b| - 1] == a + b[..n];
      assert (a + b)[|a + b| - 1] == b[n];
      KeptAppend(a, b[..n], lib);
    }
  }

  function Warning(fileName: string): string {
    "Skipped invalid JSON in " + fileName
  }

  /** `st.session_state`: the dashboard's per-user state, of which the loader
      only touches the `_warnings` list. */
  class SessionState {
    var warnings: seq<string>

    constructor ()
      ensures warnings == []
    {
      warnings := [];
    }
  }

  /** The message `st.error` shows for a missing file. */
  function FileNotFound(path: string): string {
    "File not found: " + path
  }

  /**
   * `load_jsonl(path)`: `file` is the file's decoded text, or `None` when it
   * does not exist; `fileName` is `path.name`. A missing file loads nothing,
   * adds no warning and shows the not-found error. Otherwise the text is read
   * with universal newlines, each blank line is skipped, each line `json.loads`
   * accepts is kept, and each other line adds one warning naming the file.
   */
  method LoadJsonl(file: Option<string>, path: string, fileName: string, lib: Lib, state: SessionState)
    returns (sessions: seq<Json>, error: Option<string>)
    modifies state
    ensures file.None? ==> sessions == [] && error == Some(FileNotFound(path)) && state.warnings == old(state.warnings)
    ensures file.Some? ==> error == None && sessions == Kept(SplitLines(UniversalNewlines(file.value)), lib)
    ensures file.Some? ==>
      state.warnings == old(state.warnings)
        + seq(MalformedCount(SplitLines(UniversalNewlines(file.value)), lib), _ => Warning(fileName))
  {
    sessions := [];
    if file.None? {
      error := Some(FileNotFound(path));
      return;
    }
    error := None;
    var lines := SplitLines(UniversalNewlines(file.value));
    var i := 0;
    while i < |lines|
      invariant 0 <= i <= |lines|
      invariant sessions == Kept(lines[..i], lib)
      invariant state.warnings == old(state.warnings) + seq(MalformedCount(lines[..i], lib), _ => Warning(fileName))
    {
      assert lines[..i + 1][..i] == lines[..i];
      var ln := Strip(lines[i]);
      if ln != "" {
        match lib.loads(ln)
        case Some(v) =>
          sessions := sessions + [v];
        case None =>
          state.warnings := state.warnings + [Warning(fileName)];
      }
      i := i + 1;
    }
    assert lines[..i] == lines;
  }

  /* ---------------------------------------------------------------------
   * The received-token tally
   * ------------------------------------------------------------------- */

  /** `isinstance(ev, dict) and ev.get("dir") == "recv"` */
  predicate Received(ev: Json) {
    ev.JObj? && Get(ev.fields, "dir") == JStr("recv")
  }

  /**
   * The token one event contributes: for a dict whose `dir` is "recv" and
   * whose stripped `data` (default "") is not empty, the first word of it.
   * A `data` that is not a string has no `strip` and raises: `None`.
   */
  function EventToken(ev: Json): (token: Option<seq<string>>)
    ensures token.Some? ==> |token.value| <= 1
    ensures token.None? <==> Received(ev) && !GetOr(ev.fields, "data", JStr("")).JStr?
    ensures token == Some([]) <==>
      !Received(ev) || (GetOr(ev.fields, "data", JStr("")).JStr? && Strip(GetOr(ev.fields, "data", JStr("")).s) == "")
  {
    if !Received(ev) then Some([])
    else
      var data := GetOr(ev.fields, "data", JStr(""));
      if !data.JStr? then None
      else
        var txt := Strip(data.s);
        if txt == "" then Some([])
        else Some([if |Words(txt)| > 0 then Words(txt)[0] else txt])
  }

  /** The events a session's `events` value yields when iterated: the items of a
      list; keys of a dict or characters of a string, which are never dicts;
      iterating anything else raises. */
  function Iterated(events: Json): (items: Option<seq<Json>>)
  {
    match events
    case JArr(items) => Some(items)
    case JObj(_) => Some([])
    case JStr(_) => Some([])
    case _ => None
  }

  /** The tokens of a list of events, in order. */
  function EventsTokens(events: seq<Json>): Option<seq<string>> {
    if events == [] then Some([])
    else
      match (EventsTokens(events[..|events| - 1]), EventToken(events[|events| - 1]))
      case (Some(a), Some(b)) => Some(a + b)
      case _ => None
  }

  /** The tokens one session contributes: none unless it is a dict with an `events` key. */
  function SessionTokens(s: Json): Option<seq<string>> {
    if !(s.JObj? && "events" in s.fields) then Some([])
    else
      match Iterated(s.fields["events"])
      case None => None
      case Some(items) => EventsTokens(items)
  }

  /** The `commands` list, or `None` where the loop raises (the panel then shows an error). */
  function Tokens(sessions: seq<Json>): Option<seq<string>> {
    if sessions == [] then Some([])
    else
      match (Tokens(sessions[..|sessions| - 1]), SessionTokens(sessions[|sessions| - 1]))
      case (Some(a), Some(b)) => Some(a + b)
      case _ => None
  }

  /** The inner loop over one session's events. */
  method CollectEvents(events: seq<Json>) returns (tokens: Option<seq<string>>)
    ensures tokens == EventsTokens(events)
  {
    var commands: seq<string> := [];
    var i := 0;
    while i < |events|
      invariant 0 <= i <= |events|
      invariant EventsTokens(events[..i]) == Some(commands)
    {
      assert events[..i + 1][..i] == events[..i];
      var token := EventToken(events[i]);
      if token.None? {
        EventsTokensStopAt(events, i);
        return None;
      }
      commands := commands + token.value;
      i := i + 1;
    }
    assert events[..i] == events;
    return Some(commands);
  }

  /** Once one event raises, the whole list does. */
  lemma {:induction false} EventsTokensStopAt(events: seq<Json>, i: nat)
    requires i < |events| && EventToken(events[i]).None?
    ensures EventsTokens(events) == None
    decreases |events|
  {
    var n := |events| - 1;
    if i < n {
      assert events[..n][i] == events[i];
      EventsTokensStopAt(events[..n], i);
    }
  }

  /** Once one session raises, the whole tally does. */
  lemma {:induction false} TokensStopAt(sessions: seq<Json>, i: nat)
    requires i < |sessions| && SessionTokens(sessions[i]).None?
    ensures Tokens(sessions) == None
    decreases |sessions|
  {
    var n := |sessions| - 1;
    if i < n {
      assert sessions[..n][i] == sessions[i];
      TokensStopAt(sessions[..n], i);
    }
  }

  /** Lines 183-189 of the dashboard: the tokens of every session, in order. */
  method ReceivedTokens(sessions: seq<Json>) returns (commands: Option<seq<string>>)
    ensures commands == Tokens(sessions)
  {
    var collected: seq<string> := [];
    var i := 0;
    while i < |sessions|
      invariant 0 <= i <= |sessions|
      invariant Tokens(sessions[..i]) == Some(collected)
    {
      assert sessions[..i + 1][..i] == sessions[..i];
      var s := sessions[i];
      if s.JObj? && "events" in s.fields {
        var items := Iterated(s.fields["events"]);
        if items.None? {
          TokensStopAt(sessions, i);
          return None;
        }
        var tokens := CollectEvents(items.value);
        if tokens.None? {
          TokensStopAt(sessions, i);
          return None;
        }
        assert SessionTokens(s) == tokens;
        collected := collected + tokens.value;
      } else {
        assert SessionTokens(s) == Some([]) && collected + [] == collected;
      }
      i := i + 1;
    }
    assert sessions[..i] == sessions;
    return Some(collected);
  }

  /** Every received event whose data is a string that is not blank contributes
      exactly one token: the first word of the stripped data. */
  lemma ReceivedDataCounted(ev: Json)
    requires Received(ev)
    requires GetOr(ev.fields, "data", JStr("")).JStr? && Strip(GetOr(ev.fields, "data", JStr("")).s) != ""
    ensures var txt := Strip(GetOr(ev.fields, "data", JStr("")).s);
      |Words(txt)| > 0 && EventToken(ev) == Some([Words(txt)[0]])
  {
    var txt := Strip(GetOr(ev.fields, "data", JStr("")).s);
    StripIdempotent(GetOr(ev.fields, "data", JStr("")).s);
    FirstWordOfStripped(txt);
  }

  /** A received event's token is the first word of its stripped data: not empty,
      free of whitespace, and where the stripped data starts. */
  lemma TokenIsFirstWord(ev: Json)
    requires EventToken(ev).Some? && EventToken(ev).value != []
    ensures Received(ev)
    ensures var data := GetOr(ev.fields, "data", JStr(""));
      && data.JStr? && Strip(data.s) != ""
      && var token := EventToken(ev).value[0];
         token != "" && NoSpace(token) && token <= Strip(data.s) && token == Words(Strip(data.s))[0]
  {
    var txt := Strip(GetOr(ev.fields, "data", JStr("")).s);
    StripIdempotent(GetOr(ev.fields, "data", JStr("")).s);
    FirstWordOfStripped(txt);
  }

  /** Events of a session without an `events` key, or of a session that is not a
      dict, contribute nothing. */
  lemma NoEventsNoTokens(sessions: seq<Json>, s: Json)
    requires !(s.JObj? && "events" in s.fields)
    ensures Tokens(sessions + [s]) == Tokens(sessions)
  {
    assert (sessions + [s])[..|sessions|] == sessions;
    if Tokens(sessions).Some? {
      assert Tokens(sessions).value + [] == Tokens(sessions).value;
    }
  }
}
