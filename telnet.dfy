/**
 * One telnet connection to the fake router: banner, two login attempts (the
 * first always refused, the second always accepted), then the fake shell until
 * the peer leaves, logs out or the connection fails. Whatever happens, the
 * session is handed to the store as exactly one record.
 *
 * The peer is the finite sequence of what `reader.readline()` returns; the
 * clock is a function from the number of earlier clock readings to an ISO
 * time string.
 */
module Telnet {
  import opened Wrappers
  import opened Text
  import opened Json
  import opened TelnetCommands
  import Logger

  const Service := "virtual-iot-telnet"
  const TelnetPath := "/telnet"
  const SessionMethod := "SESSION"
  const UnknownPeer := "unknown"

  const Banner := "RouterOS v1.0 (simulated)\r\nlogin: "
  const PasswordPrompt := "Password: "
  const Redacted := "<password>"
  const LoginIncorrect := "Login incorrect"
  const Welcome := "Welcome to RouterOS CLI"
  const LogoutText := "Logout\r\n"
  /** What the transcript keeps of the logout text: `resp.strip()`. */
  const LogoutEvent := "Logout"
  const ErrorPrefix := "ERROR: "

  /** What one `readline()` hands back: a decoded line (terminator included),
      end of input, an error the connection raises (an `Exception`), or the
      `asyncio.CancelledError` raised when the handler's task is cancelled, which
      is not an `Exception`. */
  datatype Read = Line(text: string) | Eof | Fault(reason: string) | Cancelled

  /** `if not data`: end of input, which an empty read also means. */
  predicate EndsInput(r: Read) {
    r.Eof? || (r.Line? && r.text == "")
  }

  /** A read that ends the session: end of input, or anything raised. */
  predicate Stops(r: Read) {
    r.Fault? || r.Cancelled? || EndsInput(r)
  }

  /** The `i`-th read; a peer that has sent everything only signals end of input. */
  function ReadAt(peer: seq<Read>, i: nat): Read {
    if i < |peer| then peer[i] else Eof
  }

  datatype Dir = In | Out

  function DirName(d: Dir): string {
    match d
    case In => "in"
    case Out => "out"
  }

  /** A transcript event before it is stamped with the clock. */
  datatype Step = Step(dir: Dir, text: string)

  /** How a session ended. `Interrupted`: the handler was cancelled; the record is still
      logged, and the cancellation then propagates out of the handler. */
  datatype Ending = PeerClosed | LoggedOut | Failed(reason: string) | Interrupted

  /** Everything a session decides: its events in order, the username field
      and how it ended. */
  datatype Dialogue = Dialogue(steps: seq<Step>, username: Option<string>, ending: Ending)

  /** What one of the four login reads (numbered 0 to 3) records: the inbound
      text, then the prompt or verdict that follows it. */
  function LoginExchange(phase: nat, line: string): (pair: seq<Step>)
    requires phase < 4
    ensures |pair| == 2 && pair[0].dir == In && pair[1].dir == Out
    ensures pair[0].text == (if phase == 0 || phase == 2 then Strip(line) else Redacted)
  {
    if phase == 0 || phase == 2 then [Step(In, Strip(line)), Step(Out, PasswordPrompt)]
    else if phase == 1 then [Step(In, Redacted), Step(Out, LoginIncorrect)]
    else [Step(In, Redacted), Step(Out, Welcome)]
  }

  /** A read that stops the session: an error caught by `except Exception` adds its marker
      event; end of input and a cancellation, which that clause does not catch, add nothing. */
  function Stop(r: Read, steps: seq<Step>, username: Option<string>): Dialogue
    requires Stops(r)
  {
    if r.Fault? then Dialogue(steps + [Step(Out, ErrorPrefix + r.reason)], username, Failed(r.reason))
    else if r.Cancelled? then Dialogue(steps, username, Interrupted)
    else Dialogue(steps, username, PeerClosed)
  }

  /** Where the login ritual leaves the session: stopped, or in the shell with these events
      and this username. */
  datatype LoginOutcome = Halted(dialogue: Dialogue) | LoggedIn(steps: seq<Step>, username: Option<string>)

  /** The login ritual from read `i` on (`i` <= 4). */
  function Login(peer: seq<Read>, i: nat, steps: seq<Step>, username: Option<string>): LoginOutcome
    requires i <= 4
    decreases 4 - i
  {
    if i == 4 then LoggedIn(steps, username)
    else
      var r := ReadAt(peer, i);
      if Stops(r) then Halted(Stop(r, steps, username))
      else
        Login(peer, i + 1, steps + LoginExchange(i, r.text),
              if i == 0 || i == 2 then Some(Strip(r.text)) else username)
  }

  /** The shell loop from read `i` on. */
  function Shell(peer: seq<Read>, i: nat, steps: seq<Step>, username: Option<string>): Dialogue
    decreases |peer| - i
  {
    var r := ReadAt(peer, i);
    if Stops(r) then Stop(r, steps, username)
    else
      var cmd := RStripCrLf(r.text);
      match Respond(cmd)
      case Logout => Dialogue(steps + [Step(In, cmd), Step(Out, LogoutEvent)], username, LoggedOut)
      case Reply(resp) => Shell(peer, i + 1, steps + [Step(In, cmd), Step(Out, resp)], username)
  }

  /** One login read that neither ends the input nor fails moves the ritual on by one exchange. */
  lemma LoginAdvances(peer: seq<Read>, i: nat, steps: seq<Step>, username: Option<string>)
    requires i < 4
    requires !Stops(ReadAt(peer, i))
    ensures Login(peer, i, steps, username)
         == Login(peer, i + 1, steps + LoginExchange(i, ReadAt(peer, i).text),
                  if i == 0 || i == 2 then Some(Strip(ReadAt(peer, i).text)) else username)
  {
  }

  /** A shell command that gets a reply records the command and the reply, then reads on. */
  lemma ShellReplies(peer: seq<Read>, i: nat, steps: seq<Step>, username: Option<string>, cmd: string, resp: string)
    requires !Stops(ReadAt(peer, i))
    requires cmd == RStripCrLf(ReadAt(peer, i).text) && Respond(cmd) == Reply(resp)
    ensures Shell(peer, i, steps, username) == Shell(peer, i + 1, steps + [Step(In, cmd), Step(Out, resp)], username)
  {
  }

  /** A logout command records the command and "Logout", and ends the session. */
  lemma ShellLogsOut(peer: seq<Read>, i: nat, steps: seq<Step>, username: Option<string>, cmd: string)
    requires !Stops(ReadAt(peer, i))
    requires cmd == RStripCrLf(ReadAt(peer, i).text) && Respond(cmd) == Logout
    ensures Shell(peer, i, steps, username)
         == Dialogue(steps + [Step(In, cmd), Step(Out, LogoutEvent)], username, LoggedOut)
  {
  }

  lemma LogoutEventIsStripped()
    ensures Strip(LogoutText) == LogoutEvent
  {
    var t, u := LogoutText, LogoutText[..7];
    assert TrimLeft(t) == t;
    assert t[|t| - 1] == '\n' && u == "Logout\r" && u[|u| - 1] == '\r';
    assert TrimRight(t) == TrimRight(u);
    assert u[..6] == LogoutEvent;
    assert TrimRight(u) == TrimRight(LogoutEvent);
  }

  /** The whole session with this peer. */
  function Converse(peer: seq<Read>): Dialogue {
    match Login(peer, 0, [Step(Out, Banner)], None)
    case Halted(d) => d
    case LoggedIn(steps, username) => Shell(peer, 4, steps, username)
  }

  /** One transcript event as the dict `add` appends. */
  function EventJson(ts: string, dir: Dir, text: string): (j: Json)
    ensures j.JObj? && j.fields.Keys == {"ts", "dir", "text"}
    ensures j.fields["ts"] == JStr(ts) && j.fields["dir"] == JStr(DirName(dir)) && j.fields["text"] == JStr(text)
  {
    JObj(map["ts" := JStr(ts), "dir" := JStr(DirName(dir)), "text" := JStr(text)])
  }

  /** The events as the transcript holds them: the `k`-th is stamped with clock reading `k + 1`
      (reading 0 is the session start). Reading an event's fields back gives its step's
      direction name and text, and that clock reading. */
  function Stamped(steps: seq<Step>, clock: nat -> string): (events: seq<Json>)
    ensures |events| == |steps|
    ensures forall k :: 0 <= k < |events| ==>
      && events[k].JObj? && events[k].fields.Keys == {"ts", "dir", "text"}
      && events[k].fields["dir"] == JStr(DirName(steps[k].dir))
      && events[k].fields["text"] == JStr(steps[k].text)
      && events[k].fields["ts"] == JStr(clock(k + 1) + "Z")
  {
    seq(|steps|, k requires 0 <= k < |steps| => EventJson(clock(k + 1) + "Z", steps[k].dir, steps[k].text))
  }

  /** `peer[0] if peer else "unknown"` */
  function SourceIp(peername: Option<string>): string {
    if peername.Some? then peername.value else UnknownPeer
  }

  /** `username or ""` */
  function UsernameField(username: Option<string>): string {
    if username.Some? then username.value else ""
  }

  /** `session_data` */
  function SessionData(start: string, username: Option<string>, events: seq<Json>): (j: Json)
    ensures j.JObj? && j.fields.Keys == {"session_start", "username", "transcript"}
    ensures j.fields["session_start"] == JStr(start)
    ensures j.fields["transcript"] == JArr(events)
    ensures j.fields["username"] == JStr(UsernameField(username))
  {
    JObj(map["session_start" := JStr(start),
             "username" := JStr(UsernameField(username)),
             "transcript" := JArr(events)])
  }

  /** The record a finished session hands to the store: stamped with the clock reading
      after every event, its session start with the first reading. */
  function SessionRecord(peername: Option<string>, clock: nat -> string, d: Dialogue): (r: Logger.LogRecord)
    ensures r.service == Service && r.path == TelnetPath && r.httpMethod == SessionMethod
    ensures r.srcIp == SourceIp(peername)
    ensures r.time == clock(|d.steps| + 1) + "Z"
    ensures r.data.JObj? && r.data.fields.Keys == {"session_start", "username", "transcript"}
    ensures r.data.fields["session_start"] == JStr(clock(0) + "Z")
    ensures r.data.fields["username"] == JStr(UsernameField(d.username))
    ensures r.data.fields["transcript"] == JArr(Stamped(d.steps, clock))
  {
    Logger.LogRecord(clock(|d.steps| + 1) + "Z", SourceIp(peername), Service, TelnetPath, SessionMethod,
                     SessionData(clock(0) + "Z", d.username, Stamped(d.steps, clock)))
  }

  /** The session's transcript list together with the `add` helper that stamps and appends. */
  class Transcript {
    const clock: nat -> string
    /** The dicts `add` has appended, in order. */
    var events: seq<Json>
    /** The same events before stamping. */
    ghost var steps: seq<Step>

    ghost predicate Valid()
      reads this
    {
      events == Stamped(steps, clock)
    }

    constructor (clock: nat -> string)
      ensures this.clock == clock && steps == [] && Valid()
    {
      this.clock := clock;
      events := [];
      steps := [];
    }

    /** `add(dir_, text)`: appends one event stamped with the next clock reading. */
    method Add(dir: Dir, text: string)
      requires Valid()
      modifies this
      ensures events == old(events) + [EventJson(clock(|old(events)| + 1) + "Z", dir, text)]
      ensures steps == old(steps) + [Step(dir, text)]
      ensures Valid()
    {
      events := events + [EventJson(clock(|events| + 1) + "Z", dir, text)];
      steps := steps + [Step(dir, text)];
    }
  }

  /** The two events of login read `i`: what came in (or its redaction) and what was sent back. */
  method RecordExchange(i: nat, line: string, transcript: Transcript)
    requires i < 4 && transcript.Valid()
    modifies transcript
    ensures transcript.Valid()
    ensures transcript.steps == old(transcript.steps) + LoginExchange(i, line)
  {
    ghost var before := transcript.steps;
    if i == 0 || i == 2 {
      transcript.Add(In, Strip(line));
      transcript.Add(Out, PasswordPrompt);
      assert transcript.steps == before + [Step(In, Strip(line)), Step(Out, PasswordPrompt)];
    } else {
      var verdict := if i == 1 then LoginIncorrect else Welcome;
      transcript.Add(In, Redacted);
      transcript.Add(Out, verdict);
      assert transcript.steps == before + [Step(In, Redacted), Step(Out, verdict)];
    }
  }

  /**
   * One of the four login reads (numbered 0 to 3) of the `try` body: a read
   * that ends the input, fails or is cancelled stops the session; otherwise the
   * inbound text (the stripped username, or the redaction marker for a password)
   * and the prompt or verdict that follows are appended, and a username read
   * replaces the username.
   */
  method LoginRead(peer: seq<Read>, i: nat, transcript: Transcript, username: Option<string>)
    returns (stop: bool, failure: Option<string>, cancelled: bool, next: Option<string>)
    requires i < 4 && transcript.Valid()
    modifies transcript
    ensures transcript.Valid()
    ensures stop <==> Stops(ReadAt(peer, i))
    ensures cancelled <==> ReadAt(peer, i).Cancelled?
    ensures stop ==> transcript.steps == old(transcript.steps) && next == username
    ensures stop ==> failure == (if ReadAt(peer, i).Fault? then Some(ReadAt(peer, i).reason) else None)
    ensures stop ==> Login(peer, i, transcript.steps, username) == Halted(Stop(ReadAt(peer, i), transcript.steps, username))
    ensures !stop ==> failure == None
    ensures !stop ==> Login(peer, i, old(transcript.steps), username) == Login(peer, i + 1, transcript.steps, next)
  {
    var data := ReadAt(peer, i);
    if Stops(data) {
      return true, if data.Fault? then Some(data.reason) else None, data.Cancelled?, username;
    }
    ghost var before := transcript.steps;
    LoginAdvances(peer, i, before, username);
    RecordExchange(i, data.text, transcript);
    next := if i == 0 || i == 2 then Some(Strip(data.text)) else username;
    return false, None, false, next;
  }

  /** One shell command: record it, then the shell's answer, and say whether it was a logout. */
  method Answer(cmd: string, transcript: Transcript) returns (logout: bool)
    requires transcript.Valid()
    modifies transcript
    ensures transcript.Valid()
    ensures logout <==> Respond(cmd) == Logout
    ensures transcript.steps
         == old(transcript.steps) + [Step(In, cmd), Step(Out, if logout then LogoutEvent else Respond(cmd).text)]
  {
    transcript.Add(In, cmd);
    var response := Respond(cmd);
    if response.Logout? {
      LogoutEventIsStripped();
      transcript.Add(Out, Strip(LogoutText));
      return true;
    }
    transcript.Add(Out, response.text);
    return false;
  }

  /**
   * One turn of the shell loop: a read that ends the input, fails or is
   * cancelled stops the session; otherwise the command (its line terminator
   * removed) is appended, then either "Logout", which also stops the session,
   * or the table's reply.
   */
  method ShellRead(peer: seq<Read>, i: nat, transcript: Transcript, username: Option<string>)
    returns (stop: bool, failure: Option<string>, cancelled: bool)
    requires transcript.Valid()
    modifies transcript
    ensures transcript.Valid()
    ensures cancelled <==> ReadAt(peer, i).Cancelled?
    ensures stop ==> (cancelled <==> Shell(peer, i, old(transcript.steps), username).ending == Interrupted)
    ensures failure.Some? ==> stop && ReadAt(peer, i) == Fault(failure.value)
    ensures failure.Some? ==> transcript.steps == old(transcript.steps)
    ensures stop && failure.None? ==>
      var d := Shell(peer, i, old(transcript.steps), username);
      d == Dialogue(transcript.steps, username, d.ending)
    ensures !stop ==> i < |peer|
    ensures !stop ==> Shell(peer, i, old(transcript.steps), username) == Shell(peer, i + 1, transcript.steps, username)
  {
    var data := ReadAt(peer, i);
    if Stops(data) {
      return true, if data.Fault? then Some(data.reason) else None, data.Cancelled?;
    }
    ghost var before := transcript.steps;
    var cmd := RStripCrLf(data.text);
    var logout := Answer(cmd, transcript);
    if logout {
      ShellLogsOut(peer, i, before, username, cmd);
      return true, None, false;
    }
    ShellReplies(peer, i, before, username, cmd, Respond(cmd).text);
    return false, None, false;
  }

  /**
   * The `try` body of `handle_client`: the ritual and the shell, appending to
   * the transcript as it goes. It returns where the handler returns or leaves
   * its loop; an error raised by a read is handed back as `failure`, and a
   * cancellation as `cancelled`, instead of propagating.
   */
  method RunSession(peer: seq<Read>, transcript: Transcript)
    returns (username: Option<string>, failure: Option<string>, cancelled: bool)
    requires transcript.steps == [] && transcript.Valid()
    modifies transcript
    ensures transcript.Valid()
    ensures cancelled <==> Converse(peer).ending == Interrupted
    ensures failure.None? ==> Converse(peer) == Dialogue(transcript.steps, username, Converse(peer).ending)
    ensures failure.Some? ==>
      Converse(peer) == Dialogue(transcript.steps + [Step(Out, ErrorPrefix + failure.value)], username, Failed(failure.value))
  {
    username := None;
    transcript.Add(Out, Banner);
    assert transcript.steps == [Step(Out, Banner)];

    // first attempt: username, then a password that is always refused;
    // second attempt: username, then a password that is always accepted
    var stop;
    stop, failure, cancelled, username := LoginRead(peer, 0, transcript, username);
    if stop { return; }
    stop, failure, cancelled, username := LoginRead(peer, 1, transcript, username);
    if stop { return; }
    stop, failure, cancelled, username := LoginRead(peer, 2, transcript, username);
    if stop { return; }
    stop, failure, cancelled, username := LoginRead(peer, 3, transcript, username);
    if stop { return; }

    // the shell, until end of input, logout, an error or a cancellation
    var pos := 4;
    while true
      invariant 4 <= pos
      invariant transcript.Valid()
      invariant Shell(peer, pos, transcript.steps, username) == Converse(peer)
      decreases |peer| - pos
    {
      var stop;
      stop, failure, cancelled := ShellRead(peer, pos, transcript, username);
      if stop {
        return;
      }
      pos := pos + 1;
    }
  }

  /**
   * The `try` and `except` clauses of `handle_client`: the session, then the
   * error marker when a read raised an `Exception`. A cancellation passes
   * through `except Exception` and is reported as `cancelled`.
   */
  method RunAndCatch(peer: seq<Read>, transcript: Transcript) returns (username: Option<string>, cancelled: bool)
    requires transcript.steps == [] && transcript.Valid()
    modifies transcript
    ensures transcript.Valid()
    ensures transcript.steps == Converse(peer).steps && username == Converse(peer).username
    ensures cancelled <==> Converse(peer).ending == Interrupted
  {
    var failure;
    username, failure, cancelled := RunSession(peer, transcript);
    if failure.Some? {
      transcript.Add(Out, ErrorPrefix + failure.value);
    }
  }

  /**
   * `handle_client`: runs the session against `peer`, then, on every exit
   * path (end of input during login, logout, end of input in the shell, an
   * error, a cancellation), appends exactly one session record to the store.
   * `raised` says that the cancellation propagates out of the handler once
   * the record is written.
   */
  method HandleClient(peer: seq<Read>, peername: Option<string>, clock: nat -> string,
                      store: Logger.SessionStore) returns (raised: bool)
    modifies store
    ensures store.records == old(store.records) + [Logger.Entry(SessionRecord(peername, clock, Converse(peer)))]
    ensures raised <==> Converse(peer).ending == Interrupted
  {
    var srcIp := SourceIp(peername);
    var sessionStart := clock(0) + "Z";
    var transcript := new Transcript(clock);
    var username, cancelled := RunAndCatch(peer, transcript);
    ghost var d := Converse(peer);
    assert transcript.events == Stamped(d.steps, clock);
    // finally: exactly one record for the session
    var data := SessionData(sessionStart, username, transcript.events);
    var now := clock(|transcript.events| + 1);
    assert Logger.LogRecord(now + "Z", srcIp, Service, TelnetPath, SessionMethod, data) == SessionRecord(peername, clock, d);
    var _ := store.LogRequest(now, srcIp, Service, TelnetPath, SessionMethod, data);
    raised := cancelled;
  }
}
