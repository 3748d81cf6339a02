/**
 * What every telnet session looks like: the fixed login ritual, the
 * redaction of passwords, where a session may stop, the error marker and the
 * logout ending, all stated about `Converse`, the dialogue `HandleClient`
 * records.
 */
module TelnetSessions {
  import opened Wrappers
  import opened Text
  import opened TelnetCommands
  import opened Telnet

  /** The text of read `j`, or "" where there is none. */
  function TextAt(peer: seq<Read>, j: nat): string {
    if ReadAt(peer, j).Line? then ReadAt(peer, j).text else ""
  }

  /** The username recorded for read `j`. */
  function UserAt(peer: seq<Read>, j: nat): string {
    Strip(TextAt(peer, j))
  }

  /** The nine events of a completed login, given the two usernames typed. */
  function Ritual(first: string, second: string): (r: seq<Step>)
    ensures |r| == 9
  {
    [Step(Out, Banner),
     Step(In, first), Step(Out, PasswordPrompt), Step(In, Redacted), Step(Out, LoginIncorrect),
     Step(In, second), Step(Out, PasswordPrompt), Step(In, Redacted), Step(Out, Welcome)]
  }

  /** The username after the first `k` login reads: the last one read, none before the first. */
  function UsernameAfter(peer: seq<Read>, k: nat): Option<string> {
    if k == 0 then None else if k <= 2 then Some(UserAt(peer, 0)) else Some(UserAt(peer, 2))
  }

  /** After `k` login reads that did not stop the session, the events are the first
      `1 + 2k` of the ritual and the username is the last one read. */
  lemma {:induction false} RitualSoFar(peer: seq<Read>, k: nat)
    requires k <= 4
    requires forall j :: 0 <= j < k ==> !Stops(ReadAt(peer, j))
    ensures Login(peer, 0, [Step(Out, Banner)], None)
         == Login(peer, k, Ritual(UserAt(peer, 0), UserAt(peer, 2))[..1 + 2 * k], UsernameAfter(peer, k))
  {
    var r := Ritual(UserAt(peer, 0), UserAt(peer, 2));
    if k == 0 {
      assert r[..1] == [Step(Out, Banner)];
    } else {
      var j := k - 1;
      RitualSoFar(peer, j);
      LoginAdvances(peer, j, r[..1 + 2 * j], UsernameAfter(peer, j));
      assert ReadAt(peer, j).Line? && TextAt(peer, j) == ReadAt(peer, j).text;
      assert r[..1 + 2 * j] + LoginExchange(j, TextAt(peer, j)) == r[..1 + 2 * k] by {
        assert r[..1 + 2 * k] == r[..1 + 2 * j] + [r[1 + 2 * j], r[2 + 2 * j]];
      }
    }
  }

  /** The shell only appends events and never changes the username. */
  lemma {:induction false} ShellExtends(peer: seq<Read>, i: nat, steps: seq<Step>, username: Option<string>)
    ensures var d := Shell(peer, i, steps, username);
      d.username == username && |steps| <= |d.steps| && d.steps[..|steps|] == steps
    decreases |peer| - i
  {
    var r := ReadAt(peer, i);
    if !Stops(r) {
      var cmd := RStripCrLf(r.text);
      if Respond(cmd).Reply? {
        var longer := steps + [Step(In, cmd), Step(Out, Respond(cmd).text)];
        ShellReplies(peer, i, steps, username, cmd, Respond(cmd).text);
        ShellExtends(peer, i + 1, longer, username);
        assert longer[..|steps|] == steps;
      } else {
        ShellLogsOut(peer, i, steps, username, cmd);
      }
    }
  }

  /** A session that gets through the four login reads starts with exactly the nine
      ritual events, and its username is the second one typed. */
  lemma CompletedLogin(peer: seq<Read>)
    requires forall j :: 0 <= j < 4 ==> !Stops(ReadAt(peer, j))
    ensures var d := Converse(peer);
      && |d.steps| >= 9
      && d.steps[..9] == Ritual(UserAt(peer, 0), UserAt(peer, 2))
      && d.username == Some(UserAt(peer, 2))
  {
    AfterLogin(peer);
    ShellExtends(peer, 4, Ritual(UserAt(peer, 0), UserAt(peer, 2)), Some(UserAt(peer, 2)));
  }

  /** A login read that ends the input or fails ends the session on the spot: the
      events so far, plus the error marker for a failure, and nothing else. */
  lemma LoginStopsAt(peer: seq<Read>, k: nat)
    requires k < 4
    requires forall j :: 0 <= j < k ==> !Stops(ReadAt(peer, j))
    requires Stops(ReadAt(peer, k))
    ensures Converse(peer)
         == Stop(ReadAt(peer, k), Ritual(UserAt(peer, 0), UserAt(peer, 2))[..1 + 2 * k], UsernameAfter(peer, k))
  {
    RitualSoFar(peer, k);
  }

  /** A session that gets through the four login reads continues as the shell, from
      the ritual's nine events and the second username. */
  lemma AfterLogin(peer: seq<Read>)
    requires forall j :: 0 <= j < 4 ==> !Stops(ReadAt(peer, j))
    ensures Converse(peer) == Shell(peer, 4, Ritual(UserAt(peer, 0), UserAt(peer, 2)), Some(UserAt(peer, 2)))
  {
    var r := Ritual(UserAt(peer, 0), UserAt(peer, 2));
    RitualSoFar(peer, 4);
    assert r[..9] == r;
  }

  /** The recorded username is the last one read before the session stopped at login
      read `k`, or the second one typed when all four login reads went through. */
  lemma RecordedUsername(peer: seq<Read>, k: nat)
    requires k <= 4
    requires forall j :: 0 <= j < k ==> !Stops(ReadAt(peer, j))
    requires k < 4 ==> Stops(ReadAt(peer, k))
    ensures Converse(peer).username == UsernameAfter(peer, k)
  {
    if k < 4 {
      LoginStopsAt(peer, k);
    } else {
      CompletedLogin(peer);
    }
  }

  /** Every session is one of the five cases: stopped at one of the four login reads,
      or past the login into the shell. */
  lemma ConverseCases(peer: seq<Read>)
    ensures || (forall j :: 0 <= j < 4 ==> !Stops(ReadAt(peer, j)))
            || (exists k :: 0 <= k < 4 && Stops(ReadAt(peer, k)) && forall j :: 0 <= j < k ==> !Stops(ReadAt(peer, j)))
  {
    if Stops(ReadAt(peer, 0)) {
      assert Stops(ReadAt(peer, 0));
    } else if Stops(ReadAt(peer, 1)) {
      assert forall j :: 0 <= j < 1 ==> !Stops(ReadAt(peer, j));
    } else if Stops(ReadAt(peer, 2)) {
      assert forall j :: 0 <= j < 2 ==> !Stops(ReadAt(peer, j));
    } else if Stops(ReadAt(peer, 3)) {
      assert forall j :: 0 <= j < 3 ==> !Stops(ReadAt(peer, j));
    }
  }

  /** The first attempt is refused whatever was typed: once the first password is read,
      the fifth event is "Login incorrect". */
  lemma FirstAttemptRefused(peer: seq<Read>)
    requires !Stops(ReadAt(peer, 0)) && !Stops(ReadAt(peer, 1))
    ensures |Converse(peer).steps| >= 5
    ensures Converse(peer).steps[3] == Step(In, Redacted)
    ensures Converse(peer).steps[4] == Step(Out, LoginIncorrect)
  {
    var r := Ritual(UserAt(peer, 0), UserAt(peer, 2));
    if Stops(ReadAt(peer, 2)) {
      LoginStopsAt(peer, 2);
    } else if Stops(ReadAt(peer, 3)) {
      LoginStopsAt(peer, 3);
    } else {
      CompletedLogin(peer);
      assert Converse(peer).steps[4] == r[4];
    }
  }

  /** The second attempt is accepted whatever was typed: once the second password is
      read, the ninth event is the welcome. */
  lemma SecondAttemptAccepted(peer: seq<Read>)
    requires forall j :: 0 <= j < 4 ==> !Stops(ReadAt(peer, j))
    ensures |Converse(peer).steps| >= 9
    ensures Converse(peer).steps[7] == Step(In, Redacted)
    ensures Converse(peer).steps[8] == Step(Out, Welcome)
  {
    var r := Ritual(UserAt(peer, 0), UserAt(peer, 2));
    CompletedLogin(peer);
    assert Converse(peer).steps[7] == r[7] && Converse(peer).steps[8] == r[8];
  }

  /** The shell from read `i` on depends only on the reads from `i` on. */
  lemma {:induction false} ShellSameReads(p: seq<Read>, q: seq<Read>, i: nat, steps: seq<Step>, username: Option<string>)
    requires forall j :: i <= j ==> ReadAt(p, j) == ReadAt(q, j)
    ensures Shell(p, i, steps, username) == Shell(q, i, steps, username)
    decreases |p| - i
  {
    var r := ReadAt(p, i);
    assert r == ReadAt(q, i);
    if !Stops(r) {
      var cmd := RStripCrLf(r.text);
      if Respond(cmd).Reply? {
        var longer := steps + [Step(In, cmd), Step(Out, Respond(cmd).text)];
        ShellReplies(p, i, steps, username, cmd, Respond(cmd).text);
        ShellReplies(q, i, steps, username, cmd, Respond(cmd).text);
        ShellSameReads(p, q, i + 1, longer, username);
      } else {
        ShellLogsOut(p, i, steps, username, cmd);
        ShellLogsOut(q, i, steps, username, cmd);
      }
    }
  }

  /** Passwords are never recorded: two peers that differ only in the passwords they
      send (reads 1 and 3) have the same session, events, username and ending alike. */
  lemma PasswordsNeverRecorded(p: seq<Read>, q: seq<Read>)
    requires forall j :: j != 1 && j != 3 ==> ReadAt(p, j) == ReadAt(q, j)
    requires !Stops(ReadAt(p, 1)) && !Stops(ReadAt(q, 1))
    requires !Stops(ReadAt(p, 3)) && !Stops(ReadAt(q, 3))
    ensures Converse(p) == Converse(q)
  {
    assert ReadAt(p, 0) == ReadAt(q, 0) && ReadAt(p, 2) == ReadAt(q, 2);
    assert UserAt(p, 0) == UserAt(q, 0) && UserAt(p, 2) == UserAt(q, 2);
    if Stops(ReadAt(p, 0)) {
      LoginStopsAt(p, 0);
      LoginStopsAt(q, 0);
    } else if Stops(ReadAt(p, 2)) {
      LoginStopsAt(p, 2);
      LoginStopsAt(q, 2);
    } else {
      var r := Ritual(UserAt(p, 0), UserAt(p, 2));
      AfterLogin(p);
      AfterLogin(q);
      ShellSameReads(p, q, 4, r, Some(UserAt(p, 2)));
    }
  }

  /** An event that marks an error: outbound, starting with "ERROR: ". */
  predicate IsErrorEvent(s: Step) {
    s.dir == Out && StartsWith(s.text, ErrorPrefix)
  }

  function ErrorCount(steps: seq<Step>): nat {
    if steps == [] then 0
    else ErrorCount(steps[..|steps| - 1]) + (if IsErrorEvent(steps[|steps| - 1]) then 1 else 0)
  }

  lemma {:induction false} NoErrorEvents(steps: seq<Step>)
    requires forall k :: 0 <= k < |steps| ==> !IsErrorEvent(steps[k])
    ensures ErrorCount(steps) == 0
  {
    if steps != [] {
      NoErrorEvents(steps[..|steps| - 1]);
    }
  }

  lemma {:induction false} ErrorCountAppend(a: seq<Step>, b: seq<Step>)
    ensures ErrorCount(a + b) == ErrorCount(a) + ErrorCount(b)
    decreases |b|
  {
    if b == [] {
      assert a + b == a;
    } else {
      var n := |b| - 1;
      assert (a + b)[..|a + b| - 1] == a + b[..n];
      ErrorCountAppend(a, b[..n]);
    }
  }

  /** No fixed answer of the shell starts like an error marker. */
  lemma CannedAreNotErrors()
    ensures forall t :: t in CannedTexts ==> t == "" || t[0] != ErrorPrefix[0]
  {
    assert ResourceText[0] == 'u' && IdentityText[0] == 'n' && InterfaceText[0] == 'F';
    assert AddressText[0] == '0' && ClockText[0] == 't' && UserText[0] == '0' && RouteText[0] == '0';
    assert RouterboardText[0] == 'r' && ListingText[0] == 'b' && PasswdText[0] == 'r';
    assert DownloadText[0] == 'D' && ErrorPrefix[0] == 'E';
  }

  /** No answer of the shell looks like an error marker. */
  lemma RepliesAreNotErrors(cmd: string)
    ensures Respond(cmd).Reply? ==> !StartsWith(Respond(cmd).text, ErrorPrefix)
  {
    ReplyTexts(cmd);
    CannedAreNotErrors();
    assert NotFound(cmd)[0] == 's';
  }

  /** What a stop adds to error-free events: one marker exactly on a failure. */
  lemma StopMarks(r: Read, steps: seq<Step>, username: Option<string>)
    requires Stops(r) && ErrorCount(steps) == 0
    ensures var d := Stop(r, steps, username);
      ErrorCount(d.steps) == if d.ending.Failed? then 1 else 0
  {
    if r.Fault? {
      assert IsErrorEvent(Step(Out, ErrorPrefix + r.reason));
      assert (steps + [Step(Out, ErrorPrefix + r.reason)])[..|steps|] == steps;
    }
  }

  lemma {:induction false} ShellMarks(peer: seq<Read>, i: nat, steps: seq<Step>, username: Option<string>)
    requires ErrorCount(steps) == 0
    ensures var d := Shell(peer, i, steps, username);
      ErrorCount(d.steps) == if d.ending.Failed? then 1 else 0
    decreases |peer| - i
  {
    var r := ReadAt(peer, i);
    if Stops(r) {
      StopMarks(r, steps, username);
    } else {
      var cmd := RStripCrLf(r.text);
      var answer := if Respond(cmd).Reply? then Respond(cmd).text else LogoutEvent;
      var turn := [Step(In, cmd), Step(Out, answer)];
      RepliesAreNotErrors(cmd);
      assert !IsErrorEvent(Step(Out, LogoutEvent)) by { assert LogoutEvent[0] != 'E'; }
      NoErrorEvents(turn);
      ErrorCountAppend(steps, turn);
      if Respond(cmd).Reply? {
        ShellReplies(peer, i, steps, username, cmd, answer);
        ShellMarks(peer, i + 1, steps + turn, username);
      } else {
        ShellLogsOut(peer, i, steps, username, cmd);
      }
    }
  }

  lemma RitualHasNoErrors(first: string, second: string, n: nat)
    requires n <= 9
    ensures ErrorCount(Ritual(first, second)[..n]) == 0
  {
    var r := Ritual(first, second)[..n];
    forall k | 0 <= k < |r|
      ensures !IsErrorEvent(r[k])
    {
      assert r[k].dir == Out ==> r[k].text[0] != 'E';
    }
    NoErrorEvents(r);
  }

  /** A session carries an error marker exactly when it ended in an error: then
      exactly one, as its last event, holding the error's text. */
  lemma ErrorMarkOnlyOnFailure(peer: seq<Read>)
    ensures var d := Converse(peer);
      && ErrorCount(d.steps) == (if d.ending.Failed? then 1 else 0)
      && (d.ending.Failed? ==> |d.steps| > 0 && d.steps[|d.steps| - 1] == Step(Out, ErrorPrefix + d.ending.reason))
  {
    var r := Ritual(UserAt(peer, 0), UserAt(peer, 2));
    ConverseCases(peer);
    if forall j :: 0 <= j < 4 ==> !Stops(ReadAt(peer, j)) {
      AfterLogin(peer);
      RitualHasNoErrors(UserAt(peer, 0), UserAt(peer, 2), 9);
      assert r[..9] == r;
      ShellMarks(peer, 4, r, Some(UserAt(peer, 2)));
      ShellErrorLast(peer, 4, r, Some(UserAt(peer, 2)));
    } else {
      var k :| 0 <= k < 4 && Stops(ReadAt(peer, k)) && forall j :: 0 <= j < k ==> !Stops(ReadAt(peer, j));
      LoginStopsAt(peer, k);
      RitualHasNoErrors(UserAt(peer, 0), UserAt(peer, 2), 1 + 2 * k);
      StopMarks(ReadAt(peer, k), r[..1 + 2 * k], UsernameAfter(peer, k));
    }
  }

  /** A shell that fails ends on the error marker. */
  lemma {:induction false} ShellErrorLast(peer: seq<Read>, i: nat, steps: seq<Step>, username: Option<string>)
    ensures var d := Shell(peer, i, steps, username);
      d.ending.Failed? ==> |d.steps| > 0 && d.steps[|d.steps| - 1] == Step(Out, ErrorPrefix + d.ending.reason)
    decreases |peer| - i
  {
    var r := ReadAt(peer, i);
    if Stops(r) {
      assert Shell(peer, i, steps, username) == Stop(r, steps, username);
    } else {
      var cmd := RStripCrLf(r.text);
      if Respond(cmd).Reply? {
        ShellReplies(peer, i, steps, username, cmd, Respond(cmd).text);
        ShellErrorLast(peer, i + 1, steps + [Step(In, cmd), Step(Out, Respond(cmd).text)], username);
      } else {
        ShellLogsOut(peer, i, steps, username, cmd);
      }
    }
  }

  /** The last two events are a logout command and "Logout". */
  predicate EndsWithLogout(steps: seq<Step>) {
    && |steps| >= 2
    && steps[|steps| - 1] == Step(Out, LogoutEvent)
    && steps[|steps| - 2].dir == In && IsLogoutWord(steps[|steps| - 2].text)
  }

  /** A shell that logs out ends with the logout command and "Logout". */
  lemma {:induction false} ShellLogoutLast(peer: seq<Read>, i: nat, steps: seq<Step>, username: Option<string>)
    ensures var d := Shell(peer, i, steps, username);
      d.ending == LoggedOut ==> |d.steps| >= |steps| + 2 && EndsWithLogout(d.steps)
    decreases |peer| - i
  {
    var r := ReadAt(peer, i);
    if !Stops(r) {
      var cmd := RStripCrLf(r.text);
      if Respond(cmd).Reply? {
        ShellReplies(peer, i, steps, username, cmd, Respond(cmd).text);
        ShellLogoutLast(peer, i + 1, steps + [Step(In, cmd), Step(Out, Respond(cmd).text)], username);
      } else {
        LogoutIffLogoutWord(cmd);
        ShellLogsOut(peer, i, steps, username, cmd);
      }
    }
  }

  /** Only a logout command ends a session as logged out, and it does so after the
      whole login ritual. */
  lemma LogoutEnding(peer: seq<Read>)
    ensures var d := Converse(peer);
      d.ending == LoggedOut ==> |d.steps| >= 11 && EndsWithLogout(d.steps)
  {
    var r := Ritual(UserAt(peer, 0), UserAt(peer, 2));
    ConverseCases(peer);
    if forall j :: 0 <= j < 4 ==> !Stops(ReadAt(peer, j)) {
      AfterLogin(peer);
      ShellLogoutLast(peer, 4, r, Some(UserAt(peer, 2)));
    } else {
      var k :| 0 <= k < 4 && Stops(ReadAt(peer, k)) && forall j :: 0 <= j < k ==> !Stops(ReadAt(peer, j));
      LoginStopsAt(peer, k);
    }
  }
}
