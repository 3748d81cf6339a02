/**
 * The fake shell's command table: a first-match chain from the command line
 * (already stripped of its line terminator) to a canned response or to logout.
 */
module TelnetCommands {
  import opened Text

  const ResourceText :=
    "uptime: 1d2h3m\r\n"
    + "version: 6.48.6\r\n"
    + "cpu: MIPS 24Kc\r\n"
    + "cpu-frequency: 600MHz\r\n"
    + "free-memory: 128MiB\r\n"
    + "total-memory: 256MiB\r\n"
  const IdentityText := "name=\"MikroTik\"\r\n"
  const InterfaceText :=
    "Flags: X - disabled, R - running\r\n"
    + " #   NAME       TYPE\r\n"
    + " 0   ether1     ether\r\n"
    + " 1   ether2     ether\r\n"
  const AddressText := "0   192.168.88.1/24    ether1\r\n"
  const ClockText := "time: 12:32:10\r\ndate: nov/20/2025\r\n"
  const UserText := "0   admin    full\r\n"
  const RouteText := "0   0.0.0.0/0   192.168.88.1   1\r\n"
  const RouterboardText :=
    "routerboard: yes\r\n"
    + "model: RB750Gr3\r\n"
    + "serial-number: A1B2C3D4E5\r\n"
    + "firmware-type: qca9531L\r\n"
  const ListingText := "bin  etc  lib  usr  tmp\r\n"
  const PasswdText := "root:x:0:0:root:/root:/bin/sh\r\n"
  const DownloadText :=
    "Downloading...\r\n"
    + "sh: 1: ./payload: Permission denied\r\n"

  /** Every fixed answer of the table, the empty one included. */
  const CannedTexts: set<string> := {ResourceText, IdentityText, InterfaceText, AddressText, ClockText,
                                     UserText, RouteText, RouterboardText, ListingText, PasswdText,
                                     DownloadText, ""}

  /** What the shell does with one command: end the session, or answer with a text. */
  datatype Response = Logout | Reply(text: string)

  function NotFound(cmd: string): string {
    "sh: " + cmd + ": command not found\r\n"
  }

  /** `cmd.lower() in ("exit", "quit", "logout")` */
  predicate IsLogoutWord(cmd: string) {
    LowerEquals(cmd, "exit") || LowerEquals(cmd, "quit") || LowerEquals(cmd, "logout")
  }

  /** The if/elif chain of the shell loop. */
  function Respond(cmd: string): Response {
    if IsLogoutWord(cmd) then Logout
    else if cmd == "/system resource print" then Reply(ResourceText)
    else if cmd == "/system identity print" then Reply(IdentityText)
    else if cmd == "/interface print" then Reply(InterfaceText)
    else if cmd == "/ip address print" then Reply(AddressText)
    else if cmd == "/system clock print" then Reply(ClockText)
    else if cmd == "/user print" then Reply(UserText)
    else if cmd == "/ip route print" then Reply(RouteText)
    else if cmd == "/system routerboard print" then Reply(RouterboardText)
    else if LowerEquals(cmd, "ls") then Reply(ListingText)
    else if LowerStartsWith(cmd, "cat ") then Reply(PasswdText)
    else if Contains(cmd, "wget") || Contains(cmd, "curl") then Reply(DownloadText)
    else if Strip(cmd) == "" then Reply("")
    else Reply(NotFound(cmd))
  }

  /*
   * The same table written as an ordered list of (matcher, response) rules
   * with "command not found" as the default: an independent statement of the
   * first-match contract that `Respond` must agree with.
   */

  datatype Matcher =
    | LogoutWord                       // case-insensitive exit / quit / logout
    | Exactly(command: string)         // exact router command
    | LowerIs(word: string)            // case-insensitive equality
    | LowerStarts(prefix: string)      // case-insensitive prefix
    | Mentions(a: string, b: string)   // case-sensitive substring, either one
    | Blank                            // nothing but whitespace

  datatype Rule = Rule(matcher: Matcher, response: Response)

  predicate Matches(m: Matcher, cmd: string) {
    match m
    case LogoutWord => Lower(cmd) in {"exit", "quit", "logout"}
    case Exactly(c) => cmd == c
    case LowerIs(w) => Lower(cmd) == w
    case LowerStarts(p) => StartsWith(Lower(cmd), p)
    case Mentions(a, b) => Contains(cmd, a) || Contains(cmd, b)
    case Blank => forall k :: 0 <= k < |cmd| ==> IsSpace(cmd[k])
  }

  const RouterCommands: seq<(string, string)> := [
    ("/system resource print", ResourceText),
    ("/system identity print", IdentityText),
    ("/interface print", InterfaceText),
    ("/ip address print", AddressText),
    ("/system clock print", ClockText),
    ("/user print", UserText),
    ("/ip route print", RouteText),
    ("/system routerboard print", RouterboardText)
  ]

  /** One exact-match rule per router command, in table order. */
  const RouterRules: seq<Rule> :=
    seq(|RouterCommands|, k requires 0 <= k < |RouterCommands| =>
      Rule(Exactly(RouterCommands[k].0), Reply(RouterCommands[k].1)))

  /** The rules after the router commands, down to the blank-line rule. */
  const LastRules: seq<Rule> := [
    Rule(LowerIs("ls"), Reply(ListingText)),
    Rule(LowerStarts("cat "), Reply(PasswdText)),
    Rule(Mentions("wget", "curl"), Reply(DownloadText)),
    Rule(Blank, Reply(""))
  ]

  const Rules: seq<Rule> := [Rule(LogoutWord, Logout)] + RouterRules + LastRules

  function FirstMatch(rules: seq<Rule>, cmd: string): Response {
    if rules == [] then Reply(NotFound(cmd))
    else if Matches(rules[0].matcher, cmd) then rules[0].response
    else FirstMatch(rules[1..], cmd)
  }

  lemma ContainsInfix(a: string, b: string, c: string)
    ensures Contains(a + b + c, b)
  {
    assert OccursAt(a + b + c, b, |a|);
  }

  /** Blank-only text mentions no word. */
  lemma BlankMentionsNothing(cmd: string, word: string)
    requires forall k :: 0 <= k < |cmd| ==> IsSpace(cmd[k])
    requires word != "" && !IsSpace(word[0])
    ensures !Contains(cmd, word)
  {
  }

  /** The first matching rule decides the response. */
  lemma {:induction false} FirstMatchHit(rules: seq<Rule>, k: nat, cmd: string)
    requires k < |rules| && Matches(rules[k].matcher, cmd)
    requires forall j :: 0 <= j < k ==> !Matches(rules[j].matcher, cmd)
    ensures FirstMatch(rules, cmd) == rules[k].response
  {
    if k > 0 {
      FirstMatchHit(rules[1..], k - 1, cmd);
    }
  }

  /** Rules that do not match can be skipped. */
  lemma {:induction false} FirstMatchSkips(a: seq<Rule>, b: seq<Rule>, cmd: string)
    requires forall j :: 0 <= j < |a| ==> !Matches(a[j].matcher, cmd)
    ensures FirstMatch(a + b, cmd) == FirstMatch(b, cmd)
  {
    if a != [] {
      assert (a + b)[0] == a[0];
      assert (a + b)[1..] == a[1..] + b;
      FirstMatchSkips(a[1..], b, cmd);
    } else {
      assert a + b == b;
    }
  }

  /** A command reaches the last two branches of the chain: no earlier rule matched it. */
  predicate ReachesTail(cmd: string) {
    && !IsLogoutWord(cmd)
    && (forall k :: 0 <= k < |RouterCommands| ==> cmd != RouterCommands[k].0)
    && !LowerEquals(cmd, "ls") && !LowerStartsWith(cmd, "cat ")
    && !Contains(cmd, "wget") && !Contains(cmd, "curl")
  }

  lemma TailResponse(cmd: string)
    requires ReachesTail(cmd)
    ensures Respond(cmd) == if Strip(cmd) == "" then Reply("") else Reply(NotFound(cmd))
  {
    assert cmd != RouterCommands[0].0 && cmd != RouterCommands[1].0 && cmd != RouterCommands[2].0;
    assert cmd != RouterCommands[3].0 && cmd != RouterCommands[4].0 && cmd != RouterCommands[5].0;
    assert cmd != RouterCommands[6].0 && cmd != RouterCommands[7].0;
  }

  lemma BlankReachesTail(cmd: string)
    requires forall k :: 0 <= k < |cmd| ==> IsSpace(cmd[k])
    ensures ReachesTail(cmd)
  {
    BlankMentionsNothing(cmd, "wget");
    BlankMentionsNothing(cmd, "curl");
    if cmd != "" {
      assert IsSpace(cmd[0]) && LowerChar(cmd[0]) == cmd[0];
    }
  }

  predicate IsRouterCommand(cmd: string) {
    exists k :: 0 <= k < |RouterCommands| && cmd == RouterCommands[k].0
  }

  /** No two router commands are the same text. */
  lemma RouterCommandsDistinct(j: nat, k: nat)
    requires j < k < |RouterCommands|
    ensures RouterCommands[j].0 != RouterCommands[k].0
  {
    if j == 0 && k == 1 {
      assert RouterCommands[j].0[8] != RouterCommands[k].0[8];
    } else {
      assert |RouterCommands[j].0| != |RouterCommands[k].0|;
    }
  }

  /** No router command is a logout word: they all start with a slash. */
  lemma RouterCommandNotLogout(cmd: string)
    requires IsRouterCommand(cmd)
    ensures !Matches(LogoutWord, cmd)
  {
    assert cmd[0] == '/';
    assert Lower(cmd)[0] == '/';
  }

  /** Each router command is answered by its own rule of the table. */
  lemma RouterFirstMatch(k: nat)
    requires k < |RouterCommands|
    ensures FirstMatch(Rules, RouterCommands[k].0) == Reply(RouterCommands[k].1)
  {
    var cmd := RouterCommands[k].0;
    RouterCommandNotLogout(cmd);
    forall j | 0 <= j < k
      ensures !Matches(RouterRules[j].matcher, cmd)
    {
      RouterCommandsDistinct(j, k);
    }
    FirstMatchSkips([Rule(LogoutWord, Logout)], RouterRules + LastRules, cmd);
    assert Rules == [Rule(LogoutWord, Logout)] + (RouterRules + LastRules);
    FirstMatchHit(RouterRules + LastRules, k, cmd);
  }

  lemma PastRouterRules(cmd: string)
    requires !(Lower(cmd) in {"exit", "quit", "logout"}) && !IsRouterCommand(cmd)
    ensures FirstMatch(Rules, cmd) == FirstMatch(LastRules, cmd)
  {
    var skipped := [Rule(LogoutWord, Logout)] + RouterRules;
    forall j | 0 <= j < |skipped|
      ensures !Matches(skipped[j].matcher, cmd)
    {
      if j > 0 {
        assert skipped[j] == RouterRules[j - 1];
      }
    }
    FirstMatchSkips(skipped, LastRules, cmd);
  }

  /** The last rules of the table, unfolded one by one. */
  lemma LastRulesChain(cmd: string)
    ensures FirstMatch(LastRules, cmd)
         == if Matches(LowerIs("ls"), cmd) then Reply(ListingText)
            else if Matches(LowerStarts("cat "), cmd) then Reply(PasswdText)
            else if Matches(Mentions("wget", "curl"), cmd) then Reply(DownloadText)
            else if Matches(Blank, cmd) then Reply("")
            else Reply(NotFound(cmd))
  {
    var r0 := LastRules;
    var r1, r2, r3 := r0[1..], r0[2..], r0[3..];
    assert r1[1..] == r2 && r2[1..] == r3 && r3[1..] == [];
    assert FirstMatch(r3, cmd) == if Matches(Blank, cmd) then Reply("") else Reply(NotFound(cmd));
    assert FirstMatch(r2, cmd) == if Matches(Mentions("wget", "curl"), cmd) then Reply(DownloadText) else FirstMatch(r3, cmd);
    assert FirstMatch(r1, cmd) == if Matches(LowerStarts("cat "), cmd) then Reply(PasswdText) else FirstMatch(r2, cmd);
  }

  /** Past the logout words and the router commands, `Respond` is the rest of the chain. */
  lemma RespondPastRouter(cmd: string)
    requires !IsLogoutWord(cmd) && !IsRouterCommand(cmd)
    ensures Respond(cmd)
         == if LowerEquals(cmd, "ls") then Reply(ListingText)
            else if LowerStartsWith(cmd, "cat ") then Reply(PasswdText)
            else if Contains(cmd, "wget") || Contains(cmd, "curl") then Reply(DownloadText)
            else if Strip(cmd) == "" then Reply("")
            else Reply(NotFound(cmd))
  {
    assert forall k :: 0 <= k < |RouterCommands| ==> cmd != RouterCommands[k].0;
    assert cmd != RouterCommands[0].0 && cmd != RouterCommands[1].0 && cmd != RouterCommands[2].0;
    assert cmd != RouterCommands[3].0 && cmd != RouterCommands[4].0 && cmd != RouterCommands[5].0;
    assert cmd != RouterCommands[6].0 && cmd != RouterCommands[7].0;
  }

  lemma TailRules(cmd: string)
    requires !IsLogoutWord(cmd) && !IsRouterCommand(cmd)
    ensures FirstMatch(LastRules, cmd) == Respond(cmd)
  {
    StripEmptyIffBlank(cmd);
    LowerEqualsIsLower(cmd, "ls");
    LowerEqualsIsLower(cmd, "cat ");
    LastRulesChain(cmd);
    RespondPastRouter(cmd);
  }

  /** `Respond` is exactly the first rule of the ordered table that matches,
      with "command not found" when none does. */
  lemma RespondIsFirstMatch(cmd: string)
    ensures Respond(cmd) == FirstMatch(Rules, cmd)
  {
    LowerEqualsIsLower(cmd, "exit");
    LowerEqualsIsLower(cmd, "quit");
    LowerEqualsIsLower(cmd, "logout");
    if IsLogoutWord(cmd) {
      assert Rules[0] == Rule(LogoutWord, Logout);
    } else if IsRouterCommand(cmd) {
      var k :| 0 <= k < |RouterCommands| && cmd == RouterCommands[k].0;
      RouterFirstMatch(k);
      RouterCommandsAnswered(k);
    } else {
      PastRouterRules(cmd);
      TailRules(cmd);
    }
  }

  /** The response is empty exactly for a blank command. */
  lemma BlankIffEmptyReply(cmd: string)
    ensures Respond(cmd) == Reply("") <==> Strip(cmd) == ""
  {
    StripEmptyIffBlank(cmd);
    if Strip(cmd) == "" {
      BlankReachesTail(cmd);
      TailResponse(cmd);
    } else {
      assert ResourceText != "" && IdentityText != "" && InterfaceText != "" && AddressText != "";
      assert ClockText != "" && UserText != "" && RouteText != "" && RouterboardText != "";
      assert ListingText != "" && PasswdText != "" && DownloadText != "" && NotFound(cmd) != "";
    }
  }

  /** Every router command of the table gets its canned answer. */
  lemma RouterCommandsAnswered(k: nat)
    requires k < |RouterCommands|
    ensures Respond(RouterCommands[k].0) == Reply(RouterCommands[k].1)
  {
    var cmd := RouterCommands[k].0;
    assert cmd[0] == '/';
  }

  /** The shell ends the session exactly on exit, quit or logout, in any letter case. */
  lemma LogoutIffLogoutWord(cmd: string)
    ensures Respond(cmd) == Logout <==> IsLogoutWord(cmd)
  {
  }

  /** The shell answers with a fixed text or with "command not found" for this very command. */
  lemma ReplyTexts(cmd: string)
    ensures Respond(cmd).Reply? ==> Respond(cmd).text in CannedTexts || Respond(cmd).text == NotFound(cmd)
  {
  }

  lemma NotFoundMentions(cmd: string)
    ensures Contains(NotFound(cmd), cmd) && Contains(NotFound(cmd), "command not found")
  {
    var head, tail := "sh: " + cmd, ": command not found\r\n";
    ContainsInfix("sh: ", cmd, tail);
    assert tail == ": " + "command not found" + "\r\n";
    assert NotFound(cmd) == (head + ": ") + "command not found" + "\r\n";
    ContainsInfix(head + ": ", "command not found", "\r\n");
  }

  /** Non-blank input that no rule recognises is echoed back in a "command not found" reply. */
  lemma UnknownCommandEchoed(cmd: string)
    requires ReachesTail(cmd) && Strip(cmd) != ""
    ensures Respond(cmd).Reply?
    ensures Contains(Respond(cmd).text, cmd) && Contains(Respond(cmd).text, "command not found")
  {
    TailResponse(cmd);
    NotFoundMentions(cmd);
  }
}
