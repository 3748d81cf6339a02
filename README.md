# Session capture of an IoT honeypot, modelled in Dafny

The honeypot pretends to be a small router. Its capture path has four parts, and this project models each of them:

- **Telnet emulator** (`handle_client`). It sends a banner, then runs a login ritual: the first password is always refused and the second always accepted. It then runs a fake RouterOS/Linux shell until the peer leaves, logs out or the connection fails. Every event goes into an in-memory transcript of `{ts, dir, text}` dicts, with passwords replaced by `<password>`. Whatever happens, the session is handed to the logger as exactly one record.
- **Session store** (`log_request`). It builds a six-field record stamped with the current time and appends it as one JSON line to a single shared file.
- **Dashboard**. It has three parts:
  - `load_jsonl` reads the file line by line, keeping parsed lines and warning about malformed ones.
  - `extract_transcript` turns any record shape into readable text, with the first matching branch winning.
  - A tally collects the first word of every received event.
- **Replay** (`replay_transcript`). It selects a transcript and prints it line by line. It either follows the recorded timestamps, scaled by a speed, or uses a fixed short delay.

## How the model is built

The Dafny modules are:

- `Wrappers`: the `Option` type.
- `Text`: the Python string operations used.
- `Json`: the JSON value type. It also holds `Lib`, which bundles `json.dumps`, the indented `json.dumps`, `str` and `json.loads` as uninterpreted functions.
- `Logger`: the store as a class.
- `TelnetCommands`: the shell's if/elif chain as a pure function, plus a first-match rule table it is proved equal to.
- `Telnet`: the emulator.
- `TelnetSessions`: properties of whole telnet sessions.
- `Dashboard`, `Replay`, and `Pipeline`, which holds properties that span components.

Inputs, outputs and the clock are modelled as follows:

- **Peer.** The peer is the sequence of values `readline()` returns: a decoded line, end of input, a read that raises an `Exception`, or a read interrupted by the cancellation of the handler's task. The cancellation raises `asyncio.CancelledError`, which `except Exception` does not catch.
- **Clock.** The clock is a function from the number of earlier readings to an ISO string. Reading 0 stamps the session start, reading `k + 1` stamps the `k`-th event, and the reading after the last event stamps the stored record.
- **Telnet session.** A session is specified by the pure function `Telnet.Converse`. The imperative handler, with its `Transcript` class (the list plus the `add` closure), is proved to produce exactly that session and to append exactly one record built from it.
- **Python exceptions.** Wherever the source can raise (a read, a non-string message in the dashboard, a zero speed in replay), the model returns an error value (`None`, `Raised`) rather than requiring the input away.
- **Replay output.** Replay produces a trace of `Sleep(seconds)` and `Say(line)` actions in the order the source performs them. The trace ends with `Finished` or `Raised`.

Behaviour of the code that the model keeps:

- Replay does not reject a speed of zero or below. A zero speed raises when it is divided by, and a negative speed just produces clamped waits.
- The normalizer can raise: an event whose first truthy message is not a string has no `strip`.
- The transcript's outbound shell events hold the response without the `> ` prompt.
- The store has no lock.
- The normalizer returns one string.

What the model shows about how the parts fit together:

- The dashboard reaches a telnet record only through its `data` fallback, as an indented JSON dump (`Pipeline.DashboardShowsTelnetData`).
- The token tally never counts telnet records. They have no `events` key, and their events say `in`/`out` rather than `recv` (`Pipeline.TallyIgnoresTelnet`).

## Model

| member | source | states |
|---|---|---|
| Logger.Entry | logger.py:14-21 | the record has exactly the six keys, and reading them back gives the six arguments unchanged |
| Logger.SessionStore.constructor | logger.py:5-10 | the store lives at `<base>/logs/all_sessions.jsonl` and starts with whatever the file already holds |
| Logger.SessionStore.LogRequest | logger.py:12-24 | exactly one record is appended at the end, earlier records stay as they were, `time` is the clock string plus "Z", and the result is always the store location |
| Logger.AppendExtendsFile | logger.py:22-23 | appending a record extends the file text by exactly its JSON line and one line feed, so the old text stays a prefix |
| Logger.TerminatedAppend | logger.py:23 | terminating one more line appends exactly that line and a line feed |
| TelnetCommands.RespondIsFirstMatch | telenet_server.py:95-160 | the if/elif chain equals first-match over the ordered rule table: logout words, the eight router commands, `ls`, `cat `, `wget`/`curl`, blank |
| TelnetCommands.FirstMatchHit | telenet_server.py:95-160 | the first rule that matches decides the response |
| TelnetCommands.FirstMatchSkips | telenet_server.py:95-160 | rules that do not match can be skipped without changing the response |
| TelnetCommands.LogoutIffLogoutWord | telenet_server.py:95-100 | a command logs out exactly when its lower-case form is `exit`, `quit` or `logout` |
| TelnetCommands.RouterCommandsAnswered | telenet_server.py:102-141 | each exact router command gets its own canned text |
| TelnetCommands.RouterFirstMatch | telenet_server.py:102-141 | in the rule table, each router command is answered by its own rule |
| TelnetCommands.RouterCommandsDistinct | telenet_server.py:102-141 | the eight router commands are pairwise different, so the order among them does not matter |
| TelnetCommands.RouterCommandNotLogout | telenet_server.py:95-102 | no router command is a logout word |
| TelnetCommands.PastRouterRules | telenet_server.py:95-141 | a command that is neither a logout word nor a router command falls through to the last four rules |
| TelnetCommands.LastRulesChain | telenet_server.py:144-160 | the last rules are tried in order: `ls`, `cat ` prefix, `wget`/`curl`, blank, and finally "command not found" |
| TelnetCommands.RespondPastRouter | telenet_server.py:144-160 | past the router commands, the chain answers as the last rules do |
| TelnetCommands.TailRules | telenet_server.py:144-160 | past the router commands, first-match over the last rules is the chain's answer |
| TelnetCommands.TailResponse | telenet_server.py:156-160 | a command no earlier branch takes gets "" when blank, otherwise the not-found text echoing it |
| TelnetCommands.BlankReachesTail | telenet_server.py:144-157 | an all-whitespace command is taken by no earlier branch |
| TelnetCommands.BlankMentionsNothing | telenet_server.py:150 | an all-whitespace command contains neither `wget` nor `curl` |
| TelnetCommands.ContainsInfix | telenet_server.py:160 | text placed between two strings occurs in the result |
| TelnetCommands.BlankIffEmptyReply | telenet_server.py:156-157 | the reply is empty exactly when the command strips to nothing |
| TelnetCommands.ReplyTexts | telenet_server.py:95-160 | every reply is one of the canned texts or the not-found text for that command |
| TelnetCommands.NotFoundMentions | telenet_server.py:160 | the not-found text contains the command and "command not found" |
| TelnetCommands.UnknownCommandEchoed | telenet_server.py:159-160 | an unknown non-blank command is echoed back inside "command not found" |
| Telnet.LoginExchange | telenet_server.py:39-84 | each login read records one inbound event (the stripped username, or `<password>`) followed by one outbound prompt or verdict |
| Telnet.LoginAdvances | telenet_server.py:33-84 | a login read that neither ends the input nor fails moves the ritual on by exactly one exchange |
| Telnet.ShellReplies | telenet_server.py:87-165 | a non-logout command records the command, then the reply, and the loop reads on |
| Telnet.ShellLogsOut | telenet_server.py:95-100 | a logout records the command, then "Logout", and ends the loop |
| Telnet.LogoutEventIsStripped | telenet_server.py:96-98 | the recorded logout event is the sent text stripped |
| Telnet.EventJson | telenet_server.py:19-24 | an event dict has exactly the keys `ts`, `dir`, `text`, holding the given values |
| Telnet.Stamped | telenet_server.py:19-24 | one event per step; reading an event back gives exactly the keys `ts`, `dir`, `text`, with the step's direction name and text and clock reading `k + 1` plus "Z" |
| Telnet.SessionData | telenet_server.py:172-176 | the session data has exactly `session_start` (the given start), `username` (the username, or "") and `transcript` |
| Telnet.SessionRecord | telenet_server.py:170-178 | the record carries service `virtual-iot-telnet`, path `/telnet`, method `SESSION`, the peer address or "unknown", the clock reading after the last event as its time, the first reading as `session_start`, the username or "", and the whole transcript |
| Telnet.Transcript.constructor | telenet_server.py:16 | the transcript starts empty |
| Telnet.Transcript.Add | telenet_server.py:19-24 | `add` appends exactly one event stamped with the next clock reading |
| Telnet.RecordExchange | telenet_server.py:39-84 | a login read appends exactly its exchange's two events |
| Telnet.LoginRead | telenet_server.py:33-79 | a login read either stops the session without adding events (reporting an error or a cancellation), or advances the ritual as the specification does |
| Telnet.Answer | telenet_server.py:92-165 | a shell turn appends the command, then "Logout" or the table's reply, and reports a logout exactly when the table says so |
| Telnet.ShellRead | telenet_server.py:87-165 | one turn of the shell loop follows the specification; a failing read adds nothing and reports its error; a cancelled read is reported exactly when the session ends interrupted |
| Telnet.RunSession | telenet_server.py:26-165 | the `try` body leaves exactly the specified session's events and username, with the error marker still to be added when a read raised an `Exception`, and reports a cancellation exactly when the session ends interrupted |
| Telnet.RunAndCatch | telenet_server.py:26-169 | after the `try` body and the `except` clause the transcript holds exactly the specified session's events, marker included, and its username; a cancellation is reported exactly when the session ends interrupted |
| Telnet.HandleClient | telenet_server.py:10-184 | on every exit path (end of input during login, logout, end of input in the shell, an error, a cancellation), exactly one record of the specified session is appended to the store; the handler raises afterwards exactly when it was cancelled |
| TelnetSessions.Ritual | telenet_server.py:28-84 | the completed ritual has exactly nine events |
| TelnetSessions.RitualSoFar | telenet_server.py:28-84 | after `k` successful login reads, the session holds the first `1 + 2k` ritual events and the last username read |
| TelnetSessions.CompletedLogin | telenet_server.py:26-84 | a session that completes login starts with the nine ritual events in order, and its username is the second one typed |
| TelnetSessions.LoginStopsAt | telenet_server.py:33-77 | end of input, an error or a cancellation at login read `k` stops the session right there: no further prompts or events beyond an error marker |
| TelnetSessions.AfterLogin | telenet_server.py:26-87 | a completed login hands the shell the ritual and the second username |
| TelnetSessions.ConverseCases | telenet_server.py:26-165 | of the four login reads, either none stops the session, or there is a first one that does |
| TelnetSessions.RecordedUsername | telenet_server.py:33-76 | the session's username is the last one read before login stopped at read `k`, or the second one typed when login completed |
| TelnetSessions.ShellExtends | telenet_server.py:87-165 | the shell only appends (the events it started with stay a prefix) and never changes the username |
| TelnetSessions.FirstAttemptRefused | telenet_server.py:47-59 | whatever the credentials, the first password is recorded as `<password>` and answered with "Login incorrect" |
| TelnetSessions.SecondAttemptAccepted | telenet_server.py:73-84 | whatever the credentials, the second password is recorded as `<password>` and answered with the welcome |
| TelnetSessions.ShellSameReads | telenet_server.py:87-165 | the shell depends only on the reads from its position on |
| TelnetSessions.PasswordsNeverRecorded | telenet_server.py:47-79 | two peers that differ only in the passwords they type produce the identical session, so no password text is stored |
| TelnetSessions.NoErrorEvents | telenet_server.py:167-169 | a list of events without error events has error count zero |
| TelnetSessions.ErrorCountAppend | telenet_server.py:167-169 | error markers are counted additively over appended events |
| TelnetSessions.CannedAreNotErrors | telenet_server.py:102-157 | no canned text starts like the error marker |
| TelnetSessions.RepliesAreNotErrors | telenet_server.py:95-160 | no shell reply starts with `ERROR: ` |
| TelnetSessions.RitualHasNoErrors | telenet_server.py:28-84 | no ritual event is an error marker |
| TelnetSessions.StopMarks | telenet_server.py:167-169 | stopping adds one error marker for an error and none for end of input or a cancellation |
| TelnetSessions.ShellMarks | telenet_server.py:87-169 | the shell adds one error marker exactly when it ends in an error caught by `except Exception` |
| TelnetSessions.ErrorMarkOnlyOnFailure | telenet_server.py:167-169 | a session holds an error marker exactly when a read raised an `Exception`: then exactly one, as its last event, holding the error's text; a cancelled session holds none |
| TelnetSessions.ShellErrorLast | telenet_server.py:167-169 | a shell that fails ends on the error marker |
| TelnetSessions.ShellLogoutLast | telenet_server.py:95-100 | a shell that logs out ends with a logout word and "Logout" |
| TelnetSessions.LogoutEnding | telenet_server.py:87-100 | only a logout word ends a session as logged out, and only after the whole ritual (at least eleven events) |
| Dashboard.DirTag | dashboard.py:64 | the tag is the client icon exactly for `recv`, the device icon exactly for `send`, and empty otherwise |
| Dashboard.FirstTruthy | dashboard.py:62 | the first truthy value wins; with none, the default |
| Dashboard.EventLine | dashboard.py:58-68 | a non-dict event becomes `str(e)`; a dict event raises exactly when its message is not a string |
| Dashboard.TimePrefixOnlyWhenTimed | dashboard.py:60-66 | a line opens with `[` exactly when the event's `time` is truthy, and it ends with a space and the stripped message |
| Dashboard.EventLines | dashboard.py:57-68 | one line per event, in order, unless an event raises |
| Dashboard.RequestText | dashboard.py:71-77 | the stripped "method path", then the rendered body after a blank line exactly when the body is truthy |
| Dashboard.Fallback | dashboard.py:79-84 | the first key present with a truthy value is rendered, whatever follows it; with no truthy key the result is "" |
| Dashboard.ExtractTranscript | dashboard.py:49-84 | only the events branch can raise |
| Dashboard.NonDictIsEmpty | dashboard.py:50-51 | a record that is not a dict yields "" |
| Dashboard.NothingFoundIsEmpty | dashboard.py:79-84 | a record no branch recognises yields "", not an error |
| Dashboard.StringTranscriptVerbatim | dashboard.py:53-54 | a string transcript is returned verbatim |
| Dashboard.TranscriptWins | dashboard.py:53-54 | with a truthy transcript, no other key changes the result |
| Dashboard.EventsWin | dashboard.py:56-69 | without a transcript, an events list wins over `request` and the fallback keys |
| Dashboard.RequestWins | dashboard.py:71-77 | without a transcript or events list, a request dict wins over the fallback keys |
| Dashboard.EventsJoined | dashboard.py:56-69 | the events branch raises exactly when some event raises; otherwise it is the event lines in order, joined by line feeds and stripped |
| Dashboard.StringBodyOnly | dashboard.py:79-82 | a record holding only a string `body` yields exactly that string |
| Dashboard.PayloadFirst | dashboard.py:79-82 | in the fallback, a truthy `payload` shadows `body` and `data` |
| Dashboard.EveryLineAccounted | dashboard.py:36-44 | every line is exactly one of blank, kept or warned about |
| Dashboard.AllParsedKept | dashboard.py:36-42 | lines that all parse are all kept, in file order |
| Dashboard.KeptAppend | dashboard.py:36-42 | loading is compatible with concatenating files |
| Dashboard.SessionState.constructor | dashboard.py:43 | the warnings list starts empty |
| Dashboard.LoadJsonl | dashboard.py:32-47 | a missing file loads nothing, adds no warning and shows "File not found: " and the path; otherwise the text is read with universal newlines, the parsed lines are kept in file order, and each malformed line adds exactly one warning naming the file |
| Text.UniversalNewlines | dashboard.py:35-36 | reading with universal newlines leaves no carriage return and never lengthens the text |
| Text.UniversalNewlinesKeepsPlain | dashboard.py:35-36 | text without carriage returns reads back unchanged, whatever follows it |
| Text.CarriageReturnEndsLine | dashboard.py:35-36 | a lone "\r" ends a line just as "\n" does |
| Dashboard.EventToken | dashboard.py:186-189 | an event contributes at most one token; it raises exactly when it is a `recv` dict whose `data` is not a string; it contributes nothing exactly when it is not a `recv` dict or its string data is blank |
| Dashboard.CollectEvents | dashboard.py:185-189 | the inner loop computes the tokens of one session's events, or raises |
| Dashboard.ReceivedTokens | dashboard.py:182-189 | the loop computes the tokens of all sessions in order, or raises |
| Dashboard.EventsTokensStopAt | dashboard.py:185-189 | once an event raises, the events loop raises |
| Dashboard.TokensStopAt | dashboard.py:183-189 | once a session raises, the tally raises |
| Dashboard.TokenIsFirstWord | dashboard.py:186-189 | a token comes only from a `recv` event with non-blank string data, and is a non-empty, whitespace-free first word of the stripped data |
| Dashboard.ReceivedDataCounted | dashboard.py:186-189 | every `recv` event with non-blank string data contributes exactly one token, the first word of the stripped data |
| Dashboard.NoEventsNoTokens | dashboard.py:184 | a session without an `events` key contributes nothing |
| Replay.SelectTranscript | replay.py:29 | selection raises exactly when the record or its `data` is not a dict; otherwise a truthy nested transcript wins, then a truthy top-level one, and else the empty list |
| Replay.NestedTranscriptFirst | replay.py:29 | a truthy transcript under `data` is preferred to a top-level one |
| Replay.AllHaveTs | replay.py:35 | all entries are found to have `ts` only when each has one |
| Replay.Times | replay.py:37 | one parsed time per entry |
| Replay.TimesParsed | replay.py:37 | when every `ts` parses, the times are the parsed readings in order |
| Replay.EntryLine | replay.py:46-56 | an entry has a line exactly when it is a dict whose `dir` (default "?") is a string |
| Replay.EntryLineSaysWho | replay.py:46-56 | a line starts with "IN" exactly when `dir` starts with "in" in any case, and with "OUT" otherwise; it ends with `str(text)` in both modes |
| Replay.AtLeastZero | replay.py:43 | `max(0.0, x)` is non-negative, at least `x`, and one of the two |
| Replay.FixedWait | replay.py:58 | the fixed pause is at least 0.05 and at least `0.5 / speed`, and is one of the two |
| Replay.ReplayTimed | replay.py:41-49 | the timestamp loop produces exactly the specified trace |
| Replay.ReplayFixed | replay.py:51-58 | the fixed-delay loop produces exactly the specified trace |
| Replay.ReplayTranscript | replay.py:27-58 | `replay_transcript` produces exactly the specified trace |
| Replay.Waits | replay.py:41-45 | one wait per entry |
| Replay.WaitsClosedForm | replay.py:41-45 | each wait is `max(0, (interval − previous) / speed)`, with `last` as the previous of the first |
| Replay.TimedWaits | replay.py:37-45 | the first wait is 0, and each later one is the scaled gap between consecutive timestamps, clamped at 0 |
| Replay.WaitsNonNegative | replay.py:43 | every wait is non-negative, even when timestamps go backwards |
| Replay.TimedShape | replay.py:41-49 | timestamp mode finishes exactly when the speed is non-zero and every entry has a line; it then sleeps each wait and prints each entry's line, one per entry, in order |
| Replay.FixedShape | replay.py:51-58 | fixed mode finishes exactly when the speed is non-zero and every entry has a line; it then prints each line followed by the same pause |
| Replay.ScaledGaps | replay.py:43 | scaled consecutive gaps add up to the scaled total gap |
| Replay.WaitsTelescope | replay.py:37-45 | with non-decreasing timestamps and a positive speed, the waits sum to the span divided by the speed |
| Replay.TimedReplayDuration | replay.py:35-49 | a timestamp replay finishes, prints every line, and its pauses total `(t_last − t_first) / speed` |
| Replay.DoubleSpeedExample | replay.py:37-45 | timestamps 0 s, 2 s and 5 s at speed 2 give 2.5 s of waiting |
| Replay.FixedPausesAtLeast | replay.py:58 | no fixed-mode pause is shorter than 0.05 s |
| Replay.ZeroSpeedRaises | replay.py:41-58 | a zero speed raises: in timestamp mode before any line, in fixed mode after at most one |
| Replay.EmptyTranscriptNotice | replay.py:30-32 | an empty transcript prints only "No transcript found in session." |
| Replay.TimedOnlyWithAllTs | replay.py:35 | without the flag, or with an entry lacking `ts`, fixed-delay mode is used |
| Replay.TimedWithParsedTs | replay.py:35-49 | with the flag, every `ts` present and parsed, timestamp mode is used |
| Pipeline.StoreRoundTrip | logger.py:22-23 | when `json.loads` inverts `json.dumps` and a dumped line holds no line break, loading the store's file gives back exactly the appended records, in order, with no warnings |
| Pipeline.DashboardShowsStoredData | dashboard.py:79-82 | a stored record reaches the normalizer only through its `data` fallback, shown as indented JSON |
| Pipeline.DashboardShowsTelnetData | telenet_server.py:172-178 | a telnet session appears on the dashboard as its `data` dict, indented, not as a dialogue |
| Pipeline.TallyIgnoresTelnet | dashboard.py:183-184 | telnet records add nothing to the token tally |
| Pipeline.ReplaySelectsStoredTranscript | replay.py:29 | replay finds the transcript nested under a stored record's `data`, even an empty one |
| Pipeline.ReplaySelectsTelnetTranscript | replay.py:29 | replay selects a telnet session's transcript |
| Pipeline.InboundIffIn | replay.py:46 | a telnet event is replayed as IN exactly when it is inbound |
| Pipeline.StampedLines | replay.py:46-56 | every telnet event has a replay line saying who spoke and what |
| Pipeline.TelnetFixedReplay | replay.py:50-58 | replaying a telnet session without timestamps prints every exchanged line in order, each followed by the fixed pause, or only the notice when it has no events |
| Pipeline.TelnetTimedMode | replay.py:35-40 | with parsable clock readings, a telnet session is replayed in timestamp mode |
| Pipeline.TelnetTimedReplay | replay.py:35-49 | replaying a telnet session with its timestamps prints every exchanged line in order, and the pauses total the session's span divided by the speed |
| Pipeline.AllTsFound | replay.py:35 | when every entry has a `ts`, `all("ts" in t ...)` is true |

## Left out

- Networking and asyncio are not modelled: `writer.write`, `drain`, `close`, `wait_closed`, `start_server`, `main`. Outbound text is recorded only as transcript events. An error raised by a write or a drain, and a cancellation that arrives while a write is drained, are not modelled; only reads can fail or be cancelled.
- Byte decoding is not modelled. A read is an already decoded line. A non-empty byte line that decodes to nothing is treated like end of input.
- LoadJsonl: the file is only missing or readable. An `open` that fails another way (a permission error, a directory) raises out of `load_jsonl` uncaught; that path is not modelled.
- `load_jsonl` opens the file as UTF-8 with `errors="replace"`. That decoding is not modelled: `LoadJsonl` receives the decoded text, with replacement characters already in place.
- The logger writes in text mode. The model assumes a platform that writes "\n" unchanged; the "\r\n" another platform would write is not modelled.
- The wall clock is a parameter. `datetime.fromisoformat` and `total_seconds` are a parameter from timestamp text to seconds; comparing naive and aware datetimes is not modelled.
- `time.sleep` and `print` are recorded as actions; nothing pauses.
- `json.dumps`, `json.loads` and `str` of non-string values are uninterpreted functions. The store round trip assumes they invert each other on stored records.
- The int/float distinction of JSON numbers is not modelled; numbers are reals.
- Only ASCII whitespace and ASCII case folding are modelled in `strip`, `split` and `lower`.
- A write to the store can fail; this is not modelled, and the store always grows by one record.
- Concurrent writers are not modelled; the store has no lock to verify.
- `handle_client`'s body is split into helper methods (`RecordExchange`, `LoginRead`, `Answer`, `ShellRead`, `RunSession`, `RunAndCatch`). The order of effects is the same.
- Iterating a dict or a string in the tally's events loop yields keys or characters. Those are never dicts, so they are modelled as yielding nothing.
- Replay only shows how pace and lines are produced for a selected session. These parts are not part of this model: `list_log_files`, `find_newest_session`, `load_session`, the argument parsing, and the Streamlit UI, pandas charts, `readable_time` and the `subprocess` box of the dashboard.
- The other producers and tools (`server.py`, `simulate.py`, `test_requests.py`) are not part of this model.
