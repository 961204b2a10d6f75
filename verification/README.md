# Minecraft host control: idle monitor and Discord command handler, in Dafny

This project models the two AWS Lambda handlers of a small Minecraft hosting
setup:

- the **idle monitor** (`lambda/monitor/index.py`), run every five minutes. It
  checks that the EC2 host is running and finds its public IP. It asks the
  game server over RCON ("list") how many players are online. It then updates
  a consecutive-zero-player counter kept in an SSM parameter, and it stops
  the instance once the counter reaches `STOP_THRESHOLD` (12);
- the **Discord interaction handler** (`lambda/discord_bot/index.py`). It
  checks the Ed25519 request signature and answers Discord's ping. It routes
  `/mc start|stop|status` (or `start`/`stop`/`status` registered directly) to
  an EC2 start, an EC2 stop, or a describe of the instance. Any other
  interaction type gets a 404.

Every call to AWS, RCON, SSM or the signing library is an input or an output
of a pure function:

- A monitor tick (`Monitor.Tick`) takes an `Observation`, which records what
  each of its calls answered. It also takes the counter value that
  `get_zero_count` returned. It returns the counter values it writes, in
  order, and whether it issued `stop_instances`.
- The Discord handler (`DiscordBot.Handle`) takes the decoded request. It also
  takes the signature check as an abstract function, and the describe
  result. It returns the HTTP response and the instance action it made.

Modules:

| file | module | models |
|---|---|---|
| wrappers.dfy | Wrappers | `Option` |
| decimal.dfy | Decimal | `str(int)` and `int(str)` on ASCII decimal text |
| words.dfy | Words | `str.split(" ")` with a single-character separator, and its inverse `Join` |
| monitor.dfy | Monitor | the RCON reply parser, `get_zero_count`, one `handler` invocation, the counter state machine |
| monitor_runs.dfy | MonitorRuns | sequences of invocations against one stored counter |
| discord_bot.dfy | DiscordBot | `verify_signature`'s early rejects, `handle_command`, `handler` routing |

The monitor runs are checked against an independent reference, `MonitorRuns.Streak`. It counts the idle
checks since the host was last seen not running or with players online, and
it skips checks that learned nothing. Starting from a zero (or missing) counter,
and when every counter read succeeds, the stored counter is proved to equal this
streak modulo 12, and a stop is issued exactly when an idle check brings the
streak to a multiple of 12. A failed read
breaks this: `MonitorRuns.FailedReadKeepsStaleCounter` shows a stop after an
idle streak of one.

In these places the model follows the code, where a reader might expect otherwise:

- An empty status list returns without writing the counter
  (`lambda/monitor/index.py:82-84`). A status call that fails does the same.
  Only a status whose state is not `running` writes 0.
- On a threshold stop the counter is first written as 12 (or more) and
  then written as 0. The model records both writes.
- A player count of ≥1 writes 0 only when the counter read was positive.
- The RCON reply is split at every single space (`split(" ")`), not at runs
  of whitespace. Two spaces in a row give an empty piece, which is not a
  digit string.
- The public IP is treated as missing when it is absent and also when it is
  the empty string, because the code tests `if not public_ip`.

## Model

| member | source | states |
|---|---|---|
| Monitor.PlayerCountReadsThirdWord | lambda/monitor/index.py:42-46 | when the third space-separated piece of the reply is all digits, the count is its decimal value, whatever the first two words and the rest of the reply are |
| Monitor.PlayerCountFallsBackToZero | lambda/monitor/index.py:45-49 | a reply with fewer than three pieces, or whose third piece is not all digits, reads as zero players |
| Monitor.PlayerCountOfListReply | lambda/monitor/index.py:39-46 | the server's "There are N of a max of M players online:" reply is read back as N, for every N and M, so "There are 3 of a max of 20 players online:" gives 3 |
| Words.JoinSplit | lambda/monitor/index.py:42 | the pieces of `split(" ")` contain no space, and joining them with spaces gives the reply back |
| Words.SplitJoin | lambda/monitor/index.py:42 | splitting a space-join of space-free words gives the words back |
| Decimal.FormatNat | lambda/monitor/index.py:58 | `str(n)` is a canonical digit string (no leading zero) whose decimal value is n |
| Decimal.FormatDigitsValue | lambda/monitor/index.py:46 | every canonical digit string is `str` of its value, so the digits-to-number conversion is onto the naturals and one-to-one on canonical text |
| Decimal.ParseFormatInt | lambda/monitor/index.py:54-68 | `int(str(n)) == n` for every integer n, so the counter read back is the counter written |
| Monitor.ZeroCountDefaults | lambda/monitor/index.py:65-73 | a missing parameter, a failed read or non-integer text reads as 0, and any other text reads as its integer value |
| Monitor.ZeroCountReadsBackWrite | lambda/monitor/index.py:54-68 | after `update_zero_count(n)`, `get_zero_count` returns n |
| Monitor.Tick | lambda/monitor/index.py:75-129 | a tick writes at most twice; a stop is always followed by a write of 0; every value written is 0 or the counter read plus one |
| Monitor.TickUnknownChangesNothing | lambda/monitor/index.py:79-109 | a failed status call, an empty status list, a missing public IP or a failed RCON connection writes nothing and stops nothing |
| Monitor.TickNotRunningResets | lambda/monitor/index.py:86-91 | a state other than `running` (including no state name) writes exactly 0 and stops nothing, even when the counter is already 0 |
| Monitor.TickIdleCounts | lambda/monitor/index.py:113-121 | with zero players the first write is old+1; a stop is issued iff old+1 ≥ 12; the counter ends at 0 after a stop and at old+1 otherwise |
| Monitor.TickActiveResets | lambda/monitor/index.py:122-127 | with at least one player there is no stop; the counter ends at 0 when the value read was positive and is unchanged otherwise; a write happens iff that value was positive |
| Monitor.TickStopsOnlyAtThreshold | lambda/monitor/index.py:113-121 | a tick stops the instance iff it saw a running host with zero players and the counter read was at least 11 |
| Monitor.TickKeepsBelowThreshold | lambda/monitor/index.py:113-127 | a counter below 12 before a tick is below 12 after it, whatever the tick observes |
| Monitor.StepKeepsBelowThreshold | lambda/monitor/index.py:102-127 | the stored counter text is below 12 after the writes of one invocation whenever it was before, even when the read fails (the first write of a threshold tick is 12, the last is 0) |
| Monitor.StepFollowsStateMachine | lambda/monitor/index.py:75-127 | with a successful read, the stored counter moves as the counter state machine says: not running or players go to 0, idle counts up and wraps to 0 at 12, unknown stays put |
| MonitorRuns.RunTracksStreak | lambda/monitor/index.py:113-127 | from a zero counter, when every counter read succeeds, after any run of invocations the stored counter equals the idle streak modulo 12 |
| MonitorRuns.LastStepStops | lambda/monitor/index.py:113-120 | when the last invocation's counter read succeeds, it stops the host iff it is idle and the counter left by the earlier ones is at least 11 |
| MonitorRuns.StopExactlyAtMultiple | lambda/monitor/index.py:113-121 | from a zero (or missing) counter, when every counter read succeeds, the last invocation stops the host iff it is idle and brings the streak to a multiple of 12, so a stop needs at least 12 idle checks since the last not-running or players-online check |
| MonitorRuns.StreakRestarts | lambda/monitor/index.py:122-125 | after a check that sees players (or a stopped host) the streak counts only the idle checks that follow it |
| MonitorRuns.FailedReadKeepsStaleCounter | lambda/monitor/index.py:65-127 | a players-online check whose counter read fails reads 0 and writes nothing, so after eleven idle checks, that check and one more idle check stop the host with an idle streak of one |
| MonitorRuns.IdleRunStops | lambda/monitor/index.py:113-121 | n consecutive idle checks whose counter reads succeed, from a zero counter, issue n / 12 stops and leave n mod 12: eleven stop nothing, the twelfth stops once and leaves 0 |
| DiscordBot.Handle | lambda/discord_bot/index.py:55-116 | the status code is 200, 401 or 404; it is 401 iff signature verification fails; an instance action only accompanies a 200 reply to a type-2 interaction |
| DiscordBot.RejectsMissingCredentials | lambda/discord_bot/index.py:13-23 | a missing or empty public key, missing headers, or a missing or empty signature or timestamp header gives the 401 reply with no action, whatever the body |
| DiscordBot.RejectionIgnoresPayload | lambda/discord_bot/index.py:58-63 | an unverified request gets the same 401 reply whatever its payload, and makes no instance call |
| DiscordBot.MissingBodyNotFound | lambda/discord_bot/index.py:66-116 | a verified event with no body key decodes `'{}'`, has no type, and gets the 404 reply with no instance call |
| DiscordBot.PingAcknowledged | lambda/discord_bot/index.py:65-71 | a verified type-1 interaction gets 200 with body `{"type":1}` and no instance call |
| DiscordBot.OtherTypesNotFound | lambda/discord_bot/index.py:113-116 | the reply is 404 iff the request verified and its type is neither 1 nor 2, and then it is the not-found reply with no action |
| DiscordBot.CommandsAnswered | lambda/discord_bot/index.py:102-111 | a verified type-2 interaction always gets 200 with a JSON content-type header and a type-4 message whose content is the command's text, with the command's action; so a failed status query is error text inside a 200 reply |
| DiscordBot.RootWithoutOptionsGetsHint | lambda/discord_bot/index.py:90-96 | `/mc` with no options gets the usage hint and makes no instance call |
| DiscordBot.RootFirstOptionIsTheCommand | lambda/discord_bot/index.py:90-100 | under `/mc` only the first option matters, and when that option is not itself `mc` it behaves as the same name registered as a command of its own |
| DiscordBot.HandleCommand | lambda/discord_bot/index.py:31-53 | the start call is made iff the name is `start`, and the stop call iff the name is `stop` |
| DiscordBot.StartAndStop | lambda/discord_bot/index.py:31-38 | `start` and `stop` each make their own call and reply with their fixed text |
| DiscordBot.UnknownCommandDoesNothing | lambda/discord_bot/index.py:53 | any other name gets "不明なコマンドです。" and no call |
| DiscordBot.StatusReport | lambda/discord_bot/index.py:40-51 | status makes no start or stop call (its one call, the describe, is the `describe` input); its text opens with "ステータス: <state>" and has the IP line (the address, or "None") after it iff the state is `running`; a failed describe gives "ステータス取得エラー: <error>" |

## Left out

- Ed25519 verification (RFC 8032) is the abstract `Verifier` parameter. So is the hex decoding of the key and the signature; any exception in it counts as "not verified".
- EC2, SSM and RCON calls are foreign I/O. They are fields of the monitor's `Observation`, the `Describe` input, and the writes, stop flag and `Action` outputs.
- Logging, `print(json.dumps(event))`, and JSON encoding and decoding are left out. The request arrives with its body already decoded as a `Payload`. The reply body is the `Body` datatype.
- The decoded `Payload` is an input of its own. It is not tied to the raw body text that the signature covers. A body of None stands for an event with no body key: the timestamp alone is signed, and the handler reads no interaction type (`Kind`), as the source does when it decodes `'{}'`, so such an event gets 404.
- An event whose body is JSON null is not modelled. The source signs the timestamp followed by the text "None", and `json.loads(None)` then raises `TypeError`, which the handler does not catch.
- A JSON `type` that is not an integer is modelled as absent. Python would still treat `true` and `1.0` as equal to 1.
- A type-2 body without `data.name`, or with an option that has no `name`, raises `KeyError` in the source. The model's payload always carries command data as names.
- Exceptions from `start_instances` and `stop_instances` are not caught in the source, and the model does not model them.
- The monitor's `{"status": "ok"}` return value has no consumer and is not modelled.
- The initial response text "コマンドエラー" is always overwritten before use and does not appear in the model.
- `str.isdigit` is modelled as ASCII digits only. Python also accepts decimal digits of other scripts, which `int()` converts (so the source counts such players where the model reads 0). It also accepts non-decimal digits such as '²', on which `int()` raises, sending the source to its connection-failure path.
- Monitor.ZeroCountDefaults: `int()` on the stored text is modelled for an optional '-' followed by ASCII digits only. Surrounding whitespace, '+' and '_' separators, which Python also accepts, read as 0 in the model. The monitor itself only ever writes `str(n)`.
- MonitorRuns.RunTracksStreak: the run lemmas assume every counter read succeeds and every `put_parameter` lands. The source swallows a failed write and reads a failed read as 0. With players online, such a read leaves the old counter in place, because nothing is written when the value read is 0.
- MonitorRuns.StopExactlyAtMultiple: holds only when every counter read succeeds. MonitorRuns.FailedReadKeepsStaleCounter shows a stop after a streak of one when a players-online check's read fails.
- MonitorRuns.IdleRunStops: assumes every counter read succeeds. A failed read on an idle check reads 0 and restarts the count at 1.
- MonitorRuns.LastStepStops: assumes the last check's counter read succeeds. A failed read reads 0, so that check cannot stop the host.
- Monitor.Persist: assumes every `put_parameter` lands. The source logs and swallows a failed write. If the reset write after a stop fails, "12" (or more) stays stored.
- Concurrent monitor invocations racing on the read-then-write of the counter are not modelled. Each tick is sequential.
