/**
 One invocation of the idle monitor (lambda/monitor/index.py `handler`).

 The monitor runs on a schedule. It asks the cloud provider whether the game
 host is running, looks up the host's public address, asks the game server's
 remote console how many players are online, and keeps a count of consecutive
 zero-player checks in a parameter store. When the count reaches
 `Threshold` the host is stopped and the count starts again from zero.

 Every external call is an input here: an `Observation` says what each call
 answered this time, and the tick returns the writes it makes to the stored
 counter (in order) and whether it issued a stop.
 */
module Monitor {
  import opened Wrappers
  import opened Decimal
  import opened Words

  /** STOP_THRESHOLD: twelve checks, five minutes apart, make an idle hour. */
  const Threshold: nat := 12

  /** What the instance-status query answered. */
  datatype StatusCheck =
    | StatusCallFailed                      // the describe-instance-status call raised
    | NoStatuses                            // the call answered with an empty status list
    | FirstStatus(stateName: Option<string>) // state name of the first status, if it has one

  /** What the remote console answered to the "list" command. */
  datatype Console = ConnectionFailed | Reply(text: string)

  /**
   The answers of one invocation's external calls. `publicIp` is None when the
   address lookup failed or found no instance or no address. `counterReadFails`
   is true when reading the stored counter raised something other than
   "parameter not found".
   */
  datatype Observation = Observation(
    status: StatusCheck,
    publicIp: Option<string>,
    console: Console,
    counterReadFails: bool)

  /** The stored counter parameter: absent, or the text last written. */
  datatype Stored = Missing | Text(value: string)

  /** What one tick does to the outside world. */
  datatype Effects = Effects(writes: seq<int>, stopIssued: bool)

  /** How a tick's observation bears on the idle streak. */
  datatype Kind =
    | Unknown     // nothing reliable was learned: no status, no address, or no console
    | NotRunning  // the host is in some state other than running
    | Idle        // running, reachable, and zero players online
    | Active      // running, reachable, and at least one player online

  /**
   The player count in a console reply: the reply is split at every single
   space and the third piece, when it is all digits, is the count. Anything
   else reads as zero players.
   */
  function PlayerCount(response: string): nat {
    var parts := Split(response, ' ');
    if |parts| >= 3 && IsDigits(parts[2]) then DigitsValue(parts[2]) else 0
  }

  /** A reply of the form "<word> <word> <digits>…" carries the value of its digits. */
  lemma PlayerCountReadsThirdWord(w0: string, w1: string, d: string, tail: string)
    requires ' ' !in w0 && ' ' !in w1
    requires IsDigits(d)
    requires tail == "" || tail[0] == ' '
    ensures PlayerCount(w0 + " " + w1 + " " + d + tail) == DigitsValue(d)
  {
    var r := d + tail;
    assert Split(r, ' ')[0] == d by {
      assert ' ' !in d by {
        assert forall i :: 0 <= i < |d| ==> IsDigit(d[i]);
      }
      if tail == "" {
        SplitWhole(d, ' ');
        assert r == d;
      } else {
        SplitWord(d, tail[1..], ' ');
        assert r == d + [' '] + tail[1..];
      }
    }
    var s := w0 + [' '] + w1 + [' '] + r;
    assert |Split(s, ' ')| >= 3 && Split(s, ' ')[2] == d by {
      SplitTwoWords(w0, w1, r, ' ');
    }
    assert w0 + " " + w1 + " " + d + tail == s;
  }

  /** A reply with fewer than three words, or whose third word is not all digits, reads as zero. */
  lemma PlayerCountFallsBackToZero(response: string)
    requires |Split(response, ' ')| < 3 || !IsDigits(Split(response, ' ')[2])
    ensures PlayerCount(response) == 0
  {
  }

  /** The server's "list" reply for n players is read back as n. */
  lemma PlayerCountOfListReply(n: nat, max: nat)
    ensures PlayerCount("There are " + FormatNat(n) + " of a max of " + FormatNat(max) + " players online:") == n
  {
    var count, most := FormatNat(n), FormatNat(max);
    var lead, mid, last := "There are ", " of a max of ", " players online:";
    var tail := mid + most + last;
    assert lead + count + mid + most + last == lead + count + tail;
    assert lead == "There" + " " + "are" + " ";
    assert ' ' !in "There" && ' ' !in "are" && tail[0] == ' ';
    PlayerCountReadsThirdWord("There", "are", count, tail);
  }

  /**
   get_zero_count: the counter as the tick reads it. A missing parameter, a
   failed read, or text that is not an integer all read as 0.
   */
  function ZeroCount(stored: Stored, readFails: bool): int {
    if readFails then 0
    else match stored
      case Missing => 0
      case Text(t) => GetOr(ParseInt(t), 0)
  }

  /** The counter that a successful read of the store yields. */
  function StoredCounter(stored: Stored): int {
    ZeroCount(stored, false)
  }

  lemma ZeroCountDefaults(stored: Stored, readFails: bool)
    ensures readFails || stored.Missing? ==> ZeroCount(stored, readFails) == 0
    ensures stored.Text? && ParseInt(stored.value).None? ==> ZeroCount(stored, readFails) == 0
    ensures !readFails && stored.Text? && ParseInt(stored.value).Some? ==>
              ZeroCount(stored, readFails) == ParseInt(stored.value).value
  {
  }

  /** update_zero_count stores `str(n)`; reading it back gives n. */
  lemma ZeroCountReadsBackWrite(n: int)
    ensures StoredCounter(Text(FormatInt(n))) == n
  {
    ParseFormatInt(n);
  }

  predicate HasAddress(ip: Option<string>) {
    ip.Some? && ip.value != ""
  }

  function Classify(obs: Observation): Kind {
    match obs.status
    case StatusCallFailed => Unknown
    case NoStatuses => Unknown
    case FirstStatus(name) =>
      if name != Some("running") then NotRunning
      else if !HasAddress(obs.publicIp) then Unknown
      else match obs.console
        case ConnectionFailed => Unknown
        case Reply(text) => if PlayerCount(text) == 0 then Idle else Active
  }

  /**
   The handler, given what each external call answers and the counter value
   get_zero_count returned. Only the counter-update and stop paths use
   `current`.
   */
  function Tick(obs: Observation, current: int): (e: Effects)
    ensures |e.writes| <= 2
    ensures e.stopIssued ==> |e.writes| == 2 && e.writes[1] == 0
    ensures forall i :: 0 <= i < |e.writes| ==> e.writes[i] == 0 || e.writes[i] == current + 1
  {
    match obs.status
    case StatusCallFailed => Effects([], false)
    case NoStatuses => Effects([], false)
    case FirstStatus(name) =>
      if name != Some("running") then Effects([0], false)
      else if !HasAddress(obs.publicIp) then Effects([], false)
      else match obs.console
        case ConnectionFailed => Effects([], false)
        case Reply(text) =>
          if PlayerCount(text) == 0 then
            var next := current + 1;
            if next >= Threshold then Effects([next, 0], true) else Effects([next], false)
          else if current > 0 then Effects([0], false)
          else Effects([], false)
  }

  /** The counter after a tick's writes, given the counter before. */
  function FinalCounter(current: int, e: Effects): int {
    if |e.writes| == 0 then current else e.writes[|e.writes| - 1]
  }

  /** The store after a tick's writes have landed. */
  function Persist(stored: Stored, e: Effects): Stored {
    if |e.writes| == 0 then stored else Text(FormatInt(e.writes[|e.writes| - 1]))
  }

  /** One invocation against the store: read the counter, then tick. */
  function Step(obs: Observation, stored: Stored): Effects {
    Tick(obs, ZeroCount(stored, obs.counterReadFails))
  }

  /** A tick that learns nothing reliable leaves the counter alone and stops nothing. */
  lemma TickUnknownChangesNothing(obs: Observation, current: int)
    requires Classify(obs) == Unknown
    ensures Tick(obs, current) == Effects([], false)
  {
  }

  /** A host found in any state but running has its counter written to 0, even when it was 0 already. */
  lemma TickNotRunningResets(obs: Observation, current: int)
    requires Classify(obs) == NotRunning
    ensures Tick(obs, current) == Effects([0], false)
  {
  }

  /**
   An idle observation writes current+1; reaching the threshold issues one
   stop in the same tick and then writes 0.
   */
  lemma TickIdleCounts(obs: Observation, current: int)
    requires Classify(obs) == Idle
    ensures Tick(obs, current).writes[0] == current + 1
    ensures Tick(obs, current).stopIssued <==> current + 1 >= Threshold
    ensures FinalCounter(current, Tick(obs, current)) == if current + 1 >= Threshold then 0 else current + 1
  {
  }

  /** Players online bring the counter to 0, with a write only when it was positive. */
  lemma TickActiveResets(obs: Observation, current: int)
    requires Classify(obs) == Active
    ensures !Tick(obs, current).stopIssued
    ensures FinalCounter(current, Tick(obs, current)) == if current > 0 then 0 else current
    ensures |Tick(obs, current).writes| > 0 <==> current > 0
  {
  }

  /** Only an idle observation on a counter one short of the threshold (or above) stops the host. */
  lemma TickStopsOnlyAtThreshold(obs: Observation, current: int)
    ensures Tick(obs, current).stopIssued <==> Classify(obs) == Idle && current + 1 >= Threshold
  {
  }

  /** A counter below the threshold stays below it, whatever the tick observes. */
  lemma TickKeepsBelowThreshold(obs: Observation, current: int)
    requires current < Threshold
    ensures FinalCounter(current, Tick(obs, current)) < Threshold
  {
  }

  /**
   The same invariant for the stored text: below the threshold after the writes
   of one invocation (the first write of a threshold tick is 12; the last is 0).
   */
  lemma StepKeepsBelowThreshold(obs: Observation, stored: Stored)
    requires StoredCounter(stored) < Threshold
    ensures StoredCounter(Persist(stored, Step(obs, stored))) < Threshold
  {
    var current := ZeroCount(stored, obs.counterReadFails);
    var e := Tick(obs, current);
    assert current < Threshold;
    TickKeepsBelowThreshold(obs, current);
    if |e.writes| > 0 {
      ZeroCountReadsBackWrite(e.writes[|e.writes| - 1]);
    }
  }

  /**
   The counter as a state machine over 0..Threshold-1: not running or players
   online go to 0, an idle check counts up and wraps to 0 at the threshold,
   and an unknown check stays put.
   */
  function NextCounter(k: Kind, c: int): int {
    match k
    case Unknown => c
    case NotRunning => 0
    case Active => if c > 0 then 0 else c
    case Idle => if c + 1 >= Threshold then 0 else c + 1
  }

  /** One invocation with a successful read moves the stored counter as the state machine says. */
  lemma StepFollowsStateMachine(obs: Observation, stored: Stored)
    requires !obs.counterReadFails
    ensures StoredCounter(Persist(stored, Step(obs, stored))) == NextCounter(Classify(obs), StoredCounter(stored))
    ensures Step(obs, stored).stopIssued <==> Classify(obs) == Idle && StoredCounter(stored) + 1 >= Threshold
  {
    var c := StoredCounter(stored);
    var e := Tick(obs, c);
    assert Step(obs, stored) == e;
    if |e.writes| > 0 {
      ZeroCountReadsBackWrite(e.writes[|e.writes| - 1]);
    }
    TickStopsOnlyAtThreshold(obs, c);
    match Classify(obs)
    case Unknown => TickUnknownChangesNothing(obs, c);
    case NotRunning => TickNotRunningResets(obs, c);
    case Active => TickActiveResets(obs, c);
    case Idle => TickIdleCounts(obs, c);
  }
}
