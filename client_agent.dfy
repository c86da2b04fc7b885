/** The client side: one persistent connection to the master, the identification handshake, the
    install directives it receives, and reconnection with a capped exponential backoff. */
module Client {
  import opened Wire
  import opened Strings
  import opened Options
  import Master
  import FileManager

  const RECONNECT_DELAY_INITIAL: real := 5.0
  const RECONNECT_DELAY_MAX: real := 60.0

  /** `min(delay * 1.5, 60.0)`. */
  function NextDelay(d: real): real
  {
    if d * 1.5 <= RECONNECT_DELAY_MAX then d * 1.5 else RECONNECT_DELAY_MAX
  }

  /** The identification message `{"os": currentOS}`. */
  function HandshakeMessage(os: string): Json
  {
    JObject(map["os" := JString(os)])
  }

  /** The client's handshake is the declaration the master records: the master then counts this client
      in a broadcast exactly when its OS is targeted, and for a target taken from the extension table,
      exactly when the extension matches the client's OS. */
  lemma HandshakeDeclaresOs(os: string, targetOs: set<string>, ext: string)
    ensures Master.HandshakeEffect(HandshakeMessage(os)) == Master.Declares(JString(os))
    ensures Master.OsTargeted(JString(os), targetOs) <==> os in targetOs
    ensures Master.OsTargeted(JString(os), FileManager.TargetOsExt(ext)) <==> FileManager.Matches(ext, os)
  {
  }

  /** The directive `{"file": path}` that the master's trigger broadcasts for one file. */
  function DirectiveMessage(path: string): Json
  {
    JObject(map["file" := JString(path)])
  }

  /** The path `handle_message` hands to `install_driver`, if any: the payload must be an object whose
      `file` is a non-empty string. Anything else is dropped; for a payload that is not an object,
      `data.get` raises and the error is caught and logged. */
  function DirectivePath(data: Json): Option<string>
  {
    match data
    case JObject(fields) =>
      if "file" in fields && fields["file"].JString? && fields["file"].s != "" then Some(fields["file"].s) else None
    case _ => None
  }

  /** What a directive yields is exactly its `file` string, never empty; a directive built by the
      master for a non-empty path yields that path back, and one for the empty path yields nothing. */
  lemma DirectiveRoundTrip(data: Json, path: string)
    ensures DirectivePath(data).Some? ==>
      data.JObject? && data.fields["file"] == JString(DirectivePath(data).value) && DirectivePath(data).value != ""
    ensures path != "" ==> DirectivePath(DirectiveMessage(path)) == Some(path)
    ensures DirectivePath(DirectiveMessage("")) == None
    ensures DirectivePath(HandshakeMessage(path)) == None
  {
    assert "file" !in HandshakeMessage(path).fields;
  }

  /** The install requests one received message leads to. */
  function PathsOf(m: Inbound): seq<string>
  {
    match m
    case NonJson(_) => []
    case Parsed(v) => if DirectivePath(v).Some? then [DirectivePath(v).value] else []
  }

  /** The install requests a stream of messages leads to, in order. */
  function DirectivePaths(stream: seq<Inbound>): seq<string>
  {
    if stream == [] then [] else DirectivePaths(stream[..|stream| - 1]) + PathsOf(stream[|stream| - 1])
  }

  /** The requests of two streams in a row are the requests of each, in order. */
  lemma {:induction false} DirectivePathsAppend(a: seq<Inbound>, b: seq<Inbound>)
    ensures DirectivePaths(a + b) == DirectivePaths(a) + DirectivePaths(b)
    decreases |b|
  {
    if b != [] {
      var b' := b[..|b| - 1];
      assert (a + b)[..|a + b| - 1] == a + b';
      DirectivePathsAppend(a, b');
    } else {
      assert a + b == a;
    }
  }

  /** A non-JSON message is skipped and the loop goes on with the next one. */
  lemma NonJsonSkipped(before: seq<Inbound>, raw: string, after: seq<Inbound>)
    ensures DirectivePaths(before + [NonJson(raw)] + after) == DirectivePaths(before) + DirectivePaths(after)
  {
    var front := before + [NonJson(raw)];
    DirectivePathsAppend(front, after);
    DirectivePathsStep(front, |before|);
    assert front[..|before|] == before && front[..|before| + 1] == front;
  }

  /** Reading one more message adds that message's requests at the end. */
  lemma DirectivePathsStep(stream: seq<Inbound>, i: nat)
    requires i < |stream|
    ensures DirectivePaths(stream[..i + 1]) == DirectivePaths(stream[..i]) + PathsOf(stream[i])
  {
    assert stream[..i + 1][..i] == stream[..i];
  }

  /** Every request names a non-empty path, and no message yields more than one. */
  lemma {:induction false} DirectivePathsShape(stream: seq<Inbound>)
    ensures |DirectivePaths(stream)| <= |stream|
    ensures forall k :: 0 <= k < |DirectivePaths(stream)| ==> DirectivePaths(stream)[k] != ""
    decreases |stream|
  {
    if stream != [] {
      DirectivePathsShape(stream[..|stream| - 1]);
      var last := stream[|stream| - 1];
      if last.Parsed? && DirectivePath(last.value).Some? {
        DirectiveRoundTrip(last.value, "");
      }
    }
  }

  // ---------- Backoff ----------

  /** The delay slept after a round: a round that connected has just reset it. */
  function Slept(d: real, connected: bool): real
  {
    if connected then RECONNECT_DELAY_INITIAL else d
  }

  /** The reconnect delay after rounds whose connect attempts went as `connects` says. */
  function DelayAfter(d0: real, connects: seq<bool>): real
  {
    if connects == [] then d0
    else NextDelay(Slept(DelayAfter(d0, connects[..|connects| - 1]), connects[|connects| - 1]))
  }

  /** The sleeps of those rounds, one per round. */
  function SleepSchedule(d0: real, connects: seq<bool>): (r: seq<real>)
    ensures |r| == |connects|
  {
    if connects == [] then []
    else
      var prefix := connects[..|connects| - 1];
      SleepSchedule(d0, prefix) + [Slept(DelayAfter(d0, prefix), connects[|connects| - 1])]
  }

  /** The `k`-th sleep is the delay reached after the first `k` rounds, or the initial delay when round `k` connected. */
  lemma {:induction false} SleepAt(d0: real, connects: seq<bool>, k: nat)
    requires k < |connects|
    ensures SleepSchedule(d0, connects)[k] == Slept(DelayAfter(d0, connects[..k]), connects[k])
    decreases |connects|
  {
    var prefix := connects[..|connects| - 1];
    if k < |connects| - 1 {
      SleepAt(d0, prefix, k);
      assert prefix[..k] == connects[..k];
    }
  }

  /** Starting within [5.0, 60.0], the delay and every sleep stay within [5.0, 60.0]. */
  lemma {:induction false} DelayBounded(d0: real, connects: seq<bool>)
    requires RECONNECT_DELAY_INITIAL <= d0 <= RECONNECT_DELAY_MAX
    ensures RECONNECT_DELAY_INITIAL <= DelayAfter(d0, connects) <= RECONNECT_DELAY_MAX
    ensures forall k :: 0 <= k < |connects| ==>
      RECONNECT_DELAY_INITIAL <= SleepSchedule(d0, connects)[k] <= RECONNECT_DELAY_MAX
    decreases |connects|
  {
    if connects != [] {
      DelayBounded(d0, connects[..|connects| - 1]);
    }
  }

  /** A round that connects sleeps 5.0 whatever the delay had grown to, and leaves 7.5 behind. */
  lemma ResetOnConnect(d0: real, connects: seq<bool>, k: nat)
    requires k < |connects| && connects[k]
    ensures SleepSchedule(d0, connects)[k] == RECONNECT_DELAY_INITIAL
    ensures DelayAfter(d0, connects[..k + 1]) == 7.5
  {
    SleepAt(d0, connects, k);
    assert connects[..k + 1][..k] == connects[..k];
  }

  /** `n` failed rounds in a row. */
  function Failures(n: nat): (r: seq<bool>)
    ensures |r| == n && forall k :: 0 <= k < n ==> !r[k]
  {
    seq(n, _ => false)
  }

  /** `d` multiplied by 1.5, `n` times. */
  function Grown(d: real, n: nat): (r: real)
    ensures d >= 0.0 ==> r >= d
  {
    if n == 0 then d else 1.5 * Grown(d, n - 1)
  }

  function Capped(x: real): real
  {
    if x <= RECONNECT_DELAY_MAX then x else RECONNECT_DELAY_MAX
  }

  /** Under consecutive failures the delay grows by 1.5 per round until it is capped at 60.0. */
  lemma {:induction false} FailuresGrowDelay(d0: real, n: nat)
    requires 0.0 <= d0 <= RECONNECT_DELAY_MAX
    ensures DelayAfter(d0, Failures(n)) == Capped(Grown(d0, n))
  {
    if n > 0 {
      assert Failures(n)[..n - 1] == Failures(n - 1);
      FailuresGrowDelay(d0, n - 1);
    }
  }

  /** From 5.0, the sleeps under consecutive failures are 5.0 * 1.5^k, capped at 60.0. */
  lemma FailureSleeps(n: nat, k: nat)
    requires k < n
    ensures SleepSchedule(RECONNECT_DELAY_INITIAL, Failures(n))[k] == Capped(Grown(RECONNECT_DELAY_INITIAL, k))
  {
    SleepAt(RECONNECT_DELAY_INITIAL, Failures(n), k);
    assert Failures(n)[..k] == Failures(k);
    FailuresGrowDelay(RECONNECT_DELAY_INITIAL, k);
  }

  /** The first eight sleeps under consecutive failures: 5.0, 7.5, 11.25, ... and then the cap. */
  lemma FailureSleepsExample()
    ensures SleepSchedule(RECONNECT_DELAY_INITIAL, Failures(8)) ==
      [5.0, 7.5, 11.25, 16.875, 25.3125, 37.96875, 56.953125, 60.0]
  {
    var s := SleepSchedule(RECONNECT_DELAY_INITIAL, Failures(8));
    var expected := [5.0, 7.5, 11.25, 16.875, 25.3125, 37.96875, 56.953125, 60.0];
    assert Grown(RECONNECT_DELAY_INITIAL, 7) == 85.4296875 by {
      assert Grown(RECONNECT_DELAY_INITIAL, 6) == 56.953125;
    }
    forall k | 0 <= k < 8 ensures s[k] == expected[k] {
      FailureSleeps(8, k);
    }
  }

  // ---------- The agent ----------

  /** How the message stream of a connection ended: the iteration simply stops on a clean close,
      raises `ConnectionClosed` on an abnormal one, or raises another error. */
  datatype StreamEnd = ClosedCleanly | ClosedWithError | ReceiveError

  /** A message the client sent, with the serial number of the connection it went out on. */
  datatype Outgoing = Outgoing(link: nat, payload: Json)

  /** What the world does during one iteration of `run`: whether the connect succeeded, whether the
      handshake got onto the wire, and what the connection then delivered. */
  datatype Round = Round(reachable: bool, handshakeDelivered: bool, stream: seq<Inbound>, end: StreamEnd)

  function Connects(rounds: seq<Round>): (r: seq<bool>)
    ensures |r| == |rounds| && forall k :: 0 <= k < |rounds| ==> r[k] == rounds[k].reachable
  {
    seq(|rounds|, k requires 0 <= k < |rounds| => rounds[k].reachable)
  }

  /** The install requests of the rounds that connected, round by round. */
  function RoundPaths(rounds: seq<Round>): seq<string>
  {
    if rounds == [] then []
    else
      var last := rounds[|rounds| - 1];
      RoundPaths(rounds[..|rounds| - 1]) + (if last.reachable then DirectivePaths(last.stream) else [])
  }

  /** How many of the rounds connected. */
  function ConnectCount(rounds: seq<Round>): nat
  {
    if rounds == [] then 0
    else ConnectCount(rounds[..|rounds| - 1]) + (if rounds[|rounds| - 1].reachable then 1 else 0)
  }

  /** The handshakes the rounds put on the wire, each on the connection its round opened, when
      connections are numbered from `c0`. */
  function HandshakesSent(c0: nat, os: string, rounds: seq<Round>): seq<Outgoing>
  {
    if rounds == [] then []
    else
      var prefix := rounds[..|rounds| - 1];
      var last := rounds[|rounds| - 1];
      HandshakesSent(c0, os, prefix) +
        (if last.reachable && last.handshakeDelivered then [Outgoing(c0 + ConnectCount(prefix), HandshakeMessage(os))] else [])
  }

  /** Every message `run` sends is the handshake, on one of the connections it opened, and no
      connection carries it twice. */
  lemma {:induction false} HandshakeOncePerConnection(c0: nat, os: string, rounds: seq<Round>)
    ensures var sent := HandshakesSent(c0, os, rounds);
      && |sent| <= ConnectCount(rounds)
      && (forall k :: 0 <= k < |sent| ==>
            sent[k].payload == HandshakeMessage(os) && c0 <= sent[k].link < c0 + ConnectCount(rounds))
      && (forall j, k :: 0 <= j < k < |sent| ==> sent[j].link < sent[k].link)
    decreases |rounds|
  {
    if rounds != [] {
      HandshakeOncePerConnection(c0, os, rounds[..|rounds| - 1]);
    }
  }

  /** One more round extends the schedule and the delay by that round's share. */
  lemma RoundStepBackoff(d0: real, rounds: seq<Round>, i: nat)
    requires i < |rounds|
    ensures var before := Connects(rounds[..i]);
      && SleepSchedule(d0, Connects(rounds[..i + 1]))
           == SleepSchedule(d0, before) + [Slept(DelayAfter(d0, before), rounds[i].reachable)]
      && DelayAfter(d0, Connects(rounds[..i + 1])) == NextDelay(Slept(DelayAfter(d0, before), rounds[i].reachable))
  {
    assert Connects(rounds[..i + 1])[..i] == Connects(rounds[..i]);
  }

  /** The part of the agent that `run` changes. */
  datatype Trace = Trace(websocket: Option<nat>, running: bool, reconnectDelay: real, connections: nat,
                         outgoing: seq<Outgoing>, installRequests: seq<string>, sleeps: seq<real>)

  /** One iteration of `run`'s loop on that state, when `os` is the client's operating system. */
  function AfterRound(t: Trace, os: string, round: Round): Trace
  {
    if round.reachable then
      Trace(Some(t.connections), round.end == ClosedCleanly, NextDelay(RECONNECT_DELAY_INITIAL), t.connections + 1,
            t.outgoing + (if round.handshakeDelivered then [Outgoing(t.connections, HandshakeMessage(os))] else []),
            t.installRequests + DirectivePaths(round.stream), t.sleeps + [RECONNECT_DELAY_INITIAL])
    else
      Trace(None, false, NextDelay(t.reconnectDelay), t.connections, t.outgoing, t.installRequests,
            t.sleeps + [t.reconnectDelay])
  }

  /** The iterations of `run`'s loop one after the other. */
  function AfterRounds(t: Trace, os: string, rounds: seq<Round>): Trace
  {
    if rounds == [] then t else AfterRound(AfterRounds(t, os, rounds[..|rounds| - 1]), os, rounds[|rounds| - 1])
  }

  /** The sleeps of `run` are the backoff schedule of the connect outcomes. */
  lemma {:induction false} AfterRoundsBackoff(t: Trace, os: string, rounds: seq<Round>)
    ensures AfterRounds(t, os, rounds).sleeps == t.sleeps + SleepSchedule(t.reconnectDelay, Connects(rounds))
    ensures AfterRounds(t, os, rounds).reconnectDelay == DelayAfter(t.reconnectDelay, Connects(rounds))
    decreases |rounds|
  {
    if rounds != [] {
      var i := |rounds| - 1;
      AfterRoundsBackoff(t, os, rounds[..i]);
      RoundStepBackoff(t.reconnectDelay, rounds, i);
      assert rounds[..i + 1] == rounds;
    } else {
      assert t.sleeps + [] == t.sleeps;
    }
  }

  /** The install requests of `run` are those of the connected rounds, in order. */
  lemma {:induction false} AfterRoundsRequests(t: Trace, os: string, rounds: seq<Round>)
    ensures AfterRounds(t, os, rounds).installRequests == t.installRequests + RoundPaths(rounds)
    decreases |rounds|
  {
    if rounds != [] {
      var i := |rounds| - 1;
      AfterRoundsRequests(t, os, rounds[..i]);
      assert rounds[..i + 1] == rounds;
    } else {
      assert t.installRequests + [] == t.installRequests;
    }
  }

  /** `run` opens one connection per connected round. */
  lemma {:induction false} AfterRoundsConnections(t: Trace, os: string, rounds: seq<Round>)
    ensures AfterRounds(t, os, rounds).connections == t.connections + ConnectCount(rounds)
    decreases |rounds|
  {
    if rounds != [] {
      var i := |rounds| - 1;
      AfterRoundsConnections(t, os, rounds[..i]);
      assert rounds[..i + 1] == rounds;
    }
  }

  /** `run` sends only the connected rounds' handshakes, each on the connection its round opened. */
  lemma {:induction false} AfterRoundsHandshakes(t: Trace, os: string, rounds: seq<Round>)
    ensures AfterRounds(t, os, rounds).outgoing == t.outgoing + HandshakesSent(t.connections, os, rounds)
    decreases |rounds|
  {
    if rounds != [] {
      var i := |rounds| - 1;
      var prefix := rounds[..i];
      AfterRoundsHandshakes(t, os, prefix);
      AfterRoundsConnections(t, os, prefix);
      assert rounds[..i + 1] == rounds;
      var sent := t.outgoing + HandshakesSent(t.connections, os, prefix);
      var extra := if rounds[i].reachable && rounds[i].handshakeDelivered
        then [Outgoing(t.connections + ConnectCount(prefix), HandshakeMessage(os))] else [];
      assert HandshakesSent(t.connections, os, rounds) == HandshakesSent(t.connections, os, prefix) + extra;
      assert AfterRounds(t, os, rounds).outgoing == sent + extra;
    } else {
      assert t.outgoing + [] == t.outgoing;
    }
  }

  class ClientAgent {
    const host: string
    const port: int
    /** `platform.system().lower()`. */
    const currentOs: string
    const uri: string
    /** The open connection, by serial number; `None` before the first connect and after a failed one. */
    var websocket: Option<nat>
    var running: bool
    var reconnectDelay: real
    /** How many connections have been opened. */
    var connections: nat
    /** Every message sent, in order. */
    var outgoing: seq<Outgoing>
    /** Every path handed to `install_driver`, in order. */
    var installRequests: seq<string>
    /** Every delay slept by `run`, in order. */
    var sleeps: seq<real>

    /** The delay stays within [5.0, 60.0]; messages only go out on connections already opened. */
    ghost predicate Valid()
      reads this
    {
      && RECONNECT_DELAY_INITIAL <= reconnectDelay <= RECONNECT_DELAY_MAX
      && (websocket.Some? ==> websocket.value < connections)
      && forall m :: m in outgoing ==> m.link < connections
    }

    /** The fields `run` changes, as one value. */
    function State(): Trace
      reads this
    {
      Trace(websocket, running, reconnectDelay, connections, outgoing, installRequests, sleeps)
    }

    constructor (host: string, port: int, platformName: string)
      ensures Valid()
      ensures this.host == host && this.port == port
      ensures uri == "ws://" + host + ":" + IntToString(port)
      ensures currentOs == Lower(platformName)
      ensures websocket == None && !running && reconnectDelay == RECONNECT_DELAY_INITIAL
      ensures connections == 0 && outgoing == [] && installRequests == [] && sleeps == []
    {
      this.host := host;
      this.port := port;
      currentOs := Lower(platformName);
      uri := "ws://" + host + ":" + IntToString(port);
      websocket := None;
      running := false;
      reconnectDelay := RECONNECT_DELAY_INITIAL;
      connections := 0;
      outgoing := [];
      installRequests := [];
      sleeps := [];
    }

    /** `send`: nothing goes out without a connection; otherwise the message goes out when the
        transport takes it, and `ok` says whether it did. */
    method Send(data: Json, delivered: bool) returns (ok: bool)
      requires Valid()
      modifies this`outgoing
      ensures Valid()
      ensures websocket.None? ==> !ok && outgoing == old(outgoing)
      ensures websocket.Some? ==>
        (ok == delivered && outgoing == old(outgoing) + (if delivered then [Outgoing(websocket.value, data)] else []))
    {
      if websocket.None? {
        return false;
      }
      ok := delivered;
      if delivered {
        outgoing := outgoing + [Outgoing(websocket.value, data)];
      }
    }

    /** `connect`: on success the agent is running on a new connection and the handshake is the first
        message put on it; on failure there is no connection and the agent is not running. */
    method Connect(reachable: bool, handshakeDelivered: bool) returns (connected: bool)
      requires Valid()
      modifies this`websocket, this`running, this`connections, this`outgoing
      ensures Valid()
      ensures connected == reachable
      ensures reachable ==> && websocket == Some(old(connections)) && running
                            && connections == old(connections) + 1
                            && outgoing == old(outgoing) +
                                 (if handshakeDelivered then [Outgoing(old(connections), HandshakeMessage(currentOs))] else [])
                            && forall k :: 0 <= k < |old(outgoing)| ==> outgoing[k].link != websocket.value
      ensures !reachable ==> && websocket == None && !running
                             && connections == old(connections) && outgoing == old(outgoing)
    {
      if !reachable {
        websocket := None;
        running := false;
        return false;
      }
      websocket := Some(connections);
      connections := connections + 1;
      running := true;
      var _ := Send(HandshakeMessage(currentOs), handshakeDelivered);
      connected := true;
    }

    /** `handle_message`: exactly one install request for a valid directive, none otherwise. */
    method HandleMessage(data: Json)
      modifies this`installRequests
      ensures installRequests == old(installRequests) + (if DirectivePath(data).Some? then [DirectivePath(data).value] else [])
    {
      var path := DirectivePath(data);
      if path.Some? {
        installRequests := installRequests + [path.value];
      }
    }

    /** `receive_loop`: every message of the stream is read, non-JSON ones are skipped, valid
        directives become install requests in order. An abnormal close or an error stops the agent;
        a clean close ends the iteration and leaves `running` as it was. Without a connection the
        iteration itself fails and the agent stops. */
    method ReceiveLoop(stream: seq<Inbound>, end: StreamEnd)
      modifies this`installRequests, this`running
      ensures installRequests == old(installRequests) + (if websocket.Some? then DirectivePaths(stream) else [])
      ensures running == (websocket.Some? && end == ClosedCleanly && old(running))
    {
      if websocket.None? {
        running := false;
        return;
      }
      var i := 0;
      while i < |stream|
        invariant 0 <= i <= |stream|
        invariant installRequests == old(installRequests) + DirectivePaths(stream[..i])
        invariant running == old(running)
      {
        DirectivePathsStep(stream, i);
        ghost var requested := installRequests;
        if stream[i].Parsed? {
          HandleMessage(stream[i].value);
        }
        assert installRequests == requested + PathsOf(stream[i]);
        i := i + 1;
      }
      assert stream[..|stream|] == stream;
      if end != ClosedCleanly {
        running := false;
      }
    }

    /** One iteration of `run`'s loop: connect; on success reset the delay and run the receive loop;
        then sleep the current delay and grow it. */
    method RunRound(round: Round)
      requires Valid()
      modifies this
      ensures Valid()
      ensures State() == AfterRound(old(State()), currentOs, round)
    {
      var connected := Connect(round.reachable, round.handshakeDelivered);
      if connected {
        reconnectDelay := RECONNECT_DELAY_INITIAL;
        ReceiveLoop(round.stream, round.end);
      }
      sleeps := sleeps + [reconnectDelay];
      reconnectDelay := NextDelay(reconnectDelay);
    }

    /** `run`, for as many iterations as `rounds` has: the sleeps follow the backoff schedule of the
        rounds' connect outcomes, the install requests are those of the connected rounds in order, and
        the only messages sent are handshakes. */
    method Run(rounds: seq<Round>)
      requires Valid()
      modifies this
      ensures Valid()
      ensures State() == AfterRounds(old(State()), currentOs, rounds)
      ensures sleeps == old(sleeps) + SleepSchedule(old(reconnectDelay), Connects(rounds))
      ensures reconnectDelay == DelayAfter(old(reconnectDelay), Connects(rounds))
      ensures installRequests == old(installRequests) + RoundPaths(rounds)
      ensures connections == old(connections) + ConnectCount(rounds)
      ensures outgoing == old(outgoing) + HandshakesSent(old(connections), currentOs, rounds)
    {
      ghost var t0 := State();
      var i := 0;
      while i < |rounds|
        invariant 0 <= i <= |rounds|
        invariant Valid()
        invariant State() == AfterRounds(t0, currentOs, rounds[..i])
      {
        assert rounds[..i + 1][..i] == rounds[..i];
        RunRound(rounds[i]);
        i := i + 1;
      }
      assert rounds[..|rounds|] == rounds;
      AfterRoundsBackoff(t0, currentOs, rounds);
      AfterRoundsRequests(t0, currentOs, rounds);
      AfterRoundsConnections(t0, currentOs, rounds);
      AfterRoundsHandshakes(t0, currentOs, rounds);
    }
  }
}
