/** The master side: the registry of live client connections with the operating system each one
    declared, and the broadcast that sends one payload to the clients whose OS is targeted. */
module Master {
  import opened Wire
  import opened Strings

  /** `id(websocket)`: the identity of one live connection. */
  type Handle = nat

  /** What `handle_handshake` does with one decoded message. `'os' in json` is a key test on a dict,
      an element test on a list and a substring test on a string; on a number, a boolean or null it
      raises `TypeError`, and so does `json['os']` on a list or string that passed the test. */
  datatype Declaration = Declares(os: Json) | NoDeclaration | TypeFault

  function HandshakeEffect(message: Json): Declaration
  {
    match message
    case JObject(fields) => if "os" in fields then Declares(fields["os"]) else NoDeclaration
    case JArray(items) => if JString("os") in items then TypeFault else NoDeclaration
    case JString(s) => if Contains(s, "os") then TypeFault else NoDeclaration
    case _ => TypeFault
  }

  /** Only an object with an `os` key declares an OS, and it declares exactly the value under that key. */
  lemma OnlyObjectsDeclare(message: Json)
    ensures HandshakeEffect(message).Declares? <==> message.JObject? && "os" in message.fields
    ensures HandshakeEffect(message).Declares? ==> HandshakeEffect(message).os == message.fields["os"]
    ensures message.JObject? ==> !HandshakeEffect(message).TypeFault?
  {
  }

  /** The payload `{"os": "linux"}` declares `linux`; a bare string mentioning "os" is a fault. */
  lemma HandshakeExamples()
    ensures HandshakeEffect(JObject(map["os" := JString("linux")])) == Declares(JString("linux"))
    ensures HandshakeEffect(JObject(map["file" := JString("a.deb")])) == NoDeclaration
    ensures HandshakeEffect(JString("linux")) == NoDeclaration
    ensures HandshakeEffect(JString("macos")) == TypeFault
  {
    forall i | 0 <= i <= |"linux"| - 2 ensures !OccursAt("linux", "os", i) {
      assert "linux"[i..i + 2][0] == "linux"[i] != 'o';
    }
    assert OccursAt("macos", "os", 3);
  }

  /** Why the message loop of `handle` ended. A non-JSON message is caught outside the loop, so it
      ends the handler; a handshake fault propagates out of it. */
  datatype HandlerExit = StreamEnded | NonJsonMessage(index: nat) | HandshakeFaultAt(index: nat)

  /** The exit of the message loop when it has got past the first `i` messages. */
  function ExitFrom(stream: seq<Inbound>, i: nat): HandlerExit
    decreases |stream| - i
  {
    if i >= |stream| then StreamEnded
    else match stream[i]
      case NonJson(_) => NonJsonMessage(i)
      case Parsed(v) => if HandshakeEffect(v).TypeFault? then HandshakeFaultAt(i) else ExitFrom(stream, i + 1)
  }

  /** Processes message `i` without ending the loop. */
  predicate Survives(m: Inbound)
  {
    m.Parsed? && !HandshakeEffect(m.value).TypeFault?
  }

  /** The first non-JSON message ends the handler: every later message is left unread. */
  lemma {:induction false} NonJsonEndsHandler(stream: seq<Inbound>, i: nat, from: nat)
    requires from <= i < |stream| && stream[i].NonJson?
    requires forall j :: from <= j < i ==> Survives(stream[j])
    ensures ExitFrom(stream, from) == NonJsonMessage(i)
    decreases i - from
  {
    if from < i {
      assert Survives(stream[from]);
      NonJsonEndsHandler(stream, i, from + 1);
    }
  }

  /** The loop ends with the stream exactly when every message survives. */
  lemma {:induction false} StreamEndsOnlyWhenAllSurvive(stream: seq<Inbound>, from: nat)
    requires from <= |stream|
    ensures ExitFrom(stream, from) == StreamEnded <==> forall j :: from <= j < |stream| ==> Survives(stream[j])
    decreases |stream| - from
  {
    if from < |stream| {
      StreamEndsOnlyWhenAllSurvive(stream, from + 1);
    }
  }

  /** The OS value under which `broadcast` counts a client: `client_os[id] in targetOs`. */
  predicate OsTargeted(os: Json, targetOs: set<string>)
  {
    os.JString? && os.s in targetOs
  }

  class WebServer {
    const host: string
    const port: int
    /** `connected_clients`. */
    var connectedClients: set<Handle>
    /** `client_os`, keyed by connection identity. */
    var clientOs: map<Handle, Json>
    /** Every payload handed to each connection's `send`, in order. */
    var outbox: map<Handle, seq<string>>

    /** An OS entry exists only for a registered connection. */
    ghost predicate Valid()
      reads this
    {
      clientOs.Keys <= connectedClients
    }

    constructor (host: string, port: int)
      ensures Valid()
      ensures this.host == host && this.port == port
      ensures connectedClients == {} && clientOs == map[] && outbox == map[]
    {
      this.host := host;
      this.port := port;
      connectedClients := {};
      clientOs := map[];
      outbox := map[];
    }

    /** The payloads sent to connection `h` so far. */
    function Sent(h: Handle): seq<string>
      reads this
    {
      if h in outbox then outbox[h] else []
    }

    /** The clients `broadcast` sends to: connected ones whose recorded OS is targeted. */
    function Recipients(targetOs: set<string>): set<Handle>
      reads this
      requires connectedClients <= clientOs.Keys
    {
      set h | h in connectedClients && OsTargeted(clientOs[h], targetOs)
    }

    /** `broadcast`: the message goes once to every recipient and to no one else, the count is the
        number of recipients, and the registry is left as it was. Every connected client must have
        declared a hashable OS value: a missing entry raises `KeyError`, a list or dict `TypeError`. */
    method Broadcast(message: string, targetOs: set<string>) returns (sent: nat)
      requires Valid()
      requires forall h :: h in connectedClients ==> h in clientOs && Hashable(clientOs[h])
      modifies this
      ensures Valid()
      ensures connectedClients == old(connectedClients) && clientOs == old(clientOs)
      ensures sent == |Recipients(targetOs)|
      ensures forall h :: h in Recipients(targetOs) ==> Sent(h) == old(Sent(h)) + [message]
      ensures forall h :: h !in Recipients(targetOs) ==> Sent(h) == old(Sent(h))
    {
      sent := 0;
      var pending := connectedClients;
      ghost var reached: set<Handle> := {};
      while pending != {}
        invariant pending <= connectedClients
        invariant connectedClients == old(connectedClients) && clientOs == old(clientOs)
        invariant forall h :: h in reached <==> h in connectedClients && h !in pending && OsTargeted(clientOs[h], targetOs)
        invariant sent == |reached|
        invariant forall h :: h in reached ==> Sent(h) == old(Sent(h)) + [message]
        invariant forall h :: h !in reached ==> Sent(h) == old(Sent(h))
        decreases pending
      {
        var client :| client in pending;
        if OsTargeted(clientOs[client], targetOs) {
          outbox := outbox[client := Sent(client) + [message]];
          reached := reached + {client};
          sent := sent + 1;
        }
        pending := pending - {client};
      }
      assert forall h :: h in reached <==> h in Recipients(targetOs);
      assert reached == Recipients(targetOs);
    }

    /** The entry of `handle`: the connection is added to `connected_clients`. */
    method Register(ws: Handle)
      requires Valid()
      modifies this
      ensures Valid()
      ensures connectedClients == old(connectedClients) + {ws}
      ensures clientOs == old(clientOs) && outbox == old(outbox)
    {
      connectedClients := connectedClients + {ws};
    }

    /** `handle_handshake`: an `os` key sets or overwrites the connection's entry, so the last one wins;
        any other message leaves the registry alone. `ok` is false when the test raised `TypeError`. */
    method HandleHandshake(clientId: Handle, json: Json) returns (ok: bool)
      requires Valid() && clientId in connectedClients
      modifies this
      ensures Valid()
      ensures ok == !HandshakeEffect(json).TypeFault?
      ensures HandshakeEffect(json).Declares? ==> clientOs == old(clientOs)[clientId := HandshakeEffect(json).os]
      ensures !HandshakeEffect(json).Declares? ==> clientOs == old(clientOs)
      ensures connectedClients == old(connectedClients) && outbox == old(outbox)
    {
      var effect := HandshakeEffect(json);
      ok := !effect.TypeFault?;
      if effect.Declares? {
        clientOs := clientOs[clientId := effect.os];
      }
    }

    /** The `finally` of `handle`: the connection leaves `connected_clients` and its OS entry, if any, is dropped. */
    method Unregister(ws: Handle)
      requires Valid() && ws in connectedClients
      modifies this
      ensures Valid()
      ensures connectedClients == old(connectedClients) - {ws}
      ensures clientOs == old(clientOs) - {ws}
      ensures outbox == old(outbox)
    {
      connectedClients := connectedClients - {ws};
      clientOs := clientOs - {ws};
    }

    /** `handle`, run to its end on the messages the connection delivers: it registers the connection,
        feeds messages to the handshake until the stream ends, a non-JSON message arrives or a handshake
        faults, and on every one of these exits unregisters it. */
    method Handle(ws: Handle, stream: seq<Inbound>) returns (exit: HandlerExit)
      requires Valid()
      modifies this
      ensures Valid()
      ensures exit == ExitFrom(stream, 0)
      ensures connectedClients == old(connectedClients) - {ws}
      ensures clientOs == old(clientOs) - {ws}
      ensures outbox == old(outbox)
    {
      Register(ws);
      var i := 0;
      exit := StreamEnded;
      while i < |stream|
        invariant 0 <= i <= |stream|
        invariant Valid() && ws in connectedClients
        invariant ExitFrom(stream, 0) == ExitFrom(stream, i)
        invariant connectedClients == old(connectedClients) + {ws}
        invariant clientOs - {ws} == old(clientOs) - {ws}
        invariant outbox == old(outbox)
      {
        match stream[i]
        case NonJson(_) =>
          exit := NonJsonMessage(i);
          break;
        case Parsed(v) =>
          var ok := HandleHandshake(ws, v);
          if !ok {
            exit := HandshakeFaultAt(i);
            break;
          }
        i := i + 1;
      }
      Unregister(ws);
    }
  }
}
