/** What Robot::Impl sees of the network in src/network.h: a stream of robot states over UDP, replies by command id
    over TCP. What the network will do is given by scripts, over which every property is quantified. */
module RobotLink {
  import opened RealMath
  import opened Framing
  import opened RobotTypes

  /** Pause: nothing is there for the moment. Short: a datagram of the wrong size. Timeout: nothing comes in time. */
  datatype UdpEvent = Datagram(state: RobotState) | Pause | Short | Timeout

  /** Interrupted: the socket reports an error. Closed: the other side has closed the connection, for good; a read does not
      notice, and finds nothing. Malformed: a message with a size that cannot be. */
  datatype TcpEvent = Response(id: Word, status: Byte) | Nothing | Interrupted | Closed | Malformed

  datatype Request =
    | MoveRequest(id: Word, controller: RequestedController, generator: RequestedGenerator)
    | StopMoveRequest(id: Word)

  // ----- Which state of a script is accepted -----

  /** The states that are already there. */
  function Batch(udp: seq<UdpEvent>): seq<RobotState> {
    if udp != [] && udp[0].Datagram? then [udp[0].state] + Batch(udp[1..]) else []
  }

  /** What comes after them. */
  function AfterBatch(udp: seq<UdpEvent>): (rest: seq<UdpEvent>)
    ensures |rest| + |Batch(udp)| <= |udp|
  {
    if udp != [] && udp[0].Datagram? then AfterBatch(udp[1..])
    else if udp != [] && udp[0].Pause? then udp[1..]
    else udp
  }

  /** The state with the highest id above the given one. */
  function Newest(states: seq<RobotState>, id: nat): Option<RobotState> {
    if states == [] then None
    else
      var n := |states| - 1;
      match Newest(states[..n], id)
      case None => if states[n].messageId > id then Some(states[n]) else None
      case Some(s) => if states[n].messageId > s.messageId then Some(states[n]) else Some(s)
  }

  /** The first state above the given id to arrive. */
  function FirstNewer(udp: seq<UdpEvent>, id: nat): (r: Result<RobotState>)
    ensures r.Err? ==> r.failure == NetworkFailure || r.failure == ProtocolFailure
  {
    if udp == [] then Err(NetworkFailure)
    else
      match udp[0]
      case Datagram(s) => if s.messageId > id then Ok(s) else FirstNewer(udp[1..], id)
      case Pause => FirstNewer(udp[1..], id)
      case Short => Err(ProtocolFailure)
      case Timeout => Err(NetworkFailure)
  }

  /** What is left of the script then. */
  function AfterFirstNewer(udp: seq<UdpEvent>, id: nat): (rest: seq<UdpEvent>)
    ensures |rest| <= |udp| && (FirstNewer(udp, id).Ok? ==> |rest| < |udp|)
  {
    if udp == [] then []
    else if udp[0].Pause? || (udp[0].Datagram? && udp[0].state.messageId <= id) then AfterFirstNewer(udp[1..], id)
    else udp[1..]
  }

  function Acceptable(udp: seq<UdpEvent>, id: nat): (r: Result<RobotState>)
    ensures r.Err? ==> r.failure == NetworkFailure || r.failure == ProtocolFailure
  {
    match Newest(Batch(udp), id)
    case Some(s) => Ok(s)
    case None => FirstNewer(AfterBatch(udp), id)
  }

  function AfterAcceptable(udp: seq<UdpEvent>, id: nat): (rest: seq<UdpEvent>)
    ensures |rest| <= |udp| && (Acceptable(udp, id).Ok? ==> |rest| < |udp|)
  {
    if Newest(Batch(udp), id).Some? then AfterBatch(udp) else AfterFirstNewer(AfterBatch(udp), id)
  }

  lemma {:induction false} NewestIsNewest(states: seq<RobotState>, id: nat)
    ensures Newest(states, id).None? <==> forall s :: s in states ==> s.messageId <= id
    ensures Newest(states, id).Some? ==>
      var newest := Newest(states, id).value;
      newest in states && newest.messageId > id && forall s :: s in states ==> s.messageId <= newest.messageId
  {
    if states != [] {
      var n := |states| - 1;
      NewestIsNewest(states[..n], id);
      assert states == states[..n] + [states[n]];
    }
  }

  lemma {:induction false} FirstNewerIsFirst(udp: seq<UdpEvent>, id: nat) returns (k: nat)
    requires FirstNewer(udp, id).Ok?
    ensures k < |udp| && udp[k] == Datagram(FirstNewer(udp, id).value) && udp[k].state.messageId > id
    ensures forall i :: 0 <= i < k ==> udp[i].Pause? || (udp[i].Datagram? && udp[i].state.messageId <= id)
    ensures AfterFirstNewer(udp, id) == udp[k + 1..]
  {
    if udp[0].Datagram? && udp[0].state.messageId > id {
      k := 0;
    } else {
      var k' := FirstNewerIsFirst(udp[1..], id);
      k := k' + 1;
    }
  }

  /** The batch is the longest run of datagrams at the front; then one pause, if there is one, is used up. */
  lemma {:induction false} BatchIsFront(udp: seq<UdpEvent>)
    ensures |Batch(udp)| <= |udp| && forall i :: 0 <= i < |Batch(udp)| ==> udp[i] == Datagram(Batch(udp)[i])
    ensures |Batch(udp)| < |udp| ==> !udp[|Batch(udp)|].Datagram?
    ensures AfterBatch(udp) == var rest := udp[|Batch(udp)|..]; if rest != [] && rest[0].Pause? then rest[1..] else rest
  {
    if udp != [] && udp[0].Datagram? {
      BatchIsFront(udp[1..]);
      assert udp[1..][|Batch(udp[1..])|..] == udp[|Batch(udp)|..];
    }
  }

  /** Waiting fails where the events in front bring no newer state: at the end, at a timeout, or at a short datagram. */
  lemma {:induction false} WaitingFails(udp: seq<UdpEvent>, id: nat) returns (k: nat)
    requires FirstNewer(udp, id).Err?
    ensures k <= |udp| && AllOlder(udp[..k], id)
    ensures if k == |udp| then FirstNewer(udp, id) == Err(NetworkFailure) && AfterFirstNewer(udp, id) == []
            else
              && AfterFirstNewer(udp, id) == udp[k + 1..]
              && FirstNewer(udp, id).failure == (if udp[k].Short? then ProtocolFailure else NetworkFailure)
              && (udp[k].Short? || udp[k].Timeout?)
  {
    if udp == [] || udp[0].Short? || udp[0].Timeout? {
      k := 0;
    } else {
      k := WaitingFails(udp[1..], id);
      k := k + 1;
      assert udp[..k] == [udp[0]] + udp[1..][..k - 1];
    }
  }

  /** The first state above the given id, with nothing in front of it that would end the waiting. */
  ghost predicate ArrivesFirst(s: RobotState, udp: seq<UdpEvent>, id: nat) {
    exists k :: 0 <= k < |udp| && udp[k] == Datagram(s) && AllOlder(udp[..k], id)
  }

  predicate AllOlder(udp: seq<UdpEvent>, id: nat) {
    forall e :: e in udp ==> e.Pause? || (e.Datagram? && e.state.messageId <= id)
  }

  /** The accepted state is newer than the last; it is the newest of those that are already there if one of them is newer. */
  lemma AcceptedIsNewer(udp: seq<UdpEvent>, id: nat)
    requires Acceptable(udp, id).Ok?
    ensures var s := Acceptable(udp, id).value;
            && s.messageId > id
            && (if exists t :: t in Batch(udp) && t.messageId > id
                then s in Batch(udp) && forall t :: t in Batch(udp) ==> t.messageId <= s.messageId
                else ArrivesFirst(s, AfterBatch(udp), id))
  {
    NewestIsNewest(Batch(udp), id);
    if Newest(Batch(udp), id).None? {
      var rest := AfterBatch(udp);
      var k := FirstNewerIsFirst(rest, id);
      assert rest[k] == Datagram(Acceptable(udp, id).value) && AllOlder(rest[..k], id);
    }
    hide Newest, FirstNewer, Batch, AfterBatch;
  }

  // ----- What one read of the connection brings -----

  function ReadFailure(tcp: seq<TcpEvent>): (f: Option<Failure>)
    ensures f.Some? ==> f.value == NetworkFailure || f.value == ProtocolFailure
  {
    if tcp == [] then None
    else
      match tcp[0]
      case Interrupted => Some(NetworkFailure)
      case Malformed => Some(ProtocolFailure)
      case _ => None
  }

  function AfterRead(tcp: seq<TcpEvent>, received: map<Word, Byte>): map<Word, Byte> {
    if tcp != [] && tcp[0].Response? && tcp[0].id !in received then received[tcp[0].id := tcp[0].status] else received
  }

  /** Whether a response is there after one read and its handler does not object. */
  function Polled(tcp: seq<TcpEvent>, received: map<Word, Byte>, id: Word, handler: Byte -> Option<Failure>): Result<bool> {
    var failure, after := ReadFailure(tcp), AfterRead(tcp, received);
    if failure.Some? then Err(failure.value)
    else if id !in after then Ok(false)
    else if handler(after[id]).Some? then Err(handler(after[id]).value)
    else Ok(true)
  }

  /** Nothing more will come. */
  predicate Silent(tcp: seq<TcpEvent>) {
    tcp == [] || tcp[0].Closed?
  }

  function Tail(tcp: seq<TcpEvent>): seq<TcpEvent> {
    if Silent(tcp) then tcp else tcp[1..]
  }

  /** How many responses under an id are still to come. */
  function Replies(tcp: seq<TcpEvent>, id: Word): nat {
    if Silent(tcp) then 0 else (if tcp[0].Response? && tcp[0].id == id then 1 else 0) + Replies(tcp[1..], id)
  }

  /** The response a blocking receive ends with. */
  function Awaited(tcp: seq<TcpEvent>, received: map<Word, Byte>, id: Word): (r: Result<Byte>)
    ensures r.Err? ==> r.failure == NetworkFailure || r.failure == ProtocolFailure
    ensures id in received ==> r.Err? || r.value == received[id]
  {
    var failure, after := ReadFailure(tcp), AfterRead(tcp, received);
    if failure.Some? then Err(failure.value)
    else if id in after then Ok(after[id])
    else if Silent(tcp) then Err(NetworkFailure)
    else Awaited(tcp[1..], after, id)
  }

  /** What is left of the script, and of the responses, once the awaited one has been handed over. */
  function AfterAwaited(tcp: seq<TcpEvent>, received: map<Word, Byte>, id: Word): (seq<TcpEvent>, map<Word, Byte>) {
    var after := AfterRead(tcp, received);
    if id in after || Silent(tcp) then (Tail(tcp), after - {id}) else AfterAwaited(tcp[1..], after, id)
  }

  /** What looking at the connection, without taking anything from it, reports. */
  predicate Broken(tcp: seq<TcpEvent>) {
    tcp != [] && (tcp[0].Closed? || tcp[0].Interrupted?)
  }

  /** What a cycle that sends nothing observes. */
  function Observed(tcp: seq<TcpEvent>, udp: seq<UdpEvent>, id: nat): Result<RobotState> {
    if Broken(tcp) then Err(NetworkFailure) else Acceptable(udp, id)
  }

  /** Whether the next datagram or request cannot be sent. */
  predicate NextFails(sendFaults: seq<bool>) {
    sendFaults != [] && sendFaults[0]
  }

  function AfterNext(sendFaults: seq<bool>): seq<bool> {
    if sendFaults == [] then [] else sendFaults[1..]
  }

  class Link {
    var udp: seq<UdpEvent>
    var tcp: seq<TcpEvent>
    var sendFaults: seq<bool>
    var commandId: Word
    var received: map<Word, Byte>
    /** The datagrams and requests sent. */
    var sent: seq<RobotCommand>
    var requests: seq<Request>

    constructor (udp: seq<UdpEvent>, tcp: seq<TcpEvent>, sendFaults: seq<bool>)
      ensures this.udp == udp && this.tcp == tcp && this.sendFaults == sendFaults
      ensures commandId == 0 && received == map[] && sent == [] && requests == []
    {
      this.udp, this.tcp, this.sendFaults := udp, tcp, sendFaults;
      commandId, received, sent, requests := 0, map[], [], [];
    }

    method UdpReceive() returns (r: Option<RobotState>)
      modifies `udp
      ensures r.Some? <==> old(udp) != [] && old(udp)[0].Datagram?
      ensures r.Some? ==> r.value == old(udp)[0].state && udp == old(udp)[1..]
      ensures r.None? ==> Batch(old(udp)) == [] && udp == AfterBatch(old(udp))
    {
      if udp == [] || udp[0].Short? || udp[0].Timeout? {
        return None;
      }
      r := if udp[0].Datagram? then Some(udp[0].state) else None;
      udp := udp[1..];
    }

    /** The next datagram; failure is final for this call, not for the connection. */
    method UdpBlockingReceive() returns (r: Result<RobotState>)
      modifies `udp
      ensures r.Ok? ==> |udp| < |old(udp)|
      ensures |udp| <= |old(udp)|
      ensures forall id ::
                FirstNewer(old(udp), id) == (if r.Ok? && r.value.messageId <= id then FirstNewer(udp, id) else r)
      ensures forall id ::
                AfterFirstNewer(old(udp), id) == if r.Ok? && r.value.messageId <= id then AfterFirstNewer(udp, id) else udp
    {
      while udp != [] && udp[0].Pause?
        invariant |udp| <= |old(udp)|
        invariant forall id :: FirstNewer(old(udp), id) == FirstNewer(udp, id)
        invariant forall id :: AfterFirstNewer(old(udp), id) == AfterFirstNewer(udp, id)
        decreases |udp|
      {
        udp := udp[1..];
      }
      if udp == [] {
        return Err(NetworkFailure);
      }
      var next := udp[0];
      udp := udp[1..];
      match next
      case Datagram(s) => r := Ok(s);
      case Short => r := Err(ProtocolFailure);
      case Timeout => r := Err(NetworkFailure);
    }

    method UdpSend(command: RobotCommand) returns (r: Result<Unit>)
      modifies `sendFaults, `sent
      ensures r == if NextFails(old(sendFaults)) then Err(NetworkFailure) else Ok(Unit)
      ensures sent == old(sent) + (if r.Ok? then [command] else []) && sendFaults == AfterNext(old(sendFaults))
    {
      var fault := TakeFault();
      if fault {
        return Err(NetworkFailure);
      }
      sent := sent + [command];
      r := Ok(Unit);
    }

    method TakeFault() returns (fault: bool)
      modifies `sendFaults
      ensures fault == NextFails(old(sendFaults)) && sendFaults == AfterNext(old(sendFaults))
    {
      if sendFaults == [] {
        return false;
      }
      fault := sendFaults[0];
      sendFaults := sendFaults[1..];
    }

    method TcpThrowIfConnectionClosed() returns (r: Result<Unit>)
      ensures r == if Broken(tcp) then Err(NetworkFailure) else Ok(Unit)
    {
      r := if Broken(tcp) then Err(NetworkFailure) else Ok(Unit);
    }

    method TcpSendRequest(request: Word -> Request) returns (r: Result<Word>)
      modifies `sendFaults, `commandId, `requests
      ensures commandId == (old(commandId) + 1) % 0x1_0000_0000
      ensures r.Ok? ==> r.value == old(commandId) && requests == old(requests) + [request(r.value)]
      ensures r.Err? ==> r.failure == NetworkFailure && requests == old(requests)
      ensures r.Err? <==> NextFails(old(sendFaults))
    {
      var id := commandId;
      commandId := (commandId + 1) % 0x1_0000_0000;
      var fault := TakeFault();
      if fault {
        return Err(NetworkFailure);
      }
      requests := requests + [request(id)];
      r := Ok(id);
    }

    /** Takes one message from the connection; the first response under an id is kept. */
    method TcpRead() returns (r: Option<Failure>)
      modifies `tcp, `received
      ensures r == ReadFailure(old(tcp)) && tcp == Tail(old(tcp)) && received == AfterRead(old(tcp), old(received))
    {
      if Silent(tcp) {
        return None;
      }
      var event := tcp[0];
      tcp := tcp[1..];
      match event
      case Response(id, status) =>
        if id !in received {
          received := received[id := status];
        }
        r := None;
      case Nothing => r := None;
      case Interrupted => r := Some(NetworkFailure);
      case Malformed => r := Some(ProtocolFailure);
    }

    /** Whether the response has come in; a failure of the handler leaves it in place. */
    method TcpReceiveResponse(id: Word, handler: Byte -> Option<Failure>) returns (r: Result<bool>)
      modifies `tcp, `received
      ensures tcp == Tail(old(tcp))
      ensures r == Polled(old(tcp), old(received), id, handler)
      ensures var after := AfterRead(old(tcp), old(received));
              received == if r == Ok(true) then after - {id} else after
      ensures r.Ok? ==> id !in received
      ensures r == Ok(true) && id !in old(received) ==> Replies(tcp, id) + 1 == Replies(old(tcp), id)
      ensures r == Ok(false) ==> Replies(tcp, id) == Replies(old(tcp), id)
    {
      var failure := TcpRead();
      if failure.Some? {
        return Err(failure.value);
      }
      if id !in received {
        return Ok(false);
      }
      failure := handler(received[id]);
      if failure.Some? {
        return Err(failure.value);
      }
      received := received - {id};
      r := Ok(true);
    }

    /** Waits for the response; the connection is given up when nothing more comes. */
    method TcpBlockingReceiveResponse(id: Word) returns (r: Result<Byte>)
      modifies `tcp, `received
      ensures r == Awaited(old(tcp), old(received), id)
      ensures r.Ok? ==> id !in received && (tcp, received) == AfterAwaited(old(tcp), old(received), id)
      ensures r.Ok? && id !in old(received) ==> Replies(tcp, id) + 1 == Replies(old(tcp), id)
    {
      while true
        invariant id !in old(received) ==> id !in received && Replies(tcp, id) == Replies(old(tcp), id)
        invariant Awaited(tcp, received, id) == Awaited(old(tcp), old(received), id)
        invariant AfterAwaited(tcp, received, id) == AfterAwaited(old(tcp), old(received), id)
        decreases |tcp|
      {
        var more := !Silent(tcp);
        var failure := TcpRead();
        if failure.Some? {
          return Err(failure.value);
        }
        if id in received {
          break;
        }
        if !more {
          return Err(NetworkFailure);
        }
      }
      r := Ok(received[id]);
      received := received - {id};
    }
  }
}
