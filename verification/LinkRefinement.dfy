/** Why the responses of RobotLink may stand for those of Network: reading and claiming statuses is what reading and
    claiming whole messages looks like to a client that takes the status byte of a message. */
module LinkRefinement {
  import opened RealMath
  import opened Framing
  import opened Network
  import opened RobotTypes
  import opened RobotLink

  /** The first byte of the payload. */
  function StatusOf(message: seq<Byte>): Byte {
    if |message| > HEADER_SIZE then message[HEADER_SIZE] else 0
  }

  /** Whatever status a peer puts first into the payload of a message is read. */
  lemma StatusIsFirst(command: Word, id: Word, status: Byte, rest: seq<Byte>)
    requires HEADER_SIZE + 1 + |rest| < 0x1_0000_0000
    ensures StatusOf(RequestMessage(command, id, [status] + rest)) == status
  {
  }

  function Statuses(responses: Responses): map<Word, Byte> {
    map id | id in responses :: StatusOf(responses[id])
  }

  /** What a read looks like to such a client. */
  function EventOf(read: Read): TcpEvent {
    if read.result.ConnectionInterrupted? then Interrupted
    else if read.result.MessageTooSmall? then Malformed
    else if read.frames == [] then Nothing
    else Response(CommandId(read.frames[0].bytes), StatusOf(read.frames[0].bytes))
  }

  function FailureOf(result: ReadResult): Option<Failure> {
    match result
    case ReadDone => None
    case ConnectionInterrupted => Some(NetworkFailure)
    case MessageTooSmall => Some(ProtocolFailure)
  }

  lemma ReadIsSimulated(responses: Responses, read: Read, later: seq<TcpEvent>)
    requires read.Possible()
    ensures var tcp := [EventOf(read)] + later;
            && ReadFailure(tcp) == FailureOf(read.result) && Tail(tcp) == later
            && AfterRead(tcp, Statuses(responses)) == Statuses(Stored(responses, read.frames))
  {
    StoredOne(responses, if read.frames == [] then Message([]) else read.frames[0]);
    hide Stored, CommandId, StatusOf;
    if read.frames != [] {
      assert read.frames == [read.frames[0]];
    }
  }

  lemma ClaimIsSimulated(responses: Responses, id: Word)
    ensures Statuses(responses - {id}) == Statuses(responses) - {id}
  {
    hide StatusOf;
  }

  /** What a receipt is to a client that looks at statuses only. */
  function Outcome(read: Read, receipt: Receipt, handler: Byte -> Option<Failure>): Result<bool> {
    if FailureOf(read.result).Some? then Err(FailureOf(read.result).value)
    else
      match receipt
      case Received(response, _) => Ok(true)
      case Thrown(response) =>
        if handler(StatusOf(response)).Some? then Err(handler(StatusOf(response)).value) else Ok(false)
      case _ => Ok(false)
  }

  /** tcpReceiveResponse: the same outcome, and the same responses afterwards. */
  lemma ReceiveIsSimulated(responses: Responses, read: Read, later: seq<TcpEvent>, id: Word,
                           throws: seq<Byte> -> bool, handler: Byte -> Option<Failure>)
    requires read.Possible() && forall message :: throws(message) <==> handler(StatusOf(message)).Some?
    ensures var tcp, after := [EventOf(read)] + later, Stored(responses, read.frames);
            var receipt := Claim(after, id, throws);
            var result := Polled(tcp, Statuses(responses), id, handler);
            && result == Outcome(read, receipt, handler)
            && (FailureOf(read.result).None? ==>
                  AfterRead(tcp, Statuses(responses)) - (if result == Ok(true) then {id} else {})
                  == Statuses(if receipt.Received? then after - {id} else after))
  {
    ReadIsSimulated(responses, read, later);
    ClaimIsSimulated(Stored(responses, read.frames), id);
    hide Stored, StatusOf, AfterRead, ReadFailure;
  }

  function Events(steps: seq<Read>): seq<TcpEvent> {
    if steps == [] then [] else [EventOf(steps[0])] + Events(steps[1..])
  }

  /** tcpBlockingReceiveResponse: the same status; a silent connection is one that fails in the end. */
  lemma {:induction false} WaitIsSimulated(steps: seq<Read>, responses: Responses, id: Word)
    requires forall r :: r in steps ==> r.Possible()
    requires steps != [] || id !in responses
    ensures Awaited(Events(steps), Statuses(responses), id) ==
            StatusResult(Waited(steps, responses, id))
  {
    hide Stored, StatusOf;
    if steps != [] {
      var after := Stored(responses, steps[0].frames);
      ReadIsSimulated(responses, steps[0], Events(steps[1..]));
      if steps[0].result.ReadDone? && id !in after {
        WaitIsSimulated(steps[1..], after, id);
      }
      assert Events(steps)[1..] == Events(steps[1..]);
    }
  }

  /** What is left of the events, and of the responses, when the wait ends with the last read. */
  lemma {:induction false} RestIsSimulated(steps: seq<Read>, responses: Responses, id: Word)
    requires (forall r :: r in steps ==> r.Possible()) && steps != []
    requires Waited(steps[..|steps| - 1], responses, id).NotReceived? && Waited(steps, responses, id).Received?
    ensures AfterAwaited(Events(steps), Statuses(responses), id)
         == ([], Statuses(Stored(responses, FramesOf(steps)) - {id}))
  {
    var after, rest := Stored(responses, steps[0].frames), steps[1..];
    ReadIsSimulated(responses, steps[0], Events(rest));
    ClaimIsSimulated(after, id);
    StoredOne(after, Message([]));
    StoredSums(responses, steps[0].frames, FramesOf(rest));
    hide Stored, StatusOf;
    assert Events(steps)[1..] == Events(rest);
    if rest == [] {
      assert FramesOf(steps) == steps[0].frames;
    } else {
      assert steps[..|steps| - 1][1..] == rest[..|rest| - 1];
      RestIsSimulated(rest, after, id);
    }
  }

  function StatusResult(receipt: Receipt): Result<Byte> {
    match receipt
    case Received(response, _) => Ok(StatusOf(response))
    case TooSmall => Err(ProtocolFailure)
    case _ => Err(NetworkFailure)
  }

  lemma NothingWaited(responses: Responses, id: Word)
    ensures Waited([], responses, id) == NotReceived
  {
  }

  // ----- The methods -----

  /** A poll of the network is what Polled says of some event. */
  method PollStatus(network: Network, id: Word, poll: Poll, handler: Byte -> Option<Failure>)
    returns (r: Result<bool>, ghost event: TcpEvent)
    requires network.Valid()
    modifies network
    ensures network.Valid()
    ensures r == Polled([event], Statuses(old(network.receivedResponses)), id, handler)
    ensures r.Ok? ==>
      Statuses(network.receivedResponses)
      == AfterRead([event], Statuses(old(network.receivedResponses))) - (if r.value then {id} else {})
  {
    hide Network.Valid, Frames, Stored, StatusOf, Statuses, AfterRead, ReadFailure, Polled;
    var throws := (message: seq<Byte>) => handler(StatusOf(message)).Some?;
    var receipt := network.TcpReceiveResponse(id, true, poll, throws);
    ghost var frames := network.FramesSince(old(network.consumed));
    ghost var result :=
      if poll.interrupted then ConnectionInterrupted
      else if network.FoundTooSmall(old(network.consumed)) then MessageTooSmall
      else ReadDone;
    ghost var read := Read(result, frames);
    event := EventOf(read);
    ReceiveIsSimulated(old(network.receivedResponses), read, [], id, throws, handler);
    assert [event] + [] == [event];
    match receipt
    case Received(_, _) => r := Ok(true);
    case NotReceived => r := Ok(false);
    case Thrown(response) => r := Err(handler(StatusOf(response)).value);
    case Lost => r := Err(NetworkFailure);
    case TooSmall => r := Err(ProtocolFailure);
  }

  /** A blocking receive of the network is what Awaited says of the events its reads are. */
  method AwaitStatus(network: Network, id: Word, size: nat, polls: seq<Poll>)
    returns (r: Receipt, ghost steps: seq<Read>)
    requires network.Valid() && (polls != [] || id !in network.receivedResponses)
    modifies network
    ensures network.Valid()
    ensures r == Split(Waited(steps, old(network.receivedResponses), id), size)
    ensures Awaited(Events(steps), Statuses(old(network.receivedResponses)), id)
         == StatusResult(Waited(steps, old(network.receivedResponses), id))
    ensures r.Received? ==>
      AfterAwaited(Events(steps), Statuses(old(network.receivedResponses)), id) == ([], Statuses(network.receivedResponses))
  {
    hide Network.Valid, Frames, Stored, StatusOf, Statuses, Waited, Awaited, AfterAwaited, FramesOf, StatusResult;
    ghost var responses := network.receivedResponses;
    NothingWaited(responses, id);
    var turns;
    r, turns, steps := network.TcpBlockingReceiveResponse(id, size, polls);
    WaitIsSimulated(steps, responses, id);
    if Waited(steps, responses, id).Received? {
      RestIsSimulated(steps, responses, id);
    }
  }
}
