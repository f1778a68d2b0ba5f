/** The TCP side of src/network.h: reassembly of messages and lookup of responses by command id. */
module Network {
  import opened Framing
  import opened RealMath

  /** What the socket does during one read: the answers of poll, and the bytes that come in before and after the
      number of available bytes is taken. */
  datatype Poll = Poll(interrupted: bool, closed: bool, arrived: seq<Byte>, meanwhile: seq<Byte>)

  datatype ReadResult = ReadDone | ConnectionInterrupted | MessageTooSmall

  /** sizeof(message) in tcpReceiveResponse is the size of an address. */
  const ADDRESS_SIZE := 8

  datatype Receipt =
    | Received(response: seq<Byte>, extra: seq<Byte>)
    | NotReceived
    | Thrown(response: seq<Byte>)
    | Lost
    | TooSmall

  /** One read of the connection: its result, and the frame it completed, if any. */
  datatype Read = Read(result: ReadResult, frames: seq<Frame>) {
    predicate Possible() {
      && |frames| <= 1
      && (result.ConnectionInterrupted? ==> frames == [])
      && (result.MessageTooSmall? <==> frames != [] && frames[0].Rejected?)
    }
  }

  function Arrivals(polls: seq<Poll>): seq<Byte> {
    if polls == [] then [] else polls[0].arrived + polls[0].meanwhile + Arrivals(polls[1..])
  }

  type Responses = map<Word, seq<Byte>>

  /** emplace: a response that is already there stays. */
  function Emplace(responses: Responses, id: Word, message: seq<Byte>): Responses {
    if id in responses then responses else responses[id := message]
  }

  function CommandId(message: seq<Byte>): Word {
    if |message| >= HEADER_SIZE then DecodeHeader(message).commandId else 0
  }

  /** The responses after some frames have come in. */
  function Stored(responses: Responses, frames: seq<Frame>): Responses {
    if frames == [] then responses
    else
      var f, before := frames[|frames| - 1], Stored(responses, frames[..|frames| - 1]);
      if f.Message? then Emplace(before, CommandId(f.bytes), f.bytes) else before
  }

  lemma {:induction false} StoredSums(responses: Responses, a: seq<Frame>, b: seq<Frame>)
    ensures Stored(responses, a + b) == Stored(Stored(responses, a), b)
  {
    if b == [] {
      assert a + b == a;
    } else {
      StoredSums(responses, a, b[..|b| - 1]);
      assert (a + b)[..|a + b| - 1] == a + b[..|b| - 1];
      hide Emplace;
    }
  }

  /** Every stored response is a whole message that carries the id it is stored under. */
  ghost predicate Claimable(responses: Responses) {
    forall id :: id in responses ==> WellFormed(Message(responses[id])) && CommandId(responses[id]) == id
  }

  predicate Carries(f: Frame, id: Word) {
    f.Message? && CommandId(f.bytes) == id
  }

  lemma {:induction false} StoredKeeps(responses: Responses, frames: seq<Frame>, id: Word)
    requires id in responses
    ensures id in Stored(responses, frames) && Stored(responses, frames)[id] == responses[id]
  {
    if frames != [] {
      StoredKeeps(responses, frames[..|frames| - 1], id);
    }
  }

  lemma {:induction false} StoredNeedsCarrier(responses: Responses, frames: seq<Frame>, id: Word)
    requires id !in responses && forall f :: f in frames ==> !Carries(f, id)
    ensures id !in Stored(responses, frames)
  {
    if frames != [] {
      StoredNeedsCarrier(responses, frames[..|frames| - 1], id);
      assert frames[|frames| - 1] in frames;
    }
  }

  /** Under each id, the first response that comes in is the one that is kept. */
  lemma FirstResponseWins(responses: Responses, frames: seq<Frame>, id: Word, i: nat)
    requires id !in responses && i < |frames| && Carries(frames[i], id)
    requires forall f :: f in frames[..i] ==> !Carries(f, id)
    ensures id in Stored(responses, frames) && Stored(responses, frames)[id] == frames[i].bytes
  {
    StoredNeedsCarrier(responses, frames[..i], id);
    StoredSums(responses, frames[..i], [frames[i]]);
    StoredOne(Stored(responses, frames[..i]), frames[i]);
    assert frames[..i] + [frames[i]] + frames[i + 1..] == frames;
    hide Stored;
    StoredSums(responses, frames[..i] + [frames[i]], frames[i + 1..]);
    StoredKeeps(Stored(responses, frames[..i] + [frames[i]]), frames[i + 1..], id);
  }

  /** A response is handed over in two parts; one that is too short is not handed over. */
  function Split(receipt: Receipt, size: nat): Receipt {
    if !receipt.Received? then receipt
    else if |receipt.response| < size then TooSmall
    else Received(receipt.response[..size], receipt.response[size..])
  }

  /** What handing over the response with an id comes to. */
  function Claim(responses: Responses, id: Word, throws: seq<Byte> -> bool): Receipt {
    if id !in responses then NotReceived
    else if throws(responses[id]) then Thrown(responses[id])
    else Received(responses[id], [])
  }

  lemma ClaimableWithout(responses: Responses, id: Word)
    requires Claimable(responses)
    ensures Claimable(responses - {id})
    ensures id in responses ==> |responses[id]| >= HEADER_SIZE && DecodeHeader(responses[id]).size == |responses[id]|
  {
    hide DecodeHeader;
  }

  lemma EmplaceClaimable(responses: Responses, id: Word, message: seq<Byte>)
    requires Claimable(responses) && WellFormed(Message(message)) && CommandId(message) == id
    ensures Claimable(Emplace(responses, id, message))
  {
    hide WellFormed, CommandId;
  }

  lemma WholeMessage(b: seq<Byte>)
    requires |b| >= HEADER_SIZE && DecodeHeader(b).size == |b|
    ensures Frames(b) == [Message(b)] && Rest(b) == []
  {
    Unfold(b);
    assert b[..|b|] == b && b[|b|..] == [];
    Unfold([]);
    hide Frames, Rest, DecodeHeader;
  }

  lemma PartialMessage(b: seq<Byte>)
    requires |b| >= HEADER_SIZE && DecodeHeader(b).size > |b|
    ensures Frames(b) == [] && Rest(b) == b
  {
    hide DecodeHeader;
  }

  lemma RejectedHeader(b: seq<Byte>)
    requires |b| == HEADER_SIZE && DecodeHeader(b).size < HEADER_SIZE
    ensures Frames(b) == [Rejected(b)] && Rest(b) == []
  {
    Unfold(b);
    assert b[..|b|] == b && b[|b|..] == [];
    Unfold([]);
    hide Frames, Rest, DecodeHeader;
  }

  /** Bytes that are taken extend the unfinished rest. */
  lemma Taken(before: seq<Byte>, taken: seq<Byte>)
    ensures Frames(before) <= Frames(before + taken)
    ensures Frames(before + taken) == Frames(before) + Frames(Rest(before) + taken)
    ensures Frames(before + taken)[|Frames(before)|..] == Frames(Rest(before) + taken)
    ensures Rest(before + taken) == Rest(Rest(before) + taken)
  {
    hide Frames, Rest;
    FramesExtend(before, taken);
  }

  /** Where too few bytes have come in for a header, or more bytes complete nothing, nothing is complete. */
  lemma NothingComplete(before: seq<Byte>, arrived: seq<Byte>, more: seq<Byte>)
    ensures Rest(before) == [] && |arrived| < HEADER_SIZE ==> Frames(before + arrived) == Frames(before)
    ensures Frames(before + arrived + more) == Frames(before) ==> Frames(before + arrived) == Frames(before)
    ensures arrived == [] ==> before + arrived == before
  {
    Taken(before, arrived);
    Taken(before + arrived, more);
    Unfold(arrived);
    hide Frames, Rest;
    assert Rest(before) == [] ==> Rest(before) + arrived == arrived;
  }

  /** The header has been read into the buffer and announces its size. */
  ghost predicate Unfinished(buffer: seq<Byte>, offset: nat, id: Word) {
    && HEADER_SIZE <= offset <= |buffer|
    && DecodeHeader(buffer[..offset]).size == |buffer|
    && CommandId(buffer[..offset]) == id
  }

  /** More bytes are copied behind the offset. */
  function Copied(buffer: seq<Byte>, offset: nat, got: seq<Byte>): seq<Byte>
    requires offset + |got| <= |buffer|
  {
    buffer[..offset] + got + buffer[offset + |got|..]
  }

  lemma CopyStep(buffer: seq<Byte>, offset: nat, id: Word, got: seq<Byte>)
    requires Unfinished(buffer, offset, id) && offset + |got| <= |buffer|
    ensures var bytes := buffer[..offset] + got;
            && Copied(buffer, offset, got)[..|bytes|] == bytes
            && Unfinished(Copied(buffer, offset, got), |bytes|, id)
            && |Copied(buffer, offset, got)| == |buffer|
  {
    HeaderOfPrefix(buffer[..offset], got);
    hide DecodeHeader;
  }

  lemma CopiedFrames(buffer: seq<Byte>, offset: nat, id: Word)
    requires Unfinished(buffer, offset, id)
    ensures offset == |buffer| ==>
      Frames(buffer[..offset]) == [Message(buffer)] && Rest(buffer[..offset]) == []
    ensures offset == |buffer| ==> WellFormed(Message(buffer)) && CommandId(buffer) == id
    ensures offset < |buffer| ==> Frames(buffer[..offset]) == [] && Rest(buffer[..offset]) == buffer[..offset]
  {
    hide DecodeHeader, Frames, Rest;
    if offset == |buffer| {
      assert buffer[..offset] == buffer;
      WholeMessage(buffer);
    } else {
      PartialMessage(buffer[..offset]);
    }
  }

  lemma StoredOne(responses: Responses, f: Frame)
    ensures Stored(responses, []) == responses
    ensures Stored(responses, [f]) == if f.Message? then Emplace(responses, CommandId(f.bytes), f.bytes) else responses
  {
    hide Emplace;
    assert Stored(responses, [f][..0]) == responses;
  }

  function FramesOf(steps: seq<Read>): seq<Frame> {
    if steps == [] then [] else steps[0].frames + FramesOf(steps[1..])
  }

  /** What a blocking receive ends with after these reads. */
  function Waited(steps: seq<Read>, responses: Responses, id: Word): Receipt {
    if steps == [] then NotReceived
    else
      var after := Stored(responses, steps[0].frames);
      match steps[0].result
      case ConnectionInterrupted => Lost
      case MessageTooSmall => TooSmall
      case ReadDone => if id in after then Received(after[id], []) else Waited(steps[1..], after, id)
  }

  /** Every read is one that can happen, and exactly the interrupted polls interrupt it. */
  ghost predicate FollowsPolls(steps: seq<Read>, polls: seq<Poll>) {
    && |steps| == |polls|
    && forall k :: 0 <= k < |steps| ==>
         steps[k].Possible() && (steps[k].result.ConnectionInterrupted? <==> polls[k].interrupted)
  }

  lemma {:induction false} OneMoreRead(steps: seq<Read>, responses: Responses, id: Word, read: Read)
    requires Waited(steps, responses, id).NotReceived?
    ensures FramesOf(steps + [read]) == FramesOf(steps) + read.frames
    ensures Waited(steps + [read], responses, id) == Waited([read], Stored(responses, FramesOf(steps)), id)
  {
    StoredOne(responses, Message([]));
    hide Stored;
    if steps == [] {
      assert steps + [read] == [read] && FramesOf([read]) == read.frames + FramesOf([read][1..]);
    } else {
      OneMoreRead(steps[1..], Stored(responses, steps[0].frames), id, read);
      StoredSums(responses, steps[0].frames, FramesOf(steps[1..]));
      assert (steps + [read])[1..] == steps[1..] + [read];
    }
  }

  /** What a wait comes to with one read, given the responses after it. */
  function Ended(result: ReadResult, responses: Responses, id: Word): Receipt {
    match result
    case ConnectionInterrupted => Lost
    case MessageTooSmall => TooSmall
    case ReadDone => if id in responses then Received(responses[id], []) else NotReceived
  }

  /** What has come in, the frames completed by what was taken of it, and the responses stored. */
  datatype Intake = Intake(stream: seq<Byte>, frames: seq<Frame>, responses: Responses)

  /** What some reads of some polls do to it. */
  ghost predicate Proceeds(before: Intake, after: Intake, polls: seq<Poll>, steps: seq<Read>) {
    && FollowsPolls(steps, polls)
    && after.stream == before.stream + Arrivals(polls)
    && after.frames == before.frames + FramesOf(steps)
    && after.responses == Stored(before.responses, FramesOf(steps))
  }

  lemma NoTurn(before: Intake, id: Word)
    ensures Proceeds(before, before, [], []) && Waited([], before.responses, id) == NotReceived
  {
  }

  lemma OneMoreTurn(before: Intake, middle: Intake, after: Intake, id: Word, polls: seq<Poll>, n: nat,
                    steps: seq<Read>, step: Read)
    requires Waited(steps, before.responses, id).NotReceived?
    requires n < |polls| && Proceeds(before, middle, polls[..n], steps) && step.Possible()
    requires step.result.ConnectionInterrupted? <==> polls[n].interrupted
    requires after.stream == middle.stream + polls[n].arrived + polls[n].meanwhile
      && after.frames == middle.frames + step.frames && after.responses == Stored(middle.responses, step.frames)
    ensures Proceeds(before, after, polls[..n + 1], steps + [step])
    ensures Waited(steps + [step], before.responses, id) == Ended(step.result, after.responses, id)
  {
    hide Stored, Read.Possible;
    ArrivalsExtend(polls, n);
    OneMoreRead(steps, before.responses, id, step);
    StoredSums(before.responses, FramesOf(steps), step.frames);
    assert Waited([step][1..], after.responses, id) == NotReceived;
    assert after.frames == before.frames + FramesOf(steps + [step]);
    assert after.stream == before.stream + Arrivals(polls[..n + 1]);
  }

  /** After n reads that were not interrupted, n frames more have been completed, or all that had come in by then. */
  ghost predicate KeptUp(before: seq<Byte>, come: seq<Byte>, consumed: seq<Byte>, n: nat) {
    |Frames(before)| + n <= |Frames(consumed)| || Frames(come) <= Frames(consumed)
  }

  lemma KeptUpAtFirst(before: seq<Byte>, come: seq<Byte>)
    ensures KeptUp(before, come, before, 0)
  {
  }

  lemma KeepsUp(before: seq<Byte>, come: seq<Byte>, consumed: seq<Byte>, n: nat, stream: seq<Byte>, arrived: seq<Byte>,
                step: Read, after: seq<Byte>)
    requires KeptUp(before, come, consumed, n) && come <= stream && Frames(after) == Frames(consumed) + step.frames
    requires step.frames != [] || Frames(stream + arrived) == Frames(after)
    ensures KeptUp(before, come, after, n + 1)
  {
    var rest := (stream + arrived)[|come|..];
    assert stream + arrived == come + rest;
    FramesExtend(come, rest);
    hide Frames, Rest;
  }

  /** A response that was not there when the waiting began is taken as soon as it has come in: no other one under its id
      has come in between, to be dropped. */
  lemma {:induction false} AwaitedIsTakenAtOnce(steps: seq<Read>, responses: Responses, id: Word)
    requires (forall r :: r in steps ==> r.Possible()) && id !in responses
    requires Waited(steps, responses, id).Received?
    ensures exists n: nat :: n < |steps| && TakenAfter(steps, n, id, Waited(steps, responses, id).response)
  {
    StoredOne(responses, Message([]));
    assert steps[0].Possible();
    if steps[0].frames != [] {
      StoredOne(responses, steps[0].frames[0]);
      assert steps[0].frames == [steps[0].frames[0]];
    }
    hide Stored;
    var response, after := Waited(steps, responses, id).response, Stored(responses, steps[0].frames);
    if id in after {
      assert TakenAfter(steps, 0, id, response);
    } else {
      AwaitedIsTakenAtOnce(steps[1..], after, id);
      var n: nat :| n < |steps[1..]| && TakenAfter(steps[1..], n, id, response);
      assert TakenAfter(steps, n + 1, id, response);
    }
  }

  /** The response is what the n-th read completed, and none before it completed one under the id. */
  ghost predicate TakenAfter(steps: seq<Read>, n: nat, id: Word, response: seq<Byte>)
    requires n < |steps|
  {
    && steps[n].frames == [Message(response)] && CommandId(response) == id
    && forall k, f :: 0 <= k < n && f in steps[k].frames ==> !Carries(f, id)
  }

  /** What is stored under an id. */
  function Lookup(responses: Responses, id: Word): Option<seq<Byte>> {
    if id in responses then Some(responses[id]) else None
  }

  /** How many frames had come in when the response under an id was last handed over. */
  function Mark(marks: map<Word, nat>, id: Word): nat {
    if id in marks then marks[id] else 0
  }

  /** Under each id, the stored response is the first one that came in since the last one was handed over. */
  ghost predicate Accounted(frames: seq<Frame>, responses: Responses, marks: map<Word, nat>) {
    forall id: Word :: AccountedUnder(frames, responses, id, Mark(marks, id))
  }

  ghost predicate AccountedUnder(frames: seq<Frame>, responses: Responses, id: Word, mark: nat) {
    mark <= |frames| && Lookup(responses, id) == Lookup(Stored(map[], frames[mark..]), id)
  }

  lemma NothingToAccount()
    ensures Accounted([], map[], map[])
  {
  }

  lemma AccountForNone(frames: seq<Frame>, responses: Responses, marks: map<Word, nat>)
    requires Accounted(frames, responses, marks)
    ensures Accounted(frames + [], Stored(responses, []), marks)
  {
    assert frames + [] == frames;
  }

  lemma AccountForOne(frames: seq<Frame>, responses: Responses, marks: map<Word, nat>, f: Frame)
    requires Accounted(frames, responses, marks)
    ensures Accounted(frames + [f], Stored(responses, [f]), marks)
  {
    hide Stored, Lookup, AccountedUnder;
    forall id: Word
      ensures AccountedUnder(frames + [f], Stored(responses, [f]), id, Mark(marks, id))
    {
      OneMoreUnder(frames, responses, id, Mark(marks, id), f);
    }
  }

  lemma OneMoreUnder(frames: seq<Frame>, responses: Responses, id: Word, mark: nat, f: Frame)
    requires AccountedUnder(frames, responses, id, mark)
    ensures AccountedUnder(frames + [f], Stored(responses, [f]), id, mark)
  {
    var since := frames[mark..];
    assert (frames + [f])[mark..] == since + [f];
    StoredSums(map[], since, [f]);
    StoredOne(responses, f);
    StoredOne(Stored(map[], since), f);
    hide Stored, CommandId;
  }

  lemma AccountForClaim(frames: seq<Frame>, responses: Responses, marks: map<Word, nat>, id: Word)
    requires Accounted(frames, responses, marks)
    ensures Accounted(frames, responses - {id}, marks[id := |frames|])
  {
    var claimed := marks[id := |frames|];
    assert frames[|frames|..] == [];
    forall other: Word
      ensures AccountedUnder(frames, responses - {id}, other, Mark(claimed, other))
    {
      assert AccountedUnder(frames, responses, other, Mark(marks, other));
    }
  }

  class Network {
    var commandId: Word
    var pendingResponse: seq<Byte>
    var pendingResponseOffset: nat
    var pendingCommandId: Word
    var receivedResponses: Responses
    /** The bytes that wait in the socket. */
    var inbox: seq<Byte>
    /** All bytes that came in, those of them that were taken from the socket, and all bytes sent. */
    ghost var stream: seq<Byte>
    ghost var consumed: seq<Byte>
    ghost var outbox: seq<Byte>
    /** When the response under an id was last handed over, in frames. */
    ghost var marks: map<Word, nat>

    constructor ()
      ensures Valid() && stream == consumed == outbox == [] && receivedResponses == map[] && commandId == 0 && marks == map[]
    {
      NothingToAccount();
      commandId, pendingResponse, pendingResponseOffset, pendingCommandId := 0, [], 0, 0;
      receivedResponses, inbox, stream, consumed, outbox, marks := map[], [], [], [], [], map[];
    }

    /** The unfinished message is exactly what the frames read so far leave over. */
    ghost predicate Valid()
      reads this
    {
      && stream == consumed + inbox
      && Claimable(receivedResponses)
      && Accounted(Frames(consumed), receivedResponses, marks)
      && pendingResponseOffset <= |pendingResponse|
      && Rest(consumed) == pendingResponse[..pendingResponseOffset]
      && (pendingResponse == [] ==> pendingCommandId == 0)
      && (pendingResponse != [] ==>
            pendingResponseOffset < |pendingResponse| && Unfinished(pendingResponse, pendingResponseOffset, pendingCommandId))
    }

    /** The frames completed by the bytes taken since an earlier point of the stream. */
    ghost function FramesSince(before: seq<Byte>): seq<Frame>
      reads this
      requires Frames(before) <= Frames(consumed)
    {
      Frames(consumed)[|Frames(before)|..]
    }

    /** Since an earlier point of the stream, these frames were completed, and their responses stored. */
    ghost predicate Progressed(before: seq<Byte>, responses: Responses)
      reads this
    {
      && before <= consumed
      && Frames(before) <= Frames(consumed)
      && receivedResponses == Stored(responses, FramesSince(before))
      && |FramesSince(before)| <= 1
    }

    ghost function Now(): Intake
      reads this
    {
      Intake(stream, Frames(consumed), receivedResponses)
    }

    ghost predicate FoundTooSmall(before: seq<Byte>)
      reads this
      requires Frames(before) <= Frames(consumed)
    {
      FramesSince(before) != [] && FramesSince(before)[0].Rejected?
    }

    method Arrive(bytes: seq<Byte>)
      requires stream == consumed + inbox
      modifies `inbox, `stream
      ensures stream == consumed + inbox == old(stream) + bytes && inbox == old(inbox) + bytes
    {
      inbox := inbox + bytes;
      stream := stream + bytes;
    }

    method ReceiveBytes(n: nat) returns (bytes: seq<Byte>)
      requires n <= |inbox| && stream == consumed + inbox
      modifies `inbox, `consumed
      ensures bytes == old(inbox[..n]) && |bytes| == n && inbox == old(inbox[n..]) && consumed == old(consumed) + bytes
      ensures stream == consumed + inbox
    {
      bytes := inbox[..n];
      inbox := inbox[n..];
      consumed := consumed + bytes;
    }

    /** Takes the header; a header that announces less than its own size is dropped. */
    method ReadHeader() returns (r: ReadResult)
      requires Valid() && pendingResponse == [] && |inbox| >= HEADER_SIZE
      modifies `inbox, `consumed, `pendingResponse, `pendingResponseOffset, `pendingCommandId
      ensures stream == consumed + inbox && consumed == old(consumed) + old(inbox[..HEADER_SIZE])
      ensures r.MessageTooSmall? ==>
        Valid() && Progressed(old(consumed), receivedResponses) && FoundTooSmall(old(consumed))
      ensures r.ReadDone? ==>
        && pendingResponse != [] && pendingResponseOffset <= |pendingResponse|
        && Unfinished(pendingResponse, pendingResponseOffset, pendingCommandId)
        && Rest(old(consumed)) + old(inbox[..HEADER_SIZE]) == pendingResponse[..pendingResponseOffset]
      ensures !r.ConnectionInterrupted?
    {
      hide Frames, Rest, DecodeHeader, Stored, Claimable, Accounted;
      var bytes := ReceiveBytes(HEADER_SIZE);
      var header := DecodeHeader(bytes);
      assert Rest(old(consumed)) == [];
      assert Rest(old(consumed)) + bytes == bytes;
      if header.size < HEADER_SIZE {
        Taken(old(consumed), bytes);
        RejectedHeader(bytes);
        StoredOne(receivedResponses, Rejected(bytes));
        AccountForOne(Frames(old(consumed)), receivedResponses, marks, Rejected(bytes));
        return MessageTooSmall;
      }
      pendingResponse := bytes + seq(header.size - HEADER_SIZE, _ => 0);
      pendingResponseOffset := HEADER_SIZE;
      pendingCommandId := header.commandId;
      assert pendingResponse[..pendingResponseOffset] == bytes;
      r := ReadDone;
    }

    /** Copies what is there into the pending response; stores the response when it is complete. */
    method ReadBody(ghost before: seq<Byte>, ghost taken: seq<Byte>)
      requires stream == consumed + inbox && consumed == before + taken && Claimable(receivedResponses)
      requires Accounted(Frames(before), receivedResponses, marks)
      requires pendingResponseOffset <= |pendingResponse|
        && Unfinished(pendingResponse, pendingResponseOffset, pendingCommandId)
      requires Rest(before) + taken == pendingResponse[..pendingResponseOffset]
      modifies `inbox, `consumed, `pendingResponse, `pendingResponseOffset, `pendingCommandId, `receivedResponses
      ensures Valid() && Progressed(before, old(receivedResponses)) && !FoundTooSmall(before)
      ensures |consumed| >= |before| + |taken|
      ensures old(inbox) != [] && old(pendingResponseOffset < |pendingResponse|) ==> |consumed| > |before| + |taken|
      ensures FramesSince(before) == [] ==> inbox == []
    {
      hide Unfinished, Frames, Rest, Stored, Copied, Claimable, Emplace, CommandId, WellFormed, Accounted;
      var missing := |pendingResponse| - pendingResponseOffset;
      var got := ReceiveBytes(if |inbox| < missing then |inbox| else missing);
      Taken(before, taken + got);
      assert before + (taken + got) == consumed;
      CopyStep(pendingResponse, pendingResponseOffset, pendingCommandId, got);
      assert Rest(before) + (taken + got) == pendingResponse[..pendingResponseOffset] + got;
      pendingResponse := Copied(pendingResponse, pendingResponseOffset, got);
      pendingResponseOffset := pendingResponseOffset + |got|;
      CopiedFrames(pendingResponse, pendingResponseOffset, pendingCommandId);
      StoredOne(receivedResponses, Message(pendingResponse));
      AccountForNone(Frames(before), receivedResponses, marks);
      AccountForOne(Frames(before), receivedResponses, marks, Message(pendingResponse));
      if pendingResponseOffset == |pendingResponse| {
        EmplaceClaimable(receivedResponses, pendingCommandId, pendingResponse);
        receivedResponses := Emplace(receivedResponses, pendingCommandId, pendingResponse);
        pendingResponse, pendingResponseOffset, pendingCommandId := [], 0, 0;
      }
    }

    ghost predicate CanProceed(arrived: seq<Byte>)
      reads this
    {
      |inbox| + |arrived| > 0 && (pendingResponse != [] || |inbox| + |arrived| >= HEADER_SIZE)
    }

    method TcpReadFromBuffer(poll: Poll) returns (r: ReadResult)
      requires Valid()
      modifies `stream, `inbox, `consumed, `pendingResponse, `pendingResponseOffset, `pendingCommandId, `receivedResponses
      ensures Valid() && stream == old(stream) + poll.arrived + poll.meanwhile
      ensures Progressed(old(consumed), old(receivedResponses))
      ensures r.ConnectionInterrupted? <==> poll.interrupted
      ensures poll.interrupted ==> consumed == old(consumed)
      ensures r.MessageTooSmall? <==> FoundTooSmall(old(consumed))
      ensures !poll.interrupted && old(CanProceed(poll.arrived)) ==> |old(consumed)| < |consumed|
      ensures !old(CanProceed(poll.arrived)) ==> consumed == old(consumed)
      ensures !poll.interrupted ==>
        FramesSince(old(consumed)) != [] || Frames(old(stream) + poll.arrived) == Frames(consumed)
    {
      hide Frames, Rest, Stored, Unfinished, Claimable, Accounted;
      StoredOne(receivedResponses, Message([]));
      Arrive(poll.arrived);
      var available := |inbox|;
      ghost var come := stream;
      assert come == consumed + inbox == old(stream) + poll.arrived;
      assert consumed == old(consumed) && FramesSince(old(consumed)) == [];
      NothingComplete(consumed, inbox, poll.meanwhile);
      if poll.interrupted || (available == 0 && !poll.closed) {
        assert available == 0 ==> come == consumed;
        Arrive(poll.meanwhile);
        assert consumed == old(consumed) && FramesSince(old(consumed)) == [];
        return if poll.interrupted then ConnectionInterrupted else ReadDone;
      }
      ghost var taken: seq<Byte> := [];
      assert Rest(consumed) + taken == pendingResponse[..pendingResponseOffset];
      if pendingResponse == [] && available >= HEADER_SIZE {
        taken := inbox[..HEADER_SIZE];
        r := ReadHeader();
        if r.MessageTooSmall? {
          Arrive(poll.meanwhile);
          return;
        }
      }
      Arrive(poll.meanwhile);
      if pendingResponse != [] && available > 0 {
        ReadBody(old(consumed), taken);
        assert inbox == [] ==> consumed == come + poll.meanwhile;
      } else {
        assert consumed == old(consumed);
        assert Frames(come) == Frames(consumed);
      }
      r := ReadDone;
    }

    /** A response that has come in is handed over and then forgotten, unless the handler throws. */
    method TcpReceiveResponse(commandId: Word, ownsLock: bool, poll: Poll,
                              throws: seq<Byte> -> bool) returns (r: Receipt)
      requires Valid()
      modifies `stream, `inbox, `consumed, `pendingResponse, `pendingResponseOffset, `pendingCommandId
      modifies `receivedResponses, `marks
      ensures Valid() && Frames(old(consumed)) <= Frames(consumed)
      ensures !ownsLock ==>
        && r == NotReceived && stream == old(stream)
        && receivedResponses == old(receivedResponses) && marks == old(marks)
      ensures ownsLock ==>
        var responses := Stored(old(receivedResponses), FramesSince(old(consumed)));
        && stream == old(stream) + poll.arrived + poll.meanwhile
        && r == (if poll.interrupted then Lost
                 else if FoundTooSmall(old(consumed)) then TooSmall
                 else Claim(responses, commandId, throws))
        && receivedResponses == (if r.Received? then responses - {commandId} else responses)
        && marks == (if r.Received? then old(marks)[commandId := |Frames(consumed)|] else old(marks))
        && |FramesSince(old(consumed))| <= 1 && (poll.interrupted ==> FramesSince(old(consumed)) == [])
        && (!poll.interrupted ==>
              FramesSince(old(consumed)) != [] || Frames(old(stream) + poll.arrived) == Frames(consumed))
    {
      hide Frames, Rest, Stored, Unfinished, Claimable, WellFormed, DecodeHeader, Accounted;
      if !ownsLock {
        return NotReceived;
      }
      var result := TcpReadFromBuffer(poll);
      ClaimableWithout(receivedResponses, commandId);
      if result != ReadDone {
        return if result.ConnectionInterrupted? then Lost else TooSmall;
      }
      if commandId !in receivedResponses {
        return NotReceived;
      }
      var message := receivedResponses[commandId];
      if DecodeHeader(message).size < ADDRESS_SIZE {
        return TooSmall;
      }
      if throws(message) {
        return Thrown(message);
      }
      AccountForClaim(Frames(consumed), receivedResponses, marks, commandId);
      receivedResponses := receivedResponses - {commandId};
      marks := marks[commandId := |Frames(consumed)|];
      r := Received(message, []);
    }

    /** One read, with a record of what it completed. */
    method ReadStep(poll: Poll) returns (result: ReadResult, ghost step: Read)
      requires Valid()
      modifies `stream, `inbox, `consumed, `pendingResponse, `pendingResponseOffset, `pendingCommandId, `receivedResponses
      ensures Valid() && stream == old(stream) + poll.arrived + poll.meanwhile && consumed <= stream
      ensures Frames(consumed) == Frames(old(consumed)) + step.frames
      ensures receivedResponses == Stored(old(receivedResponses), step.frames)
      ensures step.result == result && step.Possible() && (result.ConnectionInterrupted? <==> poll.interrupted)
      ensures result.ReadDone? ==> step.frames != [] || Frames(old(stream) + poll.arrived) == Frames(consumed)
    {
      hide Frames, Rest, Stored, Unfinished, Claimable, Accounted, CanProceed;
      result := TcpReadFromBuffer(poll);
      step := Read(result, FramesSince(old(consumed)));
    }

    /** Reads until the response is there, or until the given reads are used up. */
    method AwaitMessage(commandId: Word, polls: seq<Poll>) returns (r: Receipt, turns: nat, ghost steps: seq<Read>)
      requires Valid()
      modifies `stream, `inbox, `consumed, `pendingResponse, `pendingResponseOffset, `pendingCommandId
      modifies `receivedResponses
      ensures Valid() && turns <= |polls| && Proceeds(old(Now()), Now(), polls[..turns], steps)
      ensures r == Waited(steps, old(receivedResponses), commandId) && (r.NotReceived? ==> turns == |polls|)
      ensures steps == [] || Waited(steps[..|steps| - 1], old(receivedResponses), commandId).NotReceived?
      ensures r.Received? ==> commandId in receivedResponses && r.response == receivedResponses[commandId]
      ensures r.NotReceived? && turns > 0 ==> commandId !in receivedResponses
      ensures r.NotReceived? ==> KeptUp(old(consumed), old(stream), consumed, |polls|)
    {
      hide Network.Valid, Frames, Stored, Waited, Proceeds, Arrivals, Read.Possible, KeptUp;
      turns, steps := 0, [];
      NoTurn(Now(), commandId);
      KeptUpAtFirst(consumed, stream);
      while turns < |polls|
        invariant Valid() && turns <= |polls| && old(stream) <= stream
        invariant Proceeds(old(Now()), Now(), polls[..turns], steps)
        invariant Waited(steps, old(receivedResponses), commandId).NotReceived?
        invariant KeptUp(old(consumed), old(stream), consumed, turns)
        invariant steps == [] || Waited(steps[..|steps| - 1], old(receivedResponses), commandId).NotReceived?
        invariant turns > 0 ==> commandId !in receivedResponses
        decreases |polls| - turns
      {
        ghost var middle, before := Now(), consumed;
        var result;
        ghost var step;
        result, step := ReadStep(polls[turns]);
        OneMoreTurn(old(Now()), middle, Now(), commandId, polls, turns, steps, step);
        if result.ReadDone? {
          KeepsUp(old(consumed), old(stream), before, turns, middle.stream, polls[turns].arrived, step, consumed);
        }
        turns, steps := turns + 1, steps + [step];
        assert steps[..|steps| - 1] + [step] == steps;
        if result != ReadDone {
          return (if result.ConnectionInterrupted? then Lost else TooSmall), turns, steps;
        }
        if commandId in receivedResponses {
          return Received(receivedResponses[commandId], []), turns, steps;
        }
      }
      r := NotReceived;
    }

    /** Ends with NotReceived when the given reads do not bring the response. The response is handed over in two parts, of
        which the first has the size the caller expects. */
    method TcpBlockingReceiveResponse(commandId: Word, size: nat, polls: seq<Poll>)
      returns (r: Receipt, turns: nat, ghost steps: seq<Read>)
      requires Valid()
      modifies `stream, `inbox, `consumed, `pendingResponse, `pendingResponseOffset, `pendingCommandId
      modifies `receivedResponses, `marks
      ensures Valid() && turns <= |polls| && stream == old(stream) + Arrivals(polls[..turns])
      ensures Frames(consumed) == Frames(old(consumed)) + FramesOf(steps) && FollowsPolls(steps, polls[..turns])
      ensures
        var responses := Stored(old(receivedResponses), FramesOf(steps));
        && r == Split(Waited(steps, old(receivedResponses), commandId), size)
        && (steps == [] || Waited(steps[..|steps| - 1], old(receivedResponses), commandId).NotReceived?)
        && receivedResponses == (if r.Received? then responses - {commandId} else responses)
        && marks == (if r.Received? then old(marks)[commandId := |Frames(consumed)|] else old(marks))
        && (r.Received? ==>
              commandId in responses && r.response + r.extra == responses[commandId] && |r.response| == size)
        && (r.NotReceived? ==> turns == |polls| && (turns > 0 ==> commandId !in responses))
      ensures r.NotReceived? ==> KeptUp(old(consumed), old(stream), consumed, |polls|)
    {
      hide Frames, Rest, Stored, Unfinished, Claimable, WellFormed, DecodeHeader, Progressed, Accounted, Waited, FramesOf,
           Arrivals;
      r, turns, steps := AwaitMessage(commandId, polls);
      if !r.Received? {
        return;
      }
      var message := receivedResponses[commandId];
      ClaimableWithout(receivedResponses, commandId);
      if DecodeHeader(message).size < size {
        return TooSmall, turns, steps;
      }
      var extra: seq<Byte> := [];
      if DecodeHeader(message).size != size {
        extra := message[size..];
      }
      AccountForClaim(Frames(consumed), receivedResponses, marks, commandId);
      receivedResponses := receivedResponses - {commandId};
      marks := marks[commandId := |Frames(consumed)|];
      r := Received(message[..size], extra);
    }

    /** Sends a request under the next command id; the id is used up even when sending fails. */
    method TcpSendRequest(command: Word, payload: seq<Byte>, fails: bool) returns (id: Option<Word>)
      requires Valid() && HEADER_SIZE + |payload| < 0x1_0000_0000
      modifies `commandId, `outbox
      ensures Valid() && commandId == (old(commandId) + 1) % 0x1_0000_0000
      ensures id == if fails then None else Some(old(commandId))
      ensures outbox == if fails then old(outbox) else old(outbox) + RequestMessage(command, old(commandId), payload)
    {
      var header := Header(command, commandId, HEADER_SIZE + |payload|);
      commandId := (commandId + 1) % 0x1_0000_0000;
      if fails {
        return None;
      }
      outbox := outbox + (EncodeHeader(header) + payload);
      id := Some(header.commandId);
    }
  }

  lemma {:induction false} ArrivalsExtend(polls: seq<Poll>, n: nat)
    requires n < |polls|
    ensures Arrivals(polls[..n + 1]) == Arrivals(polls[..n]) + polls[n].arrived + polls[n].meanwhile
  {
    if n == 0 {
      assert polls[..1] == [polls[0]] && polls[..0] == [];
    } else {
      ArrivalsExtend(polls[1..], n - 1);
      assert polls[..n + 1][1..] == polls[1..][..n] && polls[..n][1..] == polls[1..][..n - 1];
    }
  }

  // ----- Whole runs -----

  /** A read of a network that cannot proceed has read every message that has come in. */
  lemma QuietMeansAllRead(n: Network)
    requires n.Valid() && !n.CanProceed([])
    ensures Frames(n.consumed) == Frames(n.stream) && Rest(n.consumed) + n.inbox == Rest(n.stream)
  {
    FramesExtend(n.consumed, n.inbox);
    if n.inbox == [] {
      assert n.consumed == n.stream;
    } else {
      assert Rest(n.consumed) + n.inbox == n.inbox;
      Unfold(n.inbox);
    }
    hide Frames, Rest;
  }

  /** However the same bytes were split, the same messages are read, and, if responses were handed over at the same
      points, the same ones are there for the taking. */
  lemma FragmentationDoesNotMatter(a: Network, b: Network)
    requires a.Valid() && b.Valid() && !a.CanProceed([]) && !b.CanProceed([])
    requires a.stream == b.stream
    ensures Frames(a.consumed) == Frames(b.consumed)
    ensures Rest(a.consumed) + a.inbox == Rest(b.consumed) + b.inbox
    ensures a.marks == b.marks ==> a.receivedResponses == b.receivedResponses
  {
    hide Frames, Rest, Stored, Mark;
    QuietMeansAllRead(a);
    QuietMeansAllRead(b);
    if a.marks == b.marks {
      forall id: Word
        ensures Lookup(a.receivedResponses, id) == Lookup(b.receivedResponses, id)
      {
        assert AccountedUnder(Frames(a.consumed), a.receivedResponses, id, Mark(a.marks, id));
        assert AccountedUnder(Frames(b.consumed), b.receivedResponses, id, Mark(b.marks, id));
      }
      LookupDetermines(a.receivedResponses, b.receivedResponses);
    }
  }

  lemma LookupDetermines(a: Responses, b: Responses)
    requires forall id: Word :: Lookup(a, id) == Lookup(b, id)
    ensures a == b
  {
    assert forall id: Word :: id in a <==> Lookup(a, id).Some?;
    assert forall id: Word :: id in b <==> Lookup(b, id).Some?;
  }

  /** Messages that were sent whole are read whole, in order, and nothing is left over. */
  lemma SentMessagesAreRead(n: Network, messages: seq<Frame>)
    requires n.Valid() && !n.CanProceed([])
    requires n.stream == Flatten(messages) && forall f :: f in messages ==> WellFormed(f)
    ensures Frames(n.consumed) == messages && n.inbox == [] && n.pendingResponse == []
    ensures Accounted(messages, n.receivedResponses, n.marks)
  {
    hide Frames, Rest, DecodeHeader, Accounted;
    QuietMeansAllRead(n);
    FramesRecovered(messages);
  }

  /** The first message under an id from some point on. */
  ghost predicate FirstUnder(messages: seq<Frame>, from: nat, id: Word, i: nat) {
    && from <= i < |messages| && Carries(messages[i], id)
    && forall k :: from <= k < i ==> !Carries(messages[k], id)
  }

  /** Under every id, what can be taken is the first message that was sent under it since the last one that was taken;
      if there is none, nothing can be taken. */
  lemma SentMessagesCanBeTaken(n: Network, messages: seq<Frame>, id: Word)
    requires n.Valid() && !n.CanProceed([])
    requires n.stream == Flatten(messages) && forall f :: f in messages ==> WellFormed(f)
    ensures id in n.receivedResponses <==> exists i: nat :: FirstUnder(messages, Mark(n.marks, id), id, i)
    ensures forall i: nat :: FirstUnder(messages, Mark(n.marks, id), id, i) ==>
      Lookup(n.receivedResponses, id) == Some(messages[i].bytes)
  {
    SentMessagesAreRead(n, messages);
    hide Network.Valid, Network.CanProceed, Flatten, FirstUnder, Stored, WellFormed, Mark;
    assert AccountedUnder(messages, n.receivedResponses, id, Mark(n.marks, id));
    FirstIsStored(messages, Mark(n.marks, id), id);
  }

  lemma FirstIsStored(frames: seq<Frame>, mark: nat, id: Word)
    requires mark <= |frames|
    ensures var found := Lookup(Stored(map[], frames[mark..]), id);
            && (found.Some? <==> exists i: nat :: FirstUnder(frames, mark, id, i))
            && forall i: nat :: FirstUnder(frames, mark, id, i) ==> found == Some(frames[i].bytes)
  {
    hide Carries, Stored;
    var since := frames[mark..];
    forall i: nat | FirstUnder(frames, mark, id, i)
      ensures Lookup(Stored(map[], since), id) == Some(frames[i].bytes)
    {
      FirstResponseWins(map[], since, id, i - mark);
    }
    if forall f :: f in since ==> !Carries(f, id) {
      StoredNeedsCarrier(map[], since, id);
    } else {
      var i := FirstCarrier(frames, mark, id);
    }
  }

  lemma {:induction false} FirstCarrier(frames: seq<Frame>, from: nat, id: Word) returns (i: nat)
    requires from <= |frames| && exists f :: f in frames[from..] && Carries(f, id)
    ensures FirstUnder(frames, from, id, i)
    decreases |frames| - from
  {
    hide Carries;
    if Carries(frames[from], id) {
      i := from;
    } else {
      assert frames[from..] == [frames[from]] + frames[from + 1..];
      i := FirstCarrier(frames, from + 1, id);
    }
  }

  function RequestMessage(command: Word, id: Word, payload: seq<Byte>): (message: seq<Byte>)
    requires HEADER_SIZE + |payload| < 0x1_0000_0000
  {
    EncodeHeader(Header(command, id, HEADER_SIZE + |payload|)) + payload
  }

  /** A request is one message for a peer that frames the bytes in the same way; its fields are those that were sent. */
  lemma RequestIsOneMessage(command: Word, id: Word, payload: seq<Byte>)
    requires HEADER_SIZE + |payload| < 0x1_0000_0000
    ensures var message := RequestMessage(command, id, payload);
            && WellFormed(Message(message)) && Carries(Message(message), id)
            && DecodeHeader(message).command == command && message[HEADER_SIZE..] == payload
            && (forall k :: 0 <= k < HEADER_SIZE ==>
                  message[k] == WordByte(if k < 4 then command else if k < 8 then id else HEADER_SIZE + |payload|, k % 4))
            && Frames(message) == [Message(message)] && Rest(message) == []
  {
    HeaderRoundTrip(Header(command, id, HEADER_SIZE + |payload|), payload);
    hide DecodeHeader, EncodeHeader, WordByte;
    forall k | 0 <= k < HEADER_SIZE
      ensures EncodeHeader(Header(command, id, HEADER_SIZE + |payload|))[k]
           == WordByte(if k < 4 then command else if k < 8 then id else HEADER_SIZE + |payload|, k % 4)
    {
      HeaderBytes(Header(command, id, HEADER_SIZE + |payload|), k);
    }
    WholeMessage(RequestMessage(command, id, payload));
  }

  // ----- The size check -----

  /** A network to which one message has come in. */
  method Holding(message: seq<Byte>) returns (n: Network)
    ensures fresh(n) && n.Valid() && n.consumed == [] && n.stream == message && n.receivedResponses == map[]
  {
    n := new Network();
    n.Arrive(message);
  }

  lemma OnlyMessage(n: Network, message: seq<Byte>)
    requires n.Valid() && n.stream == message && Frames(message) == [Message(message)]
    ensures Frames(n.consumed) == [] || Frames(n.consumed) == [Message(message)]
  {
    FramesExtend(n.consumed, n.inbox);
    hide Frames, Rest;
  }

  lemma NotLost(steps: seq<Read>, responses: Responses, id: Word, polls: seq<Poll>)
    requires FollowsPolls(steps, polls) && forall poll :: poll in polls ==> !poll.interrupted
    requires |polls| <= 1
    ensures !Waited(steps, responses, id).Lost?
  {
    hide Stored;
    if steps != [] {
      assert polls[0] in polls && steps[1..] == [];
    }
  }

  /** A response that is a header only is handed over by tcpReceiveResponse, whatever is expected. */
  method ShortResponseIsHandedOver(command: Word, id: Word) returns (r: Receipt)
    ensures r.Received? && |r.response| == HEADER_SIZE
  {
    var message := RequestMessage(command, id, []);
    RequestIsOneMessage(command, id, []);
    StoredOne(map[], Message(message));
    hide Frames, Stored, RequestMessage, Network.Valid;
    var network := Holding(message);
    assert Frames([]) == [];
    r := network.TcpReceiveResponse(id, true, Poll(false, false, [], []), _ => false);
    OnlyMessage(network, message);
    assert message + [] == message;
  }

  /** The blocking receive refuses it when more is expected. */
  method ShortResponseIsRefused(command: Word, id: Word, size: nat) returns (r: Receipt)
    requires size > HEADER_SIZE
    ensures r == TooSmall
  {
    var message := RequestMessage(command, id, []);
    RequestIsOneMessage(command, id, []);
    StoredOne(map[], Message(message));
    hide Frames, Stored, RequestMessage, Network.Valid, Waited, FramesOf, FollowsPolls;
    var network := Holding(message);
    assert Frames([]) == [];
    var turns;
    ghost var steps;
    var poll := Poll(false, false, [], []);
    r, turns, steps := network.TcpBlockingReceiveResponse(id, size, [poll]);
    OnlyMessage(network, message);
    NotLost(steps, map[], id, [poll][..turns]);
  }
}
