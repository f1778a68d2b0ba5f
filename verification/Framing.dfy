/** The wire format of src/network.h: a packed little-endian header that announces the size of its message. */
module Framing {
  type Byte = b: int | 0 <= b < 0x100

  type Word = w: int | 0 <= w < 0x1_0000_0000

  function EncodeWord(w: Word): (bytes: seq<Byte>)
    ensures |bytes| == 4
  {
    [w % 0x100, w / 0x100 % 0x100, w / 0x100 / 0x100 % 0x100, w / 0x100 / 0x100 / 0x100]
  }

  function WithLowByte(low: Byte, high: nat): (n: nat) {
    low + 0x100 * high
  }

  function DecodeWord(bytes: seq<Byte>): Word
    requires |bytes| == 4
  {
    WithLowByte(bytes[0], WithLowByte(bytes[1], WithLowByte(bytes[2], bytes[3])))
  }

  lemma SplitLowByte(n: nat)
    ensures WithLowByte(n % 0x100, n / 0x100) == n
  {
  }

  lemma LowByteSplits(low: Byte, high: nat)
    ensures WithLowByte(low, high) % 0x100 == low && WithLowByte(low, high) / 0x100 == high
  {
  }

  lemma WordRoundTrip(w: Word)
    ensures DecodeWord(EncodeWord(w)) == w
  {
    SplitLowByte(w);
    SplitLowByte(w / 0x100);
    SplitLowByte(w / 0x100 / 0x100);
    hide WithLowByte;
  }

  lemma BytesRoundTrip(bytes: seq<Byte>)
    requires |bytes| == 4
    ensures EncodeWord(DecodeWord(bytes)) == bytes
  {
    var high := WithLowByte(bytes[2], bytes[3]);
    LowByteSplits(bytes[2], bytes[3]);
    LowByteSplits(bytes[1], high);
    LowByteSplits(bytes[0], WithLowByte(bytes[1], high));
    hide WithLowByte;
  }

  datatype Header = Header(command: Word, commandId: Word, size: Word)

  const HEADER_SIZE := 12

  function EncodeHeader(h: Header): (bytes: seq<Byte>)
    ensures |bytes| == HEADER_SIZE
  {
    EncodeWord(h.command) + EncodeWord(h.commandId) + EncodeWord(h.size)
  }

  function DecodeHeader(bytes: seq<Byte>): Header
    requires |bytes| >= HEADER_SIZE
  {
    Header(DecodeWord(bytes[..4]), DecodeWord(bytes[4..8]), DecodeWord(bytes[8..12]))
  }

  lemma HeaderRoundTrip(h: Header, rest: seq<Byte>)
    ensures DecodeHeader(EncodeHeader(h) + rest) == h
  {
    var bytes := EncodeHeader(h) + rest;
    hide EncodeWord, DecodeWord;
    assert bytes[..4] == EncodeWord(h.command) && bytes[4..8] == EncodeWord(h.commandId) && bytes[8..12] == EncodeWord(h.size);
    WordRoundTrip(h.command);
    WordRoundTrip(h.commandId);
    WordRoundTrip(h.size);
  }

  /** Byte k of a word, the lowest first. */
  function WordByte(w: Word, k: nat): nat
    requires k < 4
  {
    w / [1, 0x100, 0x1_0000, 0x100_0000][k] % 0x100
  }

  lemma WordBytes(w: Word, k: nat)
    requires k < 4
    ensures EncodeWord(w)[k] == WordByte(w, k)
  {
    assert w / 0x100 / 0x100 == w / 0x1_0000;
    assert w / 0x100 / 0x100 / 0x100 == w / 0x100_0000;
  }

  /** The command comes first, then its id, then the size, each with its lowest byte first. */
  lemma HeaderBytes(h: Header, k: nat)
    requires k < HEADER_SIZE
    ensures EncodeHeader(h)[k] == WordByte(if k < 4 then h.command else if k < 8 then h.commandId else h.size, k % 4)
  {
    WordBytes(if k < 4 then h.command else if k < 8 then h.commandId else h.size, k % 4);
    hide EncodeWord, WordByte;
  }

  function Weighted(bytes: seq<Byte>, i: nat): nat
    requires i + 4 <= |bytes|
  {
    bytes[i] as nat + 0x100 * bytes[i + 1] as nat + 0x1_0000 * bytes[i + 2] as nat + 0x100_0000 * bytes[i + 3] as nat
  }

  /** They are read as weighted sums. */
  lemma DecodedFields(bytes: seq<Byte>)
    requires |bytes| >= HEADER_SIZE
    ensures DecodeHeader(bytes).command == Weighted(bytes, 0)
    ensures DecodeHeader(bytes).commandId == Weighted(bytes, 4)
    ensures DecodeHeader(bytes).size == Weighted(bytes, 8)
  {
  }

  lemma HeaderIsDetermined(bytes: seq<Byte>)
    requires |bytes| >= HEADER_SIZE
    ensures EncodeHeader(DecodeHeader(bytes)) == bytes[..HEADER_SIZE]
  {
    hide EncodeWord, DecodeWord;
    BytesRoundTrip(bytes[..4]);
    BytesRoundTrip(bytes[4..8]);
    BytesRoundTrip(bytes[8..12]);
    assert bytes[..HEADER_SIZE] == bytes[..4] + bytes[4..8] + bytes[8..12];
  }

  lemma HeaderOfPrefix(bytes: seq<Byte>, more: seq<Byte>)
    requires |bytes| >= HEADER_SIZE
    ensures DecodeHeader(bytes + more) == DecodeHeader(bytes)
  {
    hide DecodeWord;
    assert (bytes + more)[..4] == bytes[..4] && (bytes + more)[4..8] == bytes[4..8] && (bytes + more)[8..12] == bytes[8..12];
  }

  // ----- What a stream of bytes means -----

  /** A complete message, or a header that announces less than its own size and is dropped alone. */
  datatype Frame = Message(bytes: seq<Byte>) | Rejected(bytes: seq<Byte>)

  predicate WellFormed(f: Frame) {
    && |f.bytes| >= HEADER_SIZE
    && var size := DecodeHeader(f.bytes).size;
       if f.Message? then size == |f.bytes| else size < HEADER_SIZE == |f.bytes|
  }

  /** The size of the first frame of a stream, once enough of it is there to tell. */
  function FirstSize(s: seq<Byte>): nat
    requires |s| >= HEADER_SIZE
  {
    var size := DecodeHeader(s).size;
    if size < HEADER_SIZE then HEADER_SIZE else size
  }

  lemma FirstSizeOfPrefix(s: seq<Byte>, t: seq<Byte>)
    requires |s| >= HEADER_SIZE
    ensures FirstSize(s + t) == FirstSize(s)
  {
    HeaderOfPrefix(s, t);
  }

  lemma FirstSizeOfFirst(s: seq<Byte>)
    requires StartsWithFrame(s)
    ensures FirstSize(s[..FirstSize(s)]) == FirstSize(s)
  {
    var n := FirstSize(s);
    assert n >= HEADER_SIZE;
    hide FirstSize;
    SplitAt(s, n);
    FirstSizeOfPrefix(s[..n], s[n..]);
  }

  lemma SplitAt(s: seq<Byte>, n: nat)
    requires n <= |s|
    ensures s == s[..n] + s[n..]
  {
  }

  lemma SplitSum(s: seq<Byte>, t: seq<Byte>, n: nat)
    requires n <= |s|
    ensures (s + t)[..n] == s[..n] && (s + t)[n..] == s[n..] + t
  {
  }

  function FrameOf(bytes: seq<Byte>): (f: Frame)
    requires |bytes| >= HEADER_SIZE && FirstSize(bytes) == |bytes|
    ensures WellFormed(f) && f.bytes == bytes
  {
    if DecodeHeader(bytes).size < HEADER_SIZE then Rejected(bytes) else Message(bytes)
  }

  function FirstFrame(s: seq<Byte>): (f: Frame)
    requires StartsWithFrame(s)
    ensures WellFormed(f) && f.bytes == s[..FirstSize(s)]
  {
    FirstSizeOfFirst(s);
    FrameOf(s[..FirstSize(s)])
  }

  predicate StartsWithFrame(s: seq<Byte>) {
    |s| >= HEADER_SIZE && |s| >= FirstSize(s)
  }

  /** The frames of a stream, in order. */
  function Frames(s: seq<Byte>): (fs: seq<Frame>)
    decreases |s|
  {
    if StartsWithFrame(s) then [FirstFrame(s)] + Frames(s[FirstSize(s)..]) else []
  }

  /** The bytes after the last frame: the beginning of a message that is not complete yet. */
  function Rest(s: seq<Byte>): (r: seq<Byte>)
    ensures !StartsWithFrame(r)
    decreases |s|
  {
    if StartsWithFrame(s) then Rest(s[FirstSize(s)..]) else s
  }

  function Flatten(fs: seq<Frame>): seq<Byte> {
    if fs == [] then [] else fs[0].bytes + Flatten(fs[1..])
  }

  lemma Unfold(s: seq<Byte>)
    ensures StartsWithFrame(s) ==>
      && FirstFrame(s).bytes == s[..FirstSize(s)] && WellFormed(FirstFrame(s)) && |s[FirstSize(s)..]| < |s|
      && Frames(s) == [FirstFrame(s)] + Frames(s[FirstSize(s)..])
      && Rest(s) == Rest(s[FirstSize(s)..])
    ensures !StartsWithFrame(s) ==> Frames(s) == [] && Rest(s) == s
  {
  }

  lemma FlattenFirst(f: Frame, fs: seq<Frame>)
    ensures Flatten([f] + fs) == f.bytes + Flatten(fs)
  {
    assert ([f] + fs)[1..] == fs;
  }

  /** Nothing is lost, repeated or reordered. */
  lemma {:induction false} FramesPartitionStream(s: seq<Byte>)
    ensures Flatten(Frames(s)) + Rest(s) == s
    ensures forall f :: f in Frames(s) ==> WellFormed(f)
    decreases |s|
  {
    Unfold(s);
    hide FirstFrame, Frames, Rest, WellFormed, FirstSize;
    if StartsWithFrame(s) {
      var n := FirstSize(s);
      FramesPartitionStream(s[n..]);
      FlattenFirst(FirstFrame(s), Frames(s[n..]));
      SplitAt(s, n);
      assert s[..n] + (Flatten(Frames(s[n..])) + Rest(s[n..])) == s[..n] + Flatten(Frames(s[n..])) + Rest(s[n..]);
    }
  }

  lemma FirstOfPrefix(s: seq<Byte>, t: seq<Byte>)
    requires StartsWithFrame(s)
    ensures StartsWithFrame(s + t) && FirstSize(s + t) == FirstSize(s) && FirstFrame(s + t) == FirstFrame(s)
    ensures (s + t)[FirstSize(s)..] == s[FirstSize(s)..] + t
  {
    FirstSizeOfPrefix(s, t);
    hide FirstSize, FrameOf;
    SplitSum(s, t, FirstSize(s));
  }

  /** Frames can be read off as the bytes come in: more bytes only extend the unfinished rest. */
  lemma {:induction false} FramesExtend(s: seq<Byte>, t: seq<Byte>)
    ensures Frames(s + t) == Frames(s) + Frames(Rest(s) + t)
    ensures Rest(s + t) == Rest(Rest(s) + t)
    decreases |s|
  {
    Unfold(s);
    hide FirstFrame, Frames, Rest, WellFormed, FirstSize;
    if StartsWithFrame(s) {
      FirstOfPrefix(s, t);
      Unfold(s + t);
      FramesExtend(s[FirstSize(s)..], t);
    }
  }

  lemma FrameAhead(f: Frame, s: seq<Byte>)
    requires WellFormed(f)
    ensures StartsWithFrame(f.bytes + s) && FirstSize(f.bytes + s) == |f.bytes| && FirstFrame(f.bytes + s) == f
  {
    FirstSizeOfPrefix(f.bytes, s);
    hide DecodeHeader;
    assert (f.bytes + s)[..|f.bytes|] == f.bytes;
  }

  /** Any sequence of frames is recovered from its bytes. */
  lemma {:induction false} FramesRecovered(fs: seq<Frame>)
    requires forall f :: f in fs ==> WellFormed(f)
    ensures Frames(Flatten(fs)) == fs && Rest(Flatten(fs)) == []
  {
    if fs != [] {
      var s := Flatten(fs[1..]);
      FramesRecovered(fs[1..]);
      FrameAhead(fs[0], s);
      hide FirstSize, FirstFrame, WellFormed;
      assert (fs[0].bytes + s)[|fs[0].bytes|..] == s;
    }
  }
}
