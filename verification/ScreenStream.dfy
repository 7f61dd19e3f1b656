/** The shared-screen stream: frames behind a four-byte big-endian length, read back incrementally. */
module ScreenStream {

  type Byte = b: int | 0 <= b < 256

  const MAX_FRAME: nat := 10 * 1024 * 1024
  const MAX_BUFFER: nat := 50 * 1024 * 1024
  const MAX_PENDING: nat := 2 * 1024 * 1024
  const COMPACT_ABOVE: nat := 65536

  // ------------------------------------------------------ the format

  function LowByte(n: nat): (b: Byte) {
    n % 256
  }

  /** `qToBigEndian` of a 32-bit size. */
  function BigEndian(n: nat): (r: seq<Byte>)
    requires n < 0x1_0000_0000
    ensures |r| == 4
  {
    [LowByte(n / 256 / 256 / 256), LowByte(n / 256 / 256), LowByte(n / 256), LowByte(n)]
  }

  function Assemble(a: int, b: int, c: int, d: int): int {
    ((a * 256 + b) * 256 + c) * 256 + d
  }

  /** `qFromBigEndian` of the first four bytes. */
  function FromBigEndian(s: seq<Byte>): (n: nat)
    requires |s| >= 4
    ensures n < 0x1_0000_0000
  {
    Assemble(s[0], s[1], s[2], s[3])
  }

  lemma SizeRoundTrip(n: nat)
    requires n < 0x1_0000_0000
    ensures FromBigEndian(BigEndian(n)) == n
  {
    var low, middle, high := n / 256, n / 256 / 256, n / 256 / 256 / 256;
    assert high < 256;
    assert n == low * 256 + n % 256 && low == middle * 256 + low % 256 && middle == high * 256 + middle % 256;
  }

  /** The most significant byte comes first. */
  lemma HeaderIsBigEndian(n: nat)
    requires n < 0x1_0000_0000
    ensures MostSignificantFirst(BigEndian(n)) == n
  {
    SizeRoundTrip(n);
  }

  /** The number that the first four bytes stand for in network order. */
  function MostSignificantFirst(s: seq<Byte>): int
    requires |s| >= 4
  {
    var a: int, b: int, c: int, d: int := s[0], s[1], s[2], s[3];
    a * 0x100_0000 + b * 0x1_0000 + c * 0x100 + d
  }

  lemma HeaderRoundTrip(s: seq<Byte>)
    requires |s| >= 4
    ensures BigEndian(FromBigEndian(s)) == s[..4]
  {
    var a: int, b: int, c: int, d: int := s[0], s[1], s[2], s[3];
    var n := FromBigEndian(s);
    var low := (a * 256 + b) * 256 + c;
    assert n / 256 == low && n % 256 == d;
    assert low / 256 == a * 256 + b && low % 256 == c;
    assert (a * 256 + b) / 256 == a && (a * 256 + b) % 256 == b;
  }

  /** Frames whose length fits the four-byte header. */
  predicate Framable(frames: seq<seq<Byte>>) {
    forall i :: 0 <= i < |frames| ==> |frames[i]| < 0x1_0000_0000
  }

  /** Frames that the viewer accepts. */
  predicate Sendable(frames: seq<seq<Byte>>): (r: bool)
    ensures r ==> Framable(frames)
  {
    forall i :: 0 <= i < |frames| ==> |frames[i]| <= MAX_FRAME
  }

  /** The cast to 32 bits. */
  function LowWord(n: nat): (w: nat)
    ensures w < 0x1_0000_0000 && (n < 0x1_0000_0000 ==> w == n)
  {
    n % 0x1_0000_0000
  }

  function Framed(frame: seq<Byte>): seq<Byte> {
    BigEndian(LowWord(|frame|)) + frame
  }

  function Encode(frames: seq<seq<Byte>>): seq<Byte> {
    if frames == [] then [] else Framed(frames[0]) + Encode(frames[1..])
  }

  lemma {:induction false} EncodeAppend(frames: seq<seq<Byte>>, more: seq<seq<Byte>>)
    ensures Encode(frames + more) == Encode(frames) + Encode(more)
  {
    hide Framed;
    if frames == [] {
      assert frames + more == more;
    } else {
      EncodeAppend(frames[1..], more);
      assert (frames + more)[0] == frames[0] && (frames + more)[1..] == frames[1..] + more;
      Regroup(Framed(frames[0]), Encode(frames[1..]), Encode(more));
    }
  }

  lemma Regroup(a: seq<Byte>, b: seq<Byte>, c: seq<Byte>)
    ensures a + (b + c) == (a + b) + c
  {
  }

  lemma EncodeOne(frame: seq<Byte>)
    ensures Encode([frame]) == Framed(frame)
  {
    assert [frame][1..] == [];
    assert Framed(frame) + [] == Framed(frame);
  }

  /** Bytes that do not yet hold a whole frame, and announce none that is too big. */
  predicate Incomplete(s: seq<Byte>) {
    |s| < 4 || (FromBigEndian(s) <= MAX_FRAME && |s| < 4 + FromBigEndian(s))
  }

  predicate Oversized(s: seq<Byte>) {
    |s| >= 4 && FromBigEndian(s) > MAX_FRAME
  }

  lemma TooBigIsOversized(s: seq<Byte>)
    ensures Oversized(s) <==> |s| >= 4 && MostSignificantFirst(s) > 10 * 1024 * 1024
  {
  }

  lemma FrontFrame(s: seq<Byte>, frame: seq<Byte>, rest: seq<Byte>)
    requires |frame| < 0x1_0000_0000 && s == Framed(frame) + rest
    ensures |s| >= 4 + |frame| && FromBigEndian(s) == |frame| && s[4..4 + |frame|] == frame && s[4 + |frame|..] == rest
  {
    hide LowWord;
    SizeRoundTrip(|frame|);
    assert s[..4] == BigEndian(|frame|);
    assert s[0] == s[..4][0] && s[1] == s[..4][1] && s[2] == s[..4][2] && s[3] == s[..4][3];
  }

  lemma HeaderOfPrefix(s: seq<Byte>, more: seq<Byte>)
    requires |s| >= 4
    ensures FromBigEndian(s + more) == FromBigEndian(s)
  {
    hide Assemble;
    assert (s + more)[0] == s[0] && (s + more)[1] == s[1] && (s + more)[2] == s[2] && (s + more)[3] == s[3];
  }

  /** What is left of an encoding before its first frame is complete. */
  lemma PartOfFirst(rest: seq<Byte>, unseen: seq<Byte>, sent: seq<seq<Byte>>)
    requires Sendable(sent) && rest + unseen == Encode(sent)
    ensures !Oversized(rest)
    ensures Incomplete(rest) && unseen == [] ==> sent == [] && rest == []
  {
    hide BigEndian, FromBigEndian, Framed;
    if sent != [] {
      FrontFrame(rest + unseen, sent[0], Encode(sent[1..]));
      if |rest| >= 4 { HeaderOfPrefix(rest, unseen); }
      assert unseen == [] ==> rest + unseen == rest;
    }
  }

  /** Two encodings that begin with a frame each begin with the same one. */
  lemma SameFirst(frame: seq<Byte>, tail: seq<Byte>, frame': seq<Byte>, tail': seq<Byte>)
    requires |frame| < 0x1_0000_0000 && |frame'| < 0x1_0000_0000 && Framed(frame) + tail == Framed(frame') + tail'
    ensures frame == frame' && tail == tail'
  {
    hide BigEndian, FromBigEndian, Framed;
    FrontFrame(Framed(frame) + tail, frame, tail);
    FrontFrame(Framed(frame) + tail, frame', tail');
  }

  /**
   * The code is uniquely readable: whatever has been read as whole frames is the beginning of what
   * was sent, the rest is part of the next frame, and no sendable frame looks too big.
   */
  lemma {:induction false} ReadingIsPrefix(read: seq<seq<Byte>>, rest: seq<Byte>, unseen: seq<Byte>,
                                           sent: seq<seq<Byte>>)
    requires Framable(read) && Sendable(sent)
    requires Encode(read) + rest + unseen == Encode(sent)
    ensures read <= sent && !Oversized(rest)
    ensures Incomplete(rest) && unseen == [] ==> read == sent && rest == []
  {
    hide BigEndian, FromBigEndian, Framed, Incomplete, Oversized;
    if read == [] {
      assert [] + rest + unseen == rest + unseen;
      PartOfFirst(rest, unseen, sent);
    } else {
      var tail := Encode(read[1..]) + rest + unseen;
      assert Framed(read[0]) + Encode(read[1..]) + rest + unseen == Framed(read[0]) + tail;
      FirstFrameNotEmpty(read[0], tail);
      SameFirst(read[0], tail, sent[0], Encode(sent[1..]));
      ReadingIsPrefix(read[1..], rest, unseen, sent[1..]);
      assert read == [read[0]] + read[1..] && sent == [sent[0]] + sent[1..];
    }
  }

  lemma FirstFrameNotEmpty(frame: seq<Byte>, tail: seq<Byte>)
    ensures Framed(frame) + tail != []
  {
    hide BigEndian;
  }

  // ------------------------------------------------------ the sender

  class ScreenCaptureChannel {
    var hasClient: bool
    var bytesToWrite: nat
    var written: seq<Byte>
    ghost var accepted: seq<seq<Byte>>

    /** Everything written to the current client is the encoding of the frames that were not skipped. */
    ghost predicate Valid()
      reads this
    {
      written == Encode(accepted) && bytesToWrite <= |written|
    }

    constructor ()
      ensures Valid() && !hasClient && bytesToWrite == 0 && accepted == []
    {
      hasClient, bytesToWrite, written, accepted := false, 0, [], [];
    }

    /** onNewConnection: only one viewer is served; a further one is refused. */
    method OnNewConnection() returns (served: bool)
      requires Valid()
      modifies this
      ensures Valid() && hasClient && served == !old(hasClient)
      ensures if served then bytesToWrite == 0 && accepted == []
              else accepted == old(accepted) && bytesToWrite == old(bytesToWrite)
    {
      if hasClient { return false; }
      hasClient, bytesToWrite, written, accepted := true, 0, [], [];
      return true;
    }

    /** The client is gone. */
    method OnDisconnected()
      requires Valid()
      modifies this`hasClient
      ensures Valid() && !hasClient
    {
      hasClient := false;
    }

    /** The socket has passed on some of the waiting bytes. */
    method OnBytesWritten(count: nat)
      requires Valid() && count <= bytesToWrite
      modifies this`bytesToWrite
      ensures Valid() && bytesToWrite == old(bytesToWrite) - count
    {
      bytesToWrite := bytesToWrite - count;
    }

    /** A frame is written whole or skipped: without a client, when empty, or when more than 2 MB are waiting. */
    method SendEncodedFrame(jpegData: seq<Byte>)
      requires Valid()
      modifies this
      ensures Valid() && hasClient == old(hasClient)
      ensures accepted == old(accepted) + if !hasClient || jpegData == [] || old(bytesToWrite) > 2 * 1024 * 1024 then []
              else [jpegData]
      ensures bytesToWrite == old(bytesToWrite) + |written| - |old(written)|
      ensures bytesToWrite <= if old(bytesToWrite) > 2 * 1024 * 1024 then old(bytesToWrite)
              else 2 * 1024 * 1024 + 4 + |jpegData|
    {
      if !hasClient || jpegData == [] { return; }
      if bytesToWrite > MAX_PENDING { return; }
      EncodeOne(jpegData);
      EncodeAppend(accepted, [jpegData]);
      var frameSize := LowWord(|jpegData|);
      written := written + BigEndian(frameSize);
      written := written + jpegData;
      bytesToWrite := bytesToWrite + 4 + |jpegData|;
      accepted := accepted + [jpegData];
    }
  }

  // ------------------------------------------------------ the reader

  /** What has been received and not yet emitted: a header already read stands for its four bytes. */
  function Unread(buffer: seq<Byte>, readOffset: nat, expectedFrameSize: nat): seq<Byte>
    requires readOffset <= |buffer| && expectedFrameSize < 0x1_0000_0000
  {
    (if expectedFrameSize > 0 then BigEndian(expectedFrameSize) else []) + buffer[readOffset..]
  }

  lemma HeaderRead(buffer: seq<Byte>, readOffset: nat)
    requires readOffset + 4 <= |buffer|
    ensures var n := FromBigEndian(buffer[readOffset..]);
            Unread(buffer, readOffset, 0) == BigEndian(n) + buffer[readOffset + 4..]
  {
    hide BigEndian, FromBigEndian;
    HeaderRoundTrip(buffer[readOffset..]);
    assert buffer[readOffset..] == buffer[readOffset..][..4] + buffer[readOffset + 4..];
  }

  lemma FrameRead(buffer: seq<Byte>, readOffset: nat, size: nat)
    requires readOffset + size <= |buffer| && size <= MAX_FRAME
    ensures BigEndian(size) + buffer[readOffset..] == Framed(buffer[readOffset..readOffset + size])
            + Unread(buffer, readOffset + size, 0)
  {
    hide BigEndian, LowWord;
    var frame, rest := buffer[readOffset..readOffset + size], buffer[readOffset + size..];
    assert buffer[readOffset..] == frame + rest;
    assert BigEndian(size) + (frame + rest) == (BigEndian(size) + frame) + rest;
    assert [] + rest == rest;
  }

  lemma WaitsForMore(buffer: seq<Byte>, readOffset: nat, size: nat)
    requires readOffset <= |buffer| && size <= MAX_FRAME
    requires if size == 0 then |buffer| - readOffset < 4 else |buffer| - readOffset < size
    ensures Incomplete(Unread(buffer, readOffset, size))
  {
    if size > 0 {
      var s := Unread(buffer, readOffset, size);
      SizeRoundTrip(size);
      assert s[0] == BigEndian(size)[0] && s[1] == BigEndian(size)[1] && s[2] == BigEndian(size)[2]
             && s[3] == BigEndian(size)[3];
    }
  }

  lemma OneMoreFrame(done: seq<seq<Byte>>, frame: seq<Byte>, rest: seq<Byte>)
    requires Sendable(done) && |frame| <= MAX_FRAME
    ensures Sendable(done + [frame]) && Encode(done + [frame]) + rest == Encode(done) + (Framed(frame) + rest)
  {
    hide Encode, Framed;
    EncodeOne(frame);
    EncodeAppend(done, [frame]);
    Regroup(Encode(done), Framed(frame), rest);
  }

  lemma MoreFrames(done: seq<seq<Byte>>, news: seq<seq<Byte>>, rest: seq<Byte>, before: seq<Byte>, chunk: seq<Byte>)
    requires Sendable(done) && Sendable(news) && Encode(news) + rest == before + chunk
    ensures Sendable(done + news) && Encode(done) + before + chunk == Encode(done + news) + rest
  {
    hide Encode;
    EncodeAppend(done, news);
    Regroup(Encode(done), Encode(news), rest);
    Regroup(Encode(done), before, chunk);
  }

  lemma ChunkArrives(buffer: seq<Byte>, readOffset: nat, size: nat, chunk: seq<Byte>)
    requires readOffset <= |buffer| && size < 0x1_0000_0000
    ensures Unread(buffer + chunk, readOffset, size) == Unread(buffer, readOffset, size) + chunk
  {
    assert (buffer + chunk)[readOffset..] == buffer[readOffset..] + chunk;
  }

  /** Frames read, and bytes not yet emitted, that make up a stretch of the stream. */
  ghost predicate Reads(news: seq<seq<Byte>>, buffer: seq<Byte>, readOffset: nat, size: nat, whole: seq<Byte>) {
    && readOffset <= |buffer| && size < 0x1_0000_0000
    && Encode(news) + Unread(buffer, readOffset, size) == whole
  }

  /** The same just after a header has been read, which may announce an empty frame. */
  ghost predicate ReadsBody(news: seq<seq<Byte>>, buffer: seq<Byte>, readOffset: nat, size: nat, whole: seq<Byte>) {
    && readOffset <= |buffer| && size < 0x1_0000_0000
    && Encode(news) + (BigEndian(size) + buffer[readOffset..]) == whole
  }

  lemma ReadsNothing(buffer: seq<Byte>, readOffset: nat, size: nat)
    requires readOffset <= |buffer| && size < 0x1_0000_0000
    ensures Reads([], buffer, readOffset, size, Unread(buffer, readOffset, size)) && Sendable([])
  {
    hide Unread;
    assert [] + Unread(buffer, readOffset, size) == Unread(buffer, readOffset, size);
  }

  lemma HeaderStep(news: seq<seq<Byte>>, buffer: seq<Byte>, readOffset: nat, whole: seq<Byte>)
    requires Reads(news, buffer, readOffset, 0, whole) && readOffset + 4 <= |buffer|
    ensures ReadsBody(news, buffer, readOffset + 4, FromBigEndian(buffer[readOffset..]), whole)
  {
    hide Encode, Unread, BigEndian, FromBigEndian;
    HeaderRead(buffer, readOffset);
  }

  lemma BodyPending(news: seq<seq<Byte>>, buffer: seq<Byte>, readOffset: nat, size: nat, whole: seq<Byte>)
    requires size > 0
    ensures Reads(news, buffer, readOffset, size, whole) <==> ReadsBody(news, buffer, readOffset, size, whole)
  {
    hide Encode, BigEndian;
  }

  lemma FrameStep(news: seq<seq<Byte>>, buffer: seq<Byte>, readOffset: nat, size: nat, whole: seq<Byte>)
    requires ReadsBody(news, buffer, readOffset, size, whole) && Sendable(news)
    requires size <= MAX_FRAME && readOffset + size <= |buffer|
    ensures var more := news + [buffer[readOffset..readOffset + size]];
            Sendable(more) && Reads(more, buffer, readOffset + size, 0, whole)
  {
    hide Encode, Unread, BigEndian, Framed, Sendable;
    FrameRead(buffer, readOffset, size);
    OneMoreFrame(news, buffer[readOffset..readOffset + size], Unread(buffer, readOffset + size, 0));
  }

  /**
   * The parsing loop. It emits every whole frame in the buffer, in order, and stops at the first
   * incomplete one; `ok` is false exactly when it meets a header above the limit.
   */
  method ParseFrames(buffer: seq<Byte>, offset0: nat, expected0: nat)
    returns (ok: bool, news: seq<seq<Byte>>, readOffset: nat, expectedFrameSize: nat)
    requires offset0 <= |buffer| && expected0 <= MAX_FRAME
    ensures Sendable(news) && offset0 <= readOffset <= |buffer| && expectedFrameSize < 0x1_0000_0000
    ensures Encode(news) + Unread(buffer, readOffset, expectedFrameSize) == Unread(buffer, offset0, expected0)
    ensures ok ==> expectedFrameSize <= MAX_FRAME && Incomplete(Unread(buffer, readOffset, expectedFrameSize))
    ensures ok ==> |buffer| - readOffset <= MAX_FRAME
    ensures !ok ==> Oversized(Unread(buffer, readOffset, expectedFrameSize))
  {
    hide Framed, Incomplete, Oversized, FromBigEndian, BigEndian, LowWord, Unread, Encode, Sendable, Reads, ReadsBody;
    news, readOffset, expectedFrameSize := [], offset0, expected0;
    ghost var whole := Unread(buffer, offset0, expected0);
    ReadsNothing(buffer, offset0, expected0);
    while true
      invariant offset0 <= readOffset <= |buffer| && expectedFrameSize <= MAX_FRAME && Sendable(news)
      invariant Reads(news, buffer, readOffset, expectedFrameSize, whole)
      decreases |buffer| - readOffset
    {
      var available := |buffer| - readOffset;
      if expectedFrameSize == 0 {
        if available < 4 { break; }
        HeaderStep(news, buffer, readOffset, whole);
        expectedFrameSize := FromBigEndian(buffer[readOffset..]);
        readOffset := readOffset + 4;
        if expectedFrameSize > MAX_FRAME {
          TooBig(buffer, readOffset, expectedFrameSize);
          BodyPending(news, buffer, readOffset, expectedFrameSize, whole);
          ReadsMeans(news, buffer, readOffset, expectedFrameSize, whole);
          return false, news, readOffset, expectedFrameSize;
        }
      } else {
        BodyPending(news, buffer, readOffset, expectedFrameSize, whole);
      }
      if |buffer| - readOffset < expectedFrameSize {
        BodyPending(news, buffer, readOffset, expectedFrameSize, whole);
        break;
      }
      FrameStep(news, buffer, readOffset, expectedFrameSize, whole);
      var frameData := buffer[readOffset..readOffset + expectedFrameSize];
      readOffset := readOffset + expectedFrameSize;
      expectedFrameSize := 0;
      news := news + [frameData];
    }
    WaitsForMore(buffer, readOffset, expectedFrameSize);
    ReadsMeans(news, buffer, readOffset, expectedFrameSize, whole);
    return true, news, readOffset, expectedFrameSize;
  }

  lemma ReadsMeans(news: seq<seq<Byte>>, buffer: seq<Byte>, readOffset: nat, size: nat, whole: seq<Byte>)
    requires Reads(news, buffer, readOffset, size, whole)
    ensures readOffset <= |buffer| && size < 0x1_0000_0000 && Encode(news) + Unread(buffer, readOffset, size) == whole
  {
    hide Encode, Unread;
  }

  lemma TooBig(buffer: seq<Byte>, readOffset: nat, size: nat)
    requires readOffset <= |buffer| && MAX_FRAME < size < 0x1_0000_0000
    ensures Oversized(Unread(buffer, readOffset, size))
  {
    var s := Unread(buffer, readOffset, size);
    SizeRoundTrip(size);
    assert s[0] == BigEndian(size)[0] && s[1] == BigEndian(size)[1] && s[2] == BigEndian(size)[2]
           && s[3] == BigEndian(size)[3];
  }

  datatype StreamError = NoError | BufferOverflow | FrameTooBig

  class ScreenViewer {
    var receiveBuffer: seq<Byte>
    var readOffset: nat
    var expectedFrameSize: nat
    var connected: bool
    var error: StreamError
    var frames: seq<seq<Byte>>
    ghost var received: seq<Byte>

    function Pending(): seq<Byte>
      requires readOffset <= |receiveBuffer| && expectedFrameSize < 0x1_0000_0000
      reads this
    {
      Unread(receiveBuffer, readOffset, expectedFrameSize)
    }

    /** While connected, the bytes received are the frames emitted followed by an incomplete one, and the buffer
      * stays bounded. */
    ghost predicate Valid()
      reads this
    {
      connected ==>
        && readOffset <= |receiveBuffer| && expectedFrameSize <= MAX_FRAME && Sendable(frames)
        && received == Encode(frames) + Pending() && Incomplete(Pending())
        && |receiveBuffer| <= COMPACT_ABOVE + MAX_FRAME
    }

    constructor ()
      ensures Valid() && connected && error == NoError && frames == [] && received == []
    {
      receiveBuffer, readOffset, expectedFrameSize, connected := [], 0, 0, true;
      error, frames, received := NoError, [], [];
    }

    /** Closes the connection and forgets what was pending. */
    method DisconnectFromHost()
      modifies this
      ensures Valid() && !connected && receiveBuffer == [] && readOffset == 0 && expectedFrameSize == 0
              && frames == old(frames)
    {
      connected := false;
      receiveBuffer, readOffset, expectedFrameSize := [], 0, 0;
    }

    /**
     * Takes in a chunk and emits the frames it completes. The connection is closed exactly when the
     * buffer would exceed 50 MB, or a header announces more than 10 MB.
     */
    method OnReadyRead(chunk: seq<Byte>)
      requires Valid() && connected
      modifies this
      ensures Valid()
      ensures old(frames) <= frames && received == old(received) + chunk
      ensures error == BufferOverflow && !connected <==> |old(receiveBuffer)| + |chunk| > 50 * 1024 * 1024
      ensures connected ==> error == old(error)
      ensures !connected && error != BufferOverflow ==>
                error == FrameTooBig && Sendable(frames) && (exists rest ::
                  received == Encode(frames) + rest && |rest| >= 4
                  && MostSignificantFirst(rest) > 10 * 1024 * 1024)
    {
      hide Encode, Framed, Incomplete, Oversized, FromBigEndian, BigEndian, Sendable, Framable, MostSignificantFirst;
      ghost var before := Pending();
      received := received + chunk;
      receiveBuffer := receiveBuffer + chunk;
      if |receiveBuffer| > MAX_BUFFER {
        error, connected := BufferOverflow, false;
        receiveBuffer, expectedFrameSize, readOffset := [], 0, 0;
        return;
      }
      ChunkArrives(old(receiveBuffer), readOffset, expectedFrameSize, chunk);
      var ok, news, offset, expected := ParseFrames(receiveBuffer, readOffset, expectedFrameSize);
      MoreFrames(frames, news, Unread(receiveBuffer, offset, expected), before, chunk);
      assert received == Encode(frames + news) + Unread(receiveBuffer, offset, expected);
      frames, readOffset, expectedFrameSize := frames + news, offset, expected;
      if !ok {
        TooBigIsOversized(Unread(receiveBuffer, offset, expected));
        error, connected := FrameTooBig, false;
        return;
      }
      if readOffset > COMPACT_ABOVE {
        assert receiveBuffer[readOffset..][0..] == receiveBuffer[readOffset..];
        receiveBuffer := receiveBuffer[readOffset..];
        readOffset := 0;
      }
    }
  }

  // ------------------------------------------------------ end to end

  function Concat(chunks: seq<seq<Byte>>): seq<Byte> {
    if chunks == [] then [] else Concat(chunks[..|chunks| - 1]) + chunks[|chunks| - 1]
  }

  /**
   * The round trip: however the encoding of some sendable frames is cut into chunks of at most
   * 40 MB minus 64 KB, a fresh viewer stays connected and has emitted exactly those frames, in order.
   */
  method Receive(chunks: seq<seq<Byte>>, ghost sent: seq<seq<Byte>>) returns (viewer: ScreenViewer)
    requires (forall i :: 0 <= i < |sent| ==> |sent[i]| <= 10 * 1024 * 1024) && Concat(chunks) == Encode(sent)
    requires forall i :: 0 <= i < |chunks| ==> |chunks[i]| <= 40 * 1024 * 1024 - 65536
    ensures viewer.connected && viewer.error == NoError && viewer.frames == sent
  {
    assert Sendable(sent);
    hide Encode, Framed, Incomplete, Oversized, Sendable, MostSignificantFirst, FromBigEndian, BigEndian, Unread;
    viewer := new ScreenViewer();
    for i := 0 to |chunks|
      invariant fresh(viewer) && viewer.Valid() && viewer.connected && viewer.error == NoError
      invariant viewer.received == Concat(chunks[..i])
    {
      assert chunks[..i + 1][..i] == chunks[..i];
      ghost var unseen := RestOf(chunks, i + 1);
      viewer.OnReadyRead(chunks[i]);
      if !viewer.connected {
        ghost var rest :| viewer.received == Encode(viewer.frames) + rest && |rest| >= 4
          && MostSignificantFirst(rest) > 10 * 1024 * 1024;
        TooBigIsOversized(rest);
        ReadingIsPrefix(viewer.frames, rest, unseen, sent);
        assert false;
      }
    }
    assert chunks[..|chunks|] == chunks;
    ReadingIsPrefix(viewer.frames, viewer.Pending(), [], sent);
  }

  lemma {:induction false} RestOf(chunks: seq<seq<Byte>>, i: nat) returns (rest: seq<Byte>)
    requires i <= |chunks|
    ensures Concat(chunks) == Concat(chunks[..i]) + rest
    decreases |chunks| - i
  {
    if i == |chunks| {
      assert chunks[..i] == chunks;
      rest := [];
    } else {
      rest := RestOf(chunks, i + 1);
      assert chunks[..i + 1][..i] == chunks[..i];
      rest := chunks[i] + rest;
    }
  }
}
