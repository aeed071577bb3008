/** The INSTREAM framing loop of src/common/security/clamav.service.ts. */
module ClamFraming {
  type Byte = b: int | 0 <= b < 256

  const CHUNK_BYTES := 65536
  const TERMINATOR: seq<Byte> := [0, 0, 0, 0]
  /** "zINSTREAM" and its NUL, as ASCII codes. */
  const COMMAND: seq<Byte> := [122, 73, 78, 83, 84, 82, 69, 65, 77, 0]

  /** Buffer.writeUInt32BE. */
  function WriteUInt32BE(n: int): (header: seq<Byte>)
    requires 0 <= n < 0x1_0000_0000
    ensures |header| == 4 && ReadUInt32BE(header) == n
  {
    var high, low := n / 0x1_0000, n % 0x1_0000;
    [high / 0x100, high % 0x100, low / 0x100, low % 0x100]
  }

  /** The length a reader of the protocol takes from four header bytes. */
  function ReadUInt32BE(h: seq<Byte>): (n: int)
    requires |h| == 4
    ensures 0 <= n < 0x1_0000_0000
  {
    var a: int, b: int, c: int, d: int := h[0], h[1], h[2], h[3];
    a * 0x100_0000 + b * 0x1_0000 + c * 0x100 + d
  }

  /** What a reader recovers: the lengths it saw, the payload, and the bytes after the terminator. */
  datatype Stream = Stream(lengths: seq<int>, payload: seq<Byte>, rest: seq<Byte>) | Malformed

  /** The reader's side: length, that many bytes, again, until a zero length. */
  function Read(wire: seq<Byte>): Stream
    decreases |wire|
  {
    if |wire| < 4 then Malformed
    else
      var n := ReadUInt32BE(wire[..4]);
      if n == 0 then Stream([0], [], wire[4..])
      else if |wire| < 4 + n then Malformed
      else
        match Read(wire[4 + n..])
        case Malformed => Malformed
        case Stream(lengths, payload, rest) => Stream([n] + lengths, wire[4..4 + n] + payload, rest)
  }

  function ChunkLength(b: seq<Byte>): int {
    if |b| < CHUNK_BYTES then |b| else CHUNK_BYTES
  }

  function Frames(b: seq<Byte>): seq<Byte>
    decreases |b|
  {
    if b == [] then TERMINATOR
    else
      var n := ChunkLength(b);
      WriteUInt32BE(n) + b[..n] + Frames(b[n..])
  }

  /** One turn of the loop, on values: the frames still owed after `sent`, with one more chunk on the wire. */
  lemma SendOneChunk(sent: seq<Byte>, left: seq<Byte>)
    requires left != []
    ensures var n := ChunkLength(left);
      sent + WriteUInt32BE(n) + left[..n] + Frames(left[n..]) == sent + Frames(left)
  {
  }

  method Scan(buffer: array<Byte>) returns (wire: seq<Byte>)
    ensures wire == COMMAND + Frames(buffer[..])
  {
    wire := COMMAND;
    var at := 0;
    ghost var left := buffer[..];
    while at < buffer.Length
      invariant 0 <= at
      invariant left == if at < buffer.Length then buffer[at..] else []
      invariant wire + Frames(left) == COMMAND + Frames(buffer[..])
    {
      var end := if at + CHUNK_BYTES < buffer.Length then at + CHUNK_BYTES else buffer.Length;
      var chunk := buffer[at..end];
      var header := WriteUInt32BE(|chunk|);
      SendOneChunk(wire, left);
      assert chunk == left[..ChunkLength(left)];
      wire := wire + header;
      wire := wire + chunk;
      at := at + CHUNK_BYTES;
      left := left[|chunk|..];
    }
    wire := wire + TERMINATOR;
  }

  /** The chunk lengths for a buffer of `size` bytes, and the zero that ends the stream. */
  function Lengths(size: nat): (lengths: seq<int>)
    ensures |lengths| >= 1
  {
    if size == 0 then [0]
    else if size <= CHUNK_BYTES then [size, 0]
    else [CHUNK_BYTES] + Lengths(size - CHUNK_BYTES)
  }

  /** Every chunk length is between 1 and 65 536, and the only zero is the final one. */
  lemma {:induction false} OnlyTheLastIsZero(size: nat)
    ensures var ls := Lengths(size);
      ls[|ls| - 1] == 0 && forall i :: 0 <= i < |ls| - 1 ==> 1 <= ls[i] <= CHUNK_BYTES
  {
    if size > CHUNK_BYTES {
      OnlyTheLastIsZero(size - CHUNK_BYTES);
    }
  }

  /** Reading what was framed gives the buffer back and stops exactly where the frames end. */
  lemma {:induction false} FramesReadBack(b: seq<Byte>, tail: seq<Byte>)
    ensures Read(Frames(b) + tail) == Stream(Lengths(|b|), b, tail)
    decreases |b|
  {
    if b == [] {
      EndReadBack(tail);
    } else {
      var n := ChunkLength(b);
      FramesReadBack(b[n..], tail);
      assert b[..n] + b[n..] == b && |b[n..]| == |b| - n;
      hide Read, Frames;
      FrontFrame(WriteUInt32BE(n), b[..n], Frames(b[n..]), tail);
      OneFrameReadBack(WriteUInt32BE(n) + b[..n] + Frames(b[n..]) + tail, n);
    }
  }

  lemma EndReadBack(tail: seq<Byte>)
    ensures Read(TERMINATOR + tail) == Stream([0], [], tail)
  {
    assert (TERMINATOR + tail)[..4] == TERMINATOR && (TERMINATOR + tail)[4..] == tail;
  }

  lemma OneFrameReadBack(wire: seq<Byte>, n: nat)
    requires 1 <= n <= CHUNK_BYTES && |wire| >= 4 + n && wire[..4] == WriteUInt32BE(n) && Read(wire[4 + n..]).Stream?
    ensures var others := Read(wire[4 + n..]);
      Read(wire) == Stream([n] + others.lengths, wire[4..4 + n] + others.payload, others.rest)
  {
  }

  lemma FrontFrame(header: seq<Byte>, chunk: seq<Byte>, others: seq<Byte>, tail: seq<Byte>)
    requires |header| == 4
    ensures var wire := header + chunk + others + tail;
      wire[..4] == header && wire[4..4 + |chunk|] == chunk && wire[4 + |chunk|..] == others + tail
  {
  }

  /** Two buffers never share a wire image, even when more bytes follow. */
  lemma FramesInjective(a: seq<Byte>, b: seq<Byte>, tailA: seq<Byte>, tailB: seq<Byte>)
    requires Frames(a) + tailA == Frames(b) + tailB
    ensures a == b && tailA == tailB
  {
    FramesReadBack(a, tailA);
    FramesReadBack(b, tailB);
  }

  /** The header is the length with its most significant byte first, and the command is the text and a NUL. */
  lemma OnTheWire(n: int)
    requires 0 <= n < 0x1_0000_0000
    ensures var h: seq<int> := WriteUInt32BE(n);
      n == 0x100_0000 * h[0] + 0x1_0000 * h[1] + 0x100 * h[2] + h[3]
    ensures |COMMAND| == 10 && COMMAND[9] == 0 && forall i :: 0 <= i < 9 ==> COMMAND[i] == "zINSTREAM"[i] as int
  {
  }
}
