/**
 * The fixed-frame wire protocol of the TCP number service: every signed
 * 64-bit integer travels in a 10-byte frame that starts with its varint;
 * the bytes after the varint are whatever the buffer held before.
 */
module Protocol {
  import opened GoInts
  import opened Binary
  import opened Errors
  import opened Results

  const FrameSize: nat := 10

  /** The contents of a 10-byte buffer. */
  type Frame = s: seq<Byte> | |s| == 10 witness [0, 0, 0, 0, 0, 0, 0, 0, 0, 0]

  /** `make([]byte, 10)`. */
  const ZeroFrame: Frame := [0, 0, 0, 0, 0, 0, 0, 0, 0, 0]

  /**
   * The buffer after `binary.PutVarint(buf, x)`: the varint of `x` over its
   * prefix, the previous bytes after it.
   */
  function PutFrame(buf: Frame, x: Int64): (f: Frame)
  {
    VarintBytes(x) + buf[|VarintBytes(x)|..]
  }

  /**
   * `binary.Varint` on a frame followed by the checks every reader of a
   * frame makes: a negative count is "read large number", a zero count
   * "buf is small".
   */
  function ParseFrame(f: Frame): (r: Result<Int64, Error>)
  {
    var (x, n) := Varint(f);
    if n < 0 then Err(ReadLargeNumber)
    else if n == 0 then Err(BufIsSmall)
    else Ok(x)
  }

  /**
   * Round trip: a frame written for `x` reads back as `x`, whatever stale
   * bytes the buffer kept after the varint.
   */
  lemma FrameRoundTrip(buf: Frame, x: Int64)
    ensures ParseFrame(PutFrame(buf, x)) == Ok(x)
  {
    VarintRoundTrip(x, buf[|VarintBytes(x)|..]);
  }

  /** A frame is "buf is small" exactly when all ten bytes carry the continuation bit. */
  lemma BufIsSmallExactly(f: Frame)
    ensures ParseFrame(f) == Err(BufIsSmall) <==> forall j :: 0 <= j < FrameSize ==> f[j] >= 0x80
  {
    TruncatedFrom(f, 0);
  }

  /**
   * A frame is "read large number" exactly when its first nine bytes carry
   * the continuation bit and the tenth ends the varint with a value above 1.
   */
  lemma ReadLargeNumberExactly(f: Frame)
    ensures ParseFrame(f) == Err(ReadLargeNumber) <==>
      (forall j :: 0 <= j < FrameSize - 1 ==> f[j] >= 0x80) && 1 < f[FrameSize - 1] < 0x80
  {
    OverflowFrom(f, 0);
  }

  /** The distinct values of a sequence. */
  function Elements(xs: seq<Int64>): (s: set<Int64>)
  {
    if xs == [] then {} else {xs[0]} + Elements(xs[1..])
  }

  /** What a connection delivers to one `Read` of a 10-byte buffer. */
  datatype Incoming = Data(frame: Frame) | Closed | Broken

  /** The numbers carried by the frames of `ins` that decode, in order. */
  function Requests(ins: seq<Incoming>): (xs: seq<Int64>)
    ensures |xs| <= |ins|
  {
    if ins == [] then []
    else if ins[0].Data? && ParseFrame(ins[0].frame).Ok? then [ParseFrame(ins[0].frame).value] + Requests(ins[1..])
    else Requests(ins[1..])
  }

  /** The requests of the first i + 1 reads, when the first read is a frame that decodes. */
  lemma RequestsOfPrefix(ins: seq<Incoming>, i: nat)
    requires i < |ins| && ins[0].Data? && ParseFrame(ins[0].frame).Ok?
    ensures Requests(ins[..i + 1]) == [ParseFrame(ins[0].frame).value] + Requests(ins[1..][..i])
  {
    assert ins[..i + 1][1..] == ins[1..][..i];
  }

  /**
   * A connection seen from the server: the reads still to come, the frames
   * written so far, and how many more frames the peer accepts before writes
   * fail (None: no limit). Reads past the end of `incoming` report EOF.
   */
  class Conn {
    var incoming: seq<Incoming>
    var written: seq<Frame>
    var writesLeft: Option<nat>

    constructor (incoming: seq<Incoming>, writesLeft: Option<nat>)
      ensures this.incoming == incoming && this.written == [] && this.writesLeft == writesLeft
    {
      this.incoming := incoming;
      this.written := [];
      this.writesLeft := writesLeft;
    }

    /** `conn.Read(buf)` for a whole frame: fills `buf`, or reports EOF or a reset. */
    method Read(buf: array<Byte>) returns (err: Option<IoError>)
      requires buf.Length == FrameSize
      modifies this`incoming, buf
      ensures incoming == if old(incoming) == [] then [] else old(incoming)[1..]
      ensures old(incoming) == [] || old(incoming)[0] == Closed ==> err == Some(EOF) && buf[..] == old(buf[..])
      ensures old(incoming) != [] && old(incoming)[0] == Broken ==> err == Some(ConnectionReset) && buf[..] == old(buf[..])
      ensures old(incoming) != [] && old(incoming)[0].Data? ==> err == None && buf[..] == old(incoming)[0].frame
    {
      if incoming == [] {
        return Some(EOF);
      }
      var next := incoming[0];
      incoming := incoming[1..];
      match next
      case Closed =>
        err := Some(EOF);
      case Broken =>
        err := Some(ConnectionReset);
      case Data(f) =>
        forall i | 0 <= i < FrameSize {
          buf[i] := f[i];
        }
        err := None;
    }

    /** `conn.Write(buf)` of a whole frame: delivered, or refused by a reset peer. */
    method Write(buf: array<Byte>) returns (err: Option<IoError>)
      requires buf.Length == FrameSize
      modifies this`written, this`writesLeft
      ensures old(writesLeft) == Some(0) ==> err == Some(ConnectionReset) && written == old(written) && writesLeft == old(writesLeft)
      ensures old(writesLeft) != Some(0) ==> err == None && written == old(written) + [buf[..]] && writesLeft == Spend(old(writesLeft))
    {
      if writesLeft == Some(0) {
        return Some(ConnectionReset);
      }
      written := written + [buf[..]];
      writesLeft := Spend(writesLeft);
      err := None;
    }
  }

  /** The write allowance after one delivered frame. */
  function Spend(left: Option<nat>): Option<nat>
  {
    match left
    case None => None
    case Some(k) => if k == 0 then Some(0) else Some(k - 1)
  }

  /**
   * `tcp_server_client.Protocol`: a connection and the 10-byte buffer
   * `bytesOfNumber` that every read and write goes through.
   */
  class Protocol {
    const conn: Conn
    const bytesOfNumber: array<Byte>

    /** `NewProtocol(conn)`: the buffer starts zeroed. */
    constructor (conn: Conn)
      ensures this.conn == conn && fresh(bytesOfNumber)
      ensures bytesOfNumber.Length == FrameSize && bytesOfNumber[..] == ZeroFrame
    {
      this.conn := conn;
      bytesOfNumber := new Byte[FrameSize](_ => 0);
    }

    /**
     * `ReadNumber`: reads a frame into the buffer and decodes it. A failed
     * read gives 0 and the wrapped error without decoding; a bad frame gives
     * 0 and the frame's error.
     */
    method ReadNumber() returns (x: Int64, err: Option<Error>)
      requires bytesOfNumber.Length == FrameSize
      modifies conn`incoming, bytesOfNumber
      ensures conn.incoming == if old(conn.incoming) == [] then [] else old(conn.incoming)[1..]
      ensures old(conn.incoming) == [] || !old(conn.incoming)[0].Data? ==>
        x == 0 && bytesOfNumber[..] == old(bytesOfNumber[..]) &&
        err == Some(ReadBytesFromConnection(if old(conn.incoming) != [] && old(conn.incoming)[0] == Broken then ConnectionReset else EOF))
      ensures old(conn.incoming) != [] && old(conn.incoming)[0].Data? ==>
        bytesOfNumber[..] == old(conn.incoming)[0].frame &&
        match ParseFrame(old(conn.incoming)[0].frame)
        case Ok(v) => x == v && err == None
        case Err(e) => x == 0 && err == Some(e)
    {
      var ioErr := conn.Read(bytesOfNumber);
      if ioErr.Some? {
        return 0, Some(ReadBytesFromConnection(ioErr.value));
      }
      var r := ParseFrame(bytesOfNumber[..]);
      match r
      case Ok(v) =>
        x, err := v, None;
      case Err(e) =>
        x, err := 0, Some(e);
    }

    /**
     * `WriteNumber`: puts the varint of `x` over the buffer and writes all
     * ten bytes, stale tail included.
     */
    method WriteNumber(x: Int64) returns (err: Option<Error>)
      requires bytesOfNumber.Length == FrameSize
      modifies conn`written, conn`writesLeft, bytesOfNumber
      ensures bytesOfNumber[..] == PutFrame(old(bytesOfNumber[..]), x)
      ensures old(conn.writesLeft) == Some(0) ==>
        err == Some(WriteBytesToConnection(ConnectionReset)) && conn.written == old(conn.written)
      ensures old(conn.writesLeft) != Some(0) ==>
        err == None && conn.written == old(conn.written) + [PutFrame(old(bytesOfNumber[..]), x)]
      ensures conn.writesLeft == if old(conn.writesLeft) == Some(0) then Some(0) else Spend(old(conn.writesLeft))
    {
      var _ := PutVarint(bytesOfNumber, x);
      var ioErr := conn.Write(bytesOfNumber);
      if ioErr.Some? {
        return Some(WriteBytesToConnection(ioErr.value));
      }
      err := None;
    }
  }
}
