/**
 * The `handleConnection` of the server's main file: a per-connection loop
 * that keeps its own running sum of squares, starting at 0 and counting
 * repeated numbers every time, and answers each frame with it.
 */
module RunningSum {
  import opened GoInts
  import opened Binary
  import opened Errors
  import opened Results
  import opened Protocol
  import opened NumbersHandling

  /** What the loop leaves behind: the replies written and its return value. */
  datatype SumRun = SumRun(replies: seq<Frame>, result: Option<Error>)

  /**
   * The run of `handleConnection` with the running sum at `sum`, on the
   * reads `incoming` and a peer that accepts `writesLeft` more frames.
   */
  function RunningSpec(sum: Int64, incoming: seq<Incoming>, writesLeft: Option<nat>): (run: SumRun)
    decreases |incoming|
  {
    if incoming == [] || incoming[0] == Closed then SumRun([], None)
    else if incoming[0] == Broken then SumRun([], Some(ReadBytesFromConn(ConnectionReset)))
    else
      var f := incoming[0].frame;
      match ParseFrame(f)
      case Err(e) => SumRun([], Some(e))
      case Ok(x) =>
        var next := Wrap64(sum + Wrap64(Square(x)));
        if writesLeft == Some(0) then SumRun([], Some(WriteResponse(ConnectionReset)))
        else
          var rest := RunningSpec(next, incoming[1..], Spend(writesLeft));
          SumRun([PutFrame(f, next)] + rest.replies, rest.result)
  }

  /** Every reply answers a read that delivered a frame that decodes. */
  lemma {:induction false} RepliedReadsDecode(sum: Int64, incoming: seq<Incoming>, writesLeft: Option<nat>, i: nat)
    requires i < |RunningSpec(sum, incoming, writesLeft).replies|
    ensures i < |incoming| && incoming[i].Data? && ParseFrame(incoming[i].frame).Ok?
    ensures |Requests(incoming[..i + 1])| == i + 1
    decreases |incoming|
  {
    RunningUnfold(sum, incoming, writesLeft);
    if i > 0 {
      var x := ParseFrame(incoming[0].frame).value;
      RepliedReadsDecode(Wrap64(sum + Wrap64(Square(x))), incoming[1..], Spend(writesLeft), i - 1);
    }
    RequestsOfPrefix(incoming, i);
  }

  /**
   * Reply i answers request i with `sum` plus x1 * x1 + ... + xi * xi over
   * the numbers decoded so far, repeats included, wrapped to `int64`; the
   * reply is the request frame with that varint written over it.
   */
  lemma RepliesAreRunningSums(sum: Int64, incoming: seq<Incoming>, writesLeft: Option<nat>, i: nat)
    requires i < |RunningSpec(sum, incoming, writesLeft).replies|
    ensures i < |incoming| && incoming[i].Data?
    ensures RunningSpec(sum, incoming, writesLeft).replies[i] ==
      PutFrame(incoming[i].frame, Wrap64(sum + SeqSumOfSquares(Requests(incoming[..i + 1]))))
  {
    RepliesFollowSteps(sum, incoming, writesLeft, i);
    var requests := Requests(incoming[..i + 1]);
    StepsAddSquares(sum, requests);
    var reply := RunningSpec(sum, incoming, writesLeft).replies[i];
    assert reply == PutFrame(incoming[i].frame, SumAfter(sum, requests));
  }

  /** The sum after adding the squares of `xs` one at a time, each step wrapped as Go wraps it. */
  function SumAfter(sum: Int64, xs: seq<Int64>): Int64
    decreases |xs|
  {
    if xs == [] then sum else SumAfter(Wrap64(sum + Wrap64(Square(xs[0]))), xs[1..])
  }

  /** Adding wrapped squares one at a time ends where one wrapped total does. */
  lemma {:induction false} StepsAddSquares(sum: Int64, xs: seq<Int64>)
    ensures SumAfter(sum, xs) == Wrap64(sum + SeqSumOfSquares(xs))
    decreases |xs|
  {
    if xs == [] {
      assert SeqSumOfSquares(xs) == 0;
      assert Wrap64(sum) == sum;
    } else {
      var next := Wrap64(sum + Wrap64(Square(xs[0])));
      StepsAddSquares(next, xs[1..]);
      assert xs == [xs[0]] + xs[1..];
      RunningStep(sum, xs[0], xs[1..], xs);
    }
  }

  /** Reply i carries the sum after the first i + 1 requests, each added as the loop adds it. */
  lemma {:induction false} RepliesFollowSteps(sum: Int64, incoming: seq<Incoming>, writesLeft: Option<nat>, i: nat)
    requires i < |RunningSpec(sum, incoming, writesLeft).replies|
    ensures i < |incoming| && incoming[i].Data?
    ensures RunningSpec(sum, incoming, writesLeft).replies[i] ==
      PutFrame(incoming[i].frame, SumAfter(sum, Requests(incoming[..i + 1])))
    decreases |incoming|
  {
    RepliedReadsDecode(sum, incoming, writesLeft, i);
    RunningUnfold(sum, incoming, writesLeft);
    var x := ParseFrame(incoming[0].frame).value;
    var next := Wrap64(sum + Wrap64(Square(x)));
    var tail := incoming[1..];
    if i > 0 {
      RepliesFollowSteps(next, tail, Spend(writesLeft), i - 1);
    }
    RequestsOfPrefix(incoming, i);
    SumAfterCons(sum, x, Requests(tail[..i]), Requests(incoming[..i + 1]));
  }

  lemma SumAfterCons(sum: Int64, x: Int64, later: seq<Int64>, all: seq<Int64>)
    requires all == [x] + later
    ensures SumAfter(sum, all) == SumAfter(Wrap64(sum + Wrap64(Square(x))), later)
  {
    assert all[1..] == later;
  }

  /** A run that replied at all answered its first read, a decodable frame, first. */
  lemma RunningUnfold(sum: Int64, incoming: seq<Incoming>, writesLeft: Option<nat>)
    requires |RunningSpec(sum, incoming, writesLeft).replies| > 0
    ensures incoming != [] && incoming[0].Data? && ParseFrame(incoming[0].frame).Ok?
    ensures var next := Wrap64(sum + Wrap64(Square(ParseFrame(incoming[0].frame).value)));
      RunningSpec(sum, incoming, writesLeft).replies
        == [PutFrame(incoming[0].frame, next)] + RunningSpec(next, incoming[1..], Spend(writesLeft)).replies
  {
  }

  /** A frame that decodes, read while the peer still takes replies, is answered. */
  lemma RunningAnswers(sum: Int64, incoming: seq<Incoming>, writesLeft: Option<nat>)
    requires incoming != [] && incoming[0].Data? && ParseFrame(incoming[0].frame).Ok? && writesLeft != Some(0)
    ensures var next := Wrap64(sum + Wrap64(Square(ParseFrame(incoming[0].frame).value)));
      var rest := RunningSpec(next, incoming[1..], Spend(writesLeft));
      RunningSpec(sum, incoming, writesLeft) == SumRun([PutFrame(incoming[0].frame, next)] + rest.replies, rest.result)
  {
  }

  /**
   * One step of the running sum, wrapped as Go wraps it, against the exact
   * sum of the squares so far and of those still to come.
   */
  lemma RunningStep(sum: Int64, x: Int64, later: seq<Int64>, all: seq<Int64>)
    requires all == [x] + later
    ensures Wrap64(Wrap64(sum + Wrap64(Square(x))) + SeqSumOfSquares(later)) == Wrap64(sum + SeqSumOfSquares(all))
    ensures later == [] ==> Wrap64(sum + Wrap64(Square(x))) == Wrap64(sum + SeqSumOfSquares(all))
  {
    var sq, rest := Square(x), SeqSumOfSquares(later);
    SeqSumOfSquaresCons(x, later);
    assert SeqSumOfSquares(all) == sq + rest;
    WrapAddWrapped(sum, sq);
    assert Wrap64(sum) == sum;
    var step := Wrap64(sum + Wrap64(sq));
    assert step == Wrap64(sum + sq);
    WrapLeft(sum + sq, rest);
    assert Wrap64(step + rest) == Wrap64(sum + sq + rest);
  }

  /**
   * Why the loop stopped, read at the first read it did not answer (index m,
   * the number of replies): EOF returns nil, every other stop returns its
   * error and writes nothing for that read.
   */
  lemma {:induction false} RunningStopReason(sum: Int64, incoming: seq<Incoming>, writesLeft: Option<nat>)
    ensures var run := RunningSpec(sum, incoming, writesLeft);
      var m := |run.replies|;
      && m <= |incoming|
      && (run.result == None <==> m == |incoming| || incoming[m] == Closed)
      && (m < |incoming| && incoming[m] == Broken ==> run.result == Some(ReadBytesFromConn(ConnectionReset)))
      && (m < |incoming| && incoming[m].Data? && ParseFrame(incoming[m].frame).Err? ==>
            run.result == Some(ParseFrame(incoming[m].frame).error))
      && (m < |incoming| && incoming[m].Data? && ParseFrame(incoming[m].frame).Ok? ==>
            run.result == Some(WriteResponse(ConnectionReset)))
    decreases |incoming|
  {
    if incoming != [] && incoming[0].Data? && ParseFrame(incoming[0].frame).Ok? && writesLeft != Some(0) {
      var next := Wrap64(sum + Wrap64(Square(ParseFrame(incoming[0].frame).value)));
      var rest := RunningSpec(next, incoming[1..], Spend(writesLeft));
      RunningStopReason(next, incoming[1..], Spend(writesLeft));
      RunningAnswers(sum, incoming, writesLeft);
      var run := RunningSpec(sum, incoming, writesLeft);
      assert run == SumRun([PutFrame(incoming[0].frame, next)] + rest.replies, rest.result);
      var m, n := |run.replies|, |rest.replies|;
      assert m == n + 1;
      assert m < |incoming| ==> incoming[m] == incoming[1..][n];
    } else {
      assert RunningSpec(sum, incoming, writesLeft).replies == [];
    }
  }

  /**
   * Unlike the shared set, the running sum counts a repeated number every
   * time: sending 3 twice is answered with 9 and then 18.
   */
  lemma DuplicatesCountEveryTime()
    ensures var three := PutFrame(ZeroFrame, 3);
      RunningSpec(0, [Data(three), Data(three)], None) == SumRun([PutFrame(three, 9), PutFrame(three, 18)], None)
  {
    var three := PutFrame(ZeroFrame, 3);
    FrameRoundTrip(ZeroFrame, 3);
    assert Square(3) == 9 && Wrap64(9) == 9 && Wrap64(18) == 18;
    assert [Data(three), Data(three)][1..] == [Data(three)];
    assert [Data(three)][1..] == [];
    assert RunningSpec(18, [], None) == SumRun([], None);
    assert RunningSpec(9, [Data(three)], None) == SumRun([PutFrame(three, 18)], None);
  }

  /**
   * `handleConnection`: a running sum starting at 0 for this connection,
   * one reused 10-byte buffer, one reply per decoded frame, until EOF (nil)
   * or the first error.
   */
  method HandleConnection(conn: Conn) returns (err: Option<Error>)
    modifies conn
    ensures var run := RunningSpec(0, old(conn.incoming), old(conn.writesLeft));
      && conn.written == old(conn.written) + run.replies
      && err == run.result
  {
    ghost var full := RunningSpec(0, conn.incoming, conn.writesLeft);
    ghost var done: seq<Frame> := [];
    var sumOfSquares: Int64 := 0;
    var buf := new Byte[FrameSize](_ => 0);
    while true
      invariant fresh(buf) && buf.Length == FrameSize
      invariant conn.written == old(conn.written) + done
      invariant var rest := RunningSpec(sumOfSquares, conn.incoming, conn.writesLeft);
        full == SumRun(done + rest.replies, rest.result)
      decreases |conn.incoming|
    {
      var answered, stopErr, next := AnswerNextFrame(conn, buf, sumOfSquares);
      if !answered {
        assert full.replies == done + [];
        return stopErr;
      }
      sumOfSquares := next;
      ghost var reply: Frame := buf[..];
      ghost var rest := RunningSpec(sumOfSquares, conn.incoming, conn.writesLeft);
      assert done + ([reply] + rest.replies) == (done + [reply]) + rest.replies;
      done := done + [reply];
    }
  }

  /**
   * One turn of the loop of `handleConnection`: read a frame into `buf`,
   * decode it, add its square to `sum` and write the new sum back over the
   * frame. Either the frame is answered, or the loop stops with `err`
   * (nil at EOF).
   */
  method AnswerNextFrame(conn: Conn, buf: array<Byte>, sum: Int64) returns (answered: bool, err: Option<Error>, next: Int64)
    requires buf.Length == FrameSize
    modifies conn, buf
    ensures conn.incoming == if old(conn.incoming) == [] then [] else old(conn.incoming)[1..]
    ensures conn.writesLeft == if answered then Spend(old(conn.writesLeft)) else old(conn.writesLeft)
    ensures var here := RunningSpec(sum, old(conn.incoming), old(conn.writesLeft));
      var rest := RunningSpec(next, conn.incoming, conn.writesLeft);
      if answered then here == SumRun([buf[..]] + rest.replies, rest.result) && conn.written == old(conn.written) + [buf[..]]
      else here == SumRun([], err) && conn.written == old(conn.written)
  {
    ghost var before := conn.incoming;
    ghost var left := conn.writesLeft;
    ghost var here := RunningSpec(sum, before, left);
    next := sum;
    answered := false;
    var readErr := conn.Read(buf);
    if readErr == Some(EOF) {
      assert here == SumRun([], None);
      return false, None, next;
    }
    if readErr.Some? {
      assert here == SumRun([], Some(ReadBytesFromConn(ConnectionReset)));
      return false, Some(ReadBytesFromConn(readErr.value)), next;
    }
    assert buf[..] == before[0].frame;
    answered, err, next := ReplyToFrame(conn, buf, sum);
    if !answered {
      return;
    }
    assert conn.incoming == before[1..] && conn.writesLeft == Spend(left);
    RunningAnswers(sum, before, left);
    answered := true;
    err := None;
  }

  /**
   * The rest of the turn once `buf` holds a frame: decode it, add its square
   * to `sum`, write the new sum back over the frame and send it. A frame that
   * does not decode stops the loop with its decoding error and writes
   * nothing; a refused write stops it with the write error.
   */
  method ReplyToFrame(conn: Conn, buf: array<Byte>, sum: Int64) returns (answered: bool, err: Option<Error>, next: Int64)
    requires buf.Length == FrameSize
    modifies conn`written, conn`writesLeft, buf
    ensures var f := old(buf[..]);
      match ParseFrame(f)
      case Err(e) =>
        && !answered && err == Some(e)
        && conn.written == old(conn.written) && conn.writesLeft == old(conn.writesLeft)
      case Ok(x) =>
        && next == Wrap64(sum + Wrap64(Square(x)))
        && (answered <==> old(conn.writesLeft) != Some(0))
        && (answered ==>
              && err == None && buf[..] == PutFrame(f, next)
              && conn.written == old(conn.written) + [buf[..]] && conn.writesLeft == Spend(old(conn.writesLeft)))
        && (!answered ==>
              && err == Some(WriteResponse(ConnectionReset))
              && conn.written == old(conn.written) && conn.writesLeft == old(conn.writesLeft))
  {
    ghost var f := buf[..];
    next := sum;
    var (number, n) := Varint(buf[..]);
    if n < 0 {
      return false, Some(ReadLargeNumber), next;
    }
    if n == 0 {
      return false, Some(BufIsSmall), next;
    }
    assert ParseFrame(f) == Ok(number);
    next := Wrap64(sum + Wrap64(Square(number)));
    var _ := PutVarint(buf, next);
    assert buf[..] == PutFrame(f, next);
    var writeErr := conn.Write(buf);
    if writeErr.Some? {
      return false, Some(WriteResponse(writeErr.value)), next;
    }
    answered := true;
    err := None;
  }
}
