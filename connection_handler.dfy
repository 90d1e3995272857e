/**
 * `ConnectionHandler.HandleConnection`: the per-connection loop of the
 * service that shares one number set between all connections. Each frame
 * read is decoded, handed to the NumbersHandler, and answered with one
 * frame carrying the new sum of squares, until EOF or the first error.
 */
module ConnectionHandling {
  import opened GoInts
  import opened Binary
  import opened Errors
  import opened Results
  import opened Protocol
  import opened NumberSet
  import opened NumbersHandling

  /** What a connection leaves behind: the set, the replies written, and the loop's return value. */
  datatype SharedRun = SharedRun(numbers: set<Int64>, replies: seq<Frame>, result: Option<Error>)

  /** The error of a request whose handling deadline passed before the set was read. */
  const TimedOut: Error := Errors.HandleNumber(Errors.CalculateSumOfSquares(ReadNumbersFromSet(ContextDone(DeadlineExceeded))))

  /**
   * The run of `HandleConnection` from the set `numbers`, on the reads
   * `incoming` and a peer that accepts `writesLeft` more frames. `k` counts
   * the requests handled so far; those whose index is in `expired` run out
   * of their handling time.
   */
  ghost function SharedSpec(numbers: set<Int64>, incoming: seq<Incoming>, writesLeft: Option<nat>,
                            expired: set<nat>, k: nat): (run: SharedRun)
    decreases |incoming|
  {
    if incoming == [] || incoming[0] == Closed then SharedRun(numbers, [], None)
    else if incoming[0] == Broken then SharedRun(numbers, [], Some(ReadBytesFromConn(ConnectionReset)))
    else
      var f := incoming[0].frame;
      match ParseFrame(f)
      case Err(e) => SharedRun(numbers, [], Some(e))
      case Ok(x) =>
        var after := numbers + {x};
        if k in expired then SharedRun(after, [], Some(TimedOut))
        else if writesLeft == Some(0) then SharedRun(after, [], Some(WriteResponse(ConnectionReset)))
        else
          var rest := SharedSpec(after, incoming[1..], Spend(writesLeft), expired, k + 1);
          SharedRun(rest.numbers, [PutFrame(f, Wrap64(SumOfSquares(after)))] + rest.replies, rest.result)
  }

  /**
   * Reply i answers request i: the i-th read was a frame that decodes, and
   * the i-th reply is that frame with the varint of the sum of squares of
   * the set after the first i + 1 requests written over it.
   */
  lemma {:induction false} RepliesAnswerRequests(numbers: set<Int64>, incoming: seq<Incoming>, writesLeft: Option<nat>,
                                                 expired: set<nat>, k: nat, i: nat)
    requires i < |SharedSpec(numbers, incoming, writesLeft, expired, k).replies|
    ensures i < |incoming| && incoming[i].Data? && ParseFrame(incoming[i].frame).Ok?
    ensures |Requests(incoming[..i + 1])| == i + 1
    ensures SharedSpec(numbers, incoming, writesLeft, expired, k).replies[i] ==
      PutFrame(incoming[i].frame, Wrap64(SumOfSquares(numbers + Elements(Requests(incoming[..i + 1])))))
    decreases |incoming|
  {
    SharedRepliedReadsDecode(numbers, incoming, writesLeft, expired, k, i);
    SharedUnfold(numbers, incoming, writesLeft, expired, k);
    var x := ParseFrame(incoming[0].frame).value;
    var after := numbers + {x};
    var tail := incoming[1..];
    var replies := SharedSpec(numbers, incoming, writesLeft, expired, k).replies;
    var later := SharedSpec(after, tail, Spend(writesLeft), expired, k + 1).replies;
    if i > 0 {
      RepliesAnswerRequests(after, tail, Spend(writesLeft), expired, k + 1, i - 1);
      assert replies[i] == later[i - 1];
    }
    RequestsOfPrefix(incoming, i);
    ElementsCons(numbers, x, Requests(tail[..i]), Requests(incoming[..i + 1]));
    if i == 0 {
      assert tail[..0] == [];
      assert numbers + Elements(Requests(incoming[..1])) == after;
    }
  }

  /** Every reply answers a read that delivered a frame that decodes. */
  lemma {:induction false} SharedRepliedReadsDecode(numbers: set<Int64>, incoming: seq<Incoming>, writesLeft: Option<nat>,
                                                    expired: set<nat>, k: nat, i: nat)
    requires i < |SharedSpec(numbers, incoming, writesLeft, expired, k).replies|
    ensures i < |incoming| && incoming[i].Data? && ParseFrame(incoming[i].frame).Ok?
    ensures |Requests(incoming[..i + 1])| == i + 1
    decreases |incoming|
  {
    SharedUnfold(numbers, incoming, writesLeft, expired, k);
    var x := ParseFrame(incoming[0].frame).value;
    if i > 0 {
      SharedRepliedReadsDecode(numbers + {x}, incoming[1..], Spend(writesLeft), expired, k + 1, i - 1);
    }
    RequestsOfPrefix(incoming, i);
  }

  /** A run that replied at all answered its first read, a decodable frame handled in time, first. */
  lemma SharedUnfold(numbers: set<Int64>, incoming: seq<Incoming>, writesLeft: Option<nat>, expired: set<nat>, k: nat)
    requires |SharedSpec(numbers, incoming, writesLeft, expired, k).replies| > 0
    ensures incoming != [] && incoming[0].Data? && ParseFrame(incoming[0].frame).Ok?
    ensures k !in expired && writesLeft != Some(0)
    ensures var after := numbers + {ParseFrame(incoming[0].frame).value};
      SharedSpec(numbers, incoming, writesLeft, expired, k).replies
        == [PutFrame(incoming[0].frame, Wrap64(SumOfSquares(after)))]
           + SharedSpec(after, incoming[1..], Spend(writesLeft), expired, k + 1).replies
  {
  }

  /** Taking the first request out of the elements of a request list. */
  lemma ElementsCons(numbers: set<Int64>, x: Int64, later: seq<Int64>, all: seq<Int64>)
    requires all == [x] + later
    ensures numbers + Elements(all) == (numbers + {x}) + Elements(later)
  {
    assert all[1..] == later;
  }

  /**
   * Every reply's varint reads back as the answer to its request; the stale
   * bytes after it are never looked at.
   */
  lemma ReplyDecodes(numbers: set<Int64>, incoming: seq<Incoming>, writesLeft: Option<nat>,
                     expired: set<nat>, k: nat, i: nat)
    requires i < |SharedSpec(numbers, incoming, writesLeft, expired, k).replies|
    ensures i < |incoming|
    ensures ParseFrame(SharedSpec(numbers, incoming, writesLeft, expired, k).replies[i]) ==
      Ok(Wrap64(SumOfSquares(numbers + Elements(Requests(incoming[..i + 1])))))
  {
    RepliesAnswerRequests(numbers, incoming, writesLeft, expired, k, i);
    FrameRoundTrip(incoming[i].frame, Wrap64(SumOfSquares(numbers + Elements(Requests(incoming[..i + 1])))));
  }

  /**
   * Why the loop stopped, read at the first read it did not answer (index
   * m, the number of replies): a clean EOF returns nil; a failed read, a
   * frame that does not decode, an expired request and a refused write
   * each return their own error, and nothing is written for that read.
   */
  lemma {:induction false} StopReason(numbers: set<Int64>, incoming: seq<Incoming>, writesLeft: Option<nat>,
                                      expired: set<nat>, k: nat)
    ensures var run := SharedSpec(numbers, incoming, writesLeft, expired, k);
      var m := |run.replies|;
      && m <= |incoming|
      && (run.result == None <==> m == |incoming| || incoming[m] == Closed)
      && (m < |incoming| && incoming[m] == Broken ==> run.result == Some(ReadBytesFromConn(ConnectionReset)))
      && (m < |incoming| && incoming[m].Data? && ParseFrame(incoming[m].frame).Err? ==>
            run.result == Some(ParseFrame(incoming[m].frame).error))
      && (m < |incoming| && incoming[m].Data? && ParseFrame(incoming[m].frame).Ok? ==>
            run.result == Some(if k + m in expired then TimedOut else WriteResponse(ConnectionReset)))
    decreases |incoming|
  {
    if incoming != [] && incoming[0].Data? && ParseFrame(incoming[0].frame).Ok? && k !in expired && writesLeft != Some(0) {
      var x := ParseFrame(incoming[0].frame).value;
      var rest := SharedSpec(numbers + {x}, incoming[1..], Spend(writesLeft), expired, k + 1);
      StopReason(numbers + {x}, incoming[1..], Spend(writesLeft), expired, k + 1);
      SharedAnswers(numbers, incoming, writesLeft, expired, k);
      var run := SharedSpec(numbers, incoming, writesLeft, expired, k);
      assert run == SharedRun(rest.numbers, [PutFrame(incoming[0].frame, Wrap64(SumOfSquares(numbers + {x})))] + rest.replies, rest.result);
      var m, n := |run.replies|, |rest.replies|;
      assert m == n + 1 && k + m == (k + 1) + n;
      assert m < |incoming| ==> incoming[m] == incoming[1..][n];
    } else {
      assert SharedSpec(numbers, incoming, writesLeft, expired, k).replies == [];
    }
  }

  /**
   * The set only ever grows, and the number of the read the loop stopped
   * at, if it decodes, stays inserted even though its handling or its
   * reply failed.
   */
  lemma {:induction false} SetKeepsEveryDecodedNumber(numbers: set<Int64>, incoming: seq<Incoming>, writesLeft: Option<nat>,
                                                      expired: set<nat>, k: nat)
    ensures var run := SharedSpec(numbers, incoming, writesLeft, expired, k);
      var m := |run.replies|;
      && m <= |incoming|
      && numbers <= run.numbers
      && (m < |incoming| && incoming[m].Data? && ParseFrame(incoming[m].frame).Ok? ==>
            ParseFrame(incoming[m].frame).value in run.numbers)
    decreases |incoming|
  {
    if incoming != [] && incoming[0].Data? && ParseFrame(incoming[0].frame).Ok? {
      var x := ParseFrame(incoming[0].frame).value;
      if k !in expired && writesLeft != Some(0) {
        SetKeepsEveryDecodedNumber(numbers + {x}, incoming[1..], Spend(writesLeft), expired, k + 1);
        SharedAnswers(numbers, incoming, writesLeft, expired, k);
      }
    }
  }

  /**
   * One client sends 3 and gets 9, then sends 4 and gets 25; a second
   * connection then sends 3 and gets 25 again, since 3 is already counted.
   */
  lemma SharedStateAcrossConnections()
    ensures var three, four := PutFrame(ZeroFrame, 3), PutFrame(ZeroFrame, 4);
      && SharedSpec({}, [Data(three), Data(four)], None, {}, 0)
         == SharedRun({3, 4}, [PutFrame(three, 9), PutFrame(four, 25)], None)
      && SharedSpec({3, 4}, [Data(three)], None, {}, 0)
         == SharedRun({3, 4}, [PutFrame(three, 25)], None)
  {
    FirstConnection();
    SecondConnection();
  }

  /** The first connection of the example: 3 is answered with 9, then 4 with 25. */
  lemma FirstConnection()
    ensures var three, four := PutFrame(ZeroFrame, 3), PutFrame(ZeroFrame, 4);
      SharedSpec({}, [Data(three), Data(four)], None, {}, 0)
        == SharedRun({3, 4}, [PutFrame(three, 9), PutFrame(four, 25)], None)
  {
    var three, four := PutFrame(ZeroFrame, 3), PutFrame(ZeroFrame, 4);
    FrameRoundTrip(ZeroFrame, 3);
    FrameRoundTrip(ZeroFrame, 4);
    var none: set<Int64>, one: set<Int64>, both: set<Int64> := {}, {3}, {3, 4};
    SquaresOfThreeAndFour();
    assert none + {3} == one && one + {4} == both;
    FourAfterThree();
    assert [Data(three), Data(four)][1..] == [Data(four)];
    SharedAnswers(none, [Data(three), Data(four)], None, {}, 0);
    assert [PutFrame(three, 9)] + [PutFrame(four, 25)] == [PutFrame(three, 9), PutFrame(four, 25)];
  }

  /** The second request of the first connection: 4 joins 3 in the set. */
  lemma FourAfterThree()
    ensures var four := PutFrame(ZeroFrame, 4);
      SharedSpec({3}, [Data(four)], None, {}, 1) == SharedRun({3, 4}, [PutFrame(four, 25)], None)
  {
    var four := PutFrame(ZeroFrame, 4);
    FrameRoundTrip(ZeroFrame, 4);
    var one: set<Int64>, both: set<Int64> := {3}, {3, 4};
    SquaresOfThreeAndFour();
    assert one + {4} == both;
    assert [Data(four)][1..] == [];
    var last := SharedSpec(both, [], None, {}, 2);
    SharedAnswers(one, [Data(four)], None, {}, 1);
  }

  /** The second connection of the example: 3 is already in the set, so the answer stays 25. */
  lemma SecondConnection()
    ensures var three := PutFrame(ZeroFrame, 3);
      SharedSpec({3, 4}, [Data(three)], None, {}, 0) == SharedRun({3, 4}, [PutFrame(three, 25)], None)
  {
    var three := PutFrame(ZeroFrame, 3);
    FrameRoundTrip(ZeroFrame, 3);
    var both: set<Int64> := {3, 4};
    SquaresOfThreeAndFour();
    assert both + {3} == both;
    assert [Data(three)][1..] == [];
    var last := SharedSpec(both, [], None, {}, 1);
    SharedAnswers(both, [Data(three)], None, {}, 0);
  }

  /** The sums of squares of the sets in the example above. */
  lemma SquaresOfThreeAndFour()
    ensures Wrap64(SumOfSquares({3})) == 9 && Wrap64(SumOfSquares({3, 4})) == 25
  {
    var none: set<Int64>, one: set<Int64>, both: set<Int64> := {}, {3}, {3, 4};
    SumOfSquaresInsert(none, 3);
    SumOfSquaresInsert(one, 4);
    assert none + {3} == one && one + {4} == both;
    assert SumOfSquares(none) == 0;
    assert Wrap64(9) == 9 && Wrap64(25) == 25;
  }

  /** A frame that decodes, handled in time while the peer still takes replies, is answered. */
  lemma SharedAnswers(numbers: set<Int64>, incoming: seq<Incoming>, writesLeft: Option<nat>, expired: set<nat>, k: nat)
    requires incoming != [] && incoming[0].Data? && ParseFrame(incoming[0].frame).Ok?
    requires k !in expired && writesLeft != Some(0)
    ensures var after := numbers + {ParseFrame(incoming[0].frame).value};
      var rest := SharedSpec(after, incoming[1..], Spend(writesLeft), expired, k + 1);
      SharedSpec(numbers, incoming, writesLeft, expired, k)
        == SharedRun(rest.numbers, [PutFrame(incoming[0].frame, Wrap64(SumOfSquares(after)))] + rest.replies, rest.result)
  {
  }

  /** `full` is the run that, after the replies `done`, still has `rest` to go. */
  ghost predicate Continues(full: SharedRun, done: seq<Frame>, rest: SharedRun)
  {
    full == SharedRun(rest.numbers, done + rest.replies, rest.result)
  }

  class ConnectionHandler {
    const numbersHandler: NumbersHandler

    /** `NewConnectionHandler`. */
    constructor (numbersHandler: NumbersHandler)
      ensures this.numbersHandler == numbersHandler
    {
      this.numbersHandler := numbersHandler;
    }

    /**
     * `handleNumber`: `Handle` under a context whose deadline has either
     * passed before the set is read (`timedOut`) or not at all.
     */
    method HandleNumber(number: Int64, timedOut: bool) returns (sumOfSquares: Int64, err: Option<Error>)
      modifies numbersHandler.setOfNumbers
      ensures numbersHandler.setOfNumbers.numbers == old(numbersHandler.setOfNumbers.numbers) + {number}
      ensures err.None? <==> !timedOut
      ensures err.None? ==> sumOfSquares == Wrap64(SumOfSquares(numbersHandler.setOfNumbers.numbers))
      ensures err.Some? ==>
        sumOfSquares == 0 && err == Some(Errors.CalculateSumOfSquares(ReadNumbersFromSet(ContextDone(DeadlineExceeded))))
    {
      var ctx := if timedOut then DoneFrom(0, DeadlineExceeded) else Background;
      sumOfSquares, err := numbersHandler.Handle(ctx, number);
    }

    /**
     * `HandleConnection`: reads, decodes, handles and answers frames through
     * one reused 10-byte buffer until EOF (nil) or the first error.
     */
    method HandleConnection(conn: Conn, expired: set<nat>) returns (err: Option<Error>)
      modifies conn, numbersHandler.setOfNumbers
      ensures var run := SharedSpec(old(numbersHandler.setOfNumbers.numbers), old(conn.incoming), old(conn.writesLeft), expired, 0);
        && numbersHandler.setOfNumbers.numbers == run.numbers
        && conn.written == old(conn.written) + run.replies
        && err == run.result
    {
      var buf := new Byte[FrameSize](_ => 0);
      ghost var full := SharedSpec(numbersHandler.setOfNumbers.numbers, conn.incoming, conn.writesLeft, expired, 0);
      ghost var done: seq<Frame> := [];
      var k: nat := 0;
      while true
        invariant fresh(buf) && buf.Length == FrameSize
        invariant conn.written == old(conn.written) + done
        invariant Continues(full, done, SharedSpec(numbersHandler.setOfNumbers.numbers, conn.incoming, conn.writesLeft, expired, k))
        decreases |conn.incoming|
      {
        var answered, stopErr := AnswerNextFrame(conn, buf, expired, k);
        if !answered {
          assert full.replies == done + [];
          return stopErr;
        }
        ghost var reply: Frame := buf[..];
        ghost var rest := SharedSpec(numbersHandler.setOfNumbers.numbers, conn.incoming, conn.writesLeft, expired, k + 1);
        assert done + ([reply] + rest.replies) == (done + [reply]) + rest.replies;
        done := done + [reply];
        k := k + 1;
      }
    }

    /**
     * One turn of the loop of `HandleConnection`, the `k`-th request: read a
     * frame into `buf`, decode it, handle the number and write the sum of
     * squares back over the frame. Either the frame is answered, or the loop
     * stops with `err` (nil at EOF).
     */
    method AnswerNextFrame(conn: Conn, buf: array<Byte>, expired: set<nat>, k: nat) returns (answered: bool, err: Option<Error>)
      requires buf.Length == FrameSize
      modifies conn, buf, numbersHandler.setOfNumbers
      ensures conn.incoming == if old(conn.incoming) == [] then [] else old(conn.incoming)[1..]
      ensures conn.writesLeft == if answered then Spend(old(conn.writesLeft)) else old(conn.writesLeft)
      ensures var here := SharedSpec(old(numbersHandler.setOfNumbers.numbers), old(conn.incoming), old(conn.writesLeft), expired, k);
        var rest := SharedSpec(numbersHandler.setOfNumbers.numbers, conn.incoming, conn.writesLeft, expired, k + 1);
        if answered then
          here == SharedRun(rest.numbers, [buf[..]] + rest.replies, rest.result) && conn.written == old(conn.written) + [buf[..]]
        else
          here == SharedRun(numbersHandler.setOfNumbers.numbers, [], err) && conn.written == old(conn.written)
    {
      ghost var numbers := numbersHandler.setOfNumbers.numbers;
      ghost var before := conn.incoming;
      ghost var left := conn.writesLeft;
      ghost var here := SharedSpec(numbers, before, left, expired, k);
      var readErr := conn.Read(buf);
      if readErr == Some(EOF) {
        assert here == SharedRun(numbers, [], None);
        return false, None;
      }
      if readErr.Some? {
        assert here == SharedRun(numbers, [], Some(ReadBytesFromConn(ConnectionReset)));
        return false, Some(ReadBytesFromConn(readErr.value));
      }
      ghost var f := before[0].frame;
      assert buf[..] == f;
      var (number, n) := Varint(buf[..]);
      if n < 0 {
        assert here == SharedRun(numbers, [], Some(ReadLargeNumber));
        return false, Some(ReadLargeNumber);
      }
      if n == 0 {
        assert here == SharedRun(numbers, [], Some(BufIsSmall));
        return false, Some(BufIsSmall);
      }
      assert ParseFrame(f) == Ok(number);
      var sumOfSquares, handleErr := HandleNumber(number, k in expired);
      if handleErr.Some? {
        assert here == SharedRun(numbers + {number}, [], Some(TimedOut));
        return false, Some(Errors.HandleNumber(handleErr.value));
      }
      var _ := PutVarint(buf, sumOfSquares);
      assert buf[..] == PutFrame(f, sumOfSquares);
      var writeErr := conn.Write(buf);
      if writeErr.Some? {
        assert here == SharedRun(numbers + {number}, [], Some(WriteResponse(ConnectionReset)));
        return false, Some(WriteResponse(writeErr.value));
      }
      SharedAnswers(numbers, before, left, expired, k);
      answered := true;
      err := None;
    }
  }
}
