/**
 * `NumbersHandler`: inserts a number into the shared set and answers with
 * the sum of the squares of every distinct number in it, in `int64`
 * arithmetic. The lock the Go code takes around both steps is implicit in
 * this sequential model.
 */
module NumbersHandling {
  import opened GoInts
  import opened Errors
  import opened Results
  import opened NumberSet

  /** x * x without wrap-around. */
  function Square(x: Int64): int
  {
    (x as int) * (x as int)
  }

  /** The exact sum of x * x over a set of numbers. */
  ghost function SumOfSquares(s: set<Int64>): int
    decreases s
  {
    if s == {} then 0 else var x :| x in s; Square(x) + SumOfSquares(s - {x})
  }

  /** Any element may be taken out first: the sum does not depend on the choice. */
  lemma {:induction false} SumOfSquaresRemove(s: set<Int64>, y: Int64)
    requires y in s
    ensures SumOfSquares(s) == Square(y) + SumOfSquares(s - {y})
    decreases s
  {
    var x :| x in s && SumOfSquares(s) == Square(x) + SumOfSquares(s - {x});
    if x != y {
      SumOfSquaresRemove(s - {x}, y);
      SumOfSquaresRemove(s - {y}, x);
      assert s - {x} - {y} == s - {y} - {x};
    }
  }

  /**
   * Inserting a new number adds its square once; inserting a number that is
   * already there changes nothing: duplicates do not count.
   */
  lemma SumOfSquaresInsert(s: set<Int64>, n: Int64)
    ensures n !in s ==> SumOfSquares(s + {n}) == SumOfSquares(s) + Square(n)
    ensures n in s ==> SumOfSquares(s + {n}) == SumOfSquares(s)
  {
    if n !in s {
      SumOfSquaresRemove(s + {n}, n);
      assert s + {n} - {n} == s;
    } else {
      assert s + {n} == s;
    }
  }

  /** The exact sum of x * x over a sequence, element by element from the front. */
  function SeqSumOfSquares(xs: seq<Int64>): int
  {
    if xs == [] then 0 else SeqSumOfSquares(xs[..|xs| - 1]) + Square(xs[|xs| - 1])
  }

  /** The sum may also be taken from the front. */
  lemma {:induction false} SeqSumOfSquaresCons(x: Int64, ys: seq<Int64>)
    ensures SeqSumOfSquares([x] + ys) == Square(x) + SeqSumOfSquares(ys)
    decreases |ys|
  {
    if ys != [] {
      var front := ys[..|ys| - 1];
      assert ([x] + ys)[..|ys|] == [x] + front;
      SeqSumOfSquaresCons(x, front);
    }
  }

  /** Summing a sequence that holds every element of a set exactly once gives the set's sum. */
  lemma {:induction false} SeqSumOfSquaresOfSet(xs: seq<Int64>, s: set<Int64>)
    requires multiset(xs) == multiset(s)
    ensures SeqSumOfSquares(xs) == SumOfSquares(s)
    decreases |xs|
  {
    if xs == [] {
      assert |s| == |multiset(s)| == 0;
    } else {
      var y := xs[|xs| - 1];
      var front := xs[..|xs| - 1];
      assert xs == front + [y];
      assert y in multiset(s);
      assert multiset(front) == multiset(s - {y}) by {
        assert multiset(xs) == multiset(front) + multiset{y};
        assert multiset(s) == multiset(s - {y}) + multiset{y} by {
          assert s == (s - {y}) + {y};
        }
        forall z ensures multiset(front)[z] == multiset(s - {y})[z] {
          assert multiset(xs)[z] == multiset(s)[z];
        }
      }
      SeqSumOfSquaresOfSet(front, s - {y});
      SumOfSquaresRemove(s, y);
    }
  }

  /**
   * `calculateSumOfSquares` as written: `streamIsClosed` receives the ok flag
   * of the channel receive, which is true for every value actually
   * received, so the loop leaves after the first element of the stream (or
   * after the context error, if that comes first). `order` is the map's
   * iteration order over the set, which Handle has just made non-empty.
   */
  function SumOfSquaresAsWritten(order: seq<Int64>, ctx: Context): (r: Result<Int64, Error>)
    requires |order| > 0
    ensures r.Ok? <==> !(ctx.DoneFrom? && ctx.checks == 0)
    ensures r.Ok? ==> r.value == Wrap64(Square(order[0]))
  {
    if ctx.DoneFrom? && ctx.checks == 0 then Err(ReadNumbersFromSet(ContextDone(ctx.err)))
    else Ok(Wrap64(Square(order[0])))
  }

  /**
   * The discrepancy: with 3 and 4 in the set, the loop as written answers 9
   * or 16, whichever the map yields first, where the sum of squares is 25.
   */
  lemma AsWrittenMissesLaterNumbers(order: seq<Int64>)
    requires |order| > 0 && forall i :: 0 <= i < |order| ==> order[i] == 3 || order[i] == 4
    ensures Wrap64(SumOfSquares({3, 4})) == 25
    ensures SumOfSquaresAsWritten(order, Background) != Ok(25)
  {
    SumOfSquaresRemove({3, 4}, 3);
    assert {3, 4} - {3} == {4};
    SumOfSquaresRemove({4}, 4);
    assert {4} - {4} == {};
  }

  class NumbersHandler {
    const setOfNumbers: InmemorySetOfNumbers

    constructor (setOfNumbers: InmemorySetOfNumbers)
      ensures this.setOfNumbers == setOfNumbers
    {
      this.setOfNumbers := setOfNumbers;
    }

    /**
     * `calculateSumOfSquares` as evidently intended: drain the whole stream,
     * adding each number's square with `int64` wrap-around; a context error
     * gives 0 and the wrapped error.
     */
    method CalculateSumOfSquares(ctx: Context) returns (sumOfSquares: Int64, err: Option<Error>)
      ensures err.None? <==> !CutShort(ctx, |setOfNumbers.numbers|)
      ensures err.None? ==> sumOfSquares == Wrap64(SumOfSquares(setOfNumbers.numbers))
      ensures err.Some? ==> sumOfSquares == 0 && err == Some(ReadNumbersFromSet(ContextDone(ctx.err)))
    {
      var stream, streamErr := setOfNumbers.StreamOfNumbers(ctx);
      if streamErr.Some? {
        return 0, Some(ReadNumbersFromSet(streamErr.value));
      }
      sumOfSquares := 0;
      var i := 0;
      while i < |stream|
        invariant 0 <= i <= |stream|
        invariant sumOfSquares == Wrap64(SeqSumOfSquares(stream[..i]))
      {
        var number := stream[i];
        assert stream[..i + 1][..i] == stream[..i];
        WrapAddWrapped(SeqSumOfSquares(stream[..i]), Square(number));
        sumOfSquares := Wrap64(sumOfSquares + Wrap64(Square(number)));
        i := i + 1;
      }
      assert stream[..i] == stream;
      SeqSumOfSquaresOfSet(stream, setOfNumbers.numbers);
      err := None;
    }

    /**
     * `Handle`: saves `number` and answers with the sum of squares of the
     * set it now belongs to. When the set cannot be read the answer is 0
     * with the wrapped error, and `number` stays inserted.
     */
    method Handle(ctx: Context, number: Int64) returns (sumOfSquares: Int64, err: Option<Error>)
      modifies setOfNumbers
      ensures setOfNumbers.numbers == old(setOfNumbers.numbers) + {number}
      ensures err.None? <==> !CutShort(ctx, |setOfNumbers.numbers|)
      ensures err.None? ==> sumOfSquares == Wrap64(SumOfSquares(setOfNumbers.numbers))
      ensures err.Some? ==>
        sumOfSquares == 0 && err == Some(Errors.CalculateSumOfSquares(ReadNumbersFromSet(ContextDone(ctx.err))))
    {
      var saveErr := setOfNumbers.SaveNumber(number);
      if saveErr.Some? {
        // "save number to set": InmemorySetOfNumbers.SaveNumber never fails.
        assert false;
      }
      var sum, sumErr := CalculateSumOfSquares(ctx);
      if sumErr.Some? {
        return 0, Some(Errors.CalculateSumOfSquares(sumErr.value));
      }
      sumOfSquares, err := sum, None;
    }
  }
}
