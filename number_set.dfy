/**
 * `InmemorySetOfNumbers`: the set of distinct numbers shared by all
 * connections. The Go type keeps them as the keys of a
 * `map[int64]struct{}`; here they are a `set`.
 */
module NumberSet {
  import opened GoInts
  import opened Errors
  import opened Results

  /**
   * A `context.Context` as a stream observes it: never done, or done from
   * the `checks`-th look at `ctx.Done()` onwards, reporting `err`.
   */
  datatype Context = Background | DoneFrom(checks: nat, err: ContextError)

  /** A stream over `size` numbers under `ctx` is cut short by the context. */
  predicate CutShort(ctx: Context, size: nat)
  {
    ctx.DoneFrom? && ctx.checks < size
  }

  class InmemorySetOfNumbers {
    var numbers: set<Int64>

    /** `NewInmemorySetOfNumbers`: a new set is empty. */
    constructor ()
      ensures numbers == {}
    {
      numbers := {};
    }

    /**
     * `SaveNumber`: afterwards `number` is in the set, every earlier element
     * still is, nothing else was added, and no error is ever returned.
     */
    method SaveNumber(number: Int64) returns (err: Option<Error>)
      modifies this
      ensures numbers == old(numbers) + {number}
      ensures err == None
    {
      numbers := numbers + {number};
      err := None;
    }

    /**
     * `StreamOfNumbers`, with the channel's sends collected in `stream`: the
     * map is walked in some order, and before each send the context is
     * checked; once it is done, its error is reported and nothing more is
     * sent. Without that, every stored number is sent exactly once. The set
     * itself is not modified.
     */
    method StreamOfNumbers(ctx: Context) returns (stream: seq<Int64>, err: Option<Error>)
      ensures multiset(stream) <= multiset(numbers)
      ensures err.None? <==> !CutShort(ctx, |numbers|)
      ensures err.None? ==> multiset(stream) == multiset(numbers)
      ensures err.Some? ==> err == Some(ContextDone(ctx.err)) && |stream| == ctx.checks
    {
      var rest := numbers;
      stream := [];
      while rest != {}
        invariant rest <= numbers
        invariant multiset(stream) + multiset(rest) == multiset(numbers)
        invariant |stream| + |rest| == |numbers|
        invariant ctx.DoneFrom? ==> |stream| <= ctx.checks
        decreases |rest|
      {
        if ctx.DoneFrom? && |stream| == ctx.checks {
          return stream, Some(ContextDone(ctx.err));
        }
        var x :| x in rest;
        stream := stream + [x];
        rest := rest - {x};
      }
      err := None;
    }
  }
}
