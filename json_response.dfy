/**
 * The streaming reader of a JSON response `{"results": [{"field": ...}, ...],
 * "total": n}` that pulls tokens one at a time from a JSON decoder. The
 * decoder is its sequence of tokens and a position in it; running out of
 * tokens is the decoder's EOF. Results that Go sends on a channel are
 * appended to a sequence, and errors that Go sends on its error channel are
 * collected in order.
 */
module JsonResponse {
  import opened Results

  datatype DelimKind = LBrace | RBrace | LBracket | RBracket

  /** A `json.Token`; numbers are integers here. */
  datatype Token = Delim(d: DelimKind) | Str(s: string) | Num(n: int) | Bool(b: bool) | Null

  /** Go's `result`. */
  datatype ResultRecord = ResultRecord(Field: string)

  /** Go's `response`, with the results already received from the channel. */
  datatype Response = Response(Results: seq<ResultRecord>, Total: int)

  datatype ParseError =
    | DecodeNextToken                              // "decode next token: %w" around io.EOF
    | DecodeFieldKeyNextToken                      // "decode field key next token: %w" around io.EOF
    | DecodeFieldValueNextToken                    // "decode field value next token: %w" around io.EOF
    | DecodeTotalValueInNextToken                  // "decode total value in next token: %w" around io.EOF
    | Unknown(token: Token)                        // unmarshalResponseError
    | UnmarshalResultFailed(cause: ParseError)     // "unmarshal result: %w"
    | UnmarshalResultsFailed(cause: ParseError)    // "unmarshal results: %w"
    | UnmarshalTotalFailed(cause: ParseError)      // "unmarshal response total value: %w"

  /**
   * `unmarshalResult`, reading from position `pos`: the key "field" and a
   * string value. Returns the outcome and the position after the tokens it
   * took; an offending token is taken and named in the error.
   */
  function UnmarshalResult(toks: seq<Token>, pos: nat): (r: (Result<ResultRecord, ParseError>, nat))
    requires pos <= |toks|
    ensures pos <= r.1 <= |toks| && r.1 <= pos + 2
    ensures r.0.Ok? <==> pos + 2 <= |toks| && toks[pos] == Str("field") && toks[pos + 1].Str?
    ensures r.0.Ok? ==> r.0.value.Field == toks[pos + 1].s && r.1 == pos + 2
    ensures pos < |toks| && toks[pos] != Str("field") ==> r == (Err(Unknown(toks[pos])), pos + 1)
    ensures pos + 2 <= |toks| && toks[pos] == Str("field") && !toks[pos + 1].Str? ==>
      r == (Err(Unknown(toks[pos + 1])), pos + 2)
    ensures r.0 == Err(DecodeFieldKeyNextToken) <==> pos == |toks|
    ensures r.0 == Err(DecodeFieldValueNextToken) <==> pos + 1 == |toks| && toks[pos] == Str("field")
  {
    if pos == |toks| then (Err(DecodeFieldKeyNextToken), pos)
    else if toks[pos] != Str("field") then (Err(Unknown(toks[pos])), pos + 1)
    else if pos + 1 == |toks| then (Err(DecodeFieldValueNextToken), pos + 1)
    else match toks[pos + 1]
      case Str(field) => (Ok(ResultRecord(field)), pos + 2)
      case _ => (Err(Unknown(toks[pos + 1])), pos + 2)
  }

  /** `unmarshalResponseTotal`: one number token. */
  function UnmarshalResponseTotal(toks: seq<Token>, pos: nat): (r: (Result<int, ParseError>, nat))
    requires pos <= |toks|
    ensures r.1 == if pos == |toks| then pos else pos + 1
    ensures r.0.Ok? <==> pos < |toks| && toks[pos].Num?
    ensures r.0.Ok? ==> r.0.value == toks[pos].n
    ensures pos == |toks| ==> r.0 == Err(DecodeTotalValueInNextToken)
    ensures pos < |toks| && !toks[pos].Num? ==> r.0 == Err(Unknown(toks[pos]))
  {
    if pos == |toks| then (Err(DecodeTotalValueInNextToken), pos)
    else match toks[pos]
      case Num(n) => (Ok(n), pos + 1)
      case _ => (Err(Unknown(toks[pos])), pos + 1)
  }

  /**
   * What `unmarshalResults` does from position `pos`, with `emitted` the
   * results it has already sent: each '{' starts a result, '}' and '['
   * are passed over, ']' ends the list, anything else is an error. Returns
   * everything sent, the error and the position after the last token taken.
   */
  function ResultsFrom(toks: seq<Token>, pos: nat, emitted: seq<ResultRecord>)
    : (r: (seq<ResultRecord>, Option<ParseError>, nat))
    requires pos <= |toks|
    ensures emitted <= r.0
    ensures pos <= r.2 <= |toks|
    ensures pos < |toks| ==> pos < r.2
    decreases |toks| - pos
  {
    if pos == |toks| then (emitted, Some(DecodeNextToken), pos)
    else match toks[pos]
      case Delim(LBrace) =>
        var (res, after) := UnmarshalResult(toks, pos + 1);
        if res.Err? then (emitted, Some(UnmarshalResultFailed(res.error)), after)
        else ResultsFrom(toks, after, emitted + [res.value])
      case Delim(RBracket) => (emitted, None, pos + 1)
      case Delim(_) => ResultsFrom(toks, pos + 1, emitted)
      case _ => (emitted, Some(Unknown(toks[pos])), pos + 1)
  }

  /** `unmarshalResults`, proved against `ResultsFrom`. */
  method UnmarshalResults(toks: seq<Token>, pos: nat) returns (emitted: seq<ResultRecord>, err: Option<ParseError>, next: nat)
    requires pos <= |toks|
    ensures (emitted, err, next) == ResultsFrom(toks, pos, [])
  {
    emitted := [];
    next := pos;
    while true
      invariant pos <= next <= |toks|
      invariant ResultsFrom(toks, next, emitted) == ResultsFrom(toks, pos, [])
      decreases |toks| - next
    {
      if next == |toks| {
        return emitted, Some(DecodeNextToken), next;
      }
      var t := toks[next];
      next := next + 1;
      match t
      case Delim(LBrace) =>
        var (res, after) := UnmarshalResult(toks, next);
        if res.Err? {
          return emitted, Some(UnmarshalResultFailed(res.error)), after;
        }
        emitted := emitted + [res.value];
        next := after;
      case Delim(RBracket) =>
        return emitted, None, next;
      case Delim(_) =>
      case _ =>
        return emitted, Some(Unknown(t)), next;
    }
  }

  /**
   * The top-level loop of `unmarshalResponce` from position `pos`: the keys
   * "results" and "total" dispatch, any other string is an error, other
   * tokens are passed over, and every error is reported without stopping
   * the loop. A failed total leaves 0, as the Go assignment does.
   */
  function ResponseFrom(toks: seq<Token>, pos: nat, res: Response, errs: seq<ParseError>)
    : (r: (Response, seq<ParseError>))
    requires pos <= |toks|
    ensures res.Results <= r.0.Results && errs <= r.1
    decreases |toks| - pos
  {
    if pos == |toks| then (res, errs)
    else match toks[pos]
      case Str(key) =>
        if key == "results" then
          var (items, err, next) := ResultsFrom(toks, pos + 1, []);
          var reported := if err.Some? then [UnmarshalResultsFailed(err.value)] else [];
          ResponseFrom(toks, next, res.(Results := res.Results + items), errs + reported)
        else if key == "total" then
          var (total, next) := UnmarshalResponseTotal(toks, pos + 1);
          var reported := if total.Err? then [UnmarshalTotalFailed(total.error)] else [];
          ResponseFrom(toks, next, res.(Total := if total.Ok? then total.value else 0), errs + reported)
        else ResponseFrom(toks, pos + 1, res, errs + [Unknown(toks[pos])])
      case _ => ResponseFrom(toks, pos + 1, res, errs)
  }

  /** The reading goroutine of `unmarshalResponce`, proved against `ResponseFrom`. */
  method UnmarshalResponse(toks: seq<Token>) returns (res: Response, errs: seq<ParseError>)
    ensures (res, errs) == ResponseFrom(toks, 0, Response([], 0), [])
  {
    res := Response([], 0);
    errs := [];
    var pos := 0;
    while pos < |toks|
      invariant pos <= |toks|
      invariant ResponseFrom(toks, pos, res, errs) == ResponseFrom(toks, 0, Response([], 0), [])
      decreases |toks| - pos
    {
      ghost var here := ResponseFrom(toks, pos, res, errs);
      var t := toks[pos];
      pos := pos + 1;
      match t
      case Str(key) =>
        if key == "results" {
          var items, err, next := UnmarshalResults(toks, pos);
          var reported := if err.Some? then [UnmarshalResultsFailed(err.value)] else [];
          assert here == ResponseFrom(toks, next, res.(Results := res.Results + items), errs + reported);
          res := res.(Results := res.Results + items);
          errs := errs + reported;
          pos := next;
        } else if key == "total" {
          var (total, next) := UnmarshalResponseTotal(toks, pos);
          var reported := if total.Err? then [UnmarshalTotalFailed(total.error)] else [];
          assert here == ResponseFrom(toks, next, res.(Total := if total.Ok? then total.value else 0), errs + reported);
          res := res.(Total := if total.Ok? then total.value else 0);
          errs := errs + reported;
          pos := next;
        } else {
          assert here == ResponseFrom(toks, pos, res, errs + [Unknown(t)]);
          errs := errs + [Unknown(t)];
        }
      case _ =>
        assert here == ResponseFrom(toks, pos, res, errs);
    }
  }

  // ---------------------------------------------------------------------
  // Documents and what reading them gives

  /** The tokens of `{"field": f}`. */
  function ResultTokens(field: string): seq<Token>
  {
    [Delim(LBrace), Str("field"), Str(field), Delim(RBrace)]
  }

  /** The tokens of the elements of a results array, without its brackets. */
  function ElementsTokens(fields: seq<string>): (toks: seq<Token>)
    ensures |toks| == 4 * |fields|
  {
    if fields == [] then [] else ResultTokens(fields[0]) + ElementsTokens(fields[1..])
  }

  /** The tokens of a whole response document. */
  function DocumentTokens(fields: seq<string>, total: int): seq<Token>
  {
    [Delim(LBrace), Str("results"), Delim(LBracket)] + ElementsTokens(fields)
      + [Delim(RBracket), Str("total"), Num(total), Delim(RBrace)]
  }

  function Records(fields: seq<string>): (rs: seq<ResultRecord>)
    ensures |rs| == |fields|
    ensures forall i :: 0 <= i < |fields| ==> rs[i] == ResultRecord(fields[i])
  {
    if fields == [] then [] else [ResultRecord(fields[0])] + Records(fields[1..])
  }

  lemma RecordsCons(emitted: seq<ResultRecord>, fields: seq<string>)
    requires fields != []
    ensures emitted + [ResultRecord(fields[0])] + Records(fields[1..]) == emitted + Records(fields)
  {
    assert Records(fields) == [ResultRecord(fields[0])] + Records(fields[1..]);
  }

  lemma ElementsSplit(toks: seq<Token>, pos: nat, fields: seq<string>)
    requires fields != [] && pos + 4 * |fields| <= |toks|
    requires toks[pos..pos + 4 * |fields|] == ElementsTokens(fields)
    ensures toks[pos..pos + 4] == ResultTokens(fields[0])
    ensures toks[pos + 4..pos + 4 + 4 * |fields[1..]|] == ElementsTokens(fields[1..])
  {
    var all := ElementsTokens(fields);
    assert all == ResultTokens(fields[0]) + ElementsTokens(fields[1..]);
    assert all[..4] == ResultTokens(fields[0]);
    assert all[4..] == ElementsTokens(fields[1..]);
    assert toks[pos..pos + 4] == all[..4];
  }

  lemma OneElementParses(toks: seq<Token>, pos: nat, field: string, emitted: seq<ResultRecord>)
    requires pos + 4 <= |toks| && toks[pos..pos + 4] == ResultTokens(field)
    ensures ResultsFrom(toks, pos, emitted) == ResultsFrom(toks, pos + 4, emitted + [ResultRecord(field)])
  {
    assert toks[pos] == Delim(LBrace) && toks[pos + 1] == Str("field") && toks[pos + 2] == Str(field);
    assert toks[pos + 3] == Delim(RBrace);
    assert UnmarshalResult(toks, pos + 1) == (Ok(ResultRecord(field)), pos + 3);
  }

  lemma {:induction false} ElementsParse(toks: seq<Token>, pos: nat, fields: seq<string>, emitted: seq<ResultRecord>)
    requires pos + 4 * |fields| <= |toks|
    requires toks[pos..pos + 4 * |fields|] == ElementsTokens(fields)
    ensures ResultsFrom(toks, pos, emitted) == ResultsFrom(toks, pos + 4 * |fields|, emitted + Records(fields))
    decreases |fields|
  {
    if fields == [] {
      assert emitted + Records(fields) == emitted;
    } else {
      ElementsSplit(toks, pos, fields);
      OneElementParses(toks, pos, fields[0], emitted);
      RecordsCons(emitted, fields);
      ElementsParse(toks, pos + 4, fields[1..], emitted + [ResultRecord(fields[0])]);
    }
  }

  /**
   * Reading a well-formed response gives every result in document order,
   * the total, and no error.
   */
  lemma DocumentRoundTrip(fields: seq<string>, total: int)
    ensures ResponseFrom(DocumentTokens(fields, total), 0, Response([], 0), [])
      == (Response(Records(fields), total), [])
  {
    var toks := DocumentTokens(fields, total);
    var n := 4 * |fields|;
    DocumentShape(fields, total);
    ArrayParses(toks, 2, fields);
    ResponsePassesOver(toks, 0, Response([], 0), []);
    ResponseTakesResults(toks, 1, Response([], 0), [], Records(fields), 4 + n);
    assert Response([], 0).(Results := [] + Records(fields)) == Response(Records(fields), 0);
    ResponseTakesTotal(toks, 4 + n, Response(Records(fields), 0), []);
    ResponsePassesOver(toks, 6 + n, Response(Records(fields), total), []);
  }

  /** A token that is not a string is passed over by the top-level loop. */
  lemma ResponsePassesOver(toks: seq<Token>, pos: nat, res: Response, errs: seq<ParseError>)
    requires pos < |toks| && !toks[pos].Str?
    ensures ResponseFrom(toks, pos, res, errs) == ResponseFrom(toks, pos + 1, res, errs)
  {
  }

  /** The key "results" followed by a list read without error. */
  lemma ResponseTakesResults(toks: seq<Token>, pos: nat, res: Response, errs: seq<ParseError>,
                             items: seq<ResultRecord>, next: nat)
    requires pos < |toks| && toks[pos] == Str("results")
    requires ResultsFrom(toks, pos + 1, []) == (items, None, next)
    ensures next <= |toks|
    ensures ResponseFrom(toks, pos, res, errs)
      == ResponseFrom(toks, next, res.(Results := res.Results + items), errs)
  {
    assert errs + [] == errs;
  }

  /** The key "total" followed by a number. */
  lemma ResponseTakesTotal(toks: seq<Token>, pos: nat, res: Response, errs: seq<ParseError>)
    requires pos + 1 < |toks| && toks[pos] == Str("total") && toks[pos + 1].Num?
    ensures ResponseFrom(toks, pos, res, errs)
      == ResponseFrom(toks, pos + 2, res.(Total := toks[pos + 1].n), errs)
  {
    assert errs + [] == errs;
  }

  /** Where the parts of a response document sit among its tokens. */
  lemma DocumentShape(fields: seq<string>, total: int)
    ensures var toks := DocumentTokens(fields, total);
      var n := 4 * |fields|;
      && |toks| == n + 7
      && toks[0] == Delim(LBrace) && toks[1] == Str("results") && toks[2] == Delim(LBracket)
      && toks[3..3 + n] == ElementsTokens(fields)
      && toks[3 + n] == Delim(RBracket) && toks[4 + n] == Str("total")
      && toks[5 + n] == Num(total) && toks[6 + n] == Delim(RBrace)
  {
    var toks := DocumentTokens(fields, total);
    var n := 4 * |fields|;
    assert toks[3..3 + n] == ElementsTokens(fields);
  }

  /** A results array `[...]` reads back as its elements, with no error. */
  lemma ArrayParses(toks: seq<Token>, pos: nat, fields: seq<string>)
    requires pos + 4 * |fields| + 2 <= |toks|
    requires toks[pos] == Delim(LBracket) && toks[pos + 1 + 4 * |fields|] == Delim(RBracket)
    requires toks[pos + 1..pos + 1 + 4 * |fields|] == ElementsTokens(fields)
    ensures ResultsFrom(toks, pos, []) == (Records(fields), None, pos + 2 + 4 * |fields|)
  {
    ElementsParse(toks, pos + 1, fields, []);
    assert [] + Records(fields) == Records(fields);
  }

  /** Number of '{' tokens. */
  function Braces(toks: seq<Token>): nat
  {
    if toks == [] then 0 else (if toks[0] == Delim(LBrace) then 1 else 0) + Braces(toks[1..])
  }

  lemma {:induction false} BracesAppend(a: seq<Token>, b: seq<Token>)
    ensures Braces(a + b) == Braces(a) + Braces(b)
    decreases |a|
  {
    if a != [] {
      assert (a + b)[1..] == a[1..] + b;
      BracesAppend(a[1..], b);
    } else {
      assert a + b == b;
    }
  }

  /**
   * A results list read without error sends exactly one result per '{' it
   * passed over.
   */
  lemma {:induction false} OneResultPerBrace(toks: seq<Token>, pos: nat, emitted: seq<ResultRecord>)
    requires pos <= |toks|
    requires ResultsFrom(toks, pos, emitted).1.None?
    ensures |ResultsFrom(toks, pos, emitted).0| == |emitted| + Braces(toks[pos..ResultsFrom(toks, pos, emitted).2])
    decreases |toks| - pos
  {
    var next := ResultsFrom(toks, pos, emitted).2;
    assert toks[pos..next] == [toks[pos]] + toks[pos + 1..next];
    BracesAppend([toks[pos]], toks[pos + 1..next]);
    match toks[pos]
    case Delim(LBrace) =>
      var after := UnmarshalResult(toks, pos + 1).1;
      assert after == pos + 3;
      OneResultPerBrace(toks, after, emitted + [UnmarshalResult(toks, pos + 1).0.value]);
      assert toks[pos + 1..next] == toks[pos + 1..after] + toks[after..next];
      BracesAppend(toks[pos + 1..after], toks[after..next]);
      assert toks[pos + 1..after] == [toks[pos + 1], toks[pos + 2]];
    case Delim(RBracket) =>
      assert toks[pos + 1..next] == [];
    case Delim(_) =>
      OneResultPerBrace(toks, pos + 1, emitted);
  }

  // ---------------------------------------------------------------------
  // Reading a results list: each token's effect, where an error-free read
  // stops, and the order of what it sends

  /** A token that is not a delimiter ends the list with an unknown-token error. */
  lemma ResultsStopAtNonDelimiter(toks: seq<Token>, pos: nat, emitted: seq<ResultRecord>)
    requires pos < |toks| && !toks[pos].Delim?
    ensures ResultsFrom(toks, pos, emitted) == (emitted, Some(Unknown(toks[pos])), pos + 1)
  {
  }

  /**
   * A '{' whose result fails to read ends the list with that error wrapped,
   * at the position the result reader reached; what was sent stays sent.
   */
  lemma ResultsStopAtFailedResult(toks: seq<Token>, pos: nat, emitted: seq<ResultRecord>)
    requires pos < |toks| && toks[pos] == Delim(LBrace)
    requires UnmarshalResult(toks, pos + 1).0.Err?
    ensures ResultsFrom(toks, pos, emitted)
      == (emitted, Some(UnmarshalResultFailed(UnmarshalResult(toks, pos + 1).0.error)), UnmarshalResult(toks, pos + 1).1)
  {
  }

  /** '}' and '[' are passed over inside a results list. */
  lemma ResultsPassOver(toks: seq<Token>, pos: nat, emitted: seq<ResultRecord>)
    requires pos < |toks| && toks[pos] in {Delim(RBrace), Delim(LBracket)}
    ensures ResultsFrom(toks, pos, emitted) == ResultsFrom(toks, pos + 1, emitted)
  {
  }

  /**
   * Every error of a results list is one of three: the end of input, a
   * result that failed to read, or a token that is not a delimiter, which is
   * the last token taken.
   */
  lemma {:induction false} ResultsErrorCases(toks: seq<Token>, pos: nat, emitted: seq<ResultRecord>)
    requires pos <= |toks|
    requires ResultsFrom(toks, pos, emitted).1.Some?
    ensures var (_, err, next) := ResultsFrom(toks, pos, emitted);
      || (err.value == DecodeNextToken && next == |toks|)
      || err.value.UnmarshalResultFailed?
      || (pos < next && err.value == Unknown(toks[next - 1]) && !toks[next - 1].Delim?)
    decreases |toks| - pos
  {
    if pos < |toks| {
      match toks[pos]
      case Delim(LBrace) =>
        var (res, after) := UnmarshalResult(toks, pos + 1);
        if res.Ok? {
          ResultsErrorCases(toks, after, emitted + [res.value]);
        }
      case Delim(RBracket) =>
      case Delim(_) =>
        ResultsErrorCases(toks, pos + 1, emitted);
      case _ =>
    }
  }

  /** A results list read without error ends right after the first ']' from where it started. */
  lemma {:induction false} ResultsEndAtFirstBracket(toks: seq<Token>, pos: nat, emitted: seq<ResultRecord>)
    requires pos <= |toks|
    requires ResultsFrom(toks, pos, emitted).1.None?
    ensures var next := ResultsFrom(toks, pos, emitted).2;
      pos < next && toks[next - 1] == Delim(RBracket) && Delim(RBracket) !in toks[pos..next - 1]
    decreases |toks| - pos
  {
    var r := ResultsFrom(toks, pos, emitted);
    var next := r.2;
    if toks[pos] == Delim(LBrace) {
      assert UnmarshalResult(toks, pos + 1).0.Ok?;
      var sent := emitted + [ResultRecord(toks[pos + 2].s)];
      assert r == ResultsFrom(toks, pos + 3, sent);
      ResultsEndAtFirstBracket(toks, pos + 3, sent);
      assert toks[pos..next - 1] == toks[pos..pos + 3] + toks[pos + 3..next - 1];
      assert toks[pos..pos + 3] == [toks[pos], toks[pos + 1], toks[pos + 2]];
    } else if toks[pos] == Delim(RBracket) {
      assert next == pos + 1;
      assert toks[pos..next - 1] == [];
    } else {
      assert r == ResultsFrom(toks, pos + 1, emitted);
      ResultsEndAtFirstBracket(toks, pos + 1, emitted);
      assert toks[pos..next - 1] == [toks[pos]] + toks[pos + 1..next - 1];
    }
  }

  /**
   * The result each '{' in `toks[lo..hi]` stands for: the string two tokens
   * after it, in document order.
   */
  function BraceRecords(toks: seq<Token>, lo: nat, hi: nat): seq<ResultRecord>
    requires lo <= hi <= |toks|
    decreases hi - lo
  {
    if lo == hi then []
    else
      var here := if toks[lo] == Delim(LBrace) && lo + 2 < |toks| && toks[lo + 2].Str?
        then [ResultRecord(toks[lo + 2].s)] else [];
      here + BraceRecords(toks, lo + 1, hi)
  }

  /** A token that is not '{' stands for no result. */
  lemma BraceRecordsSkip(toks: seq<Token>, lo: nat, hi: nat)
    requires lo < hi <= |toks| && toks[lo] != Delim(LBrace)
    ensures BraceRecords(toks, lo, hi) == BraceRecords(toks, lo + 1, hi)
  {
    assert BraceRecords(toks, lo, hi) == [] + BraceRecords(toks, lo + 1, hi);
  }

  /** The tokens `{ "field" f` stand for the result f. */
  lemma BraceRecordsTake(toks: seq<Token>, lo: nat, hi: nat)
    requires lo + 3 <= hi <= |toks|
    requires toks[lo] == Delim(LBrace) && toks[lo + 1].Str? && toks[lo + 2].Str?
    ensures BraceRecords(toks, lo, hi) == [ResultRecord(toks[lo + 2].s)] + BraceRecords(toks, lo + 3, hi)
  {
    BraceRecordsSkip(toks, lo + 2, hi);
    BraceRecordsSkip(toks, lo + 1, hi);
  }

  /**
   * A results list read without error sends, after what was already sent,
   * the result of every '{' it passed, in document order.
   */
  lemma {:induction false} ResultsInDocumentOrder(toks: seq<Token>, pos: nat, emitted: seq<ResultRecord>)
    requires pos <= |toks|
    requires ResultsFrom(toks, pos, emitted).1.None?
    ensures ResultsFrom(toks, pos, emitted).0 == emitted + BraceRecords(toks, pos, ResultsFrom(toks, pos, emitted).2)
    decreases |toks| - pos
  {
    var r := ResultsFrom(toks, pos, emitted);
    if toks[pos] == Delim(LBrace) {
      assert UnmarshalResult(toks, pos + 1).0.Ok?;
      var sent := emitted + [ResultRecord(toks[pos + 2].s)];
      assert r == ResultsFrom(toks, pos + 3, sent);
      ResultsInDocumentOrder(toks, pos + 3, sent);
      BraceRecordsTake(toks, pos, r.2);
    } else if toks[pos] == Delim(RBracket) {
      assert r.2 == pos + 1;
      BraceRecordsSkip(toks, pos, r.2);
    } else {
      assert r == ResultsFrom(toks, pos + 1, emitted);
      ResultsInDocumentOrder(toks, pos + 1, emitted);
      BraceRecordsSkip(toks, pos, r.2);
    }
  }

  // ---------------------------------------------------------------------
  // Failed keys at the top level: reported, and reading goes on

  /**
   * A "results" list that fails is reported as `UnmarshalResultsFailed`;
   * the results sent before the failure stay sent, and reading goes on
   * where the list reader stopped.
   */
  lemma ResponseReportsFailedResults(toks: seq<Token>, pos: nat, res: Response, errs: seq<ParseError>,
                                     items: seq<ResultRecord>, e: ParseError, next: nat)
    requires pos < |toks| && toks[pos] == Str("results")
    requires ResultsFrom(toks, pos + 1, []) == (items, Some(e), next)
    ensures next <= |toks|
    ensures ResponseFrom(toks, pos, res, errs)
      == ResponseFrom(toks, next, res.(Results := res.Results + items), errs + [UnmarshalResultsFailed(e)])
  {
  }

  /**
   * A "total" key not followed by a number is reported as
   * `UnmarshalTotalFailed` with the end of input or the offending token,
   * the total becomes 0, and reading goes on after the token taken.
   */
  lemma ResponseReportsFailedTotal(toks: seq<Token>, pos: nat, res: Response, errs: seq<ParseError>)
    requires pos < |toks| && toks[pos] == Str("total")
    requires pos + 1 == |toks| || !toks[pos + 1].Num?
    ensures pos + 1 == |toks| ==>
              ResponseFrom(toks, pos, res, errs)
              == (res.(Total := 0), errs + [UnmarshalTotalFailed(DecodeTotalValueInNextToken)])
    ensures pos + 1 < |toks| ==>
              ResponseFrom(toks, pos, res, errs)
              == ResponseFrom(toks, pos + 2, res.(Total := 0), errs + [UnmarshalTotalFailed(Unknown(toks[pos + 1]))])
  {
  }

  /** The errors for the strings among `toks`, each an unknown key. */
  function UnknownKeys(toks: seq<Token>): seq<ParseError>
  {
    if toks == [] then []
    else (if toks[0].Str? then [Unknown(toks[0])] else []) + UnknownKeys(toks[1..])
  }

  /**
   * Tokens that are neither "results" nor "total" change nothing read so
   * far; each string among them adds one unknown-key error, in order, and
   * reading goes on after it.
   */
  lemma {:induction false} UnknownKeysAreReported(toks: seq<Token>, pos: nat, res: Response, errs: seq<ParseError>)
    requires pos <= |toks|
    requires forall i :: pos <= i < |toks| ==> toks[i] != Str("results") && toks[i] != Str("total")
    ensures ResponseFrom(toks, pos, res, errs) == (res, errs + UnknownKeys(toks[pos..]))
    decreases |toks| - pos
  {
    if pos < |toks| {
      assert toks[pos..][1..] == toks[pos + 1..];
      var reported := if toks[pos].Str? then [Unknown(toks[pos])] else [];
      if toks[pos].Str? {
        assert toks[pos].s != "results" && toks[pos].s != "total";
        assert ResponseFrom(toks, pos, res, errs) == ResponseFrom(toks, pos + 1, res, errs + reported);
      } else {
        assert errs + reported == errs;
        assert ResponseFrom(toks, pos, res, errs) == ResponseFrom(toks, pos + 1, res, errs + reported);
      }
      UnknownKeysAreReported(toks, pos + 1, res, errs + reported);
      assert errs + reported + UnknownKeys(toks[pos + 1..]) == errs + UnknownKeys(toks[pos..]);
    } else {
      assert toks[pos..] == [];
      assert errs + [] == errs;
    }
  }
}
