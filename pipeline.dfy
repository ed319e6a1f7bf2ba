/** `main.py`: the daily run. Each symbol is fetched, its raw data stored, analysed and the
    analysis stored; the run counts successes and failures. Every collaborator's result is
    an input here. */
module Pipeline {
  import opened Base
  import opened Json
  import opened PyStr
  import opened RawDataHandler
  import opened AnswersHandler

  /** `test_connections`: only a failed yfinance test stops the run; a failed Hugging Face
      test is reported and the run goes on. */
  function TestConnections(yfinanceOk: bool, huggingFaceOk: bool): (ok: bool)
    ensures ok <==> yfinanceOk
    ensures !huggingFaceOk && yfinanceOk ==> ok
  {
    if !yfinanceOk then false
    else if !huggingFaceOk then true
    else true
  }

  /** The text stored when the model gives no analysis. */
  function FallbackText(symbol: string): string {
    "AI analysis failed for " + symbol + " - raw data stored successfully"
  }

  /** What the collaborators give for one symbol: the two values `fetch_all_stock_data`
      returns (a raising fetch behaves like a falsy one), the outcome of the two
      `insert_raw_data` statements, the model's reply (`None` when it gives none), the outcome
      of `update_stock_answer`'s statements, and the clock. */
  datatype StockInputs = StockInputs(
    tickerData: Value, marketData: Value,
    tickerStore: Attempt, marketStore: Attempt,
    analysis: Option<string>,
    answerStore: UpdateAttempt,
    now: int, today: int)

  /** Both fetched values are truthy. */
  predicate Fetched(inp: StockInputs) {
    Truthy(inp.tickerData) && Truthy(inp.marketData)
  }

  /** `insert_raw_data` succeeds for this value. */
  predicate Stores(data: Value, attempt: Attempt, convert: Value -> Option<Value>) {
    attempt.connected && convert(data).Some? && attempt.executeOk
  }

  /** Both raw inserts succeed, which is when the analysis is requested. */
  predicate RawStored(inp: StockInputs, convert: Value -> Option<Value>) {
    Fetched(inp) && Stores(inp.tickerData, inp.tickerStore, convert) && Stores(inp.marketData, inp.marketStore, convert)
  }

  /** The text handed to `update_stock_answer`: the reply, or the fallback text when the reply
      is missing or empty, stripped of surrounding whitespace. */
  function AnswerText(symbol: string, analysis: Option<string>): (r: string)
    ensures analysis.Some? && analysis.value != "" ==> r == Strip(analysis.value)
    ensures analysis.None? || analysis.value == "" ==> r == FallbackText(symbol)
  {
    var text := if analysis.Some? && analysis.value != "" then analysis.value else FallbackText(symbol);
    FallbackStoredAsIs(symbol);
    Strip(text)
  }

  /** The fallback text has no surrounding whitespace, so stripping keeps it whole. */
  lemma FallbackStoredAsIs(symbol: string)
    ensures Strip(FallbackText(symbol)) == FallbackText(symbol)
  {
    var s := FallbackText(symbol);
    assert s[0] == 'A';
    assert s[|s| - 1] == 'y';
    assert LeadingSpaces(s) == 0;
    var r := Strip(s);
    assert |r| == |s|;
  }

  /** Whether `process_single_stock` returns `True` for these inputs. */
  predicate Succeeds(inp: StockInputs, convert: Value -> Option<Value>) {
    RawStored(inp, convert) && inp.answerStore.connected && inp.answerStore.insertOk
  }

  /** The raw rows `process_single_stock` appends once both values are fetched: the ticker
      row, then the market row, each only when its insert succeeds. */
  function RawAppended(rows: seq<RawRow>, symbol: string, inp: StockInputs, convert: Value -> Option<Value>)
    : (r: seq<RawRow>)
    ensures |rows| <= |r| <= |rows| + 2 && r[..|rows|] == rows
    ensures forall k :: |rows| <= k < |r| ==> r[k].symbol == symbol && r[k].timestamp == inp.now
    ensures RawStored(inp, convert) ==> |r| == |rows| + 2 && r[|rows|].kind == "ticker" && r[|rows| + 1].kind == "market"
    ensures |r| == |rows| + (if Stores(inp.tickerData, inp.tickerStore, convert) then 1 else 0)
                          + (if Stores(inp.marketData, inp.marketStore, convert) then 1 else 0)
    ensures Stores(inp.tickerData, inp.tickerStore, convert) ==>
              r[|rows|] == RawRow(symbol, "ticker", convert(inp.tickerData).value, inp.now)
    ensures Stores(inp.marketData, inp.marketStore, convert) ==>
              r[|r| - 1] == RawRow(symbol, "market", convert(inp.marketData).value, inp.now)
  {
    rows
      + (if Stores(inp.tickerData, inp.tickerStore, convert)
         then [RawRow(symbol, "ticker", convert(inp.tickerData).value, inp.now)] else [])
      + (if Stores(inp.marketData, inp.marketStore, convert)
         then [RawRow(symbol, "market", convert(inp.marketData).value, inp.now)] else [])
  }

  /** Each raw insert that succeeds is what `get_latest_raw_data` then reads back for its
      kind, provided no stored row of that symbol and kind is as new as `now`. */
  lemma RawAppendedThenRead(rows: seq<RawRow>, symbol: string, inp: StockInputs, convert: Value -> Option<Value>)
    requires forall x :: x in rows && x.symbol == symbol ==> x.timestamp < inp.now
    ensures Stores(inp.tickerData, inp.tickerStore, convert) ==>
              LatestRaw(RawAppended(rows, symbol, inp, convert), symbol, "ticker") == Some(convert(inp.tickerData).value)
    ensures Stores(inp.marketData, inp.marketStore, convert) ==>
              LatestRaw(RawAppended(rows, symbol, inp, convert), symbol, "market") == Some(convert(inp.marketData).value)
  {
    var tickerRows := if Stores(inp.tickerData, inp.tickerStore, convert)
                      then [RawRow(symbol, "ticker", convert(inp.tickerData).value, inp.now)] else [];
    var mid := rows + tickerRows;
    if Stores(inp.tickerData, inp.tickerStore, convert) {
      AppendThenRead(rows, symbol, "ticker", convert(inp.tickerData).value, inp.now);
      if Stores(inp.marketData, inp.marketStore, convert) {
        AppendOtherKeepsRead(mid, symbol, "ticker", RawRow(symbol, "market", convert(inp.marketData).value, inp.now));
      }
    }
    if Stores(inp.marketData, inp.marketStore, convert) {
      forall x | x in mid && x.symbol == symbol && x.kind == "market"
        ensures x.timestamp < inp.now
      {
        assert x in rows;
      }
      AppendThenRead(mid, symbol, "market", convert(inp.marketData).value, inp.now);
    }
  }

  /** `process_single_stock(symbol)`. Nothing is stored unless both fetched values are truthy;
      then both raw inserts are made, the ticker first; the analysis is requested
      (`analysed`) only when both succeeded, and only then is the answer stored. The result
      is the result of `update_stock_answer`. */
  method ProcessSingleStock(symbol: string, inp: StockInputs, convert: Value -> Option<Value>,
                            raw: RawFilesTable, answers: AnswersTable)
    returns (ok: bool, analysed: bool)
    modifies raw, answers
    ensures ok == Succeeds(inp, convert)
    ensures analysed == RawStored(inp, convert)
    ensures !Fetched(inp) ==> raw.rows == old(raw.rows)
    ensures Fetched(inp) ==> raw.rows == RawAppended(old(raw.rows), symbol, inp, convert)
    ensures !(RawStored(inp, convert) && inp.answerStore.connected) ==> answers.rows == old(answers.rows)
    ensures RawStored(inp, convert) && inp.answerStore.connected ==>
              answers.rows == Updated(old(answers.rows), symbol, AnswerText(symbol, inp.analysis),
                                      inp.answerStore.deleteOk, inp.answerStore.insertOk, inp.now, inp.today)
  {
    analysed := false;
    if !Truthy(inp.tickerData) || !Truthy(inp.marketData) {
      return false, analysed;
    }
    var tickerOk := raw.InsertRawData(symbol, "ticker", inp.tickerData, convert, inp.tickerStore, inp.now);
    var marketOk := raw.InsertRawData(symbol, "market", inp.marketData, convert, inp.marketStore, inp.now);
    if !tickerOk || !marketOk {
      return false, analysed;
    }
    analysed := true;
    var analysis := inp.analysis;
    if analysis.None? || analysis.value == "" {
      analysis := Some(FallbackText(symbol));
    }
    var cleaned := Strip(analysis.value);
    ok := answers.UpdateStockAnswer(symbol, cleaned, inp.answerStore, inp.now, inp.today);
  }

  // ---------------------------------------------------------------------------
  // main
  // ---------------------------------------------------------------------------

  /** The closing line of the summary. */
  datatype Summary = AllSucceeded | PartialSuccess | NoneSucceeded

  function SummaryOf(successful: nat, total: nat): Summary {
    if successful == total then AllSucceeded
    else if successful > 0 then PartialSuccess
    else NoneSucceeded
  }

  /** The run: aborted (`sys.exit(1)`) when the connection test fails, otherwise the tally,
      the number of pauses and the summary. */
  datatype RunResult =
    | Aborted
    | Completed(successful: nat, failed: seq<string>, pauses: nat, summary: Summary)

  /** How many entries are true. */
  function CountTrue(s: seq<bool>): (r: nat)
    ensures r == multiset(s)[true]
    ensures r <= |s|
    ensures r == |s| <==> forall i :: 0 <= i < |s| ==> s[i]
    decreases |s|
  {
    if s == [] then 0
    else
      assert s == s[..|s| - 1] + [s[|s| - 1]];
      CountTrue(s[..|s| - 1]) + (if s[|s| - 1] then 1 else 0)
  }

  /** The symbols whose outcome is false, in input order. */
  function FailedSymbols(symbols: seq<string>, outcomes: seq<bool>): (r: seq<string>)
    requires |outcomes| == |symbols|
    ensures |r| == multiset(outcomes)[false]
    ensures |r| <= |symbols|
    ensures forall x :: x in r ==> x in symbols
    decreases |symbols|
  {
    if symbols == [] then []
    else
      var n := |symbols| - 1;
      assert outcomes == outcomes[..n] + [outcomes[n]];
      FailedSymbols(symbols[..n], outcomes[..n]) + (if outcomes[n] then [] else [symbols[n]])
  }

  /** A symbol is listed exactly when one of its outcomes is false. */
  lemma {:induction false} FailedSymbolsExactly(symbols: seq<string>, outcomes: seq<bool>)
    requires |outcomes| == |symbols|
    ensures forall i :: 0 <= i < |symbols| && !outcomes[i] ==> symbols[i] in FailedSymbols(symbols, outcomes)
    ensures forall x :: x in FailedSymbols(symbols, outcomes) ==>
              exists i :: 0 <= i < |symbols| && !outcomes[i] && symbols[i] == x
    decreases |symbols|
  {
    if symbols != [] {
      var n := |symbols| - 1;
      var init := FailedSymbols(symbols[..n], outcomes[..n]);
      var r := FailedSymbols(symbols, outcomes);
      FailedSymbolsExactly(symbols[..n], outcomes[..n]);
      assert r == init + (if outcomes[n] then [] else [symbols[n]]);
      forall i | 0 <= i < |symbols| && !outcomes[i]
        ensures symbols[i] in r
      {
        if i < n {
          assert symbols[..n][i] == symbols[i] && outcomes[..n][i] == outcomes[i];
        }
      }
      forall x | x in r
        ensures exists i :: 0 <= i < |symbols| && !outcomes[i] && symbols[i] == x
      {
        if x in init {
          var i :| 0 <= i < n && !outcomes[..n][i] && symbols[..n][i] == x;
          assert outcomes[i] == outcomes[..n][i] && symbols[i] == symbols[..n][i];
        } else {
          assert !outcomes[n] && symbols[n] == x;
        }
      }
    }
  }

  /** `r[j]` is the symbol at position `idx[j]`, whose outcome is false, and the positions
      strictly increase: `r` lists those symbols in input order. */
  predicate FailurePositions(symbols: seq<string>, outcomes: seq<bool>, r: seq<string>, idx: seq<int>) {
    && |idx| == |r|
    && (forall j, k :: 0 <= j < k < |idx| ==> idx[j] < idx[k])
    && (forall j :: 0 <= j < |idx| ==>
          0 <= idx[j] < |symbols| && idx[j] < |outcomes| && !outcomes[idx[j]] && r[j] == symbols[idx[j]])
  }

  /** The positions found in a prefix, plus the next one when it failed, fit the whole list. */
  lemma FailurePositionsGrow(symbols: seq<string>, outcomes: seq<bool>, r: seq<string>, idx: seq<int>, n: nat)
    requires |outcomes| == |symbols| && n == |symbols| - 1
    requires FailurePositions(symbols[..n], outcomes[..n], r, idx)
    ensures FailurePositions(symbols, outcomes, r + (if outcomes[n] then [] else [symbols[n]]),
                             if outcomes[n] then idx else idx + [n])
  {
    forall j | 0 <= j < |idx|
      ensures !outcomes[idx[j]] && r[j] == symbols[idx[j]]
    {
      assert outcomes[..n][idx[j]] == outcomes[idx[j]];
      assert symbols[..n][idx[j]] == symbols[idx[j]];
    }
  }

  /** The failed symbols keep their input order. */
  lemma {:induction false} FailedSymbolsInOrder(symbols: seq<string>, outcomes: seq<bool>)
    requires |outcomes| == |symbols|
    ensures exists idx: seq<int> :: FailurePositions(symbols, outcomes, FailedSymbols(symbols, outcomes), idx)
    decreases |symbols|
  {
    if symbols == [] {
      assert FailurePositions(symbols, outcomes, FailedSymbols(symbols, outcomes), []);
    } else {
      var n := |symbols| - 1;
      var init := FailedSymbols(symbols[..n], outcomes[..n]);
      FailedSymbolsInOrder(symbols[..n], outcomes[..n]);
      var idx0 :| FailurePositions(symbols[..n], outcomes[..n], init, idx0);
      FailurePositionsGrow(symbols, outcomes, init, idx0, n);
      assert FailedSymbols(symbols, outcomes) == init + (if outcomes[n] then [] else [symbols[n]]);
      assert FailurePositions(symbols, outcomes, FailedSymbols(symbols, outcomes),
                              if outcomes[n] then idx0 else idx0 + [n]);
    }
  }

  /** One more symbol adds its outcome to the tally. */
  lemma TallyStep(symbols: seq<string>, outcomes: seq<bool>, i: nat)
    requires |outcomes| == |symbols| && i < |symbols|
    ensures CountTrue(outcomes[..i + 1]) == CountTrue(outcomes[..i]) + (if outcomes[i] then 1 else 0)
    ensures FailedSymbols(symbols[..i + 1], outcomes[..i + 1])
            == FailedSymbols(symbols[..i], outcomes[..i]) + (if outcomes[i] then [] else [symbols[i]])
  {
    assert symbols[..i + 1][..i] == symbols[..i];
    assert outcomes[..i + 1][..i] == outcomes[..i];
  }

  /** Every symbol is counted once: successes plus failures make the total. */
  lemma {:induction false} TallyAddsUp(symbols: seq<string>, outcomes: seq<bool>)
    requires |outcomes| == |symbols|
    ensures CountTrue(outcomes) + |FailedSymbols(symbols, outcomes)| == |symbols|
    decreases |symbols|
  {
    if symbols != [] {
      var n := |symbols| - 1;
      TallyAddsUp(symbols[..n], outcomes[..n]);
    }
  }

  /** The summary says all succeeded exactly when no symbol failed, and none succeeded
      exactly when every one of a non-empty list failed. */
  lemma SummaryMatchesFailures(symbols: seq<string>, outcomes: seq<bool>)
    requires |outcomes| == |symbols|
    ensures SummaryOf(CountTrue(outcomes), |symbols|) == AllSucceeded <==> FailedSymbols(symbols, outcomes) == []
    ensures SummaryOf(CountTrue(outcomes), |symbols|) == NoneSucceeded <==>
              symbols != [] && |FailedSymbols(symbols, outcomes)| == |symbols|
  {
    TallyAddsUp(symbols, outcomes);
  }

  /** The outcome of `process_single_stock` for each symbol. */
  function Outcomes(symbols: seq<string>, inputs: seq<StockInputs>, convert: Value -> Option<Value>)
    : (r: seq<bool>)
    requires |inputs| == |symbols|
    ensures |r| == |symbols|
    ensures forall i :: 0 <= i < |symbols| ==> r[i] == Succeeds(inputs[i], convert)
  {
    seq(|symbols|, i requires 0 <= i < |symbols| => Succeeds(inputs[i], convert))
  }

  /** `main()` over `STOCK_SYMBOLS`: aborts with no change when the connection test fails;
      otherwise processes every symbol in order, counting successes, listing failures in
      input order, and pausing between symbols but not after the last. */
  method RunDailyAnalysis(symbols: seq<string>, yfinanceOk: bool, huggingFaceOk: bool,
                          inputs: seq<StockInputs>, convert: Value -> Option<Value>,
                          raw: RawFilesTable, answers: AnswersTable)
    returns (run: RunResult)
    requires |inputs| == |symbols|
    modifies raw, answers
    ensures !TestConnections(yfinanceOk, huggingFaceOk) ==>
              run == Aborted && raw.rows == old(raw.rows) && answers.rows == old(answers.rows)
    ensures TestConnections(yfinanceOk, huggingFaceOk) ==>
              var outcomes := Outcomes(symbols, inputs, convert);
              run == Completed(CountTrue(outcomes), FailedSymbols(symbols, outcomes), Gaps(|symbols|),
                               SummaryOf(CountTrue(outcomes), |symbols|))
  {
    if !TestConnections(yfinanceOk, huggingFaceOk) {
      return Aborted;
    }
    ghost var outcomes := Outcomes(symbols, inputs, convert);
    var total := |symbols|;
    var successful := 0;
    var failed: seq<string> := [];
    var pauses := 0;
    var i := 0;
    while i < total
      invariant 0 <= i <= total
      invariant successful == CountTrue(outcomes[..i])
      invariant failed == FailedSymbols(symbols[..i], outcomes[..i])
      invariant pauses == Min(i, Gaps(total))
    {
      TallyStep(symbols, outcomes, i);
      var ok, _ := ProcessSingleStock(symbols[i], inputs[i], convert, raw, answers);
      assert ok == outcomes[i];
      if ok {
        successful := successful + 1;
      } else {
        failed := failed + [symbols[i]];
      }
      if i + 1 < total {
        pauses := pauses + 1;
      }
      i := i + 1;
    }
    assert symbols[..i] == symbols;
    assert outcomes[..i] == outcomes;
    run := Completed(successful, failed, pauses, SummaryOf(successful, total));
  }
}
