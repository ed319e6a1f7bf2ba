/** `data_extraction/fmp_fetcher.py`: projecting the Financial Modeling Prep replies onto a
    few fields, combining quote and history, and cutting the history down when the JSON
    text would be too long for the language model. */
module FmpFetcher {
  import opened Base
  import opened Json
  import opened Sequences

  // ---------------------------------------------------------------------------
  // Provider replies
  // ---------------------------------------------------------------------------

  /** What one `requests.get` produced: `Raised` when the call itself raised (timeout,
      connection error), otherwise the status code and the parsed body, where `None`
      stands for `response.json()` raising on a body that is not JSON. */
  datatype Reply = Raised | Response(status: int, body: Option<Value>)

  /** The fields of the quote endpoint that are kept. */
  const QuoteFields: seq<string> := [
    "symbol", "name", "price", "change", "changesPercentage", "dayLow", "dayHigh",
    "yearHigh", "yearLow", "marketCap", "volume", "avgVolume", "open", "previousClose",
    "eps", "pe", "exchange", "priceAvg50", "priceAvg200", "sharesOutstanding"
  ]

  /** The fields of each daily record of the historical endpoint that are kept. */
  const HistoryFields: seq<string> := [
    "date", "open", "high", "low", "close", "volume", "change", "changePercent"
  ]

  /** `{f: source.get(f) for f in fields}`: exactly the listed keys, each with the source's
      value or `None`. */
  function Project(source: Record, fields: seq<string>): (r: Record)
    ensures forall f :: f in r <==> f in fields
    ensures forall f :: f in fields && f in source ==> r[f] == source[f]
    ensures forall f :: f in fields && f !in source ==> r[f] == Null
  {
    map f | f in fields :: Get(source, f)
  }

  /** Nothing outside the allow-list reaches the projection: sources that agree on the listed
      fields have equal projections. */
  lemma ProjectIgnoresOtherFields(s1: Record, s2: Record, fields: seq<string>)
    requires forall f :: f in fields ==> Get(s1, f) == Get(s2, f)
    ensures Project(s1, fields) == Project(s2, fields)
  {
    var p1, p2 := Project(s1, fields), Project(s2, fields);
    assert p1.Keys == p2.Keys;
    forall f | f in p1
      ensures p1[f] == p2[f]
    {
      assert Get(s1, f) == Get(s2, f);
    }
  }

  // ---------------------------------------------------------------------------
  // fetch_fmp_quote
  // ---------------------------------------------------------------------------

  /** The quote: the first element of a non-empty JSON list returned with status 200,
      projected onto `QuoteFields`. Every other reply gives `None`: a status other than 200,
      an empty or falsy body, and the bodies on which the Python code raises and returns
      `None` from its handler (a dict, whose `[0]` fails; a string, whose first character
      has no `.get`; a number; a list whose first element is not a dict). */
  function FetchQuote(reply: Reply): (r: Option<Record>)
    ensures r.Some? <==>
              && reply.Response? && reply.status == 200
              && reply.body.Some? && reply.body.value.List?
              && |reply.body.value.items| > 0 && reply.body.value.items[0].Obj?
    ensures r.Some? ==> r.value == Project(reply.body.value.items[0].fields, QuoteFields)
  {
    match reply
    case Raised => None
    case Response(status, body) =>
      if status != 200 || body.None? then None
      else match body.value
        case List(items) =>
          if items != [] && items[0].Obj? then Some(Project(items[0].fields, QuoteFields)) else None
        case _ => None
  }

  /** A fetched quote has exactly the twenty allow-listed keys. */
  lemma QuoteHasListedKeys(reply: Reply)
    requires FetchQuote(reply).Some?
    ensures forall f :: f in FetchQuote(reply).value <==> f in QuoteFields
  {
  }

  // ---------------------------------------------------------------------------
  // fetch_fmp_historical
  // ---------------------------------------------------------------------------

  /** The value of `fetch_fmp_historical`: `{'symbol': ..., 'historical': [...]}`. */
  datatype History = History(symbol: Value, records: seq<Record>)

  /** The elements `for record in historical` visits, for the values whose iteration does
      not raise before the loop body: a list gives its items; an empty dict or an empty
      string gives none. A non-empty dict or string yields `str` keys or characters,
      whose `.get` raises, and `None`, numbers and booleans are not iterable. */
  function Iterated(v: Value): (r: Option<seq<Value>>)
    ensures v.List? ==> r == Some(v.items)
    ensures r.Some? && !v.List? ==> r.value == []
  {
    match v
    case List(items) => Some(items)
    case Obj(m) => if m == map[] then Some([]) else None
    case Str(s) => if s == "" then Some([]) else None
    case _ => None
  }

  /** Every record projected onto `HistoryFields`, or `None` as soon as one record is not a
      dict (its `.get` raises). */
  function ProjectRecords(items: seq<Value>): (r: Option<seq<Record>>)
    ensures r.Some? <==> forall i :: 0 <= i < |items| ==> items[i].Obj?
    ensures r.Some? ==> |r.value| == |items|
    ensures r.Some? ==> forall i :: 0 <= i < |items| ==> r.value[i] == Project(items[i].fields, HistoryFields)
    decreases |items|
  {
    if items == [] then Some([])
    else
      var init := ProjectRecords(items[..|items| - 1]);
      var last := items[|items| - 1];
      if init.None? || !last.Obj? then None
      else Some(init.value + [Project(last.fields, HistoryFields)])
  }

  /** The history a reply yields: status 200, a dict body with a `historical` entry whose
      elements are all dicts. The records keep their number and order and each has exactly
      the listed keys; the `symbol` is the body's, or `None`. A list body holding the string
      `"historical"`, or a string body containing it, passes the test and then raises on
      indexing, so every body that is not a dict gives `None`. */
  function HistoryFromReply(reply: Reply): (r: Option<History>)
    ensures r.Some? ==> reply.Response? && reply.status == 200 && reply.body.Some? && reply.body.value.Obj?
    ensures r.Some? ==> "historical" in reply.body.value.fields
    ensures r.Some? ==>
              var m := reply.body.value.fields;
              && Iterated(m["historical"]).Some?
              && r.value.symbol == Get(m, "symbol")
              && Some(r.value.records) == ProjectRecords(Iterated(m["historical"]).value)
    ensures reply.Response? && reply.status == 200 && reply.body.Some? && reply.body.value.Obj? &&
            "historical" in reply.body.value.fields &&
            reply.body.value.fields["historical"].List? &&
            (forall i :: 0 <= i < |reply.body.value.fields["historical"].items| ==>
               reply.body.value.fields["historical"].items[i].Obj?)
            ==> r.Some?
  {
    match reply
    case Raised => None
    case Response(status, body) =>
      if status != 200 || body.None? || !body.value.Obj? then None
      else
        var m := body.value.fields;
        if "historical" !in m then None
        else match Iterated(m["historical"])
          case None => None
          case Some(items) =>
            match ProjectRecords(items)
            case None => None
            case Some(records) => Some(History(Get(m, "symbol"), records))
  }

  /** A fetched history has one record per element of the reply's list, in order, each with
      exactly the eight listed keys. */
  lemma HistoryRecordsHaveListedKeys(reply: Reply)
    requires HistoryFromReply(reply).Some?
    requires reply.body.value.fields["historical"].List?
    ensures |HistoryFromReply(reply).value.records| == |reply.body.value.fields["historical"].items|
    ensures forall i, f :: 0 <= i < |HistoryFromReply(reply).value.records| ==>
              (f in HistoryFromReply(reply).value.records[i] <==> f in HistoryFields)
  {
    var items := reply.body.value.fields["historical"].items;
    var records := HistoryFromReply(reply).value.records;
    assert Some(records) == ProjectRecords(items);
  }

  /** `fetch_fmp_historical` with its append loop over the records. */
  method FetchHistorical(reply: Reply) returns (h: Option<History>)
    ensures h == HistoryFromReply(reply)
  {
    if !reply.Response? || reply.status != 200 || reply.body.None? || !reply.body.value.Obj? {
      return None;
    }
    var m := reply.body.value.fields;
    if "historical" !in m {
      return None;
    }
    var elements := Iterated(m["historical"]);
    if elements.None? {
      return None;
    }
    var items := elements.value;
    var essential: seq<Record> := [];
    var i := 0;
    while i < |items|
      invariant 0 <= i <= |items|
      invariant ProjectRecords(items[..i]) == Some(essential)
    {
      assert items[..i + 1][..i] == items[..i];
      if !items[i].Obj? {
        assert ProjectRecords(items[..i + 1]).None?;
        assert items == items[..i + 1] + items[i + 1..];
        assert !items[i].Obj?;
        return None;
      }
      essential := essential + [Project(items[i].fields, HistoryFields)];
      i := i + 1;
    }
    assert items[..i] == items;
    h := Some(History(Get(m, "symbol"), essential));
  }

  // ---------------------------------------------------------------------------
  // fetch_fmp_stock_data and truncate_stock_data
  // ---------------------------------------------------------------------------

  /** `{'symbol': symbol, 'quote': quote_data, 'historical': historical_data}`. */
  datatype StockData = StockData(symbol: string, quote: Option<Record>, historical: Option<History>)

  /** The dict as `json.dumps` sees it (`None` becomes JSON `null`). */
  function HistoryValue(h: History): Value {
    Obj(map["symbol" := h.symbol,
            "historical" := List(seq(|h.records|, i requires 0 <= i < |h.records| => Obj(h.records[i])))])
  }

  function ToValue(d: StockData): Value {
    Obj(map["symbol" := Str(d.symbol),
            "quote" := (if d.quote.Some? then Obj(d.quote.value) else Null),
            "historical" := (if d.historical.Some? then HistoryValue(d.historical.value) else Null)])
  }

  /** The limits read from `DATA_LIMITS`: the size above which data is truncated, and the
      size above which truncation goes to its second stage. */
  datatype Limits = Limits(maxJsonSize: nat, truncateThreshold: nat)

  /** First stage of the truncation: at most the first five history records are kept. */
  function TrimHistory(d: StockData): (r: StockData)
    ensures r.symbol == d.symbol && r.quote == d.quote
    ensures d.historical.None? ==> r == d
    ensures d.historical.Some? ==>
              && r.historical.Some?
              && r.historical.value.symbol == d.historical.value.symbol
              && |r.historical.value.records| == Min(|d.historical.value.records|, 5)
              && r.historical.value.records == d.historical.value.records[..|r.historical.value.records|]
  {
    match d.historical
    case None => d
    case Some(h) =>
      if h.records == [] then d
      else d.(historical := Some(h.(records := Take(h.records, 5))))
  }

  /** Trimming an already trimmed history changes nothing. */
  lemma TrimHistoryIdempotent(d: StockData)
    ensures TrimHistory(TrimHistory(d)) == TrimHistory(d)
  {
  }

  /** `truncate_stock_data`. `size` stands for the length of `json.dumps` of its argument.
      Symbol and quote are never changed. Without history the data comes back as it is (on
      the second stage the Python code then raises on `None.get` and returns its input).
      Otherwise the records are cut to a prefix of at most five, and when the result is still
      longer than `threshold`, to a prefix of at most three under the top-level symbol. */
  function TruncateStockData(d: StockData, size: Value -> nat, threshold: nat): (r: StockData)
    ensures r.symbol == d.symbol && r.quote == d.quote
    ensures d.historical.None? ==> r == d
    ensures d.historical.Some? ==>
              var before := d.historical.value.records;
              && r.historical.Some?
              && |r.historical.value.records| <= Min(|before|, 5)
              && r.historical.value.records == before[..|r.historical.value.records|]
    ensures d.historical.Some? && size(ToValue(TrimHistory(d))) <= threshold ==> r == TrimHistory(d)
    ensures d.historical.Some? && size(ToValue(TrimHistory(d))) > threshold ==>
              && |r.historical.value.records| == Min(|d.historical.value.records|, 3)
              && r.historical.value.symbol == Str(d.symbol)
  {
    var trimmed := TrimHistory(d);
    if size(ToValue(trimmed)) <= threshold || trimmed.historical.None? then trimmed
    else
      var kept := trimmed.historical.value.records;
      StockData(d.symbol, d.quote, Some(History(Str(d.symbol), Take(kept, 3))))
  }

  /** `fetch_fmp_stock_data` for one symbol, given the two replies: `None` exactly when both
      fetches fail; otherwise the requested symbol with what was fetched, truncated only
      when its JSON text is longer than `maxJsonSize`. */
  function FetchStockData(symbol: string, quoteReply: Reply, historyReply: Reply,
                          size: Value -> nat, limits: Limits): (r: Option<StockData>)
    ensures r.None? <==> FetchQuote(quoteReply).None? && HistoryFromReply(historyReply).None?
    ensures r.Some? ==> r.value.symbol == symbol && r.value.quote == FetchQuote(quoteReply)
    ensures r.Some? ==>
              var combined := StockData(symbol, FetchQuote(quoteReply), HistoryFromReply(historyReply));
              && (size(ToValue(combined)) <= limits.maxJsonSize ==> r.value == combined)
              && (size(ToValue(combined)) > limits.maxJsonSize ==>
                    r.value == TruncateStockData(combined, size, limits.truncateThreshold))
  {
    var quote := FetchQuote(quoteReply);
    var history := HistoryFromReply(historyReply);
    if quote.None? && history.None? then None
    else
      var combined := StockData(symbol, quote, history);
      if size(ToValue(combined)) > limits.maxJsonSize then
        Some(TruncateStockData(combined, size, limits.truncateThreshold))
      else
        Some(combined)
  }

  // ---------------------------------------------------------------------------
  // fetch_multiple_stocks
  // ---------------------------------------------------------------------------

  /** The two replies the provider gives for one symbol. */
  datatype SymbolReplies = SymbolReplies(quote: Reply, historical: Reply)

  /** The outcome of fetching each symbol in turn. */
  function FetchEach(symbols: seq<string>, replies: seq<SymbolReplies>, size: Value -> nat, limits: Limits)
    : (r: seq<Option<StockData>>)
    requires |replies| == |symbols|
    ensures |r| == |symbols|
    ensures forall i :: 0 <= i < |symbols| ==>
              r[i] == FetchStockData(symbols[i], replies[i].quote, replies[i].historical, size, limits)
  {
    seq(|symbols|, i requires 0 <= i < |symbols| =>
          FetchStockData(symbols[i], replies[i].quote, replies[i].historical, size, limits))
  }

  /** `fetch_multiple_stocks`: the successful fetches in input order, and how many times it
      waits (between stocks, never after the last one). */
  method FetchMultipleStocks(symbols: seq<string>, replies: seq<SymbolReplies>, size: Value -> nat, limits: Limits)
    returns (results: seq<StockData>, pauses: nat)
    requires |replies| == |symbols|
    ensures results == Somes(FetchEach(symbols, replies, size, limits))
    ensures |results| <= |symbols|
    ensures forall d :: d in results ==> d.symbol in symbols
    ensures pauses == Gaps(|symbols|)
  {
    ghost var all := FetchEach(symbols, replies, size, limits);
    results := [];
    pauses := 0;
    var i := 0;
    while i < |symbols|
      invariant 0 <= i <= |symbols|
      invariant results == Somes(all[..i])
      invariant pauses == Min(i, Gaps(|symbols|))
    {
      var data := FetchStockData(symbols[i], replies[i].quote, replies[i].historical, size, limits);
      assert data == all[i];
      SomesStep(all, i);
      if data.Some? {
        results := results + [data.value];
      }
      if i < |symbols| - 1 {
        pauses := pauses + 1;
      }
      i := i + 1;
    }
    assert all[..i] == all;
    FetchedSymbolsRequested(symbols, replies, size, limits);
  }

  /** Every fetched result carries one of the requested symbols. */
  lemma FetchedSymbolsRequested(symbols: seq<string>, replies: seq<SymbolReplies>, size: Value -> nat, limits: Limits)
    requires |replies| == |symbols|
    ensures forall d :: d in Somes(FetchEach(symbols, replies, size, limits)) ==> d.symbol in symbols
  {
    var all := FetchEach(symbols, replies, size, limits);
    forall d: StockData | d in Somes(all)
      ensures d.symbol in symbols
    {
      assert Some(d) in all;
      var k :| 0 <= k < |all| && all[k] == Some(d);
      assert d.symbol == symbols[k];
    }
  }

  /** When every symbol is fetched, the results line up with the symbols one to one. */
  lemma {:induction false} AllFetchedInOrder(symbols: seq<string>, replies: seq<SymbolReplies>,
                                             size: Value -> nat, limits: Limits)
    requires |replies| == |symbols|
    requires forall i :: 0 <= i < |symbols| ==> FetchEach(symbols, replies, size, limits)[i].Some?
    ensures |Somes(FetchEach(symbols, replies, size, limits))| == |symbols|
    ensures forall i :: 0 <= i < |symbols| ==> Somes(FetchEach(symbols, replies, size, limits))[i].symbol == symbols[i]
  {
    var all := FetchEach(symbols, replies, size, limits);
    SomesAllPresent(all);
  }
}
