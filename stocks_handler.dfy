/** `database/stocks_handler.py`: the `stocks` table, one row per ticker symbol, updated by a
    check-then-UPDATE/INSERT upsert whose UPDATE keeps every stored value the caller does not
    supply (`COALESCE(%s, column)`). */
module StocksHandler {
  import opened Base
  import opened Json
  import opened Sequences

  /** The nine descriptive columns of a stock; `None` is SQL `NULL`. */
  datatype StockFields = StockFields(
    name: Option<string>, country: Option<string>, sector: Option<string>, region: Option<string>,
    industry: Option<string>, exchange: Option<string>, currency: Option<string>,
    ipoYear: Option<int>, isin: Option<string>)

  /** A row of `stocks`. */
  datatype StockRow = StockRow(symbol: string, info: StockFields)

  /** Every column `NULL`: the defaults of `insert_or_update_stock`'s keyword arguments. */
  const NoFields := StockFields(None, None, None, None, None, None, None, None, None)

  /** The eight text columns, in table order. */
  function TextColumns(f: StockFields): (r: seq<Option<string>>)
    ensures |r| == 8
  {
    [f.name, f.country, f.sector, f.region, f.industry, f.exchange, f.currency, f.isin]
  }

  /** `COALESCE(given, current)`. */
  function Coalesce<T>(given: Option<T>, current: Option<T>): Option<T> {
    if given.Some? then given else current
  }

  /** The columns after `UPDATE stocks SET c = COALESCE(%s, c), ...`: every column the caller
      supplies takes the new value, every other column keeps the stored one. */
  function Merge(current: StockFields, given: StockFields): (r: StockFields)
    ensures forall k :: 0 <= k < 8 && TextColumns(given)[k].Some? ==> TextColumns(r)[k] == TextColumns(given)[k]
    ensures forall k :: 0 <= k < 8 && TextColumns(given)[k].None? ==> TextColumns(r)[k] == TextColumns(current)[k]
    ensures given.ipoYear.Some? ==> r.ipoYear == given.ipoYear
    ensures given.ipoYear.None? ==> r.ipoYear == current.ipoYear
  {
    StockFields(
      Coalesce(given.name, current.name), Coalesce(given.country, current.country),
      Coalesce(given.sector, current.sector), Coalesce(given.region, current.region),
      Coalesce(given.industry, current.industry), Coalesce(given.exchange, current.exchange),
      Coalesce(given.currency, current.currency), Coalesce(given.ipoYear, current.ipoYear),
      Coalesce(given.isin, current.isin))
  }

  /** Merging the same values twice is merging them once. */
  lemma MergeIdempotent(current: StockFields, given: StockFields)
    ensures Merge(Merge(current, given), given) == Merge(current, given)
  {
  }

  /** Supplying no value leaves the row as it was. */
  lemma MergeNothing(current: StockFields)
    ensures Merge(current, NoFields) == current
  {
  }

  /** Some row of `rows` has this symbol (`SELECT symbol FROM stocks WHERE symbol = %s`). */
  predicate HasSymbol(rows: seq<StockRow>, symbol: string) {
    exists i :: 0 <= i < |rows| && rows[i].symbol == symbol
  }

  /** No two rows share a symbol. */
  predicate UniqueSymbols(rows: seq<StockRow>) {
    forall i, j :: 0 <= i < j < |rows| ==> rows[i].symbol != rows[j].symbol
  }

  /** The table after one successful `insert_or_update_stock`: when the symbol is stored,
      every row with it is merged with the new values and nothing else changes; otherwise one
      row with the given values is appended. */
  function Upsert(rows: seq<StockRow>, symbol: string, given: StockFields): (r: seq<StockRow>)
    ensures HasSymbol(rows, symbol) ==> |r| == |rows|
    ensures HasSymbol(rows, symbol) ==>
              forall j :: 0 <= j < |rows| && rows[j].symbol != symbol ==> r[j] == rows[j]
    ensures HasSymbol(rows, symbol) ==>
              forall j :: 0 <= j < |rows| && rows[j].symbol == symbol ==>
                r[j] == StockRow(symbol, Merge(rows[j].info, given))
    ensures !HasSymbol(rows, symbol) ==> r == rows + [StockRow(symbol, given)]
  {
    if HasSymbol(rows, symbol) then
      seq(|rows|, j requires 0 <= j < |rows| =>
            if rows[j].symbol == symbol then StockRow(symbol, Merge(rows[j].info, given)) else rows[j])
    else
      rows + [StockRow(symbol, given)]
  }

  /** Repeating the same upsert gives the same table as doing it once. */
  lemma UpsertIdempotent(rows: seq<StockRow>, symbol: string, given: StockFields)
    ensures Upsert(Upsert(rows, symbol, given), symbol, given) == Upsert(rows, symbol, given)
  {
    var once := Upsert(rows, symbol, given);
    assert HasSymbol(once, symbol) by {
      if !HasSymbol(rows, symbol) {
        assert once[|rows|].symbol == symbol;
      }
    }
    var twice := Upsert(once, symbol, given);
    forall j | 0 <= j < |once|
      ensures twice[j] == once[j]
    {
      if once[j].symbol == symbol {
        if j < |rows| && rows[j].symbol == symbol {
          MergeIdempotent(rows[j].info, given);
        } else {
          assert once[j] == StockRow(symbol, given);
          MergeIdempotent(given, given);
        }
      }
    }
  }

  /** The upsert keeps symbols unique. */
  lemma UpsertKeepsSymbolsUnique(rows: seq<StockRow>, symbol: string, given: StockFields)
    requires UniqueSymbols(rows)
    ensures UniqueSymbols(Upsert(rows, symbol, given))
  {
    var r := Upsert(rows, symbol, given);
    if HasSymbol(rows, symbol) {
      assert forall j :: 0 <= j < |rows| ==> r[j].symbol == rows[j].symbol;
    }
  }

  /** The first row with this symbol (`results[0]` of `SELECT * ... WHERE symbol = %s`). */
  function Lookup(rows: seq<StockRow>, symbol: string): (r: Option<StockRow>)
    ensures r.None? <==> !HasSymbol(rows, symbol)
    ensures r.Some? ==> exists i :: 0 <= i < |rows| && rows[i] == r.value && r.value.symbol == symbol &&
                                    forall j :: 0 <= j < i ==> rows[j].symbol != symbol
    decreases |rows|
  {
    if rows == [] then None
    else if rows[0].symbol == symbol then Some(rows[0])
    else
      var rest := Lookup(rows[1..], symbol);
      assert forall j :: 1 <= j < |rows| ==> rows[j] == rows[1..][j - 1];
      if rest.Some? then
        var i :| 0 <= i < |rows[1..]| && rows[1..][i] == rest.value && rest.value.symbol == symbol &&
                 forall j :: 0 <= j < i ==> rows[1..][j].symbol != symbol;
        assert rows[i + 1] == rest.value;
        rest
      else
        rest
  }

  /** The upsert keeps the symbol of every stored row in place. */
  lemma UpsertKeepsSymbols(rows: seq<StockRow>, symbol: string, given: StockFields)
    ensures |rows| <= |Upsert(rows, symbol, given)|
    ensures forall j :: 0 <= j < |rows| ==> Upsert(rows, symbol, given)[j].symbol == rows[j].symbol
  {
  }

  /** After an upsert the symbol's row holds the merged values, or the given ones for a new
      symbol. */
  lemma UpsertThenLookup(rows: seq<StockRow>, symbol: string, given: StockFields)
    requires UniqueSymbols(rows)
    ensures Lookup(Upsert(rows, symbol, given), symbol) ==
              Some(StockRow(symbol, if HasSymbol(rows, symbol) then Merge(Lookup(rows, symbol).value.info, given) else given))
  {
    var r := Upsert(rows, symbol, given);
    UpsertKeepsSymbolsUnique(rows, symbol, given);
    if HasSymbol(rows, symbol) {
      var i :| 0 <= i < |rows| && rows[i].symbol == symbol;
      LookupUnique(rows, symbol, i);
      LookupUnique(r, symbol, i);
    } else {
      LookupUnique(r, symbol, |rows|);
    }
  }

  /** An upsert of one symbol reads back every other symbol as before. */
  lemma UpsertLeavesOthers(rows: seq<StockRow>, symbol: string, given: StockFields, other: string)
    requires UniqueSymbols(rows)
    requires other != symbol
    ensures Lookup(Upsert(rows, symbol, given), other) == Lookup(rows, other)
  {
    var r := Upsert(rows, symbol, given);
    UpsertKeepsSymbolsUnique(rows, symbol, given);
    UpsertKeepsSymbols(rows, symbol, given);
    if HasSymbol(rows, other) {
      var k :| 0 <= k < |rows| && rows[k].symbol == other;
      LookupUnique(rows, other, k);
      LookupUnique(r, other, k);
    } else {
      assert !HasSymbol(r, other);
    }
  }

  /** With unique symbols, the row found is the one at the symbol's position. */
  lemma LookupUnique(rows: seq<StockRow>, symbol: string, i: int)
    requires UniqueSymbols(rows)
    requires 0 <= i < |rows| && rows[i].symbol == symbol
    ensures Lookup(rows, symbol) == Some(rows[i])
  {
  }

  /** With unique symbols, every row carrying the symbol is the row found. */
  lemma LookupOnlyRow(rows: seq<StockRow>, symbol: string)
    requires UniqueSymbols(rows)
    ensures forall x :: x in rows && x.symbol == symbol ==> Lookup(rows, symbol) == Some(x)
  {
    forall x | x in rows && x.symbol == symbol
      ensures Lookup(rows, symbol) == Some(x)
    {
      var i :| 0 <= i < |rows| && rows[i] == x;
      LookupUnique(rows, symbol, i);
    }
  }

  /** The `stocks` table. */
  class StocksTable {
    var rows: seq<StockRow>

    /** `symbol` is the key of the table. */
    predicate Valid()
      reads this
    {
      UniqueSymbols(rows)
    }

    constructor ()
      ensures rows == [] && Valid()
    {
      rows := [];
    }

    /** `insert_or_update_stock`: without a connection, or when the statement fails, `False`
        and no change; otherwise `True` and the table after `Upsert`. */
    method InsertOrUpdateStock(symbol: string, given: StockFields, attempt: Attempt) returns (ok: bool)
      requires Valid()
      modifies this
      ensures Valid()
      ensures ok == attempt.Takes()
      ensures rows == if ok then Upsert(old(rows), symbol, given) else old(rows)
    {
      if !attempt.connected {
        return false;
      }
      var existing := HasSymbol(rows, symbol);
      if existing {
        if attempt.executeOk {
          UpsertKeepsSymbolsUnique(rows, symbol, given);
          var current := rows;
          rows := seq(|current|, j requires 0 <= j < |current| =>
                        if current[j].symbol == symbol then StockRow(symbol, Merge(current[j].info, given)) else current[j]);
        }
        return attempt.executeOk;
      } else {
        if attempt.executeOk {
          UpsertKeepsSymbolsUnique(rows, symbol, given);
          rows := rows + [StockRow(symbol, given)];
        }
        return attempt.executeOk;
      }
    }

    /** `get_stock_info`: the symbol's row, or `None` without a connection, when the query
        fails or when the symbol is not stored. */
    function GetStockInfo(symbol: string, attempt: Attempt): (r: Option<StockRow>)
      requires Valid()
      reads this
      ensures !attempt.Takes() ==> r.None?
      ensures attempt.Takes() ==> (r.Some? <==> HasSymbol(rows, symbol))
      ensures r.Some? ==> r.value in rows && r.value.symbol == symbol
      ensures r.Some? ==> forall x :: x in rows && x.symbol == symbol ==> x == r.value
    {
      if !attempt.Takes() then None
      else
        LookupOnlyRow(rows, symbol);
        Lookup(rows, symbol)
    }

    /** `get_all_stocks`: every row ordered by symbol, or `[]` without a connection or when the
        query fails. */
    function GetAllStocks(attempt: Attempt): (r: seq<StockRow>)
      reads this
      ensures !attempt.Takes() ==> r == []
      ensures attempt.Takes() ==> SortedBy(r, (row: StockRow) => row.symbol) && multiset(r) == multiset(rows)
    {
      if !attempt.Takes() then [] else SortBy(rows, (row: StockRow) => row.symbol)
    }
  }

  // ---------------------------------------------------------------------------
  // extract_stock_info_from_fmp
  // ---------------------------------------------------------------------------

  const ExtractedKeys: set<string> :=
    {"name", "country", "sector", "industry", "exchange", "currency", "ipo_year", "isin"}

  /** The stock columns the provider's data supplies: `name` and `exchange` from a non-empty
      `quote` dict, the six other keys `None`, and no `region` key. Empty, falsy or
      quote-less data gives `{}`, and so does every shape on which the Python code raises
      (a list or string with `'quote'` in it, a number, a quote that is not a dict). */
  function ExtractStockInfoFromFmp(fmpData: Value): (r: Record)
    ensures r != map[] <==>
              && fmpData.Obj? && "quote" in fmpData.fields
              && fmpData.fields["quote"].Obj? && fmpData.fields["quote"].fields != map[]
    ensures r != map[] ==>
              var quote := fmpData.fields["quote"].fields;
              && r.Keys == ExtractedKeys
              && r["name"] == Get(quote, "name") && r["exchange"] == Get(quote, "exchange")
              && r["country"] == r["sector"] == r["industry"] == r["currency"] == r["ipo_year"] == r["isin"] == Null
    ensures "region" !in r
  {
    match fmpData
    case Obj(d) =>
      if d == map[] || "quote" !in d then map[]
      else
        (match d["quote"]
         case Obj(quote) =>
           if quote == map[] then map[]
           else map["name" := Get(quote, "name"), "country" := Null, "sector" := Null,
                    "industry" := Null, "exchange" := Get(quote, "exchange"), "currency" := Null,
                    "ipo_year" := Null, "isin" := Null]
         case _ => map[])
    case _ => map[]
  }
}
