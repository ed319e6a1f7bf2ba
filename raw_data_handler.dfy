/** `database/raw_data_handler.py`: the `raw_files` table, an append-only log of the data
    fetched for each stock, read back newest first and pruned by age. */
module RawDataHandler {
  import opened Base
  import opened Json
  import opened Sequences

  /** A row of `raw_files`: symbol, kind of data (`'ticker'` or `'market'`), the stored data
      and the time it was stored. */
  datatype RawRow = RawRow(symbol: string, kind: string, rawData: Value, timestamp: int)

  /** The data of the newest row for (`symbol`, `kind`), or `None` when there is none
      (`ORDER BY timestamp DESC LIMIT 1`). */
  function LatestRaw(rows: seq<RawRow>, symbol: string, kind: string): (r: Option<Value>)
    ensures r.None? <==> forall j :: 0 <= j < |rows| ==> !(rows[j].symbol == symbol && rows[j].kind == kind)
    ensures r.Some? ==>
              exists i :: 0 <= i < |rows| && rows[i].symbol == symbol && rows[i].kind == kind &&
                          rows[i].rawData == r.value &&
                          forall j :: 0 <= j < |rows| && rows[j].symbol == symbol && rows[j].kind == kind ==>
                            rows[j].timestamp <= rows[i].timestamp
  {
    match LatestIndex(rows, (x: RawRow) => x.symbol == symbol && x.kind == kind, (x: RawRow) => x.timestamp)
    case None => None
    case Some(i) => Some(rows[i].rawData)
  }

  /** Round trip: right after a row is appended with a timestamp later than every stored row
      of the same symbol and kind, reading back gives the data just stored. */
  lemma AppendThenRead(rows: seq<RawRow>, symbol: string, kind: string, data: Value, now: int)
    requires forall x :: x in rows && x.symbol == symbol && x.kind == kind ==> x.timestamp < now
    ensures LatestRaw(rows + [RawRow(symbol, kind, data, now)], symbol, kind) == Some(data)
  {
    var all := rows + [RawRow(symbol, kind, data, now)];
    var i :| LatestIndex(all, (x: RawRow) => x.symbol == symbol && x.kind == kind, (x: RawRow) => x.timestamp) == Some(i);
    assert all[|all| - 1].timestamp == now;
    assert all[i].timestamp >= now;
    assert i == |rows|;
  }

  /** Appending a row of another symbol or kind does not change what is read back. */
  lemma AppendOtherKeepsRead(rows: seq<RawRow>, symbol: string, kind: string, row: RawRow)
    requires !(row.symbol == symbol && row.kind == kind)
    ensures LatestRaw(rows + [row], symbol, kind) == LatestRaw(rows, symbol, kind)
  {
    assert (rows + [row])[..|rows|] == rows;
  }

  /** `DELETE FROM raw_files WHERE timestamp < NOW() - INTERVAL 'n days'`. */
  function RetainedRaw(rows: seq<RawRow>, now: int, daysToKeep: int): (r: seq<RawRow>)
    ensures forall x :: x in r <==> x in rows && x.timestamp >= now - daysToKeep * SecondsPerDay
  {
    Where(rows, (x: RawRow) => x.timestamp >= now - daysToKeep * SecondsPerDay)
  }

  /** The cleanup removes exactly the rows older than the cutoff: every newer row keeps its
      multiplicity, and with no row older than the cutoff the table is unchanged. */
  lemma RetainedRawExactly(rows: seq<RawRow>, now: int, daysToKeep: int, x: RawRow)
    ensures x.timestamp >= now - daysToKeep * SecondsPerDay ==>
              multiset(RetainedRaw(rows, now, daysToKeep))[x] == multiset(rows)[x]
    ensures x.timestamp < now - daysToKeep * SecondsPerDay ==> multiset(RetainedRaw(rows, now, daysToKeep))[x] == 0
    ensures (forall y :: y in rows ==> y.timestamp >= now - daysToKeep * SecondsPerDay) ==>
              RetainedRaw(rows, now, daysToKeep) == rows
  {
    var keep := (y: RawRow) => y.timestamp >= now - daysToKeep * SecondsPerDay;
    WhereCount(rows, keep, x);
    if forall y :: y in rows ==> keep(y) {
      WhereAllKept(rows, keep);
    }
  }

  /** The `raw_files` table. */
  class RawFilesTable {
    var rows: seq<RawRow>

    constructor ()
      ensures rows == []
    {
      rows := [];
    }

    /** `insert_raw_data(symbol, data_type, raw_data)` at time `now`. `convert` stands for
        `convert_data` followed by `json.dumps`, with `None` where either raises. `True`
        exactly when the connection, the conversion and the INSERT all succeed; then one row
        with the converted data is appended, otherwise nothing changes. */
    method InsertRawData(symbol: string, dataType: string, rawData: Value,
                         convert: Value -> Option<Value>, attempt: Attempt, now: int) returns (ok: bool)
      modifies this
      ensures ok == (attempt.connected && convert(rawData).Some? && attempt.executeOk)
      ensures ok ==> rows == old(rows) + [RawRow(symbol, dataType, convert(rawData).value, now)]
      ensures !ok ==> rows == old(rows)
    {
      if !attempt.connected {
        return false;
      }
      var converted := convert(rawData);
      if converted.None? {
        return false;
      }
      if !attempt.executeOk {
        return false;
      }
      rows := rows + [RawRow(symbol, dataType, converted.value, now)];
      return true;
    }

    /** `get_latest_raw_data(symbol, data_type)`: the newest stored data of that symbol and
        kind, or `None` without a connection, when the query fails or when there is none. */
    function GetLatestRawData(symbol: string, dataType: string, attempt: Attempt): (r: Option<Value>)
      reads this
      ensures !attempt.Takes() ==> r.None?
      ensures attempt.Takes() ==> r == LatestRaw(rows, symbol, dataType)
    {
      if attempt.Takes() then LatestRaw(rows, symbol, dataType) else None
    }

    /** `cleanup_old_raw_data(days_to_keep)`: `True` and only the rows of the last
        `daysToKeep` days left when the DELETE succeeds; otherwise `False` and no change. */
    method CleanupOldRawData(daysToKeep: int, attempt: Attempt, now: int) returns (ok: bool)
      modifies this
      ensures ok == attempt.Takes()
      ensures rows == if ok then RetainedRaw(old(rows), now, daysToKeep) else old(rows)
    {
      if !attempt.Takes() {
        return false;
      }
      rows := RetainedRaw(rows, now, daysToKeep);
      return true;
    }
  }
}
