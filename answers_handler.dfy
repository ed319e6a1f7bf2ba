/** `database/answers_handler.py`: the `answers` table, holding the analysis text of each
    stock, where a new analysis replaces the one stored the same day. */
module AnswersHandler {
  import opened Base
  import opened Sequences

  /** `DATE(ts)` for a timestamp counted in seconds. */
  function DayOf(ts: int): int {
    ts / SecondsPerDay
  }

  /** A row of `answers`. */
  datatype AnswerRow = AnswerRow(symbol: string, answerText: string, updatedAt: int)

  /** The row is `symbol`'s answer dated `today`. */
  predicate IsTodays(row: AnswerRow, symbol: string, today: int) {
    row.symbol == symbol && DayOf(row.updatedAt) == today
  }

  /** `DELETE FROM answers WHERE symbol = %s AND DATE(updated_at) = CURRENT_DATE`: only the
      symbol's rows dated today go; every other row stays, with its multiplicity. */
  function DeleteTodays(rows: seq<AnswerRow>, symbol: string, today: int): (r: seq<AnswerRow>)
    ensures forall x :: x in r <==> x in rows && !IsTodays(x, symbol, today)
    ensures forall x :: !IsTodays(x, symbol, today) ==> multiset(r)[x] == multiset(rows)[x]
  {
    var keep := (x: AnswerRow) => !IsTodays(x, symbol, today);
    WhereKeepsCounts(rows, keep);
    Where(rows, keep)
  }

  /** The table after `update_stock_answer` reached the database: today's row of the
      symbol deleted when the DELETE succeeded (its failure is ignored), then the new row
      appended when the INSERT succeeded. */
  function Updated(rows: seq<AnswerRow>, symbol: string, answerText: string,
                   deleteOk: bool, insertOk: bool, now: int, today: int): (r: seq<AnswerRow>)
    ensures forall x :: x in r <==>
              (x in rows && !(deleteOk && IsTodays(x, symbol, today))) ||
              (insertOk && x == AnswerRow(symbol, answerText, now))
    ensures !deleteOk && !insertOk ==> r == rows
  {
    (if deleteOk then DeleteTodays(rows, symbol, today) else rows)
      + (if insertOk then [AnswerRow(symbol, answerText, now)] else [])
  }

  /** After a successful replacement (both statements committed, `now` falling on `today`)
      the symbol has exactly one row dated today, holding the new text. */
  lemma {:induction false} OneAnswerPerDay(rows: seq<AnswerRow>, symbol: string, answerText: string,
                                           now: int, today: int)
    requires DayOf(now) == today
    ensures Where(Updated(rows, symbol, answerText, true, true, now, today),
                  (x: AnswerRow) => IsTodays(x, symbol, today))
            == [AnswerRow(symbol, answerText, now)]
  {
    var d := DeleteTodays(rows, symbol, today);
    var keep := (x: AnswerRow) => IsTodays(x, symbol, today);
    var all := d + [AnswerRow(symbol, answerText, now)];
    assert all[..|all| - 1] == d;
    WhereNone(d, keep);
  }

  /** Rows of other symbols, and the symbol's rows of other days, survive the update. */
  lemma UpdateKeepsOtherRows(rows: seq<AnswerRow>, symbol: string, answerText: string,
                             deleteOk: bool, insertOk: bool, now: int, today: int, x: AnswerRow)
    requires x in rows && !IsTodays(x, symbol, today)
    ensures x in Updated(rows, symbol, answerText, deleteOk, insertOk, now, today)
  {
  }

  /** The text of the symbol's row with the greatest `updated_at`, or `None` when the symbol
      has no row (`ORDER BY updated_at DESC LIMIT 1`). */
  function LatestAnswer(rows: seq<AnswerRow>, symbol: string): (r: Option<string>)
    ensures r.None? <==> forall j :: 0 <= j < |rows| ==> rows[j].symbol != symbol
    ensures r.Some? ==>
              exists i :: 0 <= i < |rows| && rows[i].symbol == symbol && rows[i].answerText == r.value &&
                          forall j :: 0 <= j < |rows| && rows[j].symbol == symbol ==> rows[j].updatedAt <= rows[i].updatedAt
  {
    match LatestIndex(rows, (x: AnswerRow) => x.symbol == symbol, (x: AnswerRow) => x.updatedAt)
    case None => None
    case Some(i) => Some(rows[i].answerText)
  }

  /** Reading back after a successful update yields the text just stored, provided no row of
      the symbol carries a later timestamp. */
  lemma UpdateThenRead(rows: seq<AnswerRow>, symbol: string, answerText: string, now: int, today: int)
    requires DayOf(now) == today
    requires forall x :: x in rows && x.symbol == symbol ==> x.updatedAt <= now
    ensures LatestAnswer(Updated(rows, symbol, answerText, true, true, now, today), symbol) == Some(answerText)
  {
    var d := DeleteTodays(rows, symbol, today);
    var added := AnswerRow(symbol, answerText, now);
    var all := d + [added];
    var i :| LatestIndex(all, (x: AnswerRow) => x.symbol == symbol, (x: AnswerRow) => x.updatedAt) == Some(i);
    assert all[|all| - 1] == added;
    assert all[i].updatedAt == now;
    assert IsTodays(all[i], symbol, today);
    assert all[i] !in d;
    assert i == |d|;
  }

  /** `DELETE FROM answers WHERE updated_at < NOW() - INTERVAL 'n days'`. */
  function Retained(rows: seq<AnswerRow>, now: int, daysToKeep: int): (r: seq<AnswerRow>)
    ensures forall x :: x in r <==> x in rows && x.updatedAt >= now - daysToKeep * SecondsPerDay
  {
    Where(rows, (x: AnswerRow) => x.updatedAt >= now - daysToKeep * SecondsPerDay)
  }

  /** The cleanup removes exactly the rows older than the cutoff: each newer row keeps its
      multiplicity, and cleaning twice is cleaning once. */
  lemma RetainedExactly(rows: seq<AnswerRow>, now: int, daysToKeep: int, x: AnswerRow)
    ensures x.updatedAt >= now - daysToKeep * SecondsPerDay ==>
              multiset(Retained(rows, now, daysToKeep))[x] == multiset(rows)[x]
    ensures x.updatedAt < now - daysToKeep * SecondsPerDay ==> multiset(Retained(rows, now, daysToKeep))[x] == 0
    ensures Retained(Retained(rows, now, daysToKeep), now, daysToKeep) == Retained(rows, now, daysToKeep)
  {
    var keep := (y: AnswerRow) => y.updatedAt >= now - daysToKeep * SecondsPerDay;
    WhereCount(rows, keep, x);
    WhereIdempotent(rows, keep);
  }

  /** What one `update_stock_answer` call meets: the connection, then the DELETE and the
      INSERT statements, each of which commits or rolls back. */
  datatype UpdateAttempt = UpdateAttempt(connected: bool, deleteOk: bool, insertOk: bool)

  /** The `answers` table. */
  class AnswersTable {
    var rows: seq<AnswerRow>

    constructor ()
      ensures rows == []
    {
      rows := [];
    }

    /** `update_stock_answer(symbol, answer_text)` at time `now` on day `today`: `False` and
        no change without a connection; otherwise the delete-then-insert of `Updated`, and the
        INSERT's outcome as result. */
    method UpdateStockAnswer(symbol: string, answerText: string, attempt: UpdateAttempt, now: int, today: int)
      returns (ok: bool)
      modifies this
      ensures ok == (attempt.connected && attempt.insertOk)
      ensures !attempt.connected ==> rows == old(rows)
      ensures attempt.connected ==>
                rows == Updated(old(rows), symbol, answerText, attempt.deleteOk, attempt.insertOk, now, today)
    {
      if !attempt.connected {
        return false;
      }
      if attempt.deleteOk {
        rows := DeleteTodays(rows, symbol, today);
      }
      if attempt.insertOk {
        rows := rows + [AnswerRow(symbol, answerText, now)];
        return true;
      } else {
        return false;
      }
    }

    /** `get_stock_answer`: the latest text of the symbol, or `None` without a connection,
        when the query fails or when the symbol has no answer. */
    function GetStockAnswer(symbol: string, attempt: Attempt): (r: Option<string>)
      reads this
      ensures !attempt.Takes() ==> r.None?
      ensures attempt.Takes() ==> r == LatestAnswer(rows, symbol)
    {
      if attempt.Takes() then LatestAnswer(rows, symbol) else None
    }

    /** `get_all_latest_answers`: the rows dated `today`, ordered by symbol, or `[]` without a
        connection or when the query fails. */
    function GetAllLatestAnswers(attempt: Attempt, today: int): (r: seq<AnswerRow>)
      reads this
      ensures !attempt.Takes() ==> r == []
      ensures attempt.Takes() ==> SortedBy(r, (x: AnswerRow) => x.symbol)
      ensures attempt.Takes() ==> forall x :: x in r <==> x in rows && DayOf(x.updatedAt) == today
      ensures attempt.Takes() ==> multiset(r) == multiset(Where(rows, (x: AnswerRow) => DayOf(x.updatedAt) == today))
    {
      if !attempt.Takes() then []
      else
        var todays := Where(rows, (x: AnswerRow) => DayOf(x.updatedAt) == today);
        var r := SortBy(todays, (x: AnswerRow) => x.symbol);
        SortByMembers(todays, (x: AnswerRow) => x.symbol);
        r
    }

    /** `cleanup_old_answers(days_to_keep)`: `False` and no change without a connection or
        when the DELETE fails; otherwise `True` and only the rows within the last
        `daysToKeep` days remain. */
    method CleanupOldAnswers(daysToKeep: int, attempt: Attempt, now: int) returns (ok: bool)
      modifies this
      ensures ok == attempt.Takes()
      ensures rows == if ok then Retained(old(rows), now, daysToKeep) else old(rows)
    {
      if !attempt.Takes() {
        return false;
      }
      rows := Retained(rows, now, daysToKeep);
      return true;
    }
  }
}
