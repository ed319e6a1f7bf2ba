/** `database/questions_handler.py`: the `questions_templates` table, whose ids the database
    generates (`SERIAL`), and its one-time initialisation with the five default questions. */
module QuestionsHandler {
  import opened Base

  /** A row of `questions_templates`. */
  datatype QuestionRow = QuestionRow(id: int, questionText: string)

  /** The table together with the next value of its id sequence. */
  datatype QuestionsState = QuestionsState(rows: seq<QuestionRow>, nextId: int)

  /** Ids grow strictly along the table and stay below the next id to be handed out. */
  predicate IdsAscending(rows: seq<QuestionRow>) {
    forall i, j :: 0 <= i < j < |rows| ==> rows[i].id < rows[j].id
  }

  predicate ValidState(st: QuestionsState) {
    IdsAscending(st.rows) && forall i :: 0 <= i < |st.rows| ==> st.rows[i].id < st.nextId
  }

  /** The outcome of `insert_question`: `False` without a connection, `None` when the
      statement fails, otherwise the new id. */
  datatype InsertResult = NotConnected | Failed | Inserted(id: int)

  /** The table after one `insert_question`: a successful INSERT appends one row under the
      next id; anything else leaves the table as it was. */
  function InsertOne(st: QuestionsState, text: string, attempt: Attempt): (r: QuestionsState)
    ensures attempt.Takes() ==> |r.rows| == |st.rows| + 1 && r.rows[..|st.rows|] == st.rows
    ensures attempt.Takes() ==> r.rows[|st.rows|] == QuestionRow(st.nextId, text)
    ensures !attempt.Takes() ==> r == st
  {
    if attempt.Takes() then QuestionsState(st.rows + [QuestionRow(st.nextId, text)], st.nextId + 1) else st
  }

  /** An insert keeps the ids ascending, and the new id is larger than every stored one. */
  lemma InsertKeepsIdsAscending(st: QuestionsState, text: string, attempt: Attempt)
    requires ValidState(st)
    ensures ValidState(InsertOne(st, text, attempt))
  {
  }

  /** `insert_question` for each text in turn. */
  function InsertAll(st: QuestionsState, texts: seq<string>, attempts: seq<Attempt>): (r: QuestionsState)
    requires |attempts| == |texts|
    ensures r.nextId == st.nextId + CountTaken(attempts)
    ensures |r.rows| == |st.rows| + CountTaken(attempts)
    decreases |texts|
  {
    if texts == [] then st
    else
      var n := |texts| - 1;
      InsertOne(InsertAll(st, texts[..n], attempts[..n]), texts[n], attempts[n])
  }

  /** How many of the attempts go through. */
  function CountTaken(attempts: seq<Attempt>): nat
    decreases |attempts|
  {
    if attempts == [] then 0
    else CountTaken(attempts[..|attempts| - 1]) + (if attempts[|attempts| - 1].Takes() then 1 else 0)
  }

  /** Inserting several texts keeps the ids ascending and appends exactly one row per
      successful insert, after the rows already stored. */
  lemma {:induction false} InsertAllAppends(st: QuestionsState, texts: seq<string>, attempts: seq<Attempt>)
    requires |attempts| == |texts|
    requires ValidState(st)
    ensures ValidState(InsertAll(st, texts, attempts))
    ensures |InsertAll(st, texts, attempts).rows| == |st.rows| + CountTaken(attempts)
    ensures InsertAll(st, texts, attempts).rows[..|st.rows|] == st.rows
    decreases |texts|
  {
    if texts != [] {
      var n := |texts| - 1;
      InsertAllAppends(st, texts[..n], attempts[..n]);
      InsertKeepsIdsAscending(InsertAll(st, texts[..n], attempts[..n]), texts[n], attempts[n]);
    }
  }

  /** When every insert succeeds, the texts are stored in their order under consecutive ids. */
  lemma {:induction false} InsertAllInOrder(st: QuestionsState, texts: seq<string>, attempts: seq<Attempt>)
    requires |attempts| == |texts|
    requires forall k :: 0 <= k < |attempts| ==> attempts[k].Takes()
    ensures InsertAll(st, texts, attempts).nextId == st.nextId + |texts|
    ensures InsertAll(st, texts, attempts).rows ==
              st.rows + seq(|texts|, k requires 0 <= k < |texts| => QuestionRow(st.nextId + k, texts[k]))
    decreases |texts|
  {
    if texts != [] {
      var n := |texts| - 1;
      InsertAllInOrder(st, texts[..n], attempts[..n]);
    }
  }

  const DefaultQuestions: seq<string> := [
    "What is the current performance of this stock compared to its recent historical trend?",
    "Is this stock considered overvalued or undervalued based on current analyst targets and earnings data?",
    "What are the key financial strengths or weaknesses of this company based on its latest financial statements?",
    "What do recent insider and institutional activities suggest about confidence in this stock?",
    "How does the stock's volatility and risk profile compare to the broader market?"
  ]

  /** The state after `initialize_default_questions`: the defaults are inserted when
      `get_all_questions` returns `[]`, which happens on an empty table and also when the read
      fails; a table found non-empty is left alone. */
  function Initialized(st: QuestionsState, read: Attempt, attempts: seq<Attempt>): (r: QuestionsState)
    requires |attempts| == |DefaultQuestions|
    ensures read.Takes() && st.rows != [] ==> r == st
    ensures !(read.Takes() && st.rows != []) ==> |r.rows| == |st.rows| + CountTaken(attempts)
  {
    if read.Takes() && st.rows != [] then st else InsertAll(st, DefaultQuestions, attempts)
  }

  /** On an empty table whose inserts all succeed, the five defaults are stored in their
      listed order under consecutive ids. */
  lemma InitializeEmptyTable(st: QuestionsState, read: Attempt, attempts: seq<Attempt>)
    requires |attempts| == |DefaultQuestions|
    requires st.rows == []
    requires forall k :: 0 <= k < |attempts| ==> attempts[k].Takes()
    ensures |Initialized(st, read, attempts).rows| == |DefaultQuestions|
    ensures forall k :: 0 <= k < |DefaultQuestions| ==>
              Initialized(st, read, attempts).rows[k] == QuestionRow(st.nextId + k, DefaultQuestions[k])
  {
    InsertAllInOrder(st, DefaultQuestions, attempts);
  }

  /** Once a first initialisation has stored at least one question, a second one whose read
      succeeds changes nothing: initialising twice is initialising once. */
  lemma InitializeTwice(st: QuestionsState, read1: Attempt, attempts1: seq<Attempt>,
                        read2: Attempt, attempts2: seq<Attempt>)
    requires |attempts1| == |DefaultQuestions| && |attempts2| == |DefaultQuestions|
    requires st.rows != [] || CountTaken(attempts1) > 0
    requires read2.Takes()
    ensures Initialized(Initialized(st, read1, attempts1), read2, attempts2) == Initialized(st, read1, attempts1)
  {
  }

  /** The first row carrying `id`, if any. */
  function FindId(rows: seq<QuestionRow>, id: int): (r: Option<QuestionRow>)
    ensures r.None? <==> forall i :: 0 <= i < |rows| ==> rows[i].id != id
    ensures r.Some? ==> r.value in rows && r.value.id == id
    decreases |rows|
  {
    if rows == [] then None
    else if rows[0].id == id then Some(rows[0])
    else
      assert forall i :: 1 <= i < |rows| ==> rows[i] == rows[1..][i - 1];
      FindId(rows[1..], id)
  }

  /** The `questions_templates` table. */
  class QuestionsTable {
    var rows: seq<QuestionRow>
    var nextId: int

    function State(): QuestionsState
      reads this
    {
      QuestionsState(rows, nextId)
    }

    predicate Valid()
      reads this
    {
      ValidState(State())
    }

    /** A fresh table; `SERIAL` ids start at 1. */
    constructor ()
      ensures rows == [] && nextId == 1 && Valid()
    {
      rows := [];
      nextId := 1;
    }

    /** `insert_question(question_text)`: on success one row is appended under the next id,
        which is returned; on failure the table is unchanged. */
    method InsertQuestion(text: string, attempt: Attempt) returns (r: InsertResult)
      requires Valid()
      modifies this
      ensures Valid()
      ensures State() == InsertOne(old(State()), text, attempt)
      ensures !attempt.connected ==> r == NotConnected
      ensures attempt.connected && !attempt.executeOk ==> r == Failed
      ensures attempt.Takes() ==> r == Inserted(old(nextId))
    {
      if !attempt.connected {
        return NotConnected;
      }
      if !attempt.executeOk {
        return Failed;
      }
      InsertKeepsIdsAscending(State(), text, attempt);
      r := Inserted(nextId);
      rows := rows + [QuestionRow(nextId, text)];
      nextId := nextId + 1;
    }

    /** `get_all_questions`: the rows ordered by id, or `[]` without a connection or when the
        query fails. */
    function GetAllQuestions(attempt: Attempt): (r: seq<QuestionRow>)
      requires Valid()
      reads this
      ensures !attempt.Takes() ==> r == []
      ensures attempt.Takes() ==> multiset(r) == multiset(rows) && IdsAscending(r)
    {
      if attempt.Takes() then rows else []
    }

    /** `get_question_by_id`: the row with this id, or `None` without a connection, when the
        query fails or when no row has it. */
    function GetQuestionById(id: int, attempt: Attempt): (r: Option<QuestionRow>)
      reads this
      ensures !attempt.Takes() ==> r.None?
      ensures attempt.Takes() ==> (r.None? <==> forall i :: 0 <= i < |rows| ==> rows[i].id != id)
      ensures r.Some? ==> r.value in rows && r.value.id == id
    {
      if attempt.Takes() then FindId(rows, id) else None
    }

    /** `initialize_default_questions`: reads the table, inserts the five defaults one by one
        when the read gave `[]`, and returns `True` whatever the inserts did. */
    method InitializeDefaultQuestions(read: Attempt, attempts: seq<Attempt>) returns (ok: bool)
      requires Valid()
      requires |attempts| == |DefaultQuestions|
      modifies this
      ensures Valid()
      ensures ok
      ensures State() == Initialized(old(State()), read, attempts)
    {
      var questions := GetAllQuestions(read);
      if questions == [] {
        var k := 0;
        while k < |DefaultQuestions|
          invariant 0 <= k <= |DefaultQuestions|
          invariant Valid()
          invariant State() == InsertAll(old(State()), DefaultQuestions[..k], attempts[..k])
        {
          assert DefaultQuestions[..k + 1][..k] == DefaultQuestions[..k];
          assert attempts[..k + 1][..k] == attempts[..k];
          var _ := InsertQuestion(DefaultQuestions[k], attempts[k]);
          k := k + 1;
        }
        assert DefaultQuestions[..k] == DefaultQuestions;
        assert attempts[..k] == attempts;
      }
      return true;
    }
  }
}
