# easyfin daily stock analysis, modelled in Dafny

This project models the core of easyfin's daily pipeline. That pipeline fetches market data for a fixed list of stock symbols and stores the raw data in PostgreSQL. It then asks a language model for a structured analysis and stores the answer.

The model covers five parts:

- **Financial Modeling Prep fetcher** (`FmpFetcher`):
  - quote and history replies projected onto allow-listed fields;
  - quote and history combined into one record;
  - two-stage size truncation;
  - a batch loop that keeps the successful fetches.
- **Prompt and response text helpers** (`PromptProcessor`, on top of `PyStr`, which models Python's `strip`, `replace`, `lower` and `in`).
- **Storage handlers**, one class per table, whose fields are the table's rows:
  - `StocksHandler`: a COALESCE upsert;
  - `AnswersHandler`: an answer that replaces the same day's answer;
  - `RawDataHandler`: an append-only raw data log;
  - `QuestionsHandler`: question templates with database-generated ids and a one-time initialisation.
- **Orchestrator** (`Pipeline`): the per-symbol control flow with its early returns, and the batch tally.
- **Shared support**:
  - `Base`: options, statement outcomes, `min`, slicing;
  - `Json`: Python values and truthiness;
  - `Sequences`: SQL `WHERE`, `ORDER BY` and `ORDER BY ... DESC LIMIT 1` over rows.

### Modelling choices

- **Python values** are `Json.Value`. An exception that a function catches itself becomes the value its `except` branch returns.
  - Example: `.get` on something that is not a dict.
  - Example: `'info' in x` on a list or string, followed by indexing with a string.
- **Database calls** are parameters. Each call gets an `Attempt`: did the connection open, and did the statement commit?
  - A statement that fails is rolled back, so the table is unchanged.
- **Clock readings** (`datetime.now()`, `NOW()`, `CURRENT_DATE`) are parameters.
  - Timestamps are integers counted in seconds.
  - `DATE(ts)` is `ts / 86400`.
- **JSON sizes** are a parameter `size`, standing for the length of `json.dumps`.
- **Data conversions** are also parameters:
  - `convert_data` followed by `json.dumps`;
  - `json.dumps(..., indent=2)` inside the prompt.
- **Other opaque inputs** are parameters too:
  - the prompt constant `ANALYSIS_PROMPT`;
  - the symbol list;
  - every collaborator's result.
- **The fetch limits** are parameters. `fmp_fetcher.py` imports `DATA_LIMITS` from `config.py`, but `config.py` does not define it.
- **`get_all_questions` returning `[]`** happens when the read fails as well as on an empty table. So `initialize_default_questions` inserts the defaults again after a failed read, even if the table already holds questions. The model keeps this behaviour: see `Initialized`.
- **`truncate_stock_data` with no history** returns its input unchanged. The second stage would raise on `None.get`, and the function's handler returns the input.

## Model

| member | source | states |
|---|---|---|
| Base.Take | data_extraction/fmp_fetcher.py:142 | `s[:n]` is the prefix of length `min(len(s), n)` |
| Sequences.LeTotal | database/stocks_handler.py:67 | any two symbols are comparable, so `ORDER BY symbol` is defined |
| Sequences.SortBy | database/stocks_handler.py:67 | `ORDER BY key` returns a permutation of the rows, sorted by the key |
| Sequences.SortByMembers | database/answers_handler.py:95 | ordering neither adds nor drops a row |
| Sequences.Where | database/answers_handler.py:91-96 | `WHERE` keeps exactly the rows that satisfy the condition, and never returns more rows |
| Sequences.WhereCount | database/answers_handler.py:23-27 | each row that passes keeps its multiplicity; a row that fails is gone |
| Sequences.WhereKeepsCounts | database/answers_handler.py:23-27 | the multiplicity of every passing row is kept |
| Sequences.WhereNone | database/answers_handler.py:23-27 | when no row passes, the result is empty |
| Sequences.WhereIdempotent | database/answers_handler.py:116-119 | running the same `DELETE ... WHERE` twice removes nothing more the second time |
| Sequences.WhereAllKept | database/raw_data_handler.py:132-135 | when every row passes, the table is unchanged |
| Sequences.LatestIndex | database/answers_handler.py:62-67 | `ORDER BY ts DESC LIMIT 1` finds a wanted row whose stamp is greatest, and finds none exactly when no row is wanted |
| Sequences.Somes | data_extraction/fmp_fetcher.py:195-197 | keeps exactly the present results, and never more than there were inputs |
| Sequences.SomesAllPresent | data_extraction/fmp_fetcher.py:190-204 | when every result is present, nothing is dropped and the order is kept |
| Sequences.SomesStep | data_extraction/fmp_fetcher.py:195-197 | one more result adds its value at the end exactly when it is present |
| PyStr.LeadingSpaces | llm_analysis/prompt_processor.py:95 | counts the whitespace prefix: all spaces before it, none right after it |
| PyStr.TrailingSpaces | llm_analysis/prompt_processor.py:95 | counts the whitespace suffix in the same way |
| PyStr.Strip | llm_analysis/prompt_processor.py:95 | `strip()` returns the slice with only whitespace outside it, and it neither starts nor ends with whitespace |
| PyStr.ReplaceAll | llm_analysis/prompt_processor.py:98-101 | `replace` with a replacement no longer than the pattern never lengthens the text |
| PyStr.ReplaceAbsent | llm_analysis/prompt_processor.py:98-101 | `replace` of a pattern that does not occur returns the text unchanged |
| PyStr.ContainsSlice | llm_analysis/prompt_processor.py:95-98 | a substring of a slice is a substring of the whole |
| PyStr.ContainsAppend | llm_analysis/prompt_processor.py:164-166 | a substring stays found when text is appended |
| PyStr.Lower | llm_analysis/prompt_processor.py:162 | `lower()` keeps the length and lower-cases each position |
| PyStr.LowerAppend | llm_analysis/prompt_processor.py:162 | lower-casing commutes with concatenation |
| PromptProcessor.CreateAnalysisPrompt | llm_analysis/prompt_processor.py:9-46 | `None` exactly when serialisation fails; otherwise the prompt holds a newline, the instructions verbatim, the symbol and the JSON text, each at the position the preceding lengths fix |
| PromptProcessor.PromptDeterminesParts | llm_analysis/prompt_processor.py:33-41 | equal prompts built from same-length instructions and symbols have equal instructions, symbols and data text |
| PromptProcessor.CleanResponse | llm_analysis/prompt_processor.py:80-103 | `""` for `None` or `""`; the result never contains a fence and is never longer than the input; for input with no fence and no triple newline the result is the stripped input |
| PromptProcessor.StripKeepsAbsent | llm_analysis/prompt_processor.py:95 | stripping cannot create an occurrence |
| PromptProcessor.AbsentAfterPrefix | llm_analysis/prompt_processor.py:98-101 | no occurrence in the tail and none starting in the prefix means none at all |
| PromptProcessor.FenceRemovalKeepsOpening | llm_analysis/prompt_processor.py:98 | removing fences never makes text start with two backticks when it did not already |
| PromptProcessor.FenceRemovalLeavesNoFence | llm_analysis/prompt_processor.py:98 | the result of `replace('```', '')` contains no fence |
| PromptProcessor.NewlineCollapseKeepsHead | llm_analysis/prompt_processor.py:101 | collapsing newlines keeps the first character, and keeps the second one after a backtick |
| PromptProcessor.NewlineCollapseKeepsFenceFree | llm_analysis/prompt_processor.py:101 | `replace('\n\n\n', '\n\n')` cannot create a fence |
| PromptProcessor.AllPresent | llm_analysis/prompt_processor.py:164-168 | the loop returns true exactly when every lower-cased element occurs |
| PromptProcessor.ValidateAnalysisResponse | llm_analysis/prompt_processor.py:132-171 | false for an empty or missing reply; otherwise true exactly when all 12 markers occur, ignoring case |
| PromptProcessor.ValidationMonotone | llm_analysis/prompt_processor.py:164-168 | appending text to a valid reply keeps it valid |
| PromptProcessor.FirstName | llm_analysis/prompt_processor.py:122-125 | on a dict `info`, never raises; it finds a name exactly when some field is present and truthy, and it returns the first such field. On a list or a string it never finds a name, and raises exactly when some field name is an element or a substring; on any other value the first `in` raises |
| PromptProcessor.ExtractCompanyName | llm_analysis/prompt_processor.py:108-130 | the first truthy field among longName, shortName, companyName and name of a dict `info`; otherwise `ticker_data['symbol']` or `'Unknown'`. For a list or string `info`: `'Unknown'` when some field name is an element or substring (indexing raises), otherwise the symbol or `'Unknown'`; for any other `info`, and for data that is not a dict, `'Unknown'` |
| FmpFetcher.Project | data_extraction/fmp_fetcher.py:19-40 | exactly the listed keys, each holding the source value or `None` |
| FmpFetcher.ProjectIgnoresOtherFields | data_extraction/fmp_fetcher.py:19-40 | sources that agree on the listed fields have equal projections, so no other field passes through |
| FmpFetcher.FetchQuote | data_extraction/fmp_fetcher.py:6-51 | a quote exactly when the status is 200 and the body is a non-empty list whose first element is a dict; it is that element projected onto the 20 fields |
| FmpFetcher.QuoteHasListedKeys | data_extraction/fmp_fetcher.py:18-41 | a fetched quote has exactly the 20 allow-listed keys |
| FmpFetcher.Iterated | data_extraction/fmp_fetcher.py:71 | a list iterates over its items; the other iterable values allowed here give no elements |
| FmpFetcher.ProjectRecords | data_extraction/fmp_fetcher.py:70-82 | present exactly when every record is a dict; then the count and order are kept, and each record is projected |
| FmpFetcher.HistoryFromReply | data_extraction/fmp_fetcher.py:53-97 | a history only for status 200 and a dict body with `historical`; records as projected, and the body's symbol; present whenever `historical` is a list of dicts |
| FmpFetcher.HistoryRecordsHaveListedKeys | data_extraction/fmp_fetcher.py:66-87 | one record per element of the reply's list, each with exactly the 8 listed keys |
| FmpFetcher.FetchHistorical | data_extraction/fmp_fetcher.py:53-97 | the append loop computes `HistoryFromReply` |
| FmpFetcher.TrimHistory | data_extraction/fmp_fetcher.py:140-143 | stage one keeps symbol and quote, and cuts the records to a prefix of length `min(n, 5)`; with no history, nothing changes |
| FmpFetcher.TrimHistoryIdempotent | data_extraction/fmp_fetcher.py:140-143 | trimming twice is trimming once |
| FmpFetcher.TruncateStockData | data_extraction/fmp_fetcher.py:136-163 | symbol and quote never change; with no history the input is returned; otherwise the records are a prefix of length at most 5; when stage one is still over the threshold, the prefix has length `min(n, 3)` under the top-level symbol |
| FmpFetcher.FetchStockData | data_extraction/fmp_fetcher.py:99-134 | `None` exactly when both fetches fail; otherwise the requested symbol with what was fetched, truncated only when the size exceeds `max_json_size` |
| FmpFetcher.FetchEach | data_extraction/fmp_fetcher.py:192-197 | one fetch result per symbol, in order |
| FmpFetcher.FetchMultipleStocks | data_extraction/fmp_fetcher.py:188-204 | the successful fetches in input order, no more than the symbols, each carrying a requested symbol; `n - 1` pauses and none after the last |
| FmpFetcher.FetchedSymbolsRequested | data_extraction/fmp_fetcher.py:195-197 | every kept result carries one of the requested symbols |
| FmpFetcher.AllFetchedInOrder | data_extraction/fmp_fetcher.py:188-204 | when every symbol's fetch returns data (from its quote, its history or both), result `i` is symbol `i` |
| StocksHandler.Merge | database/stocks_handler.py:14-26 | each supplied column takes the new value; each `NULL` one keeps the stored value |
| StocksHandler.MergeIdempotent | database/stocks_handler.py:14-26 | merging the same values twice is merging them once |
| StocksHandler.MergeNothing | database/stocks_handler.py:3-4 | an update with every argument `None` changes no column |
| StocksHandler.Upsert | database/stocks_handler.py:10-38 | for a stored symbol, only its rows change, each merged; for a new symbol, exactly one row with the given values is appended |
| StocksHandler.UpsertIdempotent | database/stocks_handler.py:10-38 | repeating an upsert with the same arguments gives the same table |
| StocksHandler.UpsertKeepsSymbolsUnique | database/stocks_handler.py:10-38 | the upsert keeps the symbol a key |
| StocksHandler.UpsertKeepsSymbols | database/stocks_handler.py:25 | the upsert changes no stored row's symbol |
| StocksHandler.Lookup | database/stocks_handler.py:50-55 | the first row with the symbol; `None` exactly when there is none |
| StocksHandler.LookupUnique | database/stocks_handler.py:50-55 | with unique symbols, the row found is the symbol's row |
| StocksHandler.LookupOnlyRow | database/stocks_handler.py:50-55 | with unique symbols, every row carrying the symbol is the row found |
| StocksHandler.UpsertThenLookup | database/stocks_handler.py:10-55 | after the upsert, the symbol reads back merged, or as given when it is new |
| StocksHandler.UpsertLeavesOthers | database/stocks_handler.py:25 | after the upsert, every other symbol reads back as before |
| StocksHandler.StocksTable.InsertOrUpdateStock | database/stocks_handler.py:3-42 | `False` and no change without a connection or when the statement fails; otherwise `True` and the table after `Upsert`; keeps symbols unique |
| StocksHandler.StocksTable.GetStockInfo | database/stocks_handler.py:44-59 | on a table keyed by symbol: the one row carrying the symbol, present exactly when the symbol is stored and the read succeeds; `None` without a connection or on failure |
| StocksHandler.StocksTable.GetAllStocks | database/stocks_handler.py:61-74 | all rows sorted by symbol, or `[]` on failure |
| StocksHandler.ExtractStockInfoFromFmp | database/stocks_handler.py:76-102 | `{}` unless there is a non-empty quote dict; otherwise exactly eight keys, with name and exchange from the quote and the rest `None`; never a `region` key |
| AnswersHandler.DeleteTodays | database/answers_handler.py:22-29 | deletes only the symbol's rows dated today; every other row keeps its multiplicity |
| AnswersHandler.Updated | database/answers_handler.py:22-42 | after the DELETE (when it committed) and the INSERT (when it committed), a row is present exactly when it was stored and not the symbol's row of today, or it is the new row; with neither committed the table is unchanged |
| AnswersHandler.OneAnswerPerDay | database/answers_handler.py:22-42 | after both statements succeed, the symbol has exactly one row for today, holding the new text |
| AnswersHandler.UpdateKeepsOtherRows | database/answers_handler.py:22-29 | other symbols' rows, and this symbol's rows from other days, survive |
| AnswersHandler.LatestAnswer | database/answers_handler.py:62-74 | the text of a row of the symbol with the greatest `updated_at`; `None` exactly when the symbol has no row |
| AnswersHandler.UpdateThenRead | database/answers_handler.py:22-74 | reading back after a successful update gives the stored text, when no row of the symbol is newer |
| AnswersHandler.Retained | database/answers_handler.py:116-119 | keeps exactly the rows at or after the cutoff |
| AnswersHandler.RetainedExactly | database/answers_handler.py:116-124 | removes exactly the rows older than the cutoff and keeps the multiplicity of the others; a second cleanup changes nothing |
| AnswersHandler.AnswersTable.UpdateStockAnswer | database/answers_handler.py:8-45 | `False` and no change without a connection; otherwise deletes the symbol's rows for today when the DELETE succeeds, appends the row when the INSERT succeeds, and returns the INSERT's outcome |
| AnswersHandler.AnswersTable.GetStockAnswer | database/answers_handler.py:47-77 | `LatestAnswer`, or `None` without a connection or on failure |
| AnswersHandler.AnswersTable.GetAllLatestAnswers | database/answers_handler.py:79-102 | today's rows with their multiplicities, sorted by symbol, or `[]` without a connection or on failure |
| AnswersHandler.AnswersTable.CleanupOldAnswers | database/answers_handler.py:104-127 | `True` and the `Retained` rows when the DELETE succeeds; otherwise `False` and no change |
| QuestionsHandler.InsertOne | database/questions_handler.py:9-21 | a successful insert appends exactly one row under the next id and keeps the rows before it; a failed one changes nothing |
| QuestionsHandler.InsertKeepsIdsAscending | database/questions_handler.py:9-17 | ids stay strictly ascending and below the next id |
| QuestionsHandler.InsertAll | database/questions_handler.py:69-70 | the insert loop advances the id sequence and adds one row per successful insert |
| QuestionsHandler.InsertAllAppends | database/questions_handler.py:69-70 | the insert loop keeps ids ascending and appends one row per successful insert after the existing rows |
| QuestionsHandler.InsertAllInOrder | database/questions_handler.py:69-70 | when every insert succeeds, the texts are stored in order under consecutive ids |
| QuestionsHandler.Initialized | database/questions_handler.py:58-74 | a table read as non-empty is left alone; otherwise one row is added per successful insert of a default question |
| QuestionsHandler.InitializeEmptyTable | database/questions_handler.py:60-70 | on an empty table with successful inserts, the five defaults are stored in their listed order |
| QuestionsHandler.InitializeTwice | database/questions_handler.py:58-74 | once the table holds a question (already, or stored by a first initialisation), a second initialisation whose read succeeds changes nothing |
| QuestionsHandler.FindId | database/questions_handler.py:46-51 | a row with that id, or `None` exactly when there is none |
| QuestionsHandler.QuestionsTable.InsertQuestion | database/questions_handler.py:3-24 | `False` without a connection, `None` on failure, otherwise the new id; the table after `InsertOne` |
| QuestionsHandler.QuestionsTable.GetAllQuestions | database/questions_handler.py:26-38 | all rows in ascending id order, or `[]` on failure |
| QuestionsHandler.QuestionsTable.GetQuestionById | database/questions_handler.py:40-54 | the row with that id, or `None` |
| QuestionsHandler.QuestionsTable.InitializeDefaultQuestions | database/questions_handler.py:56-77 | always `True`; the table after `Initialized`, with ids still ascending |
| RawDataHandler.LatestRaw | database/raw_data_handler.py:103-115 | the data of a newest row for the symbol and kind; `None` exactly when there is none |
| RawDataHandler.AppendThenRead | database/raw_data_handler.py:59-113 | right after an insert with the newest timestamp, reading back gives the stored data |
| RawDataHandler.AppendOtherKeepsRead | database/raw_data_handler.py:103-108 | inserting a row for another symbol or kind does not change what is read |
| RawDataHandler.RetainedRaw | database/raw_data_handler.py:132-135 | keeps exactly the rows at or after the cutoff |
| RawDataHandler.RetainedRawExactly | database/raw_data_handler.py:132-140 | removes exactly the rows older than the cutoff; nothing changes when none is older |
| RawDataHandler.RawFilesTable.InsertRawData | database/raw_data_handler.py:9-85 | `True` exactly when the connection, the conversion and the INSERT succeed; then exactly one row is appended, otherwise no change |
| RawDataHandler.RawFilesTable.GetLatestRawData | database/raw_data_handler.py:87-118 | `LatestRaw`, or `None` without a connection or on failure |
| RawDataHandler.RawFilesTable.CleanupOldRawData | database/raw_data_handler.py:120-143 | `True` and the `RetainedRaw` rows when the DELETE succeeds; otherwise `False` and no change |
| Pipeline.TestConnections | main.py:31-49 | `False` exactly when the yfinance test fails; a Hugging Face failure still gives `True` |
| Pipeline.AnswerText | main.py:85-95 | the stripped reply, or the fallback text when the reply is missing or empty |
| Pipeline.FallbackStoredAsIs | main.py:90-95 | stripping leaves the fallback text whole |
| Pipeline.RawAppended | main.py:75-80 | both raw inserts are attempted, ticker first: the stored rows stay a prefix, one row follows per successful insert, the ticker row `(symbol, "ticker", converted ticker data, now)` right after them and the market row `(symbol, "market", converted market data, now)` last, also when the ticker insert failed |
| Pipeline.RawAppendedThenRead | main.py:75-76 | after the two raw inserts, each kind whose insert succeeded reads back (`get_latest_raw_data`) as its converted data, when no stored row of the symbol is as new |
| Pipeline.ProcessSingleStock | main.py:51-109 | no store when a fetched value is falsy; otherwise both raw inserts are attempted, ticker first, each storing its converted data when it succeeds (`RawAppended`); analysis and answer storage only when both succeeded; returns the result of `update_stock_answer` |
| Pipeline.FailedSymbols | main.py:136-141 | as many symbols as there are false outcomes, each one of the inputs |
| Pipeline.FailedSymbolsExactly | main.py:136-141 | a symbol is listed exactly when one of its outcomes is false |
| Pipeline.FailedSymbolsInOrder | main.py:133-141 | the failed symbols are listed in input order: the `j`-th sits at a strictly increasing position whose outcome is false |
| Pipeline.FailurePositionsGrow | main.py:139-140 | appending the next symbol when it failed extends the list of failure positions |
| Pipeline.TallyStep | main.py:136-140 | one more symbol adds one to the counter when it succeeded and appends it to the failures otherwise |
| Pipeline.CountTrue | main.py:136-138 | the success counter equals the number of true outcomes; it never exceeds the number of symbols, and equals it exactly when every outcome is true |
| Pipeline.SummaryOf | main.py:159-164 | definition, no contract: the closing line chosen from the success count; its meaning is stated by `SummaryMatchesFailures` |
| Pipeline.TallyAddsUp | main.py:126-141 | successes plus failures equal the number of symbols |
| Pipeline.SummaryMatchesFailures | main.py:159-164 | "all" exactly when nothing failed; "none" exactly when every symbol of a non-empty list failed |
| Pipeline.Outcomes | main.py:133-136 | one outcome per symbol, in order |
| Pipeline.RunDailyAnalysis | main.py:111-177 | aborts with no change when the connection test fails; otherwise the success count, the failures in order, `n - 1` pauses and the summary |

## Left out

- HTTP requests, `time.sleep` and `print` are not modelled.
  - Provider replies are `Reply` values.
  - Pauses are counted instead of slept.
- `json.dumps`, `json.loads`, `convert_data` and the `default=str` serialisation are parameters (`size`, `serialize`, `convert`), because their output depends on Python's number and object formatting.
  - The raw data column is taken to hold the converted value, so `json.loads(json.dumps(x))` is treated as `x`.
- `test_fmp_connection` and the `__main__` blocks are not modelled. They are diagnostics that only print.
- `analyze_stock` is not modelled. It is a network call through the Hugging Face client, and `main.py` does not use it.
- The yfinance, Hugging Face, Groq and OpenAI clients are not modelled. Their results are inputs to `Pipeline`.
- `db_connection.py` is not modelled: no connections, cursors, commit or rollback. A per-call `Attempt` stands in for it.
- Concurrency between runs is not modelled.
- Pipeline.ProcessSingleStock: an exception from `fetch_all_stock_data` is treated like a falsy fetch; both return `False` before any store.
- Pipeline.ProcessSingleStock: the discarded `clean_response(analysis)` call is not modelled. Its result is overwritten on the next line.
- Pipeline.ProcessSingleStock: one clock reading `now` is used for all three inserts of a symbol.
- Pipeline.RunDailyAnalysis: the tables after the whole batch are not stated. Each symbol's table effect is stated by `ProcessSingleStock`.
- Pipeline.RunDailyAnalysis: `KeyboardInterrupt` is not modelled.
- StocksHandler.StocksTable.InsertOrUpdateStock: a failed existence `SELECT` (`fetch_all` returning `[]`) is not modelled. The check is taken to succeed whenever the connection does. The table schema, which would decide the fate of the resulting INSERT, is not part of this model.
- Sequences.SortBy: sorting is by code point, not by the database's collation.
- Sequences.LatestIndex: among rows with equal timestamps it picks the later one. SQL leaves that choice open, so the contracts of `LatestAnswer` and `LatestRaw` state only that the chosen row's timestamp is greatest.
- PyStr.Lower: only ASCII letters are lower-cased. Python's full Unicode case mapping is not modelled.
- QuestionsHandler.QuestionsTable.InsertQuestion: a failed INSERT that still consumes a value of the id sequence is not modelled. Ids are only stated to be fresh and ascending.
- FmpFetcher.TruncateStockData: the mutation of the caller's dict in place is modelled as a returned value. The caller always rebinds its variable to the result, so nothing else observes the dict.
- PromptProcessor.CleanResponse: a truthy non-string reply, which makes `strip` raise and is returned as is, is not modelled. The reply is a string or `None`.
- The defaults of `cleanup_old_answers` (30 days) and `cleanup_old_raw_data` (7 days) are not separate members. They are values of the `daysToKeep` parameter.
