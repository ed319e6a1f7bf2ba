/** The text helpers of `llm_analysis/prompt_processor.py`: building the analysis prompt,
    cleaning and validating the model's reply, and finding a company name. */
module PromptProcessor {
  import opened Base
  import opened Json
  import opened PyStr

  // ---------------------------------------------------------------------------
  // create_analysis_prompt
  // ---------------------------------------------------------------------------

  const DataIntro: string := "\n\nHere is the JSON data for stock "
  const DataLead: string := ":\n\n"
  const Closing: string := "\n\nPlease analyze this stock data and provide the structured response as specified above.\n"

  /** The object `{'symbol': ..., 'ticker_data': ..., 'market_data': ...}` that is serialised into the prompt. */
  function CombinedData(symbol: string, tickerData: Value, marketData: Value): Value {
    Obj(map["symbol" := Str(symbol), "ticker_data" := tickerData, "market_data" := marketData])
  }

  /** Where the symbol starts in a prompt built around `analysisPrompt`. */
  function SymbolStart(analysisPrompt: string): nat {
    1 + |analysisPrompt| + |DataIntro|
  }

  /** Where the serialised data starts. */
  function DataStart(analysisPrompt: string, symbol: string): nat {
    SymbolStart(analysisPrompt) + |symbol| + |DataLead|
  }

  /** The prompt sent to the model. `serialize` stands for `json.dumps(..., default=str, indent=2)`;
      it yields `None` where that call raises, and then no prompt is built. Otherwise the prompt
      holds the fixed instructions verbatim after one newline, then the symbol, then the data,
      each at a position fixed by the lengths of what precedes it. */
  function CreateAnalysisPrompt(analysisPrompt: string, symbol: string, tickerData: Value, marketData: Value,
                                serialize: Value -> Option<string>): (r: Option<string>)
    ensures r.None? <==> serialize(CombinedData(symbol, tickerData, marketData)).None?
    ensures r.Some? ==>
      var json := serialize(CombinedData(symbol, tickerData, marketData)).value;
      && |r.value| == DataStart(analysisPrompt, symbol) + |json| + |Closing|
      && r.value[0] == '\n'
      && OccursAt(r.value, analysisPrompt, 1)
      && OccursAt(r.value, symbol, SymbolStart(analysisPrompt))
      && OccursAt(r.value, json, DataStart(analysisPrompt, symbol))
  {
    match serialize(CombinedData(symbol, tickerData, marketData))
    case None => None
    case Some(json) =>
      var prompt := "\n" + analysisPrompt + DataIntro + symbol + DataLead + json + Closing;
      assert prompt[1..1 + |analysisPrompt|] == analysisPrompt;
      assert prompt[SymbolStart(analysisPrompt)..SymbolStart(analysisPrompt) + |symbol|] == symbol;
      assert prompt[DataStart(analysisPrompt, symbol)..DataStart(analysisPrompt, symbol) + |json|] == json;
      Some(prompt)
  }

  /** The prompt can be taken apart again: two prompts built from instructions of the same
      length are equal only when instructions, symbol and data are all equal. */
  lemma PromptDeterminesParts(p1: string, s1: string, t1: Value, m1: Value,
                              p2: string, s2: string, t2: Value, m2: Value,
                              serialize: Value -> Option<string>)
    requires |p1| == |p2| && |s1| == |s2|
    requires CreateAnalysisPrompt(p1, s1, t1, m1, serialize).Some?
    requires CreateAnalysisPrompt(p1, s1, t1, m1, serialize) == CreateAnalysisPrompt(p2, s2, t2, m2, serialize)
    ensures p1 == p2 && s1 == s2
    ensures serialize(CombinedData(s1, t1, m1)) == serialize(CombinedData(s2, t2, m2))
  {
    var r := CreateAnalysisPrompt(p1, s1, t1, m1, serialize).value;
    assert OccursAt(r, p1, 1) && OccursAt(r, p2, 1);
    assert OccursAt(r, s1, SymbolStart(p1)) && OccursAt(r, s2, SymbolStart(p2));
    var j1 := serialize(CombinedData(s1, t1, m1)).value;
    var j2 := serialize(CombinedData(s2, t2, m2)).value;
    assert |j1| == |j2|;
    assert OccursAt(r, j1, DataStart(p1, s1)) && OccursAt(r, j2, DataStart(p2, s2));
  }

  // ---------------------------------------------------------------------------
  // clean_response
  // ---------------------------------------------------------------------------

  const Fence: string := "```"
  const ThreeNewlines: string := "\n\n\n"
  const TwoNewlines: string := "\n\n"

  /** The model's reply, stripped, with every code fence removed and each run of three newlines
      (scanning left to right, once) shortened to two. `None` and `""` give `""`.
      The result never contains a code fence and is never longer than the reply; a reply
      without fences and without three newlines in a row comes back merely stripped. */
  function CleanResponse(response: Option<string>): (r: string)
    ensures response.None? || response.value == "" ==> r == ""
    ensures !Contains(r, Fence)
    ensures response.Some? ==> |r| <= |response.value|
    ensures response.Some? && !Contains(response.value, Fence) && !Contains(response.value, ThreeNewlines) ==>
              r == Strip(response.value)
  {
    if response.None? || response.value == "" then ""
    else
      var s := response.value;
      var stripped := Strip(s);
      var unfenced := ReplaceAll(stripped, Fence, "");
      var cleaned := ReplaceAll(unfenced, ThreeNewlines, TwoNewlines);
      FenceRemovalLeavesNoFence(stripped);
      NewlineCollapseKeepsFenceFree(unfenced);
      if !Contains(s, Fence) && !Contains(s, ThreeNewlines) then
        StripKeepsAbsent(s, Fence);
        StripKeepsAbsent(s, ThreeNewlines);
        ReplaceAbsent(stripped, Fence, "");
        ReplaceAbsent(stripped, ThreeNewlines, TwoNewlines);
        cleaned
      else
        cleaned
  }

  /** Stripping cannot create an occurrence of `pat`. */
  lemma StripKeepsAbsent(s: string, pat: string)
    requires !Contains(s, pat)
    ensures !Contains(Strip(s), pat)
  {
    var lo := LeadingSpaces(s);
    if Contains(Strip(s), pat) {
      ContainsSlice(s, lo, lo + |Strip(s)|, pat);
    }
  }

  /** `s` opens with two backticks. */
  predicate OpensWithTwoTicks(s: string) {
    |s| >= 2 && s[0] == '`' && s[1] == '`'
  }

  /** No occurrence of `pat` in `x`, and none that starts inside the prefix `p`,
      means none in `p + x`. */
  lemma AbsentAfterPrefix(p: string, x: string, pat: string)
    requires !Contains(x, pat)
    requires forall i :: 0 <= i < |p| ==> !OccursAt(p + x, pat, i)
    ensures !Contains(p + x, pat)
  {
    if Contains(p + x, pat) {
      var i :| 0 <= i <= |p + x| - |pat| && OccursAt(p + x, pat, i);
      assert i >= |p|;
      assert (p + x)[i..i + |pat|] == x[i - |p|..i - |p| + |pat|];
      assert OccursAt(x, pat, i - |p|);
      assert false;
    }
  }

  /** Removing fences never makes a reply open with two backticks that did not. */
  lemma {:induction false} FenceRemovalKeepsOpening(s: string)
    requires !OpensWithTwoTicks(s)
    ensures !OpensWithTwoTicks(ReplaceAll(s, Fence, ""))
  {
    if |s| >= 3 {
      assert s[..3] != Fence;
      var tail := s[1..];
      if |tail| >= 3 && s[0] == '`' {
        assert tail[..3] != Fence;
      }
    }
  }

  /** `replace('```', '')` leaves no fence behind: a run of backticks loses whole triples from its
      start, so fewer than three remain, followed by a character that is not a backtick. */
  lemma {:induction false} FenceRemovalLeavesNoFence(s: string)
    ensures !Contains(ReplaceAll(s, Fence, ""), Fence)
    decreases |s|
  {
    if |s| >= 3 {
      if s[..3] == Fence {
        FenceRemovalLeavesNoFence(s[3..]);
        assert ReplaceAll(s, Fence, "") == ReplaceAll(s[3..], Fence, "");
      } else {
        var x := ReplaceAll(s[1..], Fence, "");
        FenceRemovalLeavesNoFence(s[1..]);
        if s[0] == '`' {
          FenceRemovalKeepsOpening(s[1..]);
        }
        assert !OccursAt([s[0]] + x, Fence, 0);
        AbsentAfterPrefix([s[0]], x, Fence);
      }
    }
  }

  /** Collapsing newline runs keeps the first character, and the second one after a backtick. */
  lemma {:induction false} NewlineCollapseKeepsHead(u: string)
    ensures u != [] ==>
              ReplaceAll(u, ThreeNewlines, TwoNewlines) != [] && ReplaceAll(u, ThreeNewlines, TwoNewlines)[0] == u[0]
    ensures |u| >= 2 && u[0] == '`' ==>
              |ReplaceAll(u, ThreeNewlines, TwoNewlines)| >= 2 && ReplaceAll(u, ThreeNewlines, TwoNewlines)[1] == u[1]
  {
    if |u| >= 3 && u[0] == '`' {
      assert u[..3] != ThreeNewlines;
      NewlineCollapseKeepsHead(u[1..]);
    }
  }

  /** `replace('\n\n\n', '\n\n')` cannot create a fence. */
  lemma {:induction false} NewlineCollapseKeepsFenceFree(t: string)
    requires !Contains(t, Fence)
    ensures !Contains(ReplaceAll(t, ThreeNewlines, TwoNewlines), Fence)
    decreases |t|
  {
    if |t| >= 3 {
      if t[..3] == ThreeNewlines {
        assert t[3..] == t[3..|t|];
        if Contains(t[3..], Fence) { ContainsSlice(t, 3, |t|, Fence); }
        NewlineCollapseKeepsFenceFree(t[3..]);
        var x := ReplaceAll(t[3..], ThreeNewlines, TwoNewlines);
        forall i | 0 <= i < |TwoNewlines|
          ensures !OccursAt(TwoNewlines + x, Fence, i)
        {
          if OccursAt(TwoNewlines + x, Fence, i) { OccursAtChar(TwoNewlines + x, Fence, i, 0); }
        }
        AbsentAfterPrefix(TwoNewlines, x, Fence);
      } else {
        assert t[1..] == t[1..|t|];
        if Contains(t[1..], Fence) { ContainsSlice(t, 1, |t|, Fence); }
        NewlineCollapseKeepsFenceFree(t[1..]);
        var x := ReplaceAll(t[1..], ThreeNewlines, TwoNewlines);
        var y := [t[0]] + x;
        NewlineCollapseKeepsHead(t[1..]);
        assert !OccursAt(t, Fence, 0);
        assert t[0..3] == [t[0], t[1], t[2]];
        if t[0] != '`' {
          assert y[0..3][0] != Fence[0];
        } else if t[1] != '`' {
          assert y[0..3][1] != Fence[1];
        } else {
          assert t[2] != '`';
          assert y[0..3][2] != Fence[2];
        }
        assert !OccursAt(y, Fence, 0);
        AbsentAfterPrefix([t[0]], x, Fence);
      }
    }
  }

  // ---------------------------------------------------------------------------
  // validate_analysis_response
  // ---------------------------------------------------------------------------

  const RequiredElements: seq<string> := [
    "Stock Name:", "Stock Symbol:",
    "Question 1:", "Answer 1:", "Question 2:", "Answer 2:", "Question 3:", "Answer 3:",
    "Question 4:", "Answer 4:", "Question 5:", "Answer 5:"
  ]

  /** The loop over `required_elements`: false at the first element missing from `lowered`. */
  function AllPresent(lowered: string, elements: seq<string>): (ok: bool)
    ensures ok <==> forall k :: 0 <= k < |elements| ==> Contains(lowered, Lower(elements[k]))
    decreases |elements|
  {
    if elements == [] then true
    else if !Contains(lowered, Lower(elements[0])) then false
    else
      var ok := AllPresent(lowered, elements[1..]);
      assert forall k :: 1 <= k < |elements| ==> elements[k] == elements[1..][k - 1];
      ok
  }

  /** True exactly when the reply is non-empty and contains every required element,
      ignoring case. */
  function ValidateAnalysisResponse(response: Option<string>): (ok: bool)
    ensures ok <==> response.Some? && response.value != "" &&
                    forall k :: 0 <= k < |RequiredElements| ==>
                      Contains(Lower(response.value), Lower(RequiredElements[k]))
  {
    if response.None? || response.value == "" then false
    else AllPresent(Lower(response.value), RequiredElements)
  }

  /** Validation is monotone: text appended to a valid reply keeps it valid. */
  lemma ValidationMonotone(s: string, t: string)
    ensures ValidateAnalysisResponse(Some(s)) ==> ValidateAnalysisResponse(Some(s + t))
  {
    if ValidateAnalysisResponse(Some(s)) {
      LowerAppend(s, t);
      forall k | 0 <= k < |RequiredElements|
        ensures Contains(Lower(s + t), Lower(RequiredElements[k]))
      {
        ContainsAppend(Lower(s), Lower(t), Lower(RequiredElements[k]));
      }
    }
  }

  // ---------------------------------------------------------------------------
  // extract_company_name
  // ---------------------------------------------------------------------------

  const NameFields: seq<string> := ["longName", "shortName", "companyName", "name"]

  /** The field `f` of `info` is present and truthy. */
  predicate Named(info: Record, f: string) {
    f in info && Truthy(info[f])
  }

  /** Outcome of the search through the name fields. */
  datatype Lookup = Found(v: Value) | Missing | Raised

  /** `for field in fields: if field in info and info[field]: return info[field]`, where
      `info` may be any value: on a list or a string `field in info` is a membership or
      substring test and indexing with a string then raises; on anything else `in` raises. */
  function FirstName(info: Value, fields: seq<string>): (r: Lookup)
    ensures info.Obj? ==> !r.Raised?
    ensures info.Obj? ==> (r.Found? <==> exists k :: 0 <= k < |fields| && Named(info.fields, fields[k]))
    ensures info.Obj? ==>
              forall k ::
                (0 <= k < |fields| && Named(info.fields, fields[k]) && forall j :: 0 <= j < k ==> !Named(info.fields, fields[j]))
                ==> r == Found(info.fields[fields[k]])
    ensures !info.Obj? ==> !r.Found?
    ensures info.List? ==> (r.Raised? <==> exists k :: 0 <= k < |fields| && Str(fields[k]) in info.items)
    ensures info.Str? ==> (r.Raised? <==> exists k :: 0 <= k < |fields| && Contains(info.s, fields[k]))
    ensures !info.Obj? && !info.List? && !info.Str? ==> (r.Raised? <==> fields != [])
    decreases |fields|
  {
    if fields == [] then Missing
    else
      var rest := FirstName(info, fields[1..]);
      assert forall k :: 1 <= k < |fields| ==> fields[k] == fields[1..][k - 1];
      match info
      case Obj(m) => if Named(m, fields[0]) then Found(m[fields[0]]) else rest
      case List(items) => if Str(fields[0]) in items then Raised else rest
      case Str(s) => if Contains(s, fields[0]) then Raised else rest
      case _ => Raised
  }

  /** `ticker_data.get('symbol', 'Unknown')`. */
  function SymbolOrUnknown(d: Record): Value {
    if "symbol" in d then d["symbol"] else Str("Unknown")
  }

  /** The company name: the first truthy one of `longName`, `shortName`, `companyName`, `name`
      in `ticker_data['info']`; failing that the `symbol` entry of `ticker_data`, or `'Unknown'`.
      Anything that makes the Python code raise (no dict, `None`, an `info` that cannot be
      searched) yields `'Unknown'`. */
  function ExtractCompanyName(tickerData: Value): (r: Value)
    ensures !tickerData.Obj? ==> r == Str("Unknown")
    ensures tickerData.Obj? && "info" !in tickerData.fields ==> r == SymbolOrUnknown(tickerData.fields)
    ensures tickerData.Obj? && "info" in tickerData.fields && tickerData.fields["info"].Obj? ==>
      var info := tickerData.fields["info"].fields;
      && (forall k ::
            (0 <= k < |NameFields| && Named(info, NameFields[k]) && forall j :: 0 <= j < k ==> !Named(info, NameFields[j]))
            ==> r == info[NameFields[k]])
      && ((forall k :: 0 <= k < |NameFields| ==> !Named(info, NameFields[k])) ==>
            r == SymbolOrUnknown(tickerData.fields))
    ensures tickerData.Obj? && "info" in tickerData.fields && tickerData.fields["info"].List? ==>
      var items := tickerData.fields["info"].items;
      r == if exists k :: 0 <= k < |NameFields| && Str(NameFields[k]) in items
           then Str("Unknown") else SymbolOrUnknown(tickerData.fields)
    ensures tickerData.Obj? && "info" in tickerData.fields && tickerData.fields["info"].Str? ==>
      var s := tickerData.fields["info"].s;
      r == if exists k :: 0 <= k < |NameFields| && Contains(s, NameFields[k])
           then Str("Unknown") else SymbolOrUnknown(tickerData.fields)
    ensures tickerData.Obj? && "info" in tickerData.fields &&
            !(tickerData.fields["info"].Obj? || tickerData.fields["info"].List? || tickerData.fields["info"].Str?) ==>
              r == Str("Unknown")
  {
    match tickerData
    case Obj(d) =>
      var lookup := if "info" in d then FirstName(d["info"], NameFields) else Missing;
      (match lookup
       case Found(v) => v
       case Raised => Str("Unknown")
       case Missing => SymbolOrUnknown(d))
    case _ => Str("Unknown")
  }
}
