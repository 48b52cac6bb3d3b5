/** The façade of src/backend/CodeStatsFacade.cpp over an analysis result.

    The façade's operations read only the result's `languageSummaries`, so
    they take that map (or, for the longest/shortest search, the map's
    entries in the order the hash map happens to visit them, which C++ leaves
    unspecified). */
module CodeStatsFacade {
  import opened Wrappers
  import opened Text
  import opened CodeStats

  /** The plain-old-data record handed across the C ABI. */
  datatype LanguageStatsC = LanguageStatsC(fileCount: nat, lineCount: nat)

  /** `findSummaryForKey`: the stored summary, or an all-zero one. */
  function FindSummaryForKey(summaries: map<string, LanguageSummary>, key: string): (r: LanguageSummary)
    ensures key in summaries ==> r == summaries[key]
    ensures key !in summaries ==> r == EmptySummary
  {
    SummaryOf(summaries, key)
  }

  /** `toLanguageStatsC`: the two counts, copied unchanged. */
  function ToLanguageStatsC(summary: LanguageSummary): (r: LanguageStatsC)
    ensures r.fileCount == summary.fileCount && r.lineCount == summary.lineCount
  {
    LanguageStatsC(summary.fileCount, summary.lineCount)
  }

  /** The `accumulate` lambda of `analyzeCppOnly`: add the four counters of
      the entry for `key`, if there is one, to `summary`. */
  method Accumulate(summaries: map<string, LanguageSummary>, key: string, summary: LanguageSummary)
    returns (r: LanguageSummary)
    ensures var added := FindSummaryForKey(summaries, key);
      && r.fileCount == summary.fileCount + added.fileCount
      && r.lineCount == summary.lineCount + added.lineCount
      && r.blankLineCount == summary.blankLineCount + added.blankLineCount
      && r.commentLineCount == summary.commentLineCount + added.commentLineCount
      && r.functions == summary.functions
  {
    r := summary;
    if key in summaries {
      var entry := summaries[key];
      r := r.(fileCount := r.fileCount + entry.fileCount);
      r := r.(lineCount := r.lineCount + entry.lineCount);
      r := r.(blankLineCount := r.blankLineCount + entry.blankLineCount);
      r := r.(commentLineCount := r.commentLineCount + entry.commentLineCount);
    }
  }

  /** The C/C++ aggregate: the field-wise sum of the "C" and "C++" entries. */
  function CppAggregate(summaries: map<string, LanguageSummary>): LanguageSummary {
    var c := FindSummaryForKey(summaries, "C");
    var cpp := FindSummaryForKey(summaries, "C++");
    EmptySummary.(
      fileCount := c.fileCount + cpp.fileCount,
      lineCount := c.lineCount + cpp.lineCount,
      blankLineCount := c.blankLineCount + cpp.blankLineCount,
      commentLineCount := c.commentLineCount + cpp.commentLineCount)
  }

  /** `analyzeCppOnly` over the result of the whole analysis. */
  method AnalyzeCppOnly(summaries: map<string, LanguageSummary>) returns (summary: LanguageSummary)
    ensures summary == CppAggregate(summaries)
  {
    summary := EmptySummary;
    summary := Accumulate(summaries, "C", summary);
    summary := Accumulate(summaries, "C++", summary);
  }

  /** Missing keys contribute nothing, and function statistics are never
      copied. The analyzer only ever writes the keys "Java", "C/C++" and
      "Python", so over any map it produces the aggregate is all zero. */
  lemma CppAggregateMeaning(summaries: map<string, LanguageSummary>)
    ensures CppAggregate(summaries).functions == EmptyFunctions
    ensures "C" !in summaries && "C++" !in summaries ==> CppAggregate(summaries) == EmptySummary
    ensures "C++" !in summaries && "C" in summaries ==>
      CppAggregate(summaries).fileCount == summaries["C"].fileCount &&
      CppAggregate(summaries).lineCount == summaries["C"].lineCount
    ensures summaries.Keys <= Languages ==> CppAggregate(summaries) == EmptySummary
  {
  }

  /** Over an analysis that was allowed to run, the C/C++ aggregate is empty
      even when C and C++ files were counted under "C/C++". */
  lemma CppAggregateOfWalk(files: seq<SourceFile>)
    ensures CppAggregate(WalkSummaries(map[], files)) == EmptySummary
  {
    WalkKeys(files);
    CppAggregateMeaning(WalkSummaries(map[], files));
  }

  lemma {:induction false} WalkKeys(files: seq<SourceFile>)
    ensures WalkSummaries(map[], files).Keys <= Languages
  {
    if files != [] {
      WalkKeys(files[..|files| - 1]);
      VisitKeepsTotals(WalkSummaries(map[], files[..|files| - 1]), files[|files| - 1]);
    }
  }

  /** `analyzeJavaOnly` over the result of the whole analysis. */
  function AnalyzeJavaOnly(summaries: map<string, LanguageSummary>): (r: LanguageSummary)
    ensures "Java" in summaries ==> r == summaries["Java"]
    ensures "Java" !in summaries ==> r == EmptySummary
  {
    FindSummaryForKey(summaries, "Java")
  }

  /** `analyzeJavaFromContext`: a placeholder that ignores its argument. */
  function AnalyzeJavaFromContext(rootIdentifier: string): (r: LanguageSummary)
    ensures r.fileCount == 0 && r.lineCount == 0 && r.functions.details == []
  {
    EmptySummary
  }

  // ---------------------------------------------------------------------
  // printLongestFunction / printShortestFunction
  // ---------------------------------------------------------------------

  /** Which extreme a search looks for. */
  datatype Extreme = Longest | Shortest

  /** `d` displaces the current best: strictly longer (or shorter), so ties
      keep the earlier detail. */
  predicate Beats(x: Extreme, d: FunctionDetail, best: FunctionDetail) {
    match x
    case Longest => d.length > best.length
    case Shortest => d.length < best.length
  }

  /** Every detail of every entry, in visiting order. */
  function AllDetails(entries: seq<(string, LanguageSummary)>): seq<FunctionDetail> {
    if entries == [] then []
    else AllDetails(entries[..|entries| - 1]) + entries[|entries| - 1].1.functions.details
  }

  /** One step of the search: take `d` when there is no best yet or it beats
      the best. */
  function Consider(x: Extreme, best: Option<FunctionDetail>, d: FunctionDetail): Option<FunctionDetail> {
    if best.None? || Beats(x, d, best.value) then Some(d) else best
  }

  /** The search over `ds` in order. */
  function Select(x: Extreme, ds: seq<FunctionDetail>): Option<FunctionDetail> {
    if ds == [] then None else Consider(x, Select(x, ds[..|ds| - 1]), ds[|ds| - 1])
  }

  /** The search finds nothing exactly when there are no details. Otherwise it
      returns the detail at some index `k`: nothing in the list beats it, and
      it beats every detail before it, so it is the FIRST of the longest (or
      shortest) ones. */
  lemma {:induction false} SelectMeaning(x: Extreme, ds: seq<FunctionDetail>) returns (k: nat)
    ensures Select(x, ds).None? <==> ds == []
    ensures Select(x, ds).Some? ==>
      && k < |ds| && ds[k] == Select(x, ds).value
      && (forall m :: 0 <= m < |ds| ==> !Beats(x, ds[m], ds[k]))
      && (forall m :: 0 <= m < k ==> Beats(x, ds[k], ds[m]))
  {
    if ds == [] {
      return 0;
    }
    var front := ds[..|ds| - 1];
    var d := ds[|ds| - 1];
    var j := SelectMeaning(x, front);
    if Select(x, front).None? || Beats(x, d, Select(x, front).value) {
      k := |ds| - 1;
      forall m | 0 <= m < |ds|
        ensures !Beats(x, ds[m], ds[k])
      {
        if m < |ds| - 1 {
          assert ds[m] == front[m];
        }
      }
      forall m | 0 <= m < k
        ensures Beats(x, ds[k], ds[m])
      {
        assert ds[m] == front[m];
      }
    } else {
      k := j;
      assert ds[k] == front[k];
      forall m | 0 <= m < |ds|
        ensures !Beats(x, ds[m], ds[k])
      {
        if m < |ds| - 1 {
          assert ds[m] == front[m];
        }
      }
      forall m | 0 <= m < k
        ensures Beats(x, ds[k], ds[m])
      {
        assert ds[m] == front[m];
      }
    }
  }

  /** Closes the inner loop: one more detail of entry `i` considered. */
  lemma ConsiderNext(x: Extreme, entries: seq<(string, LanguageSummary)>, i: nat, j: nat)
    requires i < |entries| && j < |entries[i].1.functions.details|
    ensures var ds := entries[i].1.functions.details;
      Select(x, AllDetails(entries[..i]) + ds[..j + 1]) ==
      Consider(x, Select(x, AllDetails(entries[..i]) + ds[..j]), ds[j])
  {
    var ds := entries[i].1.functions.details;
    var before := AllDetails(entries[..i]) + ds[..j];
    assert (AllDetails(entries[..i]) + ds[..j + 1])[..|before|] == before;
  }

  /** Closes the outer loop: entry `i` fully considered. */
  lemma EntryDone(entries: seq<(string, LanguageSummary)>, i: nat)
    requires i < |entries|
    ensures AllDetails(entries[..i + 1]) ==
      AllDetails(entries[..i]) + entries[i].1.functions.details[..|entries[i].1.functions.details|]
  {
    assert entries[..i + 1][..i] == entries[..i];
    assert entries[i].1.functions.details[..|entries[i].1.functions.details|] == entries[i].1.functions.details;
  }

  /** The two nested loops of the print functions, keeping a reference to the
      best detail seen so far. */
  method FindExtreme(x: Extreme, entries: seq<(string, LanguageSummary)>) returns (best: Option<FunctionDetail>)
    ensures best == Select(x, AllDetails(entries))
  {
    best := None;
    var i := 0;
    while i < |entries|
      invariant i <= |entries|
      invariant best == Select(x, AllDetails(entries[..i]))
    {
      var details := entries[i].1.functions.details;
      var j := 0;
      assert AllDetails(entries[..i]) + details[..0] == AllDetails(entries[..i]);
      while j < |details|
        invariant j <= |details|
        invariant best == Select(x, AllDetails(entries[..i]) + details[..j])
      {
        ConsiderNext(x, entries, i, j);
        if best.None? || Beats(x, details[j], best.value) {
          best := Some(details[j]);
        }
        j := j + 1;
      }
      EntryDone(entries, i);
      i := i + 1;
    }
    assert entries[..i] == entries;
  }

  /** The line the print functions build for the detail found. */
  function Describe(title: string, d: FunctionDetail): string {
    title + " " + d.name + " (" + IntToDecimal(d.length) + " 行, 语言: " + d.language +
    ") - 文件: " + d.filePath + " (第 " + NatToDecimal(d.lineNumber) + " 行)"
  }

  function Title(x: Extreme): string {
    match x
    case Longest => "最长函数"
    case Shortest => "最短函数"
  }

  /** `printLongestFunction` (x = Longest) and `printShortestFunction`
      (x = Shortest): empty when no detail exists, otherwise the description
      of the first longest (shortest) one. */
  method PrintExtremeFunction(x: Extreme, entries: seq<(string, LanguageSummary)>) returns (text: string)
    ensures AllDetails(entries) == [] <==> text == []
    ensures AllDetails(entries) != [] ==> text == Describe(Title(x), Select(x, AllDetails(entries)).value)
  {
    var best := FindExtreme(x, entries);
    ghost var k := SelectMeaning(x, AllDetails(entries));
    if best.None? {
      return "";
    }
    text := Describe(Title(x), best.value);
  }
}
