/** The code statistics analyzer of src/backend/CodeStats.cpp.

    The directory walk itself (std::filesystem iteration, weakly_canonical,
    current_path) is outside the model: the canonical workspace and requested
    paths arrive as strings, and the regular files the walk reaches arrive as
    a sequence of `SourceFile`s, each with the names of the directories
    between the root and the file and the lines std::getline would read (None
    when the file cannot be opened). */
module CodeStats {
  import opened Wrappers
  import opened Text

  // ---------------------------------------------------------------------
  // Records (include/backend/CodeStats.hpp)
  // ---------------------------------------------------------------------

  datatype FunctionDetail = FunctionDetail(
    name: string,
    language: string,
    filePath: string,
    lineNumber: nat,
    length: int)

  datatype FunctionSummary = FunctionSummary(
    functionCount: nat,
    averageLength: real,
    minLength: int,
    maxLength: int,
    medianLength: real,
    lengths: seq<int>,
    details: seq<FunctionDetail>)

  datatype LanguageSummary = LanguageSummary(
    fileCount: nat,
    lineCount: nat,
    blankLineCount: nat,
    commentLineCount: nat,
    functions: FunctionSummary)

  /** The value-initialised records (`{}` in C++). */
  const EmptyFunctions: FunctionSummary := FunctionSummary(0, 0.0, 0, 0, 0.0, [], [])
  const EmptySummary: LanguageSummary := LanguageSummary(0, 0, 0, 0, EmptyFunctions)

  /** The entry for `key`, or a value-initialised summary when there is none:
      what `languageSummaries[key]` reads before it is written. */
  function SummaryOf(m: map<string, LanguageSummary>, key: string): LanguageSummary {
    if key in m then m[key] else EmptySummary
  }

  // ---------------------------------------------------------------------
  // trim
  // ---------------------------------------------------------------------

  function DropLeadingSpace(s: string): string
    decreases |s|
  {
    if |s| > 0 && IsSpace(s[0]) then DropLeadingSpace(s[1..]) else s
  }

  function DropTrailingSpace(s: string): string
    decreases |s|
  {
    if |s| > 0 && IsSpace(s[|s| - 1]) then DropTrailingSpace(s[..|s| - 1]) else s
  }

  /** The reference reading of `trim`: strip whitespace from the front, then
      from the back. */
  function Trimmed(s: string): string {
    DropTrailingSpace(DropLeadingSpace(s))
  }

  predicate IsBlank(line: string) {
    Trimmed(line) == []
  }

  /** `trim`: advance a start index over leading whitespace, then move an end
      index back over trailing whitespace, and cut. */
  method Trim(input: string) returns (r: string)
    ensures r == Trimmed(input)
  {
    var start := 0;
    assert input[start..] == input;
    while start < |input| && IsSpace(input[start])
      invariant 0 <= start <= |input|
      invariant DropLeadingSpace(input[start..]) == DropLeadingSpace(input)
    {
      LeadingStep(input, start);
      start := start + 1;
    }
    LeadingDone(input, start);
    var end := |input|;
    while end > start && IsSpace(input[end - 1])
      invariant start <= end <= |input|
      invariant DropTrailingSpace(input[start..end]) == Trimmed(input)
    {
      TrailingStep(input, start, end);
      end := end - 1;
    }
    r := input[start..end];
  }

  lemma LeadingStep(input: string, start: nat)
    requires start < |input| && IsSpace(input[start])
    ensures DropLeadingSpace(input[start..]) == DropLeadingSpace(input[start + 1..])
  {
    assert input[start..][1..] == input[start + 1..];
  }

  lemma LeadingDone(input: string, start: nat)
    requires start <= |input| && (start < |input| ==> !IsSpace(input[start]))
    requires DropLeadingSpace(input[start..]) == DropLeadingSpace(input)
    ensures DropTrailingSpace(input[start..|input|]) == Trimmed(input)
  {
    assert input[start..|input|] == input[start..];
  }

  lemma TrailingStep(input: string, start: nat, end: nat)
    requires start < end <= |input| && IsSpace(input[end - 1])
    ensures DropTrailingSpace(input[start..end]) == DropTrailingSpace(input[start..end - 1])
  {
    assert input[start..end][..end - 1 - start] == input[start..end - 1];
  }

  lemma {:induction false} DropLeadingShape(s: string) returns (i: nat)
    ensures i <= |s| && DropLeadingSpace(s) == s[i..]
    ensures forall k :: 0 <= k < i ==> IsSpace(s[k])
    ensures i < |s| ==> !IsSpace(s[i])
    decreases |s|
  {
    if |s| > 0 && IsSpace(s[0]) {
      var j := DropLeadingShape(s[1..]);
      i := j + 1;
      assert s[1..][j..] == s[i..];
      forall k | 0 <= k < i
        ensures IsSpace(s[k])
      {
        if k > 0 {
          assert s[k] == s[1..][k - 1];
        }
      }
    } else {
      i := 0;
    }
  }

  lemma {:induction false} DropTrailingShape(s: string) returns (j: nat)
    ensures j <= |s| && DropTrailingSpace(s) == s[..j]
    ensures forall k :: j <= k < |s| ==> IsSpace(s[k])
    ensures j > 0 ==> !IsSpace(s[j - 1])
    decreases |s|
  {
    if |s| > 0 && IsSpace(s[|s| - 1]) {
      var t := s[..|s| - 1];
      j := DropTrailingShape(t);
      assert t[..j] == s[..j];
      forall k | j <= k < |s|
        ensures IsSpace(s[k])
      {
        if k < |s| - 1 {
          assert s[k] == t[k];
        }
      }
    } else {
      j := |s|;
    }
  }

  /** `trim` returns one contiguous slice of its input: everything before
      and after the slice is whitespace, and a non-empty slice begins and
      ends with a non-whitespace character. These facts determine the slice. */
  lemma TrimmedShape(s: string) returns (i: nat, j: nat)
    ensures i <= j <= |s| && Trimmed(s) == s[i..j]
    ensures forall k :: 0 <= k < i ==> IsSpace(s[k])
    ensures forall k :: j <= k < |s| ==> IsSpace(s[k])
    ensures i < j ==> !IsSpace(s[i]) && !IsSpace(s[j - 1])
  {
    i := DropLeadingShape(s);
    var t := s[i..];
    var e := DropTrailingShape(t);
    j := i + e;
    assert t[..e] == s[i..j];
    forall k | j <= k < |s|
      ensures IsSpace(s[k])
    {
      assert s[k] == t[k - i];
    }
    if i < j {
      assert s[i] == t[0];
      assert s[j - 1] == t[e - 1];
    }
  }

  /** Trimming twice is trimming once. */
  lemma TrimmedIdempotent(s: string)
    ensures Trimmed(Trimmed(s)) == Trimmed(s)
  {
    var i, j := TrimmedShape(s);
    var r := Trimmed(s);
    if r != [] {
      assert r[0] == s[i] && r[|r| - 1] == s[j - 1];
      assert DropLeadingSpace(r) == r;
    }
  }

  /** A line is blank exactly when every character of it is whitespace. */
  lemma BlankIffAllSpace(s: string)
    ensures IsBlank(s) <==> forall k :: 0 <= k < |s| ==> IsSpace(s[k])
  {
    var i, j := TrimmedShape(s);
  }

  // ---------------------------------------------------------------------
  // leadingSpaces
  // ---------------------------------------------------------------------

  /** The number of ' ' characters a line begins with. */
  function Indent(s: string): nat
    decreases |s|
  {
    if |s| > 0 && s[0] == ' ' then 1 + Indent(s[1..]) else 0
  }

  /** Only plain spaces are counted, and the first character past them (if
      any) is not a space: a tab ends the indentation. */
  lemma {:induction false} IndentMeaning(s: string)
    ensures Indent(s) <= |s|
    ensures forall k :: 0 <= k < Indent(s) ==> s[k] == ' '
    ensures Indent(s) < |s| ==> s[Indent(s)] != ' '
    decreases |s|
  {
    if |s| > 0 && s[0] == ' ' {
      IndentMeaning(s[1..]);
      forall k | 0 <= k < Indent(s)
        ensures s[k] == ' '
      {
        if k > 0 {
          assert s[k] == s[1..][k - 1];
        }
      }
    }
  }

  /** `leadingSpaces`: count ' ' characters from the front. */
  method LeadingSpaces(line: string) returns (spaces: nat)
    ensures spaces == Indent(line)
  {
    spaces := 0;
    assert line[spaces..] == line;
    while spaces < |line| && line[spaces] == ' '
      invariant spaces <= |line|
      invariant spaces + Indent(line[spaces..]) == Indent(line)
    {
      assert line[spaces..][1..] == line[spaces + 1..];
      spaces := spaces + 1;
    }
  }

  // ---------------------------------------------------------------------
  // isDirectoryExcluded, hasExtension and the language of a file
  // ---------------------------------------------------------------------

  /** `isDirectoryExcluded` on a directory's file name. */
  predicate IsDirectoryExcluded(name: string) {
    name != [] && (name == ".git" || name == "bin" || name == "logs" || name == "node_modules")
  }

  /** Index of the last '.' in `s[..n]`. */
  function LastDot(s: string, n: nat): (r: Option<nat>)
    requires n <= |s|
    ensures r.Some? ==> r.value < n && s[r.value] == '.'
    ensures r.Some? ==> forall k :: r.value < k < n ==> s[k] != '.'
    ensures r.None? ==> forall k :: 0 <= k < n ==> s[k] != '.'
  {
    if n == 0 then None
    else if s[n - 1] == '.' then Some(n - 1)
    else LastDot(s, n - 1)
  }

  /** std::filesystem::path::extension of a file name: from the last '.' on,
      except that "." and "..", and a name whose only dot is its first
      character, have none. */
  function Extension(name: string): string {
    if name == "." || name == ".." then ""
    else
      match LastDot(name, |name|)
      case Some(k) => if k > 0 then name[k..] else ""
      case None => ""
  }

  /** A non-empty extension is a proper suffix of the name that starts with
      the name's last dot. */
  lemma ExtensionShape(name: string)
    ensures var e := Extension(name);
      e == [] ||
      (e[0] == '.' && |e| < |name| && name[|name| - |e|..] == e &&
       forall k :: 1 <= k < |e| ==> e[k] != '.')
  {
    var e := Extension(name);
    if e != [] {
      var k := LastDot(name, |name|).value;
      assert e == name[k..];
      forall m | 1 <= m < |e|
        ensures e[m] != '.'
      {
        assert e[m] == name[k + m];
      }
    }
  }

  /** `hasExtension`: the file's extension is one of the list. */
  predicate HasExtension(name: string, extensions: seq<string>) {
    Extension(name) in extensions
  }

  const JavaExtensions: seq<string> := [".java"]
  const CppExtensions: seq<string> := [".c", ".C", ".cc", ".cpp", ".cxx", ".h", ".hpp", ".hh", ".hxx"]
  const PythonExtensions: seq<string> := [".py"]

  /** The only keys `visitFile` ever writes. */
  const Languages: set<string> := {"Java", "C/C++", "Python"}

  /** The summary `visitFile` charges a file to, tried in the order Java,
      C/C++, Python; None for a file it ignores. */
  function LanguageOf(name: string): Option<string> {
    if HasExtension(name, JavaExtensions) then Some("Java")
    else if HasExtension(name, CppExtensions) then Some("C/C++")
    else if HasExtension(name, PythonExtensions) then Some("Python")
    else None
  }

  /** Each language is chosen by exactly its own extensions; every other
      extension is ignored. */
  lemma LanguageOfMeaning(name: string)
    ensures LanguageOf(name).Some? ==> LanguageOf(name).value in Languages
    ensures LanguageOf(name) == Some("Java") <==> Extension(name) == ".java"
    ensures LanguageOf(name) == Some("C/C++") <==> Extension(name) in CppExtensions
    ensures LanguageOf(name) == Some("Python") <==> Extension(name) == ".py"
    ensures LanguageOf(name).None? <==>
      Extension(name) !in JavaExtensions + CppExtensions + PythonExtensions
  {
  }

  // ---------------------------------------------------------------------
  // countLogicalLines
  // ---------------------------------------------------------------------

  /** The number of non-blank lines. */
  function LogicalLines(lines: seq<string>): nat {
    if lines == [] then 0
    else LogicalLines(lines[..|lines| - 1]) + (if IsBlank(lines[|lines| - 1]) then 0 else 1)
  }

  lemma {:induction false} LogicalLinesAppend(a: seq<string>, b: seq<string>)
    ensures LogicalLines(a + b) == LogicalLines(a) + LogicalLines(b)
    decreases |b|
  {
    if b != [] {
      var b' := b[..|b| - 1];
      assert (a + b)[..|a + b| - 1] == a + b';
      LogicalLinesAppend(a, b');
    } else {
      assert a + b == a;
    }
  }

  /** The count never exceeds the number of lines; it is zero exactly when
      every line is blank and equal to the number of lines exactly when none
      is. */
  lemma {:induction false} LogicalLinesBounds(lines: seq<string>)
    ensures LogicalLines(lines) <= |lines|
    ensures LogicalLines(lines) == 0 <==> forall k :: 0 <= k < |lines| ==> IsBlank(lines[k])
    ensures LogicalLines(lines) == |lines| <==> forall k :: 0 <= k < |lines| ==> !IsBlank(lines[k])
  {
    if lines != [] {
      var front := lines[..|lines| - 1];
      LogicalLinesBounds(front);
      assert forall k :: 0 <= k < |front| ==> front[k] == lines[k];
    }
  }

  /** The count a file contributes: an unopenable file counts 0. */
  function ContentLines(content: Option<seq<string>>): nat {
    match content
    case None => 0
    case Some(lines) => LogicalLines(lines)
  }

  /** `countLogicalLines`: one pass over the lines, counting those whose trim
      is non-empty. */
  method CountLogicalLines(content: Option<seq<string>>) returns (count: nat)
    ensures count == ContentLines(content)
  {
    if content.None? {
      return 0;
    }
    var lines := content.value;
    count := 0;
    var i := 0;
    while i < |lines|
      invariant i <= |lines|
      invariant count == LogicalLines(lines[..i])
    {
      var trimmed := Trim(lines[i]);
      assert lines[..i + 1][..i] == lines[..i];
      if trimmed != [] {
        count := count + 1;
      }
      i := i + 1;
    }
    assert lines[..i] == lines;
  }

  // ---------------------------------------------------------------------
  // analyzePythonFile
  // ---------------------------------------------------------------------

  /** A line whose trimmed text starts with "def ". */
  predicate IsDefLine(line: string) {
    StartsWith(Trimmed(line), "def ")
  }

  predicate IsComment(line: string) {
    StartsWith(Trimmed(line), "#")
  }

  /** A line that closes the body of a def indented by `indent`: non-blank,
      not a comment, and indented no deeper than the def. */
  predicate EndsBody(line: string, indent: int) {
    !IsBlank(line) && Indent(line) <= indent && !IsComment(line)
  }

  /** Non-blank lines from `j` up to the first line that ends the body. */
  function BodyLength(lines: seq<string>, j: nat, indent: int): nat
    requires j <= |lines|
    decreases |lines| - j
  {
    if j == |lines| || EndsBody(lines[j], indent) then 0
    else (if IsBlank(lines[j]) then 0 else 1) + BodyLength(lines, j + 1, indent)
  }

  /** The length recorded for the def on line `i`: the def line itself plus
      its body. */
  function DefLength(lines: seq<string>, i: nat): int
    requires i < |lines|
  {
    1 + BodyLength(lines, i + 1, Indent(lines[i]))
  }

  /** The lengths pushed for the def lines among the first `n` lines. */
  function DefLengthsUpTo(lines: seq<string>, n: nat): seq<int>
    requires n <= |lines|
  {
    if n == 0 then []
    else DefLengthsUpTo(lines, n - 1) + (if IsDefLine(lines[n - 1]) then [DefLength(lines, n - 1)] else [])
  }

  /** Everything `analyzePythonFile` pushes for one file. */
  function PythonDefLengths(lines: seq<string>): seq<int> {
    DefLengthsUpTo(lines, |lines|)
  }

  /** Index of the first line at or after `j` that ends the body, or the end. */
  function BodyEnd(lines: seq<string>, j: nat, indent: int): nat
    requires j <= |lines|
    decreases |lines| - j
  {
    if j == |lines| || EndsBody(lines[j], indent) then j else BodyEnd(lines, j + 1, indent)
  }

  /** The body runs to the first closing line; no line before it closes the
      body. */
  lemma {:induction false} BodyEndMeaning(lines: seq<string>, j: nat, indent: int)
    requires j <= |lines|
    ensures j <= BodyEnd(lines, j, indent) <= |lines|
    ensures forall k :: j <= k < BodyEnd(lines, j, indent) ==> !EndsBody(lines[k], indent)
    ensures BodyEnd(lines, j, indent) < |lines| ==> EndsBody(lines[BodyEnd(lines, j, indent)], indent)
    decreases |lines| - j
  {
    if j < |lines| && !EndsBody(lines[j], indent) {
      BodyEndMeaning(lines, j + 1, indent);
    }
  }

  /** A body's length is the number of non-blank lines between the def and
      the closing line: blank lines are skipped, comment lines are counted. */
  lemma {:induction false} BodyLengthCountsBody(lines: seq<string>, j: nat, indent: int)
    requires j <= |lines|
    ensures j <= BodyEnd(lines, j, indent) <= |lines|
    ensures BodyLength(lines, j, indent) == LogicalLines(lines[j..BodyEnd(lines, j, indent)])
    decreases |lines| - j
  {
    BodyEndMeaning(lines, j, indent);
    if j < |lines| && !EndsBody(lines[j], indent) {
      BodyLengthCountsBody(lines, j + 1, indent);
      var e := BodyEnd(lines, j, indent);
      var rest := lines[j + 1..e];
      assert lines[j..e] == [lines[j]] + rest;
      LogicalLinesAppend([lines[j]], rest);
      assert [lines[j]][..0] == [];
    }
  }

  /** A comment line never closes a body: if no line before it did, the body
      reaches past it, whatever its indentation. */
  lemma {:induction false} CommentsNeverEndBody(lines: seq<string>, j: nat, indent: int, k: nat)
    requires j <= k < |lines| && IsComment(lines[k])
    requires forall m :: j <= m < k ==> !EndsBody(lines[m], indent)
    ensures BodyEnd(lines, j, indent) > k
    decreases k - j
  {
    if j < k {
      CommentsNeverEndBody(lines, j + 1, indent, k);
    } else {
      BodyEndMeaning(lines, k + 1, indent);
    }
  }

  lemma {:induction false} BodyLengthBound(lines: seq<string>, j: nat, indent: int)
    requires j <= |lines|
    ensures BodyLength(lines, j, indent) <= |lines| - j
    decreases |lines| - j
  {
    if j < |lines| && !EndsBody(lines[j], indent) {
      BodyLengthBound(lines, j + 1, indent);
    }
  }

  lemma {:induction false} DefLengthsUpToMeaning(lines: seq<string>, n: nat) returns (idx: seq<nat>)
    requires n <= |lines|
    ensures DefIndexes(lines, n, idx)
  {
    if n == 0 {
      idx := [];
    } else {
      var front := DefLengthsUpToMeaning(lines, n - 1);
      if IsDefLine(lines[n - 1]) {
        idx := front + [n - 1];
        DefIndexesExtend(lines, n, front);
      } else {
        idx := front;
        DefIndexesSkip(lines, n, front);
      }
    }
  }

  /** `idx` lists, in increasing order, exactly the def lines before `n`,
      and the k-th length pushed is the length of the def at `idx[k]`. */
  ghost predicate DefIndexes(lines: seq<string>, n: nat, idx: seq<nat>)
    requires n <= |lines|
  {
    && |idx| == |DefLengthsUpTo(lines, n)|
    && (forall k :: 0 <= k < |idx| ==>
          idx[k] < n && IsDefLine(lines[idx[k]]) && DefLengthsUpTo(lines, n)[k] == DefLength(lines, idx[k]))
    && (forall k, m :: 0 <= k < m < |idx| ==> idx[k] < idx[m])
    && (forall i :: 0 <= i < n && IsDefLine(lines[i]) ==> i in idx)
  }

  lemma DefIndexesExtend(lines: seq<string>, n: nat, front: seq<nat>)
    requires 0 < n <= |lines| && IsDefLine(lines[n - 1]) && DefIndexes(lines, n - 1, front)
    ensures DefIndexes(lines, n, front + [n - 1])
  {
    var idx := front + [n - 1];
    var before := DefLengthsUpTo(lines, n - 1);
    var r := DefLengthsUpTo(lines, n);
    assert r == before + [DefLength(lines, n - 1)];
    forall k | 0 <= k < |idx|
      ensures idx[k] < n && IsDefLine(lines[idx[k]]) && r[k] == DefLength(lines, idx[k])
    {
      if k < |front| {
        assert idx[k] == front[k] && r[k] == before[k];
      }
    }
    forall i | 0 <= i < n && IsDefLine(lines[i])
      ensures i in idx
    {
      if i < n - 1 {
        assert i in front;
      } else {
        assert idx[|front|] == i;
      }
    }
  }

  lemma DefIndexesSkip(lines: seq<string>, n: nat, front: seq<nat>)
    requires 0 < n <= |lines| && !IsDefLine(lines[n - 1]) && DefIndexes(lines, n - 1, front)
    ensures DefIndexes(lines, n, front)
  {
    assert DefLengthsUpTo(lines, n) == DefLengthsUpTo(lines, n - 1);
  }


  /** `analyzePythonFile` pushes exactly one length per def line, in line
      order, and that length is the def's own; every length is at least 1
      and at most the number of lines from the def to the end of the file. */
  lemma PythonDefLengthsMeaning(lines: seq<string>) returns (idx: seq<nat>)
    ensures |idx| == |PythonDefLengths(lines)|
    ensures forall k :: 0 <= k < |idx| ==>
      idx[k] < |lines| && IsDefLine(lines[idx[k]]) && PythonDefLengths(lines)[k] == DefLength(lines, idx[k])
    ensures forall k, m :: 0 <= k < m < |idx| ==> idx[k] < idx[m]
    ensures forall i :: 0 <= i < |lines| && IsDefLine(lines[i]) ==> i in idx
    ensures forall k :: 0 <= k < |idx| ==> 1 <= PythonDefLengths(lines)[k] <= |lines| - idx[k]
  {
    idx := DefLengthsUpToMeaning(lines, |lines|);
    forall k | 0 <= k < |idx|
      ensures 1 <= PythonDefLengths(lines)[k] <= |lines| - idx[k]
    {
      BodyLengthBound(lines, idx[k] + 1, Indent(lines[idx[k]]));
    }
  }

  /** The inner loop of `analyzePythonFile` for the def on line `i`: count the
      non-blank lines after it until one closes the body. */
  method MeasureDef(lines: seq<string>, i: nat) returns (length: int)
    requires i < |lines|
    ensures length == DefLength(lines, i)
  {
    var indent := LeadingSpaces(lines[i]);
    length := 1;
    var j := i + 1;
    while j < |lines|
      invariant i + 1 <= j <= |lines|
      invariant length + BodyLength(lines, j, indent) == DefLength(lines, i)
    {
      var trimmedBodyLine := Trim(lines[j]);
      var bodyIndent := LeadingSpaces(lines[j]);
      if trimmedBodyLine != [] && bodyIndent <= indent && !StartsWith(trimmedBodyLine, "#") {
        break;
      }
      if trimmedBodyLine != [] {
        length := length + 1;
      }
      j := j + 1;
    }
  }

  // ---------------------------------------------------------------------
  // The length summary of the analysis' finalisation step
  // ---------------------------------------------------------------------

  predicate Sorted(s: seq<int>) {
    forall i, j :: 0 <= i < j < |s| ==> s[i] <= s[j]
  }

  function Insert(x: int, s: seq<int>): (r: seq<int>)
    ensures |r| == |s| + 1
  {
    if s == [] || x <= s[0] then [x] + s else [s[0]] + Insert(x, s[1..])
  }

  /** std::sort on the lengths, as an insertion sort. */
  function SortLengths(s: seq<int>): (r: seq<int>)
    ensures |r| == |s|
  {
    if s == [] then [] else Insert(s[0], SortLengths(s[1..]))
  }

  lemma {:induction false} InsertPermutes(x: int, s: seq<int>)
    ensures multiset(Insert(x, s)) == multiset(s) + multiset{x}
    decreases |s|
  {
    if s != [] && x > s[0] {
      InsertPermutes(x, s[1..]);
      assert s == [s[0]] + s[1..];
    }
  }

  lemma {:induction false} InsertSorted(x: int, s: seq<int>)
    requires Sorted(s)
    ensures Sorted(Insert(x, s))
    decreases |s|
  {
    if s != [] && x > s[0] {
      var tail := Insert(x, s[1..]);
      InsertSorted(x, s[1..]);
      InsertPermutes(x, s[1..]);
      forall k | 0 <= k < |tail|
        ensures s[0] <= tail[k]
      {
        assert tail[k] in multiset(tail);
        if tail[k] != x {
          assert tail[k] in multiset(s[1..]);
          var m :| 0 <= m < |s[1..]| && s[1..][m] == tail[k];
          assert s[m + 1] == tail[k];
        }
      }
    }
  }

  /** The sort yields an ordered permutation of its input. */
  lemma {:induction false} SortLengthsCorrect(s: seq<int>)
    ensures Sorted(SortLengths(s))
    ensures multiset(SortLengths(s)) == multiset(s)
    decreases |s|
  {
    if s != [] {
      SortLengthsCorrect(s[1..]);
      InsertSorted(s[0], SortLengths(s[1..]));
      InsertPermutes(s[0], SortLengths(s[1..]));
      assert s == [s[0]] + s[1..];
    }
  }

  /** std::accumulate over the lengths. */
  function Sum(s: seq<int>): int {
    if s == [] then 0 else s[0] + Sum(s[1..])
  }

  lemma {:induction false} SumBounds(s: seq<int>, lo: int, hi: int)
    requires forall k :: 0 <= k < |s| ==> lo <= s[k] <= hi
    ensures lo * |s| <= Sum(s) <= hi * |s|
    decreases |s|
  {
    if s != [] {
      SumBounds(s[1..], lo, hi);
    }
  }

  /** The middle element of an odd-length sequence, or the mean of the two
      middle elements of an even-length one. */
  function Median(s: seq<int>): real
    requires s != []
  {
    if |s| % 2 == 0 then (s[|s| / 2 - 1] + s[|s| / 2]) as real / 2.0
    else s[|s| / 2] as real
  }

  /** The summary after finalisation: unchanged when no length was recorded,
      otherwise computed over the sorted lengths. */
  function Finalized(p: FunctionSummary): FunctionSummary {
    if p.lengths == [] then p
    else
      var s := SortLengths(p.lengths);
      p.(lengths := s,
         functionCount := |s|,
         minLength := s[0],
         maxLength := s[|s| - 1],
         averageLength := Sum(s) as real / |s| as real,
         medianLength := Median(s))
  }

  lemma MedianBetween(s: seq<int>)
    requires s != [] && Sorted(s)
    ensures s[0] as real <= Median(s) <= s[|s| - 1] as real
  {
  }

  lemma QuotientBetween(lo: int, hi: int, total: int, n: nat)
    requires n > 0 && lo * n <= total <= hi * n
    ensures lo as real <= total as real / n as real <= hi as real
  {
    var q := total as real / n as real;
    assert q * n as real == total as real;
    assert (lo * n) as real == lo as real * n as real;
    assert (hi * n) as real == hi as real * n as real;
  }

  lemma AverageBetween(s: seq<int>)
    requires s != [] && Sorted(s)
    ensures s[0] as real <= Sum(s) as real / |s| as real <= s[|s| - 1] as real
  {
    SumBounds(s, s[0], s[|s| - 1]);
    QuotientBetween(s[0], s[|s| - 1], Sum(s), |s|);
  }

  /** The ends of a sorted permutation of `t` are in `t` and bound it. */
  lemma SortedEnds(s: seq<int>, t: seq<int>)
    requires s != [] && Sorted(s) && multiset(s) == multiset(t)
    ensures s[0] in t && s[|s| - 1] in t
    ensures forall k :: 0 <= k < |t| ==> s[0] <= t[k] <= s[|s| - 1]
  {
    assert s[0] in multiset(t) && s[|s| - 1] in multiset(t);
    forall k | 0 <= k < |t|
      ensures s[0] <= t[k] <= s[|s| - 1]
    {
      assert t[k] in multiset(s);
      var m :| 0 <= m < |s| && s[m] == t[k];
    }
  }

  /** With at least one length: the count is the number of lengths, the
      lengths are sorted and a permutation of those recorded, the minimum
      and maximum are among them and bound every one, and the median and
      average lie between them. Details are never touched. */
  lemma FinalizedMeaning(p: FunctionSummary)
    requires p.lengths != []
    ensures var r := Finalized(p);
      && Sorted(r.lengths) && multiset(r.lengths) == multiset(p.lengths)
      && r.functionCount == |p.lengths|
      && r.minLength in p.lengths && r.maxLength in p.lengths
      && (forall k :: 0 <= k < |p.lengths| ==> r.minLength <= p.lengths[k] <= r.maxLength)
      && r.minLength as real <= r.medianLength <= r.maxLength as real
      && r.minLength as real <= r.averageLength <= r.maxLength as real
      && r.details == p.details
  {
    var r := Finalized(p);
    var s := r.lengths;
    SortLengthsCorrect(p.lengths);
    SortedEnds(s, p.lengths);
    MedianBetween(s);
    AverageBetween(s);
  }

  // ---------------------------------------------------------------------
  // The workspace check
  // ---------------------------------------------------------------------

  /** std::filesystem::path::preferred_separator on POSIX. */
  const PreferredSeparator: char := '/'

  /** The `isSubDir` test on the canonical strings. */
  predicate IsSubDir(workspace: string, requested: string) {
    |requested| >= |workspace| &&
    requested[..|workspace|] == workspace &&
    (|requested| == |workspace| || requested[|workspace|] == PreferredSeparator)
  }

  /** The request stays inside the workspace exactly when it is the workspace
      itself or lies under "workspace/"; a sibling such as "/ws2" next to
      "/ws" is refused. */
  lemma IsSubDirMeaning(workspace: string, requested: string)
    ensures IsSubDir(workspace, requested) <==>
      requested == workspace || StartsWith(requested, workspace + [PreferredSeparator])
  {
    if StartsWith(requested, workspace + [PreferredSeparator]) {
      assert requested[..|workspace|] == (workspace + [PreferredSeparator])[..|workspace|];
      assert requested[|workspace|] == (workspace + [PreferredSeparator])[|workspace|];
    }
    if IsSubDir(workspace, requested) && requested != workspace {
      assert requested[..|workspace| + 1] == requested[..|workspace|] + [requested[|workspace|]];
    }
  }

  // ---------------------------------------------------------------------
  // The analysis over the walked files
  // ---------------------------------------------------------------------

  /** A regular file the walk reaches: the names of the directories between
      the root and the file, the file's name, and its lines (None when the
      file cannot be opened). */
  datatype SourceFile = SourceFile(directories: seq<string>, name: string, content: Option<seq<string>>)

  /** The walk turns back at an excluded directory, so it visits a file only
      when no directory on the way to it is excluded. */
  predicate Visible(f: SourceFile) {
    forall k :: 0 <= k < |f.directories| ==> !IsDirectoryExcluded(f.directories[k])
  }

  /** Sum of the line counts of the three keys `visitFile` writes. */
  function LineTotal(m: map<string, LanguageSummary>): nat {
    SummaryOf(m, "Java").lineCount + SummaryOf(m, "C/C++").lineCount + SummaryOf(m, "Python").lineCount
  }

  /** The summaries after `visitFile` on `f`. */
  function VisitSummaries(m: map<string, LanguageSummary>, f: SourceFile): map<string, LanguageSummary> {
    match LanguageOf(f.name)
    case None => m
    case Some(language) =>
      var s := SummaryOf(m, language);
      m[language := s.(fileCount := s.fileCount + 1, lineCount := s.lineCount + ContentLines(f.content))]
  }

  /** The lengths `visitFile` on `f` pushes. */
  function PythonLengthsOf(f: SourceFile): seq<int> {
    if LanguageOf(f.name).Some? && Extension(f.name) == ".py" && f.content.Some? then
      PythonDefLengths(f.content.value)
    else []
  }

  /** The summaries after the walk has visited `files` in order. */
  function WalkSummaries(m: map<string, LanguageSummary>, files: seq<SourceFile>): map<string, LanguageSummary> {
    if files == [] then m
    else
      var before := WalkSummaries(m, files[..|files| - 1]);
      if Visible(files[|files| - 1]) then VisitSummaries(before, files[|files| - 1]) else before
  }

  /** The Python lengths the walk over `files` pushes, in order. */
  function WalkLengths(files: seq<SourceFile>): seq<int> {
    if files == [] then []
    else
      var last := files[|files| - 1];
      WalkLengths(files[..|files| - 1]) + (if Visible(last) then PythonLengthsOf(last) else [])
  }

  /** One more file walked. */
  lemma WalkStep(m: map<string, LanguageSummary>, files: seq<SourceFile>, i: nat)
    requires i < |files|
    ensures WalkSummaries(m, files[..i + 1]) ==
      if Visible(files[i]) then VisitSummaries(WalkSummaries(m, files[..i]), files[i]) else WalkSummaries(m, files[..i])
    ensures WalkLengths(files[..i + 1]) ==
      WalkLengths(files[..i]) + (if Visible(files[i]) then PythonLengthsOf(files[i]) else [])
  {
    assert files[..i + 1][..i] == files[..i];
  }

  /** Files inside excluded directories contribute nothing, wherever they
      come in the walk's order after the rest. */
  lemma {:induction false} WalkIgnoresExcluded(m: map<string, LanguageSummary>, files: seq<SourceFile>, hidden: seq<SourceFile>)
    requires forall k :: 0 <= k < |hidden| ==> !Visible(hidden[k])
    ensures WalkSummaries(m, files + hidden) == WalkSummaries(m, files)
    ensures WalkLengths(files + hidden) == WalkLengths(files)
    decreases |hidden|
  {
    if hidden == [] {
      assert files + hidden == files;
    } else {
      var front := hidden[..|hidden| - 1];
      assert (files + hidden)[..|files + hidden| - 1] == files + front;
      assert (files + hidden)[|files + hidden| - 1] == hidden[|hidden| - 1];
      WalkIgnoresExcluded(m, files, front);
    }
  }

  /** Visiting a file charges at most one language and keeps the keys among
      the three languages and the line total equal to the sum of the
      per-language line counts. */
  lemma VisitKeepsTotals(m: map<string, LanguageSummary>, f: SourceFile)
    requires m.Keys <= Languages
    ensures VisitSummaries(m, f).Keys <= Languages
    ensures LineTotal(VisitSummaries(m, f)) ==
      LineTotal(m) + (if LanguageOf(f.name).Some? then ContentLines(f.content) else 0)
  {
    LanguageOfMeaning(f.name);
  }

  /** The analysis result, filled in by `visitFile` and the finalisation. */
  class CodeStatsResult {
    var languageSummaries: map<string, LanguageSummary>
    var totalLines: nat
    var withinWorkspace: bool
    var directoryExists: bool
    var pythonFunctions: FunctionSummary

    /** Only the three language keys are written, and the total is always
        the sum of their line counts. */
    ghost predicate Valid()
      reads this
    {
      languageSummaries.Keys <= Languages && totalLines == LineTotal(languageSummaries)
    }

    /** Nothing counted yet. */
    predicate Untouched()
      reads this
    {
      languageSummaries == map[] && totalLines == 0 && pythonFunctions == EmptyFunctions
    }

    constructor()
      ensures Valid() && Untouched() && withinWorkspace && directoryExists
    {
      languageSummaries := map[];
      totalLines := 0;
      withinWorkspace := true;
      directoryExists := true;
      pythonFunctions := EmptyFunctions;
    }
  }

  /** `analyzePythonFile`: for each def line, measure its body and push the
      length (which is always positive, so the guard never drops one). */
  method AnalyzePythonFile(content: Option<seq<string>>, result: CodeStatsResult)
    modifies result`pythonFunctions
    ensures result.pythonFunctions == old(result.pythonFunctions).(lengths :=
      old(result.pythonFunctions).lengths + (if content.None? then [] else PythonDefLengths(content.value)))
  {
    if content.None? {
      return;
    }
    var lines := content.value;
    ghost var before := result.pythonFunctions;
    var i := 0;
    while i < |lines|
      invariant i <= |lines|
      invariant result.pythonFunctions == before.(lengths := before.lengths + DefLengthsUpTo(lines, i))
    {
      var trimmedLine := Trim(lines[i]);
      if StartsWith(trimmedLine, "def ") {
        var length := MeasureDef(lines, i);
        if length > 0 {
          result.pythonFunctions := result.pythonFunctions.(lengths := result.pythonFunctions.lengths + [length]);
        }
      }
      i := i + 1;
    }
  }

  /** `visitFile`: charge the file's logical lines to its language and the
      total, then scan a ".py" file for defs; other files are ignored. */
  method VisitFile(file: SourceFile, result: CodeStatsResult)
    requires result.Valid()
    modifies result`languageSummaries, result`totalLines, result`pythonFunctions
    ensures result.Valid()
    ensures result.languageSummaries == VisitSummaries(old(result.languageSummaries), file)
    ensures result.pythonFunctions == old(result.pythonFunctions).(lengths :=
      old(result.pythonFunctions).lengths + PythonLengthsOf(file))
  {
    var ext := Extension(file.name);
    var language := LanguageOf(file.name);
    if language.None? {
      return;
    }
    ChargeLines(file, language.value, result);
    if ext == ".py" {
      AnalyzePythonFile(file.content, result);
    }
  }

  /** The counting half of `visitFile`: one more file and its logical lines
      for `language`, and the lines added to the total. */
  method ChargeLines(file: SourceFile, language: string, result: CodeStatsResult)
    requires result.Valid() && LanguageOf(file.name) == Some(language)
    modifies result`languageSummaries, result`totalLines
    ensures result.Valid()
    ensures result.languageSummaries == VisitSummaries(old(result.languageSummaries), file)
  {
    VisitKeepsTotals(result.languageSummaries, file);
    var lineCount := CountLogicalLines(file.content);
    var summary := SummaryOf(result.languageSummaries, language);
    result.languageSummaries := result.languageSummaries[language :=
      summary.(fileCount := summary.fileCount + 1, lineCount := summary.lineCount + lineCount)];
    result.totalLines := result.totalLines + lineCount;
  }

  method Walk(files: seq<SourceFile>, result: CodeStatsResult)
    requires result.Valid()
    modifies result`languageSummaries, result`totalLines, result`pythonFunctions
    ensures result.Valid()
    ensures result.languageSummaries == WalkSummaries(old(result.languageSummaries), files)
    ensures result.pythonFunctions == old(result.pythonFunctions).(lengths :=
      old(result.pythonFunctions).lengths + WalkLengths(files))
  {
    ghost var m := result.languageSummaries;
    ghost var p := result.pythonFunctions;
    var i := 0;
    while i < |files|
      invariant i <= |files| && result.Valid()
      invariant result.languageSummaries == WalkSummaries(m, files[..i])
      invariant result.pythonFunctions == p.(lengths := p.lengths + WalkLengths(files[..i]))
    {
      WalkStep(m, files, i);
      ghost var added := if Visible(files[i]) then PythonLengthsOf(files[i]) else [];
      assert p.lengths + WalkLengths(files[..i + 1]) == (p.lengths + WalkLengths(files[..i])) + added;
      if Visible(files[i]) {
        VisitFile(files[i], result);
      }
      i := i + 1;
    }
    assert files[..i] == files;
  }

  /** The finalisation: with at least one length, sort the lengths and fill
      in count, minimum, maximum, average and median. */
  method FinalizePython(result: CodeStatsResult)
    modifies result`pythonFunctions
    ensures result.pythonFunctions == Finalized(old(result.pythonFunctions))
  {
    var py := result.pythonFunctions;
    if py.lengths != [] {
      var sorted := SortLengths(py.lengths);
      var n := |sorted|;
      var median;
      if n % 2 == 0 {
        var mid := n / 2;
        median := (sorted[mid - 1] + sorted[mid]) as real / 2.0;
      } else {
        median := sorted[n / 2] as real;
      }
      result.pythonFunctions := py.(
        lengths := sorted,
        functionCount := n,
        minLength := sorted[0],
        maxLength := sorted[n - 1],
        averageLength := Sum(sorted) as real / n as real,
        medianLength := median);
    }
  }

  /** `analyze`. `workspace` is the canonical current directory and
      `requested` the canonical requested directory, None when
      canonicalisation failed; `files` are the regular files below the
      requested directory in the walk's order. */
  method Analyze(workspace: Option<string>, requested: Option<string>, files: seq<SourceFile>)
    returns (result: CodeStatsResult)
    ensures fresh(result) && result.Valid()
    ensures workspace.None? ==>
      !result.withinWorkspace && !result.directoryExists && result.Untouched()
    ensures workspace.Some? && requested.None? ==>
      result.withinWorkspace && !result.directoryExists && result.Untouched()
    ensures workspace.Some? && requested.Some? && !IsSubDir(workspace.value, requested.value) ==>
      !result.withinWorkspace && result.directoryExists && result.Untouched()
    ensures workspace.Some? && requested.Some? && IsSubDir(workspace.value, requested.value) ==>
      && result.withinWorkspace && result.directoryExists
      && result.languageSummaries == WalkSummaries(map[], files)
      && result.pythonFunctions == Finalized(EmptyFunctions.(lengths := WalkLengths(files)))
  {
    result := new CodeStatsResult();
    if workspace.None? {
      result.withinWorkspace := false;
      result.directoryExists := false;
      return;
    }
    if requested.None? {
      result.directoryExists := false;
      return;
    }
    if !IsSubDir(workspace.value, requested.value) {
      result.withinWorkspace := false;
      return;
    }
    Walk(files, result);
    assert [] + WalkLengths(files) == WalkLengths(files);
    FinalizePython(result);
  }
}
