/**
 * The results page generator (htmlgenerator.py, class `HTMLGenerator`): results grouped
 * by benchmark file, the lookup of one result, the per-configuration totals, the
 * `h:mm:ss` time format and the name of the page file.
 */
module HtmlGenerator {
  import opened Wrappers
  import opened Text
  import opened CoraRunner

  /** `Result`: one entry of the results file, a benchmark file, its configuration and its outcome. */
  datatype Result = Result(file: string, config: Configuration, result: AnalysisResult)

  predicate Distinct(files: seq<string>)
  {
    forall i, j :: 0 <= i < j < |files| ==> files[i] != files[j]
  }

  /**
   * `results_by_file`, a `defaultdict(list)`: its keys in the order they were first
   * inserted, and the list kept under each key.
   */
  datatype Grouping = Grouping(files: seq<string>, groups: map<string, seq<Result>>) {
    predicate Valid()
    {
      Distinct(files) && (forall f :: f in files ==> f in groups) && forall f :: f in groups ==> f in files
    }
  }

  // ----- grouping by benchmark file -----

  /** The results for `file`, in input order. */
  function ResultsFor(results: seq<Result>, file: string): (r: seq<Result>)
    ensures |r| <= |results|
  {
    if |results| == 0 then []
    else
      var last := results[|results| - 1];
      ResultsFor(results[..|results| - 1], file) + (if last.file == file then [last] else [])
  }

  /** The distinct files of `results`, in the order of their first occurrence. */
  function FilesOf(results: seq<Result>): (r: seq<string>)
  {
    if |results| == 0 then []
    else
      var previous, f := FilesOf(results[..|results| - 1]), results[|results| - 1].file;
      if f in previous then previous else previous + [f]
  }

  lemma {:induction false} FilesOfDistinct(results: seq<Result>)
    ensures Distinct(FilesOf(results))
  {
    if |results| > 0 {
      FilesOfDistinct(results[..|results| - 1]);
    }
  }

  /** A file is listed exactly when some result names it. */
  lemma {:induction false} FilesOfMembers(results: seq<Result>)
    ensures forall f :: f in FilesOf(results) <==> exists i :: 0 <= i < |results| && results[i].file == f
  {
    if |results| > 0 {
      var prefix := results[..|results| - 1];
      FilesOfMembers(prefix);
      assert forall i :: 0 <= i < |prefix| ==> prefix[i] == results[i];
    }
  }

  /** What `sort_results` builds: each file, first seen first, with its results in input order. */
  function ByFile(results: seq<Result>): (g: Grouping)
  {
    var files := FilesOf(results);
    Grouping(files, map f | f in files :: ResultsFor(results, f))
  }

  /** The grouping keeps each file once, and its files and its keys are the same. */
  lemma ByFileValid(results: seq<Result>)
    ensures ByFile(results).Valid()
  {
    FilesOfDistinct(results);
  }

  /**
   * `HTMLGenerator.sort_results`: one pass that appends each result to the list of its
   * file, creating the list on the file's first occurrence.
   */
  method SortResults(results: seq<Result>) returns (byFile: Grouping)
    ensures byFile == ByFile(results)
  {
    byFile := Grouping([], map[]);
    for i := 0 to |results|
      invariant byFile == ByFile(results[..i])
    {
      var res := results[i];
      var group := if res.file in byFile.groups then byFile.groups[res.file] else [];
      var files := if res.file in byFile.groups then byFile.files else byFile.files + [res.file];
      byFile := Grouping(files, byFile.groups[res.file := group + [res]]);
      ByFileStep(results, i);
    }
    assert results[..|results|] == results;
  }

  /** Adding one result to the grouping of a prefix gives the grouping of the longer prefix. */
  lemma ByFileStep(results: seq<Result>, i: nat)
    requires i < |results|
    ensures var g, res := ByFile(results[..i]), results[i];
      ByFile(results[..i + 1])
      == Grouping(if res.file in g.groups then g.files else g.files + [res.file],
                  g.groups[res.file := (if res.file in g.groups then g.groups[res.file] else []) + [res]])
  {
    var before, res := results[..i], results[i];
    assert results[..i + 1] == before + [res];
    ByFileSnoc(before, res);
  }

  /** The grouping after one more result, stated on `xs + [x]`. */
  lemma ByFileSnoc(xs: seq<Result>, x: Result)
    ensures var g := ByFile(xs);
      ByFile(xs + [x])
      == Grouping(if x.file in g.groups then g.files else g.files + [x.file],
                  g.groups[x.file := (if x.file in g.groups then g.groups[x.file] else []) + [x]])
  {
    FilesOfSnoc(xs, x);
    GroupsSnoc(xs, x);
  }

  /** The map of groups after one more result. */
  lemma GroupsSnoc(xs: seq<Result>, x: Result)
    ensures var g := ByFile(xs);
      ByFile(xs + [x]).groups == g.groups[x.file := (if x.file in g.groups then g.groups[x.file] else []) + [x]]
  {
    var g, after := ByFile(xs), ByFile(xs + [x]);
    var expected := g.groups[x.file := (if x.file in g.groups then g.groups[x.file] else []) + [x]];
    KeysSnoc(xs, x);
    forall f | f in after.groups
      ensures after.groups[f] == expected[f]
    {
      GroupSnoc(xs, x, f);
    }
    SameGroups(after.groups, expected);
  }

  lemma KeysSnoc(xs: seq<Result>, x: Result)
    ensures ByFile(xs + [x]).groups.Keys == ByFile(xs).groups.Keys + {x.file}
  {
    FilesOfSnoc(xs, x);
  }

  /** Two maps of groups with the same files and the same list under each are equal. */
  lemma SameGroups(a: map<string, seq<Result>>, b: map<string, seq<Result>>)
    requires a.Keys == b.Keys
    requires forall f :: f in a ==> a[f] == b[f]
    ensures a == b
  {
  }

  /** One group after one more result. */
  lemma GroupSnoc(xs: seq<Result>, x: Result, file: string)
    requires file in ByFile(xs + [x]).groups
    ensures var g := ByFile(xs);
      ByFile(xs + [x]).groups[file]
      == (if file in g.groups then g.groups[file] else []) + (if x.file == file then [x] else [])
  {
    ResultsForSnoc(xs, x, file);
    if file !in FilesOf(xs) {
      NoResultsFor(xs, file);
    }
  }

  lemma FilesOfSnoc(xs: seq<Result>, x: Result)
    ensures FilesOf(xs + [x]) == if x.file in FilesOf(xs) then FilesOf(xs) else FilesOf(xs) + [x.file]
  {
    assert (xs + [x])[..|xs|] == xs;
  }

  lemma ResultsForSnoc(xs: seq<Result>, x: Result, file: string)
    ensures ResultsFor(xs + [x], file) == ResultsFor(xs, file) + (if x.file == file then [x] else [])
  {
    assert (xs + [x])[..|xs|] == xs;
  }

  /** A file that never occurs has no results. */
  lemma {:induction false} NoResultsFor(results: seq<Result>, file: string)
    requires file !in FilesOf(results)
    ensures ResultsFor(results, file) == []
  {
    if |results| > 0 {
      NoResultsFor(results[..|results| - 1], file);
    }
  }

  /** The list for `file` holds only results of the input list that name `file`. */
  lemma {:induction false} ResultsForMembers(results: seq<Result>, file: string)
    ensures forall x :: x in ResultsFor(results, file) ==> x in results && x.file == file
  {
    if |results| > 0 {
      var prefix := results[..|results| - 1];
      ResultsForMembers(prefix, file);
      assert forall x :: x in prefix ==> x in results;
    }
  }

  /** Every result is in the list of its own file. */
  lemma {:induction false} InOwnGroup(results: seq<Result>, i: nat)
    requires i < |results|
    ensures results[i] in ResultsFor(results, results[i].file)
  {
    if i < |results| - 1 {
      var prefix := results[..|results| - 1];
      InOwnGroup(prefix, i);
    }
  }

  /**
   * `sort_results` places every result in the list of its file and nowhere else, and
   * every list holds only results of its own file.
   */
  lemma Partition(results: seq<Result>)
    ensures var g := ByFile(results);
      && (forall i :: 0 <= i < |results| ==> results[i].file in g.groups && results[i] in g.groups[results[i].file])
      && (forall f, x :: f in g.groups && x in g.groups[f] ==> x.file == f && x in results)
  {
    FilesOfMembers(results);
    forall i | 0 <= i < |results|
      ensures results[i].file in ByFile(results).groups && results[i] in ByFile(results).groups[results[i].file]
    {
      InOwnGroup(results, i);
    }
    forall f, x | f in ByFile(results).groups && x in ByFile(results).groups[f]
      ensures x.file == f && x in results
    {
      ResultsForMembers(results, f);
    }
  }

  // ----- counting -----

  /** Which results a total counts: all of them, or those of one configuration with one result type. */
  datatype Selector = All | Outcome(config: Configuration, resultType: string)

  predicate Selects(s: Selector, r: Result)
  {
    match s
    case All => true
    case Outcome(config, resultType) => r.config == config && r.result.resultType == resultType
  }

  /** The number of results that `s` selects. */
  function CountWhere(results: seq<Result>, s: Selector): (n: nat)
    ensures n <= |results|
  {
    if |results| == 0 then 0
    else CountWhere(results[..|results| - 1], s) + (if Selects(s, results[|results| - 1]) then 1 else 0)
  }

  lemma {:induction false} CountAll(results: seq<Result>)
    ensures CountWhere(results, All) == |results|
  {
    if |results| > 0 {
      CountAll(results[..|results| - 1]);
    }
  }

  /** The selected results summed over the lists of `files`. */
  function SumCounts(files: seq<string>, groups: map<string, seq<Result>>, s: Selector): nat
    requires forall f :: f in files ==> f in groups
  {
    if |files| == 0 then 0
    else SumCounts(files[..|files| - 1], groups, s) + CountWhere(groups[files[|files| - 1]], s)
  }

  lemma CountWhereStep(results: seq<Result>, j: nat, s: Selector)
    requires j < |results|
    ensures CountWhere(results[..j + 1], s) == CountWhere(results[..j], s) + (if Selects(s, results[j]) then 1 else 0)
  {
    assert results[..j + 1][..j] == results[..j];
  }

  lemma SumCountsStep(files: seq<string>, groups: map<string, seq<Result>>, i: nat, s: Selector)
    requires i < |files| && forall f :: f in files ==> f in groups
    ensures SumCounts(files[..i + 1], groups, s) == SumCounts(files[..i], groups, s) + CountWhere(groups[files[i]], s)
  {
    assert files[..i + 1][..i] == files[..i];
  }

  /** The selected results for each of `files`, summed, counted on the input list. */
  function SumFor(files: seq<string>, results: seq<Result>, s: Selector): nat
  {
    if |files| == 0 then 0
    else SumFor(files[..|files| - 1], results, s) + CountWhere(ResultsFor(results, files[|files| - 1]), s)
  }

  lemma {:induction false} SumCountsByFile(files: seq<string>, results: seq<Result>, s: Selector)
    requires forall f :: f in files ==> f in FilesOf(results)
    ensures SumCounts(files, ByFile(results).groups, s) == SumFor(files, results, s)
  {
    if |files| > 0 {
      SumCountsByFile(files[..|files| - 1], results, s);
    }
  }

  /** One more result raises the sum over distinct files by one exactly when its file is among them and it is selected. */
  lemma {:induction false} SumForStep(files: seq<string>, results: seq<Result>, r: Result, s: Selector)
    requires Distinct(files)
    ensures SumFor(files, results + [r], s)
         == SumFor(files, results, s) + (if r.file in files && Selects(s, r) then 1 else 0)
  {
    if |files| > 0 {
      var prefix, f := files[..|files| - 1], files[|files| - 1];
      SumForStep(prefix, results, r, s);
      var group := ResultsFor(results, f);
      assert (results + [r])[..|results|] == results;
      assert ResultsFor(results + [r], f) == group + (if r.file == f then [r] else []);
      if r.file == f {
        assert (group + [r])[..|group|] == group;
      } else {
        assert group + [] == group;
      }
      assert r.file in files <==> r.file in prefix || r.file == f;
      assert r.file == f ==> r.file !in prefix;
    }
  }

  /** Summing the totals of the lists of every file counts every result once. */
  lemma {:induction false} SumOverFiles(results: seq<Result>, s: Selector)
    ensures SumFor(FilesOf(results), results, s) == CountWhere(results, s)
  {
    if |results| > 0 {
      var prefix, r := results[..|results| - 1], results[|results| - 1];
      assert results == prefix + [r];
      SumOverFiles(prefix, s);
      SumOverFilesSnoc(prefix, r, s);
    }
  }

  lemma SumOverFilesSnoc(xs: seq<Result>, r: Result, s: Selector)
    requires SumFor(FilesOf(xs), xs, s) == CountWhere(xs, s)
    ensures SumFor(FilesOf(xs + [r]), xs + [r], s) == CountWhere(xs + [r], s)
  {
    CountWhereSnoc(xs, r, s);
    FilesOfSnoc(xs, r);
    if r.file in FilesOf(xs) {
      SumForKnownFile(xs, r, s);
    } else {
      NoResultsFor(xs, r.file);
      SumForNewFile(FilesOf(xs), xs, r, s);
    }
  }

  lemma SumForKnownFile(xs: seq<Result>, r: Result, s: Selector)
    requires r.file in FilesOf(xs)
    ensures SumFor(FilesOf(xs), xs + [r], s) == SumFor(FilesOf(xs), xs, s) + (if Selects(s, r) then 1 else 0)
  {
    FilesOfDistinct(xs);
    SumForStep(FilesOf(xs), xs, r, s);
  }

  lemma SumForNewFile(files: seq<string>, xs: seq<Result>, r: Result, s: Selector)
    requires r.file !in files && ResultsFor(xs, r.file) == []
    ensures SumFor(files + [r.file], xs + [r], s) == SumFor(files, xs, s) + (if Selects(s, r) then 1 else 0)
  {
    SumForOtherFile(files, xs, r, s);
    SumForSnoc(files, xs + [r], r.file, s);
    ResultsForSnoc(xs, r, r.file);
    assert [] + [r] == [r];
    CountWhereSnoc([], r, s);
  }

  /** A result for a file outside `files` leaves the sum over `files` unchanged. */
  lemma {:induction false} SumForOtherFile(files: seq<string>, xs: seq<Result>, r: Result, s: Selector)
    requires r.file !in files
    ensures SumFor(files, xs + [r], s) == SumFor(files, xs, s)
  {
    if |files| > 0 {
      var prefix, f := files[..|files| - 1], files[|files| - 1];
      assert r.file !in prefix by {
        assert forall g :: g in prefix ==> g in files;
      }
      SumForOtherFile(prefix, xs, r, s);
      ResultsForSnoc(xs, r, f);
      assert ResultsFor(xs, f) + [] == ResultsFor(xs, f);
    }
  }

  lemma CountWhereSnoc(xs: seq<Result>, r: Result, s: Selector)
    ensures CountWhere(xs + [r], s) == CountWhere(xs, s) + (if Selects(s, r) then 1 else 0)
  {
    assert (xs + [r])[..|xs|] == xs;
  }

  lemma SumForSnoc(files: seq<string>, results: seq<Result>, f: string, s: Selector)
    ensures SumFor(files + [f], results, s) == SumFor(files, results, s) + CountWhere(ResultsFor(results, f), s)
  {
    assert (files + [f])[..|files|] == files;
  }

  /** A total taken over the grouped lists is the same total over the input list. */
  lemma GroupedCount(results: seq<Result>, s: Selector)
    ensures SumCounts(ByFile(results).files, ByFile(results).groups, s) == CountWhere(results, s)
  {
    SumCountsByFile(FilesOf(results), results, s);
    SumOverFiles(results, s);
  }

  /** The list lengths of `sort_results` sum to the number of results. */
  lemma GroupSizes(results: seq<Result>)
    ensures SumCounts(ByFile(results).files, ByFile(results).groups, All) == |results|
  {
    GroupedCount(results, All);
    CountAll(results);
  }

  /** The generator after construction: its results, and those results grouped by file. */
  datatype Generator = Generator(results: seq<Result>, resultsByFile: Grouping) {
    predicate Valid()
    {
      resultsByFile == ByFile(results)
    }
  }

  /**
   * The grouping step of `HTMLGenerator.__init__`: the results, read from the results
   * file, are kept together with `sort_results` of them.
   */
  method NewGenerator(results: seq<Result>) returns (gen: Generator)
    ensures gen.results == results && gen.Valid()
  {
    var byFile := SortResults(results);
    gen := Generator(results, byFile);
  }

  /**
   * The loops shared by `get_nr_success` and `get_total_timeouts`: over the lists of
   * the grouping, over the results of each list, counting those that `s` selects.
   */
  method CountResults(gen: Generator, s: Selector) returns (n: nat)
    requires gen.Valid()
    ensures n == CountWhere(gen.results, s)
    ensures n <= |gen.results|
  {
    var files, groups := gen.resultsByFile.files, gen.resultsByFile.groups;
    assert forall f :: f in files ==> f in groups;
    n := 0;
    for i := 0 to |files|
      invariant n == SumCounts(files[..i], groups, s)
    {
      var results := groups[files[i]];
      for j := 0 to |results|
        invariant n == SumCounts(files[..i], groups, s) + CountWhere(results[..j], s)
      {
        if Selects(s, results[j]) {
          n := n + 1;
        }
        CountWhereStep(results, j, s);
      }
      assert results[..|results|] == results;
      SumCountsStep(files, groups, i, s);
    }
    assert files[..|files|] == files;
    GroupedCount(gen.results, s);
  }

  /** `HTMLGenerator.get_nr_success`: the results of `config` that were found non-terminating. */
  method GetNrSuccess(gen: Generator, config: Configuration) returns (n: nat)
    requires gen.Valid()
    ensures n == CountWhere(gen.results, Outcome(config, "NONTERMINATES"))
    ensures n <= |gen.results|
  {
    n := CountResults(gen, Outcome(config, "NONTERMINATES"));
  }

  /** `HTMLGenerator.get_total_timeouts`: the results of `config` that timed out. */
  method GetTotalTimeouts(gen: Generator, config: Configuration) returns (n: nat)
    requires gen.Valid()
    ensures n == CountWhere(gen.results, Outcome(config, "TIMEOUT"))
    ensures n <= |gen.results|
  {
    n := CountResults(gen, Outcome(config, "TIMEOUT"));
  }

  // ----- the result of one configuration on one file -----

  /** The outcome of the first result in `group` whose configuration is `config`. */
  function FirstMatch(group: seq<Result>, config: Configuration): Option<AnalysisResult>
  {
    if |group| == 0 then None
    else
      var first := FirstMatch(group[..|group| - 1], config);
      if first.Some? then first
      else if group[|group| - 1].config == config then Some(group[|group| - 1].result)
      else None
  }

  /** The outcome of the first of all `results` that is for `file` and `config`. */
  function FirstResult(results: seq<Result>, file: string, config: Configuration): Option<AnalysisResult>
  {
    if |results| == 0 then None
    else
      var first, last := FirstResult(results[..|results| - 1], file, config), results[|results| - 1];
      if first.Some? then first
      else if last.file == file && last.config == config then Some(last.result)
      else None
  }

  /**
   * `FirstResult` finds the earliest result for the file and the configuration, and
   * finds nothing exactly when there is none.
   */
  lemma {:induction false} FirstResultFound(results: seq<Result>, file: string, config: Configuration)
    ensures FirstResult(results, file, config).None?
        <==> forall i :: 0 <= i < |results| ==> !(results[i].file == file && results[i].config == config)
    ensures FirstResult(results, file, config).Some? ==>
      exists i :: && 0 <= i < |results| && results[i].file == file && results[i].config == config
                  && FirstResult(results, file, config).value == results[i].result
                  && forall j :: 0 <= j < i ==> !(results[j].file == file && results[j].config == config)
  {
    if |results| > 0 {
      var prefix := results[..|results| - 1];
      FirstResultFound(prefix, file, config);
      assert forall i :: 0 <= i < |prefix| ==> prefix[i] == results[i];
    }
  }

  /** Scanning the list of `file` finds what scanning all results for `file` finds. */
  lemma {:induction false} FirstInGroup(results: seq<Result>, file: string, config: Configuration)
    ensures FirstMatch(ResultsFor(results, file), config) == FirstResult(results, file, config)
  {
    if |results| > 0 {
      var prefix, last := results[..|results| - 1], results[|results| - 1];
      FirstInGroup(prefix, file, config);
      if last.file == file {
        var group := ResultsFor(prefix, file) + [last];
        assert group[..|group| - 1] == ResultsFor(prefix, file);
      } else {
        assert ResultsFor(prefix, file) + [] == ResultsFor(prefix, file);
      }
    }
  }

  /** One more element scanned after a prefix without a match. */
  lemma FirstMatchStep(group: seq<Result>, i: nat, config: Configuration)
    requires i < |group| && FirstMatch(group[..i], config) == None
    ensures FirstMatch(group[..i + 1], config)
        == if group[i].config == config then Some(group[i].result) else None
  {
    assert group[..i + 1][..i] == group[..i];
  }

  /** Once a prefix of the list holds a match, the longer list has the same first match. */
  lemma {:induction false} FirstMatchPrefix(group: seq<Result>, k: nat, config: Configuration)
    requires k <= |group| && FirstMatch(group[..k], config).Some?
    ensures FirstMatch(group, config) == FirstMatch(group[..k], config)
  {
    if k < |group| {
      var prefix := group[..|group| - 1];
      assert prefix[..k] == group[..k];
      FirstMatchPrefix(prefix, k, config);
    } else {
      assert group[..k] == group;
    }
  }

  /** The list kept under `file`, or none, holds the first result `FirstResult` finds. */
  lemma GroupLookup(gen: Generator, file: string, config: Configuration)
    requires gen.Valid()
    ensures var groups := gen.resultsByFile.groups;
      FirstMatch(if file in groups then groups[file] else [], config) == FirstResult(gen.results, file, config)
  {
    if file !in gen.resultsByFile.groups {
      NoResultsFor(gen.results, file);
    }
    FirstInGroup(gen.results, file, config);
  }

  /**
   * `HTMLGenerator.get_result`: the outcome of the first result for `file` whose
   * configuration equals `config`, or `None`; a file with no results has none.
   */
  method GetResult(gen: Generator, config: Configuration, file: string) returns (r: Option<AnalysisResult>)
    requires gen.Valid()
    ensures r == FirstResult(gen.results, file, config)
  {
    var groups := gen.resultsByFile.groups;
    var group := if file in groups then groups[file] else [];
    GroupLookup(gen, file, config);
    for i := 0 to |group|
      invariant FirstMatch(group[..i], config) == None
    {
      FirstMatchStep(group, i, config);
      if group[i].config == config {
        FirstMatchPrefix(group, i + 1, config);
        return Some(group[i].result);
      }
    }
    assert group[..|group|] == group;
    return None;
  }

  // ----- the time format -----

  /** `'{:02d}'.format(n)` for `n < 100`: two digits, with a leading zero below ten. */
  function Pad2(n: nat): (s: string)
    requires n < 100
    ensures |s| == 2 && AllDigits(s) && DigitsValue(s) == n
  {
    var s := [DigitChar(n / 10), DigitChar(n % 10)];
    assert s[..1] == [DigitChar(n / 10)] && s[..1][..0] == [];
    assert DigitsValue(s[..1]) == n / 10;
    assert s[1] as int - '0' as int == n % 10;
    s
  }

  /**
   * `HTMLGenerator.format_millis` for a whole number of milliseconds: the hours of the
   * day, then minutes and seconds with two digits each.
   */
  function FormatMillis(millis: nat): string
  {
    var seconds := (millis / 1000) % 60;
    var minutes := (millis / 60000) % 60;
    var hours := (millis / 3600000) % 24;
    NatToString(hours) + ":" + Pad2(minutes) + ":" + Pad2(seconds)
  }

  /**
   * The three fields of the formatted time read back as numbers give the whole seconds
   * of `millis` within its day; minutes and seconds have two digits each.
   */
  lemma FormatMillisReadBack(millis: nat)
    ensures var parts := Split(FormatMillis(millis), ':');
      && |parts| == 3 && |parts[1]| == 2 && |parts[2]| == 2
      && ParseInt(parts[0]).Some? && ParseInt(parts[1]).Some? && ParseInt(parts[2]).Some?
      && var h, m, s := ParseInt(parts[0]).value, ParseInt(parts[1]).value, ParseInt(parts[2]).value;
         && 0 <= h < 24 && 0 <= m < 60 && 0 <= s < 60
         && h * 3600 + m * 60 + s == (millis / 1000) % 86400
  {
    var seconds := (millis / 1000) % 60;
    var minutes := (millis / 60000) % 60;
    var hours := (millis / 3600000) % 24;
    var pieces := [NatToString(hours), Pad2(minutes), Pad2(seconds)];
    assert Join(pieces, ":") == FormatMillis(millis) by {
      assert Join(pieces[2..], ":") == Pad2(seconds);
      assert Join(pieces[1..], ":") == Pad2(minutes) + ":" + Pad2(seconds);
    }
    assert FreeOf(pieces, ':') by {
      forall i | 0 <= i < 3
        ensures ':' !in pieces[i]
      {
        assert AllDigits(pieces[i]);
      }
    }
    SplitJoin(pieces, ':');
    ParseIntToString(hours);
    DayClock(millis / 1000);
    assert millis / 60000 == (millis / 1000) / 60;
    assert millis / 3600000 == (millis / 1000) / 3600;
  }

  /** Hours, minutes and seconds of a count of seconds recombine to the seconds within the day. */
  lemma DayClock(t: nat)
    ensures ((t / 3600) % 24) * 3600 + ((t / 60) % 60) * 60 + t % 60 == t % 86400
  {
    var q, s := t / 60, t % 60;
    var h, m := q / 60, q % 60;
    var d, hh := h / 24, h % 24;
    HoursOf(t, q, s, h, m);
    var r := Recombine(t, q, s, h, m, d, hh);
    WithinDay(t, d, r);
  }

  /** Whole hours of `t` seconds, taken as minutes of minutes. */
  lemma HoursOf(t: nat, q: nat, s: nat, h: nat, m: nat)
    requires t == 60 * q + s && s < 60 && q == 60 * h + m && m < 60
    ensures t / 3600 == h
  {
  }

  /** The clock fields add up to `t` less its whole days. */
  lemma Recombine(t: nat, q: nat, s: nat, h: nat, m: nat, d: nat, hh: nat) returns (r: nat)
    requires t == 60 * q + s && s < 60 && q == 60 * h + m && m < 60 && h == 24 * d + hh && hh < 24
    ensures r == 3600 * hh + 60 * m + s && r < 86400 && t == 86400 * d + r
  {
    r := 3600 * hh + 60 * m + s;
  }

  /** The remainder of a day count is what is left after the whole days. */
  lemma WithinDay(t: nat, d: nat, r: nat)
    requires t == 86400 * d + r && r < 86400
    ensures t % 86400 == r
  {
  }

  // ----- the page file -----

  /** The suffix rule of `HTMLGenerator.generate_html`: `.html` is appended unless already there. */
  function HtmlName(outputFile: string): (name: string)
    ensures EndsWith(name, ".html")
    ensures outputFile <= name
    ensures name == outputFile <==> EndsWith(outputFile, ".html")
  {
    if EndsWith(outputFile, ".html") then outputFile else outputFile + ".html"
  }

  /** Applying the suffix rule twice gives what applying it once gives. */
  lemma HtmlNameIdempotent(outputFile: string)
    ensures HtmlName(HtmlName(outputFile)) == HtmlName(outputFile)
  {
  }
}
