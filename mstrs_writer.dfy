/**
 * The file system the converter writes into: a map from path to file contents, and the
 * set of paths that are directories. `Path.exists`, `mkdir` and `open(path, 'w')` act on it.
 */
module FileStore {

  class FileSystem {
    var files: map<string, string>
    var dirs: set<string>

    constructor (files: map<string, string>, dirs: set<string>)
      ensures this.files == files && this.dirs == dirs
    {
      this.files := files;
      this.dirs := dirs;
    }

    /** `Path(p).exists()`: a file or a directory is there. */
    predicate Exists(p: string)
      reads this
    {
      p in files || p in dirs
    }

    /** `mkdir(p)`. */
    method Mkdir(p: string)
      modifies this
      ensures files == old(files) && dirs == old(dirs) + {p}
    {
      dirs := dirs + {p};
    }

    /** `open(p, 'w')`: the file exists from now on, empty. */
    method Create(p: string)
      modifies this
      ensures files == old(files)[p := ""] && dirs == old(dirs)
    {
      files := files[p := ""];
    }

    /** `f.write(text)` on a file opened for writing. */
    method Append(p: string, text: string)
      requires p in files
      modifies this
      ensures files == old(files)[p := old(files)[p] + text] && dirs == old(dirs)
    {
      files := files[p := files[p] + text];
    }
  }
}

/**
 * The MSTRS writer (converter.py, class `MSTRSWriter`): the `(SIG ...)` block of
 * signature entries, the `(RULES ...)` block of printed rules, and the write that refuses
 * an existing path.
 */
module MstrsWriter {
  import opened Wrappers
  import opened Text
  import opened Errors
  import opened Terms
  import opened FileStore

  /**
   * One entry of `generate_signature`: the name, the argument sorts joined by spaces,
   * an arrow and the output sort (`signature[-1]` raises on an empty sort list).
   */
  function SignatureLine(f: FunctionSymbol): Result<string, Error>
  {
    if |f.signature| == 0 then Failure(EmptySignature(f.name))
    else
      var n := |f.signature|;
      Success(f.name + " " + Join(f.signature[..n - 1], " ") + " -> " + f.signature[n - 1])
  }

  /** The entries of every symbol, in stored order; the first failing one's error otherwise. */
  function SignatureLines(signature: seq<FunctionSymbol>): Result<seq<string>, Error>
  {
    if |signature| == 0 then Success([])
    else
      var first :- SignatureLine(signature[0]);
      var rest :- SignatureLines(signature[1..]);
      Success([first] + rest)
  }

  /** `'({})'.format(x)` for every entry. */
  function Parenthesized(lines: seq<string>): (r: seq<string>)
    ensures |r| == |lines| && forall i :: 0 <= i < |lines| ==> r[i] == "(" + lines[i] + ")"
  {
    if |lines| == 0 then [] else ["(" + lines[0] + ")"] + Parenthesized(lines[1..])
  }

  /** A section: `(HEAD`, the items indented by two spaces on lines of their own, then `)`. */
  function Block(head: string, items: seq<string>): string
  {
    "(" + head + "\n  " + Join(items, "\n  ") + "\n)"
  }

  function SignatureBlock(signature: seq<FunctionSymbol>): Result<string, Error>
  {
    var lines :- SignatureLines(signature);
    Success(Block("SIG", Parenthesized(lines)))
  }

  /** The printed rules, in stored order; the first failing one's error otherwise. */
  function RuleLines(rules: seq<Rule>): Result<seq<string>, Error>
  {
    if |rules| == 0 then Success([])
    else
      var first :- RuleString(rules[0]);
      var rest :- RuleLines(rules[1..]);
      Success([first] + rest)
  }

  /** `MSTRSWriter.generate_rules`. */
  function GenerateRules(trs: Trs): Result<string, Error>
  {
    var lines :- RuleLines(trs.rules);
    Success(Block("RULES", lines))
  }

  /** The whole MSTRS text: the signature block, a newline, the rules block. */
  function Mstrs(trs: Trs): Result<string, Error>
  {
    var signature :- SignatureBlock(trs.signature);
    var rules :- GenerateRules(trs);
    Success(signature + "\n" + rules)
  }

  /** `MSTRSWriter.generate_signature`: one entry per symbol, appended in stored order, then the block. */
  method GenerateSignature(trs: Trs) returns (r: Result<string, Error>)
    ensures r == SignatureBlock(trs.signature)
  {
    var signature := trs.signature;
    var lines: seq<string> := [];
    var i := 0;
    assert signature[i..] == signature;
    PrependNothing(SignatureLines(signature));
    while i < |signature|
      invariant 0 <= i <= |signature|
      invariant SignatureLines(signature) == Prepend(lines, SignatureLines(signature[i..]))
    {
      var f := signature[i];
      if |f.signature| == 0 {
        return Failure(EmptySignature(f.name));
      }
      var outSort := f.signature[|f.signature| - 1];
      var restSorts := Join(f.signature[..|f.signature| - 1], " ");
      var line := f.name + " " + restSorts + " -> " + outSort;
      assert signature[i..][1..] == signature[i + 1..];
      assert SignatureLines(signature[i..]) == Prepend([line], SignatureLines(signature[i + 1..]));
      PrependOne(lines, line, SignatureLines(signature[i + 1..]));
      lines := lines + [line];
      i := i + 1;
    }
    assert signature[i..] == [] && lines + [] == lines;
    return Success(Block("SIG", Parenthesized(lines)));
  }

  /** `MSTRSWriter.generate_mstrs`. */
  method GenerateMstrs(trs: Trs) returns (r: Result<string, Error>)
    ensures r == Mstrs(trs)
  {
    var signature := GenerateSignature(trs);
    if signature.Failure? {
      return Failure(signature.error);
    }
    var rules := GenerateRules(trs);
    if rules.Failure? {
      return Failure(rules.error);
    }
    return Success(signature.value + "\n" + rules.value);
  }

  /**
   * What `write_to_file` leaves behind when the text renders as `rendered`: nothing
   * changes when the path exists; otherwise `open` creates the file before the text is
   * rendered, so it holds the text, or stays empty when rendering raised.
   */
  function WriteText(files: map<string, string>, dirs: set<string>, outfile: string, rendered: Result<string, Error>)
    : (r: (map<string, string>, Outcome<Error>))
    ensures outfile in files || outfile in dirs ==> r.0 == files && r.1 == Fail(FileExists(outfile))
    ensures outfile !in files && outfile !in dirs ==>
      && r.0.Keys == files.Keys + {outfile}
      && (forall p :: p in files ==> r.0[p] == files[p])
      && (r.1 == Pass <==> rendered.Success?)
      && (rendered.Failure? ==> r.1 == Fail(rendered.error))
      && r.0[outfile] == (if rendered.Success? then rendered.value else "")
  {
    if outfile in files || outfile in dirs then (files, Fail(FileExists(outfile)))
    else match rendered
      case Success(text) => (files[outfile := text], Pass)
      case Failure(e) => (files[outfile := ""], Fail(e))
  }

  /** `MSTRSWriter.write_to_file`. */
  method WriteToFile(fs: FileSystem, trs: Trs, outfile: string) returns (outcome: Outcome<Error>)
    modifies fs
    ensures (fs.files, outcome) == WriteText(old(fs.files), old(fs.dirs), outfile, Mstrs(trs))
    ensures fs.dirs == old(fs.dirs)
  {
    if fs.Exists(outfile) {
      return Fail(FileExists(outfile));
    }
    fs.Create(outfile);
    var text := GenerateMstrs(trs);
    if text.Failure? {
      return Fail(text.error);
    }
    ghost var before := fs.files;
    fs.Append(outfile, text.value);
    assert "" + text.value == text.value;
    assert fs.files == before[outfile := text.value];
    assert before[outfile := text.value] == old(fs.files)[outfile := text.value];
    return Pass;
  }

  // ----- what the writer promises -----

  /**
   * The signature entry of a symbol the reader built: a negative arity makes
   * `signature[-1]` raise; a constant gives `name  -> a`, with two spaces; arity `k > 0`
   * gives the name, then exactly `k` space-separated `a` tokens, then `-> a`.
   */
  lemma SignatureLineOfArity(name: string, arity: int)
    ensures arity < 0 ==> SignatureLine(SymbolOfArity(name, arity)) == Failure(EmptySignature(name))
    ensures arity == 0 ==> SignatureLine(SymbolOfArity(name, arity)) == Success(name + "  -> " + SortToken)
    ensures arity > 0 ==>
      && SignatureLine(SymbolOfArity(name, arity)) == Success(name + " " + Join(Repeat(SortToken, arity), " ") + " -> " + SortToken)
      && Split(Join(Repeat(SortToken, arity), " "), ' ') == Repeat(SortToken, arity)
  {
    var f := SymbolOfArity(name, arity);
    if arity == 0 {
      assert f.signature[..0] == [];
      assert name + " " + Join([], " ") + " -> " + SortToken == name + "  -> " + SortToken;
    } else if arity > 0 {
      assert f.signature[..arity] == Repeat(SortToken, arity);
      SplitJoin(Repeat(SortToken, arity), ' ');
    }
  }

  lemma {:induction false} SignatureLinesEntries(signature: seq<FunctionSymbol>)
    ensures SignatureLines(signature).Success? <==>
      forall i :: 0 <= i < |signature| ==> SignatureLine(signature[i]).Success?
    ensures SignatureLines(signature).Success? ==>
      && |SignatureLines(signature).value| == |signature|
      && forall i :: 0 <= i < |signature| ==> SignatureLine(signature[i]) == Success(SignatureLines(signature).value[i])
  {
    if |signature| > 0 {
      SignatureLinesEntries(signature[1..]);
      assert forall i :: 1 <= i < |signature| ==> signature[i] == signature[1..][i - 1];
    }
  }

  lemma {:induction false} RuleLinesEntries(rules: seq<Rule>)
    ensures RuleLines(rules).Success? <==> forall i :: 0 <= i < |rules| ==> RuleString(rules[i]).Success?
    ensures RuleLines(rules).Success? ==>
      && |RuleLines(rules).value| == |rules|
      && forall i :: 0 <= i < |rules| ==> RuleString(rules[i]) == Success(RuleLines(rules).value[i])
  {
    if |rules| > 0 {
      RuleLinesEntries(rules[1..]);
      assert forall i :: 1 <= i < |rules| ==> rules[i] == rules[1..][i - 1];
    }
  }

  /**
   * Rendering fails exactly when some symbol has no sorts or some rule uses an undeclared
   * symbol; when every symbol has a sort, an undeclared symbol is the only possible error.
   */
  lemma MstrsSucceeds(trs: Trs)
    ensures Mstrs(trs).Success? <==>
      && (forall i :: 0 <= i < |trs.signature| ==> |trs.signature[i].signature| > 0)
      && (forall j :: 0 <= j < |trs.rules| ==> Resolved(trs.rules[j].left) && Resolved(trs.rules[j].right))
    ensures (forall i :: 0 <= i < |trs.signature| ==> |trs.signature[i].signature| > 0) && Mstrs(trs).Failure? ==>
      Mstrs(trs).error == UnresolvedSymbol
  {
    SignatureLinesEntries(trs.signature);
    RuleLinesEntries(trs.rules);
    forall j | 0 <= j < |trs.rules|
      ensures RuleString(trs.rules[j]).Success? <==> Resolved(trs.rules[j].left) && Resolved(trs.rules[j].right)
      ensures RuleString(trs.rules[j]).Failure? ==> RuleString(trs.rules[j]).error == UnresolvedSymbol
    {
      RulePrintForm(trs.rules[j]);
      TermStringSucceeds(trs.rules[j].left);
      TermStringSucceeds(trs.rules[j].right);
    }
    if (forall i :: 0 <= i < |trs.signature| ==> |trs.signature[i].signature| > 0) && Mstrs(trs).Failure? {
      RuleLinesFailure(trs.rules);
    }
  }

  lemma {:induction false} RuleLinesFailure(rules: seq<Rule>)
    requires forall j :: 0 <= j < |rules| ==> RuleString(rules[j]).Failure? ==> RuleString(rules[j]).error == UnresolvedSymbol
    ensures RuleLines(rules).Failure? ==> RuleLines(rules).error == UnresolvedSymbol
  {
    if |rules| > 0 {
      RuleLinesFailure(rules[1..]);
      assert forall j :: 1 <= j < |rules| ==> rules[j] == rules[1..][j - 1];
    }
  }

  /** Each item behind a two-space indent. */
  function Indented(items: seq<string>): (r: seq<string>)
    ensures |r| == |items| && forall i :: 0 <= i < |items| ==> r[i] == "  " + items[i]
  {
    if |items| == 0 then [] else ["  " + items[0]] + Indented(items[1..])
  }

  lemma {:induction false} IndentedJoin(items: seq<string>)
    requires |items| >= 1
    ensures "  " + Join(items, "\n  ") == Join(Indented(items), "\n")
  {
    if |items| > 1 {
      IndentedJoin(items[1..]);
      assert Indented(items)[1..] == Indented(items[1..]);
      assert "  " + (items[0] + "\n  " + Join(items[1..], "\n  "))
          == ("  " + items[0]) + "\n" + ("  " + Join(items[1..], "\n  "));
    }
  }

  /** A non-empty section is the lines `(HEAD`, each item indented, and `)`, joined by newlines. */
  lemma BlockLines(head: string, items: seq<string>)
    requires |items| >= 1
    ensures Block(head, items) == Join(SectionLines(head, items), "\n")
  {
    var open, body, lines := "(" + head, Join(items, "\n  "), Indented(items);
    IndentedJoin(items);
    JoinFramed(open, lines, ")", "\n");
    BlockShape(open, body, Join(lines, "\n"));
  }

  lemma BlockShape(open: string, body: string, indented: string)
    requires "  " + body == indented
    ensures open + "\n  " + body + "\n)" == open + "\n" + indented + "\n" + ")"
  {
    assert "\n  " == "\n" + "  ";
    assert "\n)" == "\n" + ")";
  }

  /** An empty section still has its wrapper, around one line of two spaces. */
  lemma EmptyBlocks()
    ensures Mstrs(Trs([], [])) == Success("(SIG\n  \n)\n(RULES\n  \n)")
  {
    assert SignatureLines([]) == Success([]) && Parenthesized([]) == [];
    assert SignatureBlock([]) == Success(Block("SIG", []));
    assert RuleLines([]) == Success([]);
    assert GenerateRules(Trs([], [])) == Success(Block("RULES", []));
    assert Block("SIG", []) == "(SIG\n  \n)";
    assert Block("RULES", []) == "(RULES\n  \n)";
    assert "(SIG\n  \n)" + "\n" + "(RULES\n  \n)" == "(SIG\n  \n)\n(RULES\n  \n)";
  }

  /** The lines of a non-empty section: `(HEAD`, each item indented, `)`. */
  function SectionLines(head: string, items: seq<string>): seq<string>
  {
    ["(" + head] + Indented(items) + [")"]
  }

  /**
   * The layout of a rendered system whose entries are one line each: `(SIG`, one
   * indented, parenthesized entry per symbol in stored order, `)`, then `(RULES`, one
   * indented rule per rule in stored order, `)`. `entries` and `rules` are the rendered
   * entries, which `SignatureLinesEntries` and `RuleLinesEntries` tie to each symbol and
   * rule; `m` and `n` count them.
   */
  lemma MstrsLayout(trs: Trs, entries: seq<string>, rules: seq<string>, m: nat, n: nat)
    requires SignatureLines(trs.signature) == Success(entries) && RuleLines(trs.rules) == Success(rules)
    requires m == |entries| >= 1 && n == |rules| >= 1 && FreeOf(entries, '\n') && FreeOf(rules, '\n')
    ensures Mstrs(trs).Success?
    ensures var lines := Split(Mstrs(trs).value, '\n');
      && |lines| == m + n + 4
      && lines[0] == "(SIG"
      && (forall i :: 0 <= i < m ==> lines[1 + i] == "  (" + entries[i] + ")")
      && lines[m + 1] == ")"
      && lines[m + 2] == "(RULES"
      && (forall j :: 0 <= j < n ==> lines[m + 3 + j] == "  " + rules[j])
      && lines[m + n + 3] == ")"
  {
    var sigItems := Parenthesized(entries);
    MstrsJoin(trs, sigItems, rules);
    assert FreeOf(sigItems, '\n') by {
      forall i | 0 <= i < |sigItems|
        ensures '\n' !in sigItems[i]
      {
        ParenthesizedFree(entries[i]);
      }
    }
    SectionsSplit(sigItems, rules, m, n);
    var lines := Split(Mstrs(trs).value, '\n');
    forall i | 0 <= i < m
      ensures lines[1 + i] == "  (" + entries[i] + ")"
    {
      ParenthesizedFree(entries[i]);
    }
  }

  lemma ParenthesizedFree(x: string)
    requires '\n' !in x
    ensures '\n' !in "(" + x + ")"
    ensures "  (" + x + ")" == "  " + ("(" + x + ")")
  {
    assert "  (" == "  " + "(";
  }

  /** Splitting the joined section lines recovers each line. */
  lemma SectionsSplit(sigItems: seq<string>, ruleItems: seq<string>, m: nat, n: nat)
    requires m == |sigItems| >= 1 && n == |ruleItems| >= 1
    requires FreeOf(sigItems, '\n') && FreeOf(ruleItems, '\n')
    ensures var lines := Split(Join(SectionLines("SIG", sigItems) + SectionLines("RULES", ruleItems), "\n"), '\n');
      && |lines| == m + n + 4
      && lines[0] == "(SIG"
      && (forall i :: 0 <= i < m ==> lines[1 + i] == "  " + sigItems[i])
      && lines[m + 1] == ")"
      && lines[m + 2] == "(RULES"
      && (forall j :: 0 <= j < n ==> lines[m + 3 + j] == "  " + ruleItems[j])
      && lines[m + n + 3] == ")"
  {
    var top, bottom := SectionLines("SIG", sigItems), SectionLines("RULES", ruleItems);
    assert "(" + "SIG" == "(SIG" && "(" + "RULES" == "(RULES";
    forall k | 0 <= k < |top + bottom|
      ensures '\n' !in (top + bottom)[k]
    {
      if 1 <= k <= |sigItems| {
        assert (top + bottom)[k] == "  " + sigItems[k - 1];
      } else if |top| + 1 <= k <= |top| + |ruleItems| {
        assert (top + bottom)[k] == "  " + ruleItems[k - |top| - 1];
      }
    }
    SplitJoin(top + bottom, '\n');
  }

  /** The rendered text is the two sections' lines joined by newlines. */
  lemma MstrsJoin(trs: Trs, sigItems: seq<string>, ruleItems: seq<string>)
    requires SignatureLines(trs.signature).Success? && RuleLines(trs.rules).Success?
    requires sigItems == Parenthesized(SignatureLines(trs.signature).value) && |sigItems| >= 1
    requires ruleItems == RuleLines(trs.rules).value && |ruleItems| >= 1
    ensures Mstrs(trs) == Success(Join(SectionLines("SIG", sigItems) + SectionLines("RULES", ruleItems), "\n"))
  {
    BlockLines("SIG", sigItems);
    BlockLines("RULES", ruleItems);
    JoinAppend(SectionLines("SIG", sigItems), SectionLines("RULES", ruleItems), "\n");
    assert SignatureBlock(trs.signature) == Success(Block("SIG", sigItems));
    assert GenerateRules(trs) == Success(Block("RULES", ruleItems));
  }

  // ----- the write -----

  /**
   * Writing twice to a fresh path: the second call raises `FileExistsError` and the
   * first call's contents stay as they were, whatever either system renders to.
   */
  lemma WriteTwice(files: map<string, string>, dirs: set<string>, first: Trs, second: Trs, outfile: string)
    requires outfile !in files && outfile !in dirs
    ensures var (after, _) := WriteText(files, dirs, outfile, Mstrs(first));
      && outfile in after
      && WriteText(after, dirs, outfile, Mstrs(second)) == (after, Fail(FileExists(outfile)))
  {
  }
}
