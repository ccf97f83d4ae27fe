/**
 * The batch driver (converter.py, class `Converter`): one file, or every `.xml` entry of
 * a directory listing, read and written as MSTRS, each failure reported and swallowed.
 * Parsed documents are given as a map from input path to element tree: a path without
 * a tree is one that `ElementTree.parse` cannot read.
 */
module BatchConverter {
  import opened Wrappers
  import opened Text
  import opened Errors
  import opened Terms
  import opened XmlReader
  import opened MstrsWriter
  import opened FileStore

  /** One `ERROR: <input>: <message>` line that `convert_single` prints instead of raising. */
  datatype Report = Report(input: string, error: Error)

  /** What a conversion leaves behind: the files, and the reports printed, in order. */
  datatype Effect = Effect(files: map<string, string>, reports: seq<Report>)

  /** `os.path.join(a, b)`: an absolute `b` replaces `a`; otherwise one `/` between them. */
  function PathJoin(a: string, b: string): (p: string)
    ensures EndsWith(p, b)
  {
    if |b| > 0 && b[0] == '/' then b
    else if |a| == 0 || a[|a| - 1] == '/' then a + b
    else a + "/" + b
  }

  /** The index of the last `c` in `s`, or -1 (`str.rfind`). */
  function LastIndex(s: string, c: char): (i: int)
    ensures -1 <= i < |s|
    ensures i >= 0 ==> s[i] == c
    ensures forall k :: i < k < |s| ==> s[k] != c
  {
    if |s| == 0 then -1
    else if s[|s| - 1] == c then |s| - 1
    else LastIndex(s[..|s| - 1], c)
  }

  /**
   * `Path(name).stem` of a bare file name: the name up to its last dot, unless that dot
   * is the first or the last character, in which case the whole name.
   */
  function Stem(name: string): string
  {
    var i := LastIndex(name, '.');
    if 0 < i < |name| - 1 then name[..i] else name
  }

  /** The output name of a listing entry: `stem + '.mstrs'`. */
  function OutputName(name: string): string
  {
    Stem(name) + ".mstrs"
  }

  /**
   * What reading and rendering one input gives, before anything is written: the
   * error that stopped the reader, or the output path and the rendered text (or the
   * error printing raised).
   */
  datatype Attempt =
    | Unreadable(input: string, error: Error)
    | Rendered(input: string, output: string, text: Result<string, Error>)

  /** `XMLParser(input).get_trs()` and `generate_mstrs()` for one input. */
  function AttemptOf(documents: map<string, Element>, input: string, output: string): (a: Attempt)
    ensures a.input == input
    ensures a.Rendered? ==> a.output == output
  {
    if input !in documents then Unreadable(input, UnreadableXml(input))
    else match TrsOf(documents[input])
      case Failure(e) => Unreadable(input, e)
      case Success(trs) => Rendered(input, output, Mstrs(trs))
  }

  /**
   * The write of one attempt, with `convert_single`'s handler around it: any exception
   * becomes a report naming the input, and the files stay as the failing step left them.
   */
  function Apply(files: map<string, string>, dirs: set<string>, a: Attempt): Effect
  {
    match a
    case Unreadable(input, e) => Effect(files, [Report(input, e)])
    case Rendered(input, output, text) =>
      var (after, outcome) := WriteText(files, dirs, output, text);
      Effect(after, if outcome.Fail? then [Report(input, outcome.error)] else [])
  }

  /** What `convert_single(input, output)` does. */
  function SingleEffect(files: map<string, string>, dirs: set<string>, documents: map<string, Element>,
                        input: string, output: string): Effect
  {
    Apply(files, dirs, AttemptOf(documents, input, output))
  }

  /** `Converter.convert_single`. */
  method ConvertSingle(fs: FileSystem, documents: map<string, Element>, input: string, output: string)
    returns (reports: seq<Report>)
    modifies fs
    ensures Effect(fs.files, reports) == SingleEffect(old(fs.files), old(fs.dirs), documents, input, output)
    ensures fs.dirs == old(fs.dirs)
  {
    if input !in documents {
      return [Report(input, UnreadableXml(input))];
    }
    var trs := Read(documents[input]);
    if trs.Failure? {
      return [Report(input, trs.error)];
    }
    var outcome := WriteToFile(fs, trs.value, output);
    if outcome.Fail? {
      return [Report(input, outcome.error)];
    }
    return [];
  }

  /** The input path `convert_directory` reads for a listing entry. */
  function InputPath(inDir: string, name: string): string
  {
    PathJoin(inDir, name)
  }

  /** The output path `convert_directory` writes for a listing entry. */
  function OutputPath(outDir: string, name: string): string
  {
    PathJoin(outDir, OutputName(name))
  }

  /** The entries `convert_directory` converts: those ending in `.xml`, in listing order. */
  function XmlEntries(listing: seq<string>): (r: seq<string>)
    ensures forall x :: x in r <==> x in listing && EndsWith(x, ".xml")
    ensures |r| <= |listing|
  {
    if |listing| == 0 then []
    else
      var name := listing[|listing| - 1];
      XmlEntries(listing[..|listing| - 1]) + (if EndsWith(name, ".xml") then [name] else [])
  }

  /** One attempt per entry, in order. */
  function Attempts(documents: map<string, Element>, inDir: string, outDir: string, names: seq<string>): (r: seq<Attempt>)
    ensures |r| == |names|
  {
    if |names| == 0 then []
    else
      var name := names[|names| - 1];
      Attempts(documents, inDir, outDir, names[..|names| - 1])
        + [AttemptOf(documents, InputPath(inDir, name), OutputPath(outDir, name))]
  }

  /** The attempt at position `i` is the attempt of the `i`-th entry. */
  lemma {:induction false} AttemptsAt(documents: map<string, Element>, inDir: string, outDir: string,
                                      names: seq<string>, i: nat)
    requires i < |names|
    ensures Attempts(documents, inDir, outDir, names)[i]
         == AttemptOf(documents, InputPath(inDir, names[i]), OutputPath(outDir, names[i]))
  {
    if i < |names| - 1 {
      AttemptsAt(documents, inDir, outDir, names[..|names| - 1], i);
    }
  }

  /** The writes of a sequence of attempts, one after another, their reports in order. */
  function ApplyAll(files: map<string, string>, dirs: set<string>, attempts: seq<Attempt>): Effect
  {
    if |attempts| == 0 then Effect(files, [])
    else
      var before := ApplyAll(files, dirs, attempts[..|attempts| - 1]);
      var last := Apply(before.files, dirs, attempts[|attempts| - 1]);
      Effect(last.files, before.reports + last.reports)
  }

  /** The loop of `convert_directory`: every `.xml` entry of the listing converted in turn. */
  function BatchEffect(files: map<string, string>, dirs: set<string>, documents: map<string, Element>,
                       inDir: string, outDir: string, listing: seq<string>): Effect
  {
    ApplyAll(files, dirs, Attempts(documents, inDir, outDir, XmlEntries(listing)))
  }

  /** The directories after `convert_directory` has made sure the output directory exists. */
  function OutputDirs(files: map<string, string>, dirs: set<string>, outDir: string): (r: set<string>)
    ensures outDir in files || outDir in r
    ensures dirs <= r && r <= dirs + {outDir}
  {
    if outDir in files || outDir in dirs then dirs else dirs + {outDir}
  }

  /** One more listing entry: converted when it ends in `.xml`, skipped otherwise. */
  lemma BatchStep(files: map<string, string>, dirs: set<string>, documents: map<string, Element>,
                  inDir: string, outDir: string, listing: seq<string>, i: nat)
    requires i < |listing|
    ensures var before := BatchEffect(files, dirs, documents, inDir, outDir, listing[..i]);
      var name := listing[i];
      BatchEffect(files, dirs, documents, inDir, outDir, listing[..i + 1]) ==
        if EndsWith(name, ".xml") then
          var single := SingleEffect(before.files, dirs, documents, InputPath(inDir, name), OutputPath(outDir, name));
          Effect(single.files, before.reports + single.reports)
        else before
  {
    var name := listing[i];
    var xs := XmlEntries(listing[..i]);
    XmlEntriesStep(listing, i);
    if EndsWith(name, ".xml") {
      var a := AttemptOf(documents, InputPath(inDir, name), OutputPath(outDir, name));
      AttemptsSnoc(documents, inDir, outDir, xs, name);
      ApplyAllSnoc(files, dirs, Attempts(documents, inDir, outDir, xs), a);
    } else {
      assert xs + [] == xs;
    }
  }

  lemma XmlEntriesStep(listing: seq<string>, i: nat)
    requires i < |listing|
    ensures XmlEntries(listing[..i + 1])
         == XmlEntries(listing[..i]) + (if EndsWith(listing[i], ".xml") then [listing[i]] else [])
  {
    assert listing[..i + 1][..i] == listing[..i];
    if !EndsWith(listing[i], ".xml") {
      assert XmlEntries(listing[..i]) + [] == XmlEntries(listing[..i]);
    }
  }

  lemma AttemptsSnoc(documents: map<string, Element>, inDir: string, outDir: string, xs: seq<string>, name: string)
    ensures Attempts(documents, inDir, outDir, xs + [name])
         == Attempts(documents, inDir, outDir, xs) + [AttemptOf(documents, InputPath(inDir, name), OutputPath(outDir, name))]
  {
    assert (xs + [name])[..|xs|] == xs;
  }

  lemma ApplyAllSnoc(files: map<string, string>, dirs: set<string>, attempts: seq<Attempt>, a: Attempt)
    ensures var before := ApplyAll(files, dirs, attempts);
      var last := Apply(before.files, dirs, a);
      ApplyAll(files, dirs, attempts + [a]) == Effect(last.files, before.reports + last.reports)
  {
    assert (attempts + [a])[..|attempts|] == attempts;
  }

  /** `Converter.convert_directory`, given the listing of the input directory. */
  method ConvertDirectory(fs: FileSystem, documents: map<string, Element>, inDir: string, outDir: string,
                          listing: seq<string>)
    returns (reports: seq<Report>)
    modifies fs
    ensures fs.dirs == OutputDirs(old(fs.files), old(fs.dirs), outDir)
    ensures Effect(fs.files, reports) == BatchEffect(old(fs.files), fs.dirs, documents, inDir, outDir, listing)
  {
    if !fs.Exists(outDir) {
      fs.Mkdir(outDir);
    }
    ghost var files0 := fs.files;
    reports := [];
    var i := 0;
    while i < |listing|
      invariant 0 <= i <= |listing|
      invariant fs.dirs == OutputDirs(old(fs.files), old(fs.dirs), outDir)
      invariant Effect(fs.files, reports) == BatchEffect(files0, fs.dirs, documents, inDir, outDir, listing[..i])
    {
      var name := listing[i];
      BatchStep(files0, fs.dirs, documents, inDir, outDir, listing, i);
      if EndsWith(name, ".xml") {
        var single := ConvertSingle(fs, documents, InputPath(inDir, name), OutputPath(outDir, name));
        reports := reports + single;
      }
      i := i + 1;
    }
    assert listing[..i] == listing;
  }

  /** `Converter.convert`: one file in file mode, otherwise the whole listing. */
  method Convert(fs: FileSystem, documents: map<string, Element>, inPath: string, outPath: string,
                 fileMode: bool, listing: seq<string>)
    returns (reports: seq<Report>)
    modifies fs
    ensures fileMode ==>
      && fs.dirs == old(fs.dirs)
      && Effect(fs.files, reports) == SingleEffect(old(fs.files), old(fs.dirs), documents, inPath, outPath)
    ensures !fileMode ==>
      && fs.dirs == OutputDirs(old(fs.files), old(fs.dirs), outPath)
      && Effect(fs.files, reports) == BatchEffect(old(fs.files), fs.dirs, documents, inPath, outPath, listing)
  {
    if fileMode {
      reports := ConvertSingle(fs, documents, inPath, outPath);
    } else {
      reports := ConvertDirectory(fs, documents, inPath, outPath, listing);
    }
  }

  // ----- what the driver promises -----

  /** A name `s.xml` with a non-empty `s` is written to `s.mstrs`; the bare name `.xml` keeps its dot. */
  lemma OutputNameOfXml(name: string)
    requires EndsWith(name, ".xml")
    ensures |name| > 4 ==> OutputName(name) == name[..|name| - 4] + ".mstrs"
    ensures |name| == 4 ==> OutputName(name) == ".xml.mstrs"
  {
    var n := |name|;
    assert name[n - 4..] == ".xml";
    assert name[n - 4] == '.' && name[n - 3] == 'x' && name[n - 2] == 'm' && name[n - 1] == 'l';
    assert LastIndex(name, '.') == n - 4 by {
      LastIndexAt(name, '.', n - 4);
    }
    if n == 4 {
      assert name == ".xml";
    }
  }

  lemma {:induction false} LastIndexAt(s: string, c: char, i: int)
    requires 0 <= i < |s| && s[i] == c
    requires forall k :: i < k < |s| ==> s[k] != c
    ensures LastIndex(s, c) == i
    decreases |s|
  {
    if i < |s| - 1 {
      LastIndexAt(s[..|s| - 1], c, i);
    }
  }

  /** The output paths of a sequence of attempts: the only paths their writes can add. */
  function Outputs(attempts: seq<Attempt>): set<string>
  {
    set i | 0 <= i < |attempts| && attempts[i].Rendered? :: attempts[i].output
  }

  /**
   * A run of attempts never overwrites or removes a file that existed before it, adds
   * files only at the attempts' output paths, and prints at most one report per attempt,
   * each naming that attempt's input.
   */
  lemma {:induction false} ApplyAllKeeps(files: map<string, string>, dirs: set<string>, attempts: seq<Attempt>)
    ensures var e := ApplyAll(files, dirs, attempts);
      && e.files.Keys <= files.Keys + Outputs(attempts)
      && (forall p :: p in files ==> p in e.files && e.files[p] == files[p])
      && |e.reports| <= |attempts|
      && forall r :: r in e.reports ==> exists i :: 0 <= i < |attempts| && r.input == attempts[i].input
  {
    if |attempts| > 0 {
      var prefix := attempts[..|attempts| - 1];
      ApplyAllKeeps(files, dirs, prefix);
      assert Outputs(prefix) <= Outputs(attempts) by {
        forall p | p in Outputs(prefix) ensures p in Outputs(attempts) {
          var i :| 0 <= i < |prefix| && prefix[i].Rendered? && prefix[i].output == p;
          assert attempts[i] == prefix[i];
        }
      }
      var last := attempts[|attempts| - 1];
      if last.Rendered? {
        assert last.output in Outputs(attempts);
      }
      var e := ApplyAll(files, dirs, attempts);
      var before := ApplyAll(files, dirs, prefix);
      forall r | r in e.reports ensures exists i :: 0 <= i < |attempts| && r.input == attempts[i].input
      {
        if r in before.reports {
          var i :| 0 <= i < |prefix| && r.input == prefix[i].input;
          assert attempts[i] == prefix[i];
        } else {
          assert r.input == attempts[|attempts| - 1].input;
        }
      }
    }
  }

  /** Running `a + b` is running `a`, then `b` from where `a` left off. */
  lemma {:induction false} ApplyAllAppend(files: map<string, string>, dirs: set<string>, a: seq<Attempt>, b: seq<Attempt>)
    ensures var first := ApplyAll(files, dirs, a);
      var second := ApplyAll(first.files, dirs, b);
      ApplyAll(files, dirs, a + b) == Effect(second.files, first.reports + second.reports)
  {
    if |b| == 0 {
      assert a + b == a;
      assert ApplyAll(files, dirs, a).reports + [] == ApplyAll(files, dirs, a).reports;
    } else {
      var prefix := b[..|b| - 1];
      ApplyAllAppend(files, dirs, a, prefix);
      var first := ApplyAll(files, dirs, a);
      var mid := ApplyAll(first.files, dirs, prefix);
      var last := Apply(mid.files, dirs, b[|b| - 1]);
      assert (a + b)[..|a + b| - 1] == a + prefix;
      assert (first.reports + mid.reports) + last.reports == first.reports + (mid.reports + last.reports);
    }
  }

  /** An attempt that rendered, to a path nothing before it wrote, leaves its text there. */
  lemma ApplyAllWritesLast(files: map<string, string>, dirs: set<string>, prefix: seq<Attempt>, a: Attempt)
    requires a.Rendered? && a.text.Success? && a.output !in files && a.output !in dirs
    requires a.output !in Outputs(prefix)
    ensures var after := ApplyAll(files, dirs, prefix + [a]).files;
      a.output in after && after[a.output] == a.text.value
  {
    ApplyAllKeeps(files, dirs, prefix);
    ApplyAllSnoc(files, dirs, prefix, a);
  }

  /**
   * Failures are isolated: an attempt that rendered, whose output path is fresh and not
   * written by an earlier attempt, leaves its text at that path, whatever happened to
   * every other attempt.
   */
  lemma ApplyAllIsolation(files: map<string, string>, dirs: set<string>, attempts: seq<Attempt>, k: nat)
    requires k < |attempts| && attempts[k].Rendered? && attempts[k].text.Success?
    requires attempts[k].output !in files && attempts[k].output !in dirs
    requires attempts[k].output !in Outputs(attempts[..k])
    ensures var after := ApplyAll(files, dirs, attempts).files;
      attempts[k].output in after && after[attempts[k].output] == attempts[k].text.value
  {
    var out := attempts[k].output;
    var upto := attempts[..k + 1];
    assert upto == attempts[..k] + [attempts[k]];
    ApplyAllWritesLast(files, dirs, attempts[..k], attempts[k]);
    var mid := ApplyAll(files, dirs, upto);
    ApplyAllAppend(files, dirs, upto, attempts[k + 1..]);
    assert upto + attempts[k + 1..] == attempts;
    ApplyAllKeeps(mid.files, dirs, attempts[k + 1..]);
  }

  /**
   * The batch never overwrites or removes a file that existed before it, only adds
   * files at the output paths of its `.xml` entries, and prints at most one report per
   * `.xml` entry, each naming that entry's input path.
   */
  lemma BatchKeeps(files: map<string, string>, dirs: set<string>, documents: map<string, Element>,
                   inDir: string, outDir: string, listing: seq<string>)
    ensures var e, xs := BatchEffect(files, dirs, documents, inDir, outDir, listing), XmlEntries(listing);
      && (forall p :: p in e.files && p !in files ==> exists name :: name in xs && p == OutputPath(outDir, name))
      && (forall p :: p in files ==> p in e.files && e.files[p] == files[p])
      && |e.reports| <= |xs|
      && forall r :: r in e.reports ==> exists name :: name in xs && r.input == InputPath(inDir, name)
  {
    var xs := XmlEntries(listing);
    var attempts := Attempts(documents, inDir, outDir, xs);
    ApplyAllKeeps(files, dirs, attempts);
    var e := ApplyAll(files, dirs, attempts);
    forall p | p in e.files && p !in files ensures exists name :: name in xs && p == OutputPath(outDir, name)
    {
      var i :| 0 <= i < |attempts| && attempts[i].Rendered? && attempts[i].output == p;
      AttemptsAt(documents, inDir, outDir, xs, i);
      assert xs[i] in xs;
    }
    forall r | r in e.reports ensures exists name :: name in xs && r.input == InputPath(inDir, name)
    {
      var i :| 0 <= i < |attempts| && r.input == attempts[i].input;
      AttemptsAt(documents, inDir, outDir, xs, i);
      assert xs[i] in xs;
    }
  }

  /**
   * Failures are isolated: an `.xml` entry whose document reads and renders, and whose
   * output path is fresh and not shared with an earlier `.xml` entry, ends up holding its
   * rendered text, whatever happened to every other entry of the listing.
   */
  lemma Isolation(files: map<string, string>, dirs: set<string>, documents: map<string, Element>,
                  inDir: string, outDir: string, listing: seq<string>, k: nat)
    requires var xs := XmlEntries(listing);
      && k < |xs|
      && InputPath(inDir, xs[k]) in documents
      && TrsOf(documents[InputPath(inDir, xs[k])]).Success?
      && Mstrs(TrsOf(documents[InputPath(inDir, xs[k])]).value).Success?
      && OutputPath(outDir, xs[k]) !in files && OutputPath(outDir, xs[k]) !in dirs
      && forall j :: 0 <= j < k ==> OutputPath(outDir, xs[j]) != OutputPath(outDir, xs[k])
    ensures var xs, after := XmlEntries(listing), BatchEffect(files, dirs, documents, inDir, outDir, listing).files;
      && OutputPath(outDir, xs[k]) in after
      && after[OutputPath(outDir, xs[k])] == Mstrs(TrsOf(documents[InputPath(inDir, xs[k])]).value).value
  {
    var xs := XmlEntries(listing);
    var attempts := Attempts(documents, inDir, outDir, xs);
    var out := OutputPath(outDir, xs[k]);
    AttemptsAt(documents, inDir, outDir, xs, k);
    assert attempts[k] == Rendered(InputPath(inDir, xs[k]), out, Mstrs(TrsOf(documents[InputPath(inDir, xs[k])]).value));
    forall j | 0 <= j < k
      ensures attempts[..k][j].Rendered? ==> attempts[..k][j].output != out
    {
      AttemptsAt(documents, inDir, outDir, xs, j);
    }
    ApplyAllIsolation(files, dirs, attempts, k);
  }

  /**
   * A document that reads but uses an undeclared symbol in a rule: the write has already
   * created the output file when printing fails, so the file is left empty and the error
   * is reported.
   */
  lemma UnresolvedLeavesEmptyFile(files: map<string, string>, dirs: set<string>, documents: map<string, Element>,
                                  input: string, output: string, j: nat)
    requires input in documents && TrsOf(documents[input]).Success?
    requires var trs := TrsOf(documents[input]).value;
      && (forall i :: 0 <= i < |trs.signature| ==> |trs.signature[i].signature| > 0)
      && j < |trs.rules| && !Resolved(trs.rules[j].left)
    requires output !in files && output !in dirs
    ensures SingleEffect(files, dirs, documents, input, output) ==
      Effect(files[output := ""], [Report(input, UnresolvedSymbol)])
  {
    MstrsSucceeds(TrsOf(documents[input]).value);
  }
}
