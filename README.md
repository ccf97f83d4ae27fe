# TRS converter and benchmark tools — a Dafny model

This project models three Python programs that work on term-rewriting systems (TRS).

- **converter.py.** It reads a TRS from an XML document (a `funcsym` table and a list of `rule`s) into a small term model. It then writes the system out in the MSTRS text format:
  - a `(SIG …)` block with one line per function symbol;
  - a `(RULES …)` block with one line per rule.

  It runs on one file, or on every `.xml` entry of a directory listing. The writer never overwrites an existing path. A failure on one file is caught, reported, and does not stop the rest.
- **main.py.** The benchmark runner:
  - builds the cartesian product of the analyser options in a fixed nesting order;
  - turns one configuration into the analyser's command line;
  - strips line breaks from the analyser's output;
  - classifies that output by two anchored patterns, `Result type: <letters>` on the first line and `Time taken: <digits>ms` on the last.
- **htmlgenerator.py.** The results page generator:
  - groups results by benchmark file, in insertion order;
  - looks up the result of one configuration on one file, where the first match wins;
  - counts the non-terminating and the timed-out results of a configuration;
  - formats milliseconds as `h:mm:ss`;
  - appends `.html` to the page name unless it is already there.

## Module layout

- `Wrappers` holds `Option` and `Result`, the explicit form of Python's `None` returns and raised exceptions, and `Outcome`.
- `Text` holds `join`, `split`, `endswith`, `str(int)` and `int(str)`.
- `Errors` has one constructor per exception the converter can raise.
- `Terms` is the term model: `FunctionSymbol`, `Term` (`Var`, `App`, `Absent`), `Rule`, `Trs`, and their print forms.
- `XmlReader` is `XMLParser` over an already parsed element tree `Element(tag, text, children)`.
- `FileStore` is the file system. It is the one object updated in place, so it is a class with a `files` map and a `dirs` set.
- `MstrsWriter` is `MSTRSWriter`.
- `BatchConverter` is `Converter`. The directory listing and the parsed documents are parameters, and each caught failure becomes a `Report(input, error)`.
- `Scenarios` is one small document carried through reading and writing.
- `CoraRunner` is main.py. `HtmlGenerator` is htmlgenerator.py.

The source's loops are `method`s with loop invariants. Each one is proved equal to a specification function, and the properties are proved as lemmas about those functions. The other objects (`XMLParser`, `MSTRSWriter`, `Converter`, `CoraRunner`, `HTMLGenerator`) never change after construction, so the model passes them as values.

### Where the code and its description differ (the model follows the code)

- A constant's signature line has two spaces before the arrow, `(f  -> a)`, not `(f -> a)`. The sort list before the arrow is empty, but the format string still puts a space after the name (converter.py:136-138).
- An empty signature or an empty rule list still gives an inner line of two spaces, `(SIG\n  \n)`, not a wrapper with no inner line (converter.py:139-144).
- An undeclared symbol name is not an error at reading time. The reader stores `None` as the symbol, and the failure comes when the rule is printed.
  - By then `open(outfile, 'w')` has already created the output file.
  - So the converter reports the error and leaves an empty file behind (`BatchConverter.UnresolvedLeavesEmptyFile`).
- The output directory is created only when nothing exists at that path. A plain file at that path is left alone. In the source every later `open` under that path then fails; the model does not capture that failure (see "## Left out").

## Model

| member | source | states |
|---|---|---|
| Terms.SymbolOfArity | converter.py:78-79 | The symbol keeps its name and gets `arity + 1` copies of the sort `a`. The list is empty for a negative arity. The symbol is a constant exactly when the arity is 0. |
| Terms.ArgStrings | converter.py:55 | The arguments print in order, one string per argument. When one of them cannot print, the list fails with that argument's error. |
| Terms.TermStringSucceeds | converter.py:54-59 | A term prints exactly when every application in it names a declared symbol. Otherwise printing fails with the unresolved-symbol error, the `None.is_constant()` call. |
| Terms.ApplicationForms | converter.py:54-59 | A constant prints as its bare name and drops its arguments. Any other symbol prints as `name(` + the printed arguments joined by `", "` + `)`. A non-constant with no arguments prints as `name()`. |
| Terms.RulePrintForm | converter.py:23-24 | A rule prints as `left -> right`. It prints exactly when both sides print. |
| Terms.SymbolStringForm | converter.py:44-46 | A symbol read with arity k >= 0 prints as `name :: a` followed by k copies of ` -> a`. With a negative arity it prints as `name :: ` and nothing more. |
| XmlReader.TaggedMembers | converter.py:104 | `findall` of a child tag keeps a child exactly when it has that tag. |
| XmlReader.TaggedAppend | converter.py:104 | `findall` keeps children in document order: it distributes over concatenation, and keeps a single child exactly when it has the tag. |
| XmlReader.FirstTagged | converter.py:101 | `find` of a child tag returns a child with that tag. It returns none exactly when no child has that tag. |
| XmlReader.FirstTaggedFirst | converter.py:101 | No child before the one `find` returns has the tag. |
| XmlReader.FirstOfTagged | converter.py:101 | `find` returns the first element of what `findall` returns, or none when that is empty. |
| XmlReader.SignatureOfEntries | converter.py:74-80 | A signature table that reads has one symbol per `funcsym` entry, in document order. |
| XmlReader.SignatureOfFails | converter.py:74-80 | Reading the signature table fails exactly when some entry fails. |
| XmlReader.ParseSignature | converter.py:74-80 | The appending loop yields the table of the document's `funcsym` entries, or the first entry's error. |
| XmlReader.DocumentSignature | converter.py:74-80 | For a document that reads, the table and the `funcsym` entries correspond one to one. Entry i declares symbol i with its name and `arity + 1` sorts. |
| XmlReader.Lookup | converter.py:108-111 | The lookup finds a symbol exactly when some entry has that name. It returns the first such entry, so later duplicates are shadowed. |
| XmlReader.ParseTerm | converter.py:90-94 | Parsing a term node gives the term the recursive reading defines. |
| XmlReader.ParseFuncApp | converter.py:100-106 | A `funapp` node becomes an application: the lookup of its `name`, then one argument per `arg` child, in order. |
| XmlReader.ArgsOfEntries | converter.py:103-106 | Each argument of an application is the term of the first child of the corresponding `arg` element, in order. |
| XmlReader.TermOfCases | converter.py:90-106 | A `var` node gives `Var(text, 'a')`. A node with any other tag than `var` or `funapp` gives `None`. A `funapp` node gives the looked-up symbol applied to one term per `arg` child. |
| XmlReader.ResolvedIffDeclared | converter.py:100-111 | A term read from a node prints exactly when every `funapp` name in the node is declared in the table. |
| XmlReader.RulesOfEntries | converter.py:82-88 | A rule list that reads has one rule per `rule` entry, in document order. |
| XmlReader.RulesOfFails | converter.py:82-88 | Reading the rule list fails exactly when some entry fails. |
| XmlReader.RuleOfCases | converter.py:84-88 | A `rule` entry reads exactly when the first child of its first `lhs` child and the first child of its first `rhs` child both parse, and the rule is those two terms. A missing or empty `lhs` is the error; the `rhs` errors arise only once the left side has read. |
| XmlReader.ParseRules | converter.py:82-88 | The appending loop yields the rules of the document's `rule` entries, or the first entry's error. |
| XmlReader.Read | converter.py:63-67 | Construction reads the signature first, then the rules against that signature. |
| FileStore.FileSystem.Mkdir | converter.py:160-161 | Creating a directory adds it to the directories and changes nothing else. |
| FileStore.FileSystem.Create | converter.py:125 | `open(p, 'w')` leaves an empty file at `p` and changes nothing else. |
| FileStore.FileSystem.Append | converter.py:126 | Writing to an open file extends that file only. |
| MstrsWriter.Parenthesized | converter.py:139 | Every signature entry is wrapped in parentheses, one line per entry. |
| MstrsWriter.SignatureLineOfArity | converter.py:136-138 | An arity-n symbol renders as `name a … a -> a` with n sorts before the arrow. A constant renders as `name  -> a`, with two spaces. A negative arity has no output sort, and rendering fails. |
| MstrsWriter.SignatureLinesEntries | converter.py:134-138 | There is one line per symbol, in table order. The lines render exactly when every symbol renders. |
| MstrsWriter.GenerateSignature | converter.py:133-140 | The appending loop yields the `(SIG …)` block of the table. |
| MstrsWriter.RuleLinesEntries | converter.py:142-143 | There is one line per rule, in stored order. The lines render exactly when every rule prints. |
| MstrsWriter.GenerateMstrs | converter.py:128-131 | The method yields the signature block, a newline, then the rules block. |
| MstrsWriter.MstrsSucceeds | converter.py:128-144 | Rendering succeeds exactly when every symbol has a sort and every rule side is resolved. When every symbol has a sort, the only failure is the unresolved symbol. |
| MstrsWriter.BlockLines | converter.py:139-144 | A block is `(HEAD`, then each entry on its own line indented by two spaces, then `)`. |
| MstrsWriter.MstrsLayout | converter.py:128-144 | When the m symbol entries and the n rules render to non-empty lists of one-line strings, the text splits into these lines: `(SIG`, each entry indented and in parentheses, `)`, `(RULES`, each rule indented, `)`. |
| MstrsWriter.EmptyBlocks | converter.py:139-144 | An empty system still emits both wrappers, each around one line of two spaces. |
| MstrsWriter.WriteText | converter.py:121-126 | An existing path, whether file or directory, fails with `FileExistsError` and changes nothing. Otherwise exactly that path is added. It holds the rendered text, or stays empty when rendering raised, and that error is the outcome. |
| MstrsWriter.WriteToFile | converter.py:121-126 | The file system changes exactly as `WriteText` says, and the directories are untouched. |
| MstrsWriter.WriteTwice | converter.py:122-123 | Writing a second system to a path the first write created is refused, and nothing changes. |
| BatchConverter.PathJoin | converter.py:164-165 | The joined path ends with the joined name. |
| BatchConverter.LastIndex | converter.py:164 | The index is the last occurrence of the character, or -1 when there is none. |
| BatchConverter.OutputNameOfXml | converter.py:163-164 | `x.xml` becomes `x.mstrs`. The bare name `.xml` has no suffix as a stem and becomes `.xml.mstrs`. |
| BatchConverter.AttemptOf | converter.py:169-171 | An attempt is recorded against its input path. A document that renders goes to the given output path. |
| BatchConverter.ConvertSingle | converter.py:167-173 | Single-file mode reads, renders and writes. Every failure is caught and reported with its input path, and the directories are untouched. |
| BatchConverter.XmlEntries | converter.py:162-163 | Exactly the listing entries ending in `.xml` are processed, in listing order. |
| BatchConverter.Attempts | converter.py:162-165 | There is one attempt per `.xml` entry. |
| BatchConverter.AttemptsAt | converter.py:164-165 | Entry i is read from `input/name` and written to `output/stem.mstrs`. |
| BatchConverter.OutputDirs | converter.py:160-161 | The output path is a directory afterwards, unless a file was already there. No other directory is created. |
| BatchConverter.BatchStep | converter.py:162-165 | Each further listing entry is converted like a single file when it ends in `.xml`, and is skipped otherwise. |
| BatchConverter.ConvertDirectory | converter.py:159-165 | The directory is created if missing. The loop over the listing has the effect of the batch specification on the files and the reports. |
| BatchConverter.Convert | converter.py:153-157 | File mode converts one file. Directory mode converts the listing. |
| BatchConverter.ApplyAllKeeps | converter.py:162-173 | A batch never changes an existing file and only adds output paths of its entries. There is at most one report per entry, each naming an entry's input. |
| BatchConverter.ApplyAllAppend | converter.py:162-165 | Converting two runs of entries one after the other is converting their concatenation. |
| BatchConverter.ApplyAllIsolation | converter.py:162-173 | An entry whose document renders, to a fresh output path, gets its text written whatever the other entries do. |
| BatchConverter.BatchKeeps | converter.py:159-173 | Existing files are kept. New files are outputs of `.xml` entries, and every report names an `.xml` input. |
| BatchConverter.Isolation | converter.py:159-173 | Every `.xml` entry that reads and renders, with a fresh output path not shared with an earlier entry, ends up written with its MSTRS text. |
| BatchConverter.UnresolvedLeavesEmptyFile | converter.py:167-173 | An undeclared symbol in a rule gives one report, and leaves an empty output file behind. |
| Scenarios.DocReads | converter.py:74-114 | The document with `f/0`, `g/1` and the rule `f -> g(f)` reads as that system. |
| Scenarios.DocConverts | converter.py:128-144 | That document converts to `(SIG\n  (f  -> a)\n  (g a -> a)\n)\n(RULES\n  f -> g(f)\n)`. |
| CoraRunner.ArgumentsRoundTrip | main.py:27-32 | The command line has ten entries, with `-t -u -a --su --timeout` at positions 0, 2, 4, 6 and 8. The configuration can be read back from it. |
| CoraRunner.ConfigurationsFrom | main.py:54-62 | Every configuration draws each field from its own list, with the timeout from `timings` and the flag from `augment`. |
| CoraRunner.ConfigurationsMembers | main.py:54-62 | A configuration is listed exactly when each of its five options comes from the corresponding list. |
| CoraRunner.GetConfigurations | main.py:54-62 | The five nested loops build exactly the product list. |
| CoraRunner.AppendUnfoldings | main.py:58-61 | The three inner loops append, for one technique and one semi-unifier, exactly the block of every bound, flag and timeout. |
| CoraRunner.ConfigurationsCount | main.py:54-62 | There are exactly as many configurations as the product of the five list lengths. |
| CoraRunner.ConfigurationsAt | main.py:56-61 | The combination `(i0, …, i4)` sits at its lexicographic position: techniques outermost, then semi-unifiers, unfolding bounds and flags, with timeouts innermost. |
| CoraRunner.Without | main.py:51 | `replace(c, '')` removes every `c` and keeps every other character. |
| CoraRunner.RemoveNewlines | main.py:50-51 | The line has no `\n` and no `\r` left, and every other character is kept. |
| CoraRunner.RemoveNewlinesKeepsContent | main.py:50-51 | The two passes equal one in-order filter of the line breaks. |
| CoraRunner.RemoveNewlinesIdempotent | main.py:50-51 | Stripping twice is stripping once. |
| CoraRunner.RemoveNewlinesAppend | main.py:50-51 | Stripping a concatenation strips each part. |
| CoraRunner.Span | main.py:37-38 | A greedy character class consumes the longest prefix of matching characters. |
| CoraRunner.ResultTypeMatched | main.py:37 | A result-type match is `Result type: `, a maximal non-empty run of ASCII letters (the group), and the rest of the line. |
| CoraRunner.ResultTypeMatches | main.py:37 | Every line of that shape matches, and the group is exactly that run. |
| CoraRunner.TimeTakenMatched | main.py:38 | A time match is `Time taken: `, a non-empty run of digits (the group), then `ms`. |
| CoraRunner.TimeTakenMatches | main.py:38 | Every line of that shape matches, and the group is exactly the digits. |
| CoraRunner.ParseAnalysisResult | main.py:72-81 | There is no error exactly when the first line matches the result pattern and the last the time pattern; then the result type and the analyser time are the two captured groups. Without a result line first, the result is `ERROR` with that line as the error. With a result line but no time line last, the error is `Time match failed`. Both error cases give analyser time 0. The wall-clock time passes through unchanged. |
| CoraRunner.CompleteTranscript | main.py:72-77 | A result line first (prefix, letters, then anything not starting with a letter) and a time line last (prefix, digits, `ms`, then anything) yield that result type and those milliseconds, whatever lies between. |
| CoraRunner.SingleLineOutput | main.py:73-79 | A one-line output that states a result type is always `Time match failed`. |
| HtmlGenerator.ResultsForMembers | htmlgenerator.py:34-38 | A file's list holds only results for that file, all from the input. |
| HtmlGenerator.FilesOfDistinct | htmlgenerator.py:34-38 | The keys are distinct. |
| HtmlGenerator.FilesOfMembers | htmlgenerator.py:34-38 | The keys are exactly the files that occur in the results. |
| HtmlGenerator.ByFileValid | htmlgenerator.py:34-38 | The grouping's keys are distinct, and they are exactly its dictionary's keys. |
| HtmlGenerator.SortResults | htmlgenerator.py:34-38 | The appending loop yields, for each file in first-seen order, its results in input order. |
| HtmlGenerator.ByFileStep | htmlgenerator.py:36-37 | One more result extends its file's list, creating the list and key on first sight. |
| HtmlGenerator.NoResultsFor | htmlgenerator.py:47 | A file that never occurs has the empty list. |
| HtmlGenerator.Partition | htmlgenerator.py:34-38 | Every result is in the list of its own file, and every list holds only input results of its file. |
| HtmlGenerator.GroupSizes | htmlgenerator.py:34-38 | The list lengths sum to the number of results. |
| HtmlGenerator.CountWhere | htmlgenerator.py:62-68 | A count never exceeds the number of results. |
| HtmlGenerator.GroupedCount | htmlgenerator.py:62-68 | Counting list by list over the grouping equals counting over the input. |
| HtmlGenerator.NewGenerator | htmlgenerator.py:22-23 | The generator keeps the results together with their grouping by file. |
| HtmlGenerator.CountResults | htmlgenerator.py:62-68 | The nested counting loops count exactly the selected input results, at most all of them. |
| HtmlGenerator.GetNrSuccess | htmlgenerator.py:62-68 | The count is the results with that configuration and result type `NONTERMINATES`, at most the number of results. |
| HtmlGenerator.GetTotalTimeouts | htmlgenerator.py:79-85 | The count is the results with that configuration and result type `TIMEOUT`, at most the number of results. |
| HtmlGenerator.FirstResultFound | htmlgenerator.py:46-50 | The lookup finds nothing exactly when no result is for that file and configuration. Otherwise it returns the outcome of the earliest such result. |
| HtmlGenerator.FirstInGroup | htmlgenerator.py:46-50 | Scanning the file's list finds what scanning all results for the file finds. |
| HtmlGenerator.GetResult | htmlgenerator.py:46-50 | The loop with early return yields the first matching outcome, or `None`, including for a file with no results. |
| HtmlGenerator.Pad2 | htmlgenerator.py:92 | `{:02d}` of a number below 100 is two digits that read back as that number. |
| HtmlGenerator.FormatMillisReadBack | htmlgenerator.py:88-92 | `h:mm:ss` splits into three numbers: hours below 24, and two-digit minutes and seconds below 60. Together they give the whole seconds of the time within its day. |
| HtmlGenerator.DayClock | htmlgenerator.py:89-91 | Hours, minutes and seconds taken modulo 24, 60 and 60 recombine to the seconds within a day. |
| HtmlGenerator.HtmlName | htmlgenerator.py:146-147 | The page name ends with `.html` and extends the given name. It equals the given name exactly when that already ends with `.html`. |
| HtmlGenerator.HtmlNameIdempotent | htmlgenerator.py:146-147 | Applying the suffix rule twice is applying it once. |

## Left out

- Parsing XML bytes (`ElementTree.parse`) is not modelled. The reader starts from a parsed element tree, and an unreadable file is the `UnreadableXml` error.
- XPath `findall` is modelled only for the child paths the reader uses.
- Python's recursion limit is not modelled. A term nested several hundred levels deep makes `parse_term` and `parse_func_app`, or `Function.__str__`, raise `RecursionError`. `convert_single` would catch and report it, leaving an empty file if printing raised. The model reads and prints terms of any depth.
- An element with no text, which Python gives as `None` text, is not modelled: element text is always a string.
- `int()` accepts an optional sign and ASCII digits. The surrounding whitespace, the underscores and the non-ASCII Unicode decimal digits (such as `'٣'`) that Python also accepts are not modelled; the model reports such an arity as invalid.
- Real file-system calls (`Path.exists`, `open`, `mkdir`, `listdir`) are not modelled. The directory listing and the parsed documents are parameters, and the file system is a map of files and a set of directories.
- `BatchConverter.ConvertSingle`: `open` failures on a missing or non-directory parent path are not modelled. Those failures would be caught and reported like any other.
- `BatchConverter.ConvertDirectory`: an exception from `mkdir` is not modelled (for example, a missing parent). Such an exception would end the run.
- `BatchConverter.ConvertSingle`: the `print` of the error message is modelled as a `Report(input, error)`. The message text is not modelled.
- Argument parsing, the `__main__` blocks and every console `print` are left out.
- `TRS.__str__` is a debug printout the writer never uses, so it is left out.
- `CoraRunner.analyse` and `do_analysis` (`Popen`, `time()`, JSON output) are process and I/O glue, so they are left out. `remove_newlines` and `parse_analysis_result` take the decoded lines and the wall-clock time as inputs.
- Settings parsing and results-file reading (JSON `loads`) are left out. The configuration fields have fixed types: string technique and semi-unifier, integer bound and timeout, boolean flag.
- `CoraRunner.ParseAnalysisResult` requires a non-empty list of lines. On an empty output the source raises `IndexError`, which is not modelled.
- `CoraRunner.AnalysisResult` holds the wall-clock time as a `real`. Floating-point rounding is not modelled.
- `HtmlGenerator.FormatMillis` takes a non-negative whole number of milliseconds. Float inputs, the totals from `get_total_times` and negative values are not modelled.
- `HtmlGenerator.GetResult`: on a file with no results, `defaultdict` also inserts an empty list under that key. This side effect is not modelled; the lookup's answer is.
- `get_configs` is left out, because its order comes from iterating a `set`. `config_to_html`, `get_timings_from_result`, `get_total_times`, the `dominate` page rendering, and writing the page to disk are left out too.
