/**
 * The XML reader (converter.py, class `XMLParser`). The document arrives already parsed,
 * as a tree of elements; the reader builds the signature table from the `funcsym`
 * entries, then parses every rule, resolving each application's name by a first-match
 * scan of that table.
 */
module XmlReader {
  import opened Wrappers
  import opened Text
  import opened Errors
  import opened Terms

  /** An element of the parsed document: its tag, its text and its children in order. */
  datatype Element = Element(tag: string, text: string, children: seq<Element>)

  /** The children of `e` tagged `tag`, in document order (`e.findall('./tag')`). */
  function Tagged(cs: seq<Element>, tag: string): (r: seq<Element>)
    ensures forall x :: x in r ==> x in cs && x.tag == tag
    ensures forall i :: 0 <= i < |r| ==> r[i] in cs
  {
    if |cs| == 0 then []
    else if cs[0].tag == tag then [cs[0]] + Tagged(cs[1..], tag)
    else Tagged(cs[1..], tag)
  }

  /** The first child tagged `tag` (`e.find(tag)`), `None` when there is none. */
  function FirstTagged(cs: seq<Element>, tag: string): (r: Option<Element>)
    ensures r.Some? <==> exists i :: 0 <= i < |cs| && cs[i].tag == tag
    ensures r.Some? ==> r.value in cs && r.value.tag == tag
  {
    if |cs| == 0 then None
    else if cs[0].tag == tag then Some(cs[0])
    else FirstTagged(cs[1..], tag)
  }

  /** `findall` keeps exactly the children with the tag. */
  lemma {:induction false} TaggedMembers(cs: seq<Element>, tag: string, x: Element)
    ensures x in Tagged(cs, tag) <==> x in cs && x.tag == tag
  {
    if |cs| > 0 {
      TaggedMembers(cs[1..], tag, x);
      assert cs == [cs[0]] + cs[1..];
    }
  }

  /**
   * `findall` keeps the children in document order: the children of a concatenation
   * are those of the first part followed by those of the second, and a single child is
   * kept exactly when it has the tag.
   */
  lemma {:induction false} TaggedAppend(a: seq<Element>, b: seq<Element>, tag: string)
    ensures Tagged(a + b, tag) == Tagged(a, tag) + Tagged(b, tag)
    ensures |a| == 1 ==> Tagged(a, tag) == (if a[0].tag == tag then a else [])
  {
    if |a| > 0 {
      assert (a + b)[1..] == a[1..] + b;
      TaggedAppend(a[1..], b, tag);
    } else {
      assert a + b == b;
    }
  }

  /** `find` is the first child with the tag: no child before it has the tag. */
  lemma {:induction false} FirstTaggedFirst(cs: seq<Element>, tag: string)
    ensures FirstTagged(cs, tag).Some? ==> exists i ::
      && 0 <= i < |cs|
      && cs[i] == FirstTagged(cs, tag).value
      && forall j :: 0 <= j < i ==> cs[j].tag != tag
  {
    if |cs| > 0 && cs[0].tag != tag {
      FirstTaggedFirst(cs[1..], tag);
      if FirstTagged(cs, tag).Some? {
        var i :| 0 <= i < |cs[1..]| && cs[1..][i] == FirstTagged(cs, tag).value
          && forall j :: 0 <= j < i ==> cs[1..][j].tag != tag;
        assert forall j :: 1 <= j < i + 1 ==> cs[j] == cs[1..][j - 1];
      }
    }
  }

  /** `find(tag)` is the first element of `findall(tag)`, or none when that is empty. */
  lemma {:induction false} FirstOfTagged(cs: seq<Element>, tag: string)
    ensures FirstTagged(cs, tag) == if |Tagged(cs, tag)| == 0 then None else Some(Tagged(cs, tag)[0])
  {
    if |cs| > 0 && cs[0].tag != tag {
      FirstOfTagged(cs[1..], tag);
    }
  }

  /** One step of an XPath `a/b/c`: the children tagged `tag` of every element, in order. */
  function Step(es: seq<Element>, tag: string): seq<Element>
  {
    if |es| == 0 then [] else Tagged(es[0].children, tag) + Step(es[1..], tag)
  }

  /** `root.findall('./trs/signature/funcsym')`. */
  function FuncSymElements(root: Element): seq<Element>
  {
    Step(Step(Step([root], "trs"), "signature"), "funcsym")
  }

  /** `root.findall('./trs/rules/rule')`. */
  function RuleElements(root: Element): seq<Element>
  {
    Step(Step(Step([root], "trs"), "rules"), "rule")
  }

  /**
   * One `funcsym` entry: its `name` text and its `arity` read by `int`, giving
   * `arity + 1` placeholder sorts.
   */
  function SymbolOf(e: Element): Result<FunctionSymbol, Error>
  {
    var name :- FirstTagged(e.children, "name").ToResult(MissingElement("name"));
    var arity :- FirstTagged(e.children, "arity").ToResult(MissingElement("arity"));
    var n :- ParseInt(arity.text).ToResult(InvalidArity(arity.text));
    Success(SymbolOfArity(name.text, n))
  }

  /** The signature table: one symbol per entry, in order; the first bad entry's error otherwise. */
  function SignatureOf(entries: seq<Element>): Result<seq<FunctionSymbol>, Error>
  {
    Collect(SymbolOf, entries)
  }

  /** The table holds exactly one symbol per entry, in document order. */
  lemma SignatureOfEntries(entries: seq<Element>)
    requires SignatureOf(entries).Success?
    ensures |SignatureOf(entries).value| == |entries|
    ensures forall i :: 0 <= i < |entries| ==> SymbolOf(entries[i]) == Success(SignatureOf(entries).value[i])
  {
    CollectEntries(SymbolOf, entries);
  }

  /** Reading the table fails exactly when some entry is malformed. */
  lemma SignatureOfFails(entries: seq<Element>)
    ensures SignatureOf(entries).Failure? <==> exists i :: 0 <= i < |entries| && SymbolOf(entries[i]).Failure?
  {
    CollectFails(SymbolOf, entries);
  }

  /** `XMLParser.parse_signature`: one symbol per `funcsym` entry, appended in document order. */
  method ParseSignature(root: Element) returns (r: Result<seq<FunctionSymbol>, Error>)
    ensures r == SignatureOf(FuncSymElements(root))
  {
    var entries := FuncSymElements(root);
    var signature: seq<FunctionSymbol> := [];
    var i := 0;
    assert entries[i..] == entries;
    PrependNothing(SignatureOf(entries));
    while i < |entries|
      invariant 0 <= i <= |entries|
      invariant SignatureOf(entries) == Prepend(signature, SignatureOf(entries[i..]))
    {
      CollectAt(SymbolOf, entries, i);
      var symbol := SymbolOf(entries[i]);
      if symbol.Failure? {
        return Failure(symbol.error);
      }
      PrependOne(signature, symbol.value, SignatureOf(entries[i + 1..]));
      signature := signature + [symbol.value];
      i := i + 1;
    }
    assert entries[i..] == [] && signature + [] == signature;
    return Success(signature);
  }

  /**
   * `XMLParser.get_function_symbol`: the first symbol of the table with that name; the
   * loop falls off the end, returning `None`, when there is none.
   */
  function Lookup(signature: seq<FunctionSymbol>, name: string): (r: Option<FunctionSymbol>)
    ensures r.Some? <==> exists i :: 0 <= i < |signature| && signature[i].name == name
    ensures r.Some? ==> exists i ::
      && 0 <= i < |signature|
      && signature[i] == r.value
      && r.value.name == name
      && forall j :: 0 <= j < i ==> signature[j].name != name
  {
    if |signature| == 0 then None
    else if signature[0].name == name then Some(signature[0])
    else
      var r := Lookup(signature[1..], name);
      assert forall j :: 1 <= j < |signature| ==> signature[j] == signature[1..][j - 1];
      r
  }

  /**
   * `XMLParser.parse_term`: a `var` node is a variable named by its text, a `funapp`
   * node an application, and any other tag gives Python's `None`.
   */
  function TermOf(signature: seq<FunctionSymbol>, e: Element): Result<Term, Error>
    decreases e, 2, 0
  {
    if e.tag == "var" then Success(Var(e.text, SortToken))
    else if e.tag == "funapp" then FuncAppOf(signature, e)
    else Success(Absent)
  }

  /** `XMLParser.parse_func_app`: the looked-up symbol (possibly `None`) and one argument per `arg` child. */
  function FuncAppOf(signature: seq<FunctionSymbol>, e: Element): Result<Term, Error>
    decreases e, 1, 0
  {
    var name :- FirstTagged(e.children, "name").ToResult(MissingElement("name"));
    var args :- ArgsOf(signature, e, Tagged(e.children, "arg"));
    Success(App(Lookup(signature, name.text), args))
  }

  /** The terms of the `arg` children `args` of `e`: each one's first child, parsed. */
  function ArgsOf(signature: seq<FunctionSymbol>, e: Element, args: seq<Element>): Result<seq<Term>, Error>
    requires forall x :: x in args ==> x in e.children
    decreases e, 0, |args|
  {
    if |args| == 0 then Success([])
    else
      assert args[0] in e.children;
      var first :- if |args[0].children| == 0 then Failure(MissingTermNode("arg"))
                   else TermOf(signature, args[0].children[0]);
      var rest :- ArgsOf(signature, e, args[1..]);
      Success([first] + rest)
  }

  /** `XMLParser.parse_term`, recursive over the element tree. */
  method ParseTerm(signature: seq<FunctionSymbol>, e: Element) returns (r: Result<Term, Error>)
    ensures r == TermOf(signature, e)
    decreases e, 2, 0
  {
    if e.tag == "var" {
      r := Success(ParseVariable(e));
    } else if e.tag == "funapp" {
      r := ParseFuncApp(signature, e);
    } else {
      r := Success(Absent);
    }
  }

  /** `XMLParser.parse_variable`. */
  function ParseVariable(e: Element): (t: Term)
    ensures t.Var? && t.name == e.text && t.sort == SortToken
  {
    Var(e.text, SortToken)
  }

  /** `XMLParser.parse_func_app`: looks the name up, then appends one parsed argument per `arg` child. */
  method ParseFuncApp(signature: seq<FunctionSymbol>, e: Element) returns (r: Result<Term, Error>)
    ensures r == FuncAppOf(signature, e)
    decreases e, 1, 0
  {
    var name := FirstTagged(e.children, "name");
    if name.None? {
      return Failure(MissingElement("name"));
    }
    var symbol := Lookup(signature, name.value.text);
    var args := Tagged(e.children, "arg");
    var arguments: seq<Term> := [];
    var i := 0;
    assert args[i..] == args;
    PrependNothing(ArgsOf(signature, e, args));
    while i < |args|
      invariant 0 <= i <= |args|
      invariant ArgsOf(signature, e, args) == Prepend(arguments, ArgsOf(signature, e, args[i..]))
    {
      if |args[i].children| == 0 {
        return Failure(MissingTermNode("arg"));
      }
      assert args[i] in e.children;
      var argument := ParseTerm(signature, args[i].children[0]);
      if argument.Failure? {
        return Failure(argument.error);
      }
      assert args[i..][1..] == args[i + 1..];
      assert ArgsOf(signature, e, args[i..]) == Prepend([argument.value], ArgsOf(signature, e, args[i + 1..]));
      PrependOne(arguments, argument.value, ArgsOf(signature, e, args[i + 1..]));
      arguments := arguments + [argument.value];
      i := i + 1;
    }
    assert args[i..] == [] && arguments + [] == arguments;
    return Success(App(symbol, arguments));
  }

  /** The term under the first `side` child of a rule (`rule.find(side)[0]`). */
  function SideOf(signature: seq<FunctionSymbol>, e: Element, side: string): Result<Term, Error>
  {
    var node :- FirstTagged(e.children, side).ToResult(MissingElement(side));
    if |node.children| == 0 then Failure(MissingTermNode(side))
    else TermOf(signature, node.children[0])
  }

  /** One `rule` entry: its `lhs` term, then its `rhs` term. */
  function RuleOf(signature: seq<FunctionSymbol>, e: Element): Result<Rule, Error>
  {
    var left :- SideOf(signature, e, "lhs");
    var right :- SideOf(signature, e, "rhs");
    Success(Rule(left, right))
  }

  /**
   * A `rule` entry reads exactly when its first `lhs` child and its first `rhs` child
   * each have a first child whose term parses, and the rule is those two terms. A missing
   * `lhs` (`None[0]`) or an empty one (`IndexError`) is the error; the right side is
   * looked at only once the left side has read.
   */
  lemma RuleOfCases(signature: seq<FunctionSymbol>, e: Element)
    ensures var lhs, rhs := FirstTagged(e.children, "lhs"), FirstTagged(e.children, "rhs");
      RuleOf(signature, e).Success? <==>
        && lhs.Some? && |lhs.value.children| > 0 && TermOf(signature, lhs.value.children[0]).Success?
        && rhs.Some? && |rhs.value.children| > 0 && TermOf(signature, rhs.value.children[0]).Success?
    ensures var lhs, rhs := FirstTagged(e.children, "lhs"), FirstTagged(e.children, "rhs");
      RuleOf(signature, e).Success? ==>
        RuleOf(signature, e).value
        == Rule(TermOf(signature, lhs.value.children[0]).value, TermOf(signature, rhs.value.children[0]).value)
    ensures FirstTagged(e.children, "lhs").None? ==> RuleOf(signature, e) == Failure(MissingElement("lhs"))
    ensures var lhs := FirstTagged(e.children, "lhs");
      lhs.Some? && |lhs.value.children| == 0 ==> RuleOf(signature, e) == Failure(MissingTermNode("lhs"))
    ensures var lhs, rhs := FirstTagged(e.children, "lhs"), FirstTagged(e.children, "rhs");
      && lhs.Some? && |lhs.value.children| > 0 && TermOf(signature, lhs.value.children[0]).Success?
      && rhs.None?
      ==> RuleOf(signature, e) == Failure(MissingElement("rhs"))
    ensures var lhs, rhs := FirstTagged(e.children, "lhs"), FirstTagged(e.children, "rhs");
      && lhs.Some? && |lhs.value.children| > 0 && TermOf(signature, lhs.value.children[0]).Success?
      && rhs.Some? && |rhs.value.children| == 0
      ==> RuleOf(signature, e) == Failure(MissingTermNode("rhs"))
  {
  }

  /** `RuleOf` against a fixed table, as a function of the entry alone. */
  function RuleReader(signature: seq<FunctionSymbol>): Element -> Result<Rule, Error>
  {
    e => RuleOf(signature, e)
  }

  /** The rule list: one rule per entry, in order; the first bad entry's error otherwise. */
  function RulesOf(signature: seq<FunctionSymbol>, entries: seq<Element>): Result<seq<Rule>, Error>
  {
    Collect(RuleReader(signature), entries)
  }

  /** The rule list holds exactly one rule per entry, in document order. */
  lemma RulesOfEntries(signature: seq<FunctionSymbol>, entries: seq<Element>)
    requires RulesOf(signature, entries).Success?
    ensures |RulesOf(signature, entries).value| == |entries|
    ensures forall i :: 0 <= i < |entries| ==> RuleOf(signature, entries[i]) == Success(RulesOf(signature, entries).value[i])
  {
    CollectEntries(RuleReader(signature), entries);
  }

  /** Reading the rules fails exactly when some entry is malformed. */
  lemma RulesOfFails(signature: seq<FunctionSymbol>, entries: seq<Element>)
    ensures RulesOf(signature, entries).Failure? <==> exists i :: 0 <= i < |entries| && RuleOf(signature, entries[i]).Failure?
  {
    CollectFails(RuleReader(signature), entries);
  }

  /** `parse_term` on the first child of `side`, failing as `rule.find(side)[0]` does. */
  method ParseSide(signature: seq<FunctionSymbol>, e: Element, side: string) returns (r: Result<Term, Error>)
    ensures r == SideOf(signature, e, side)
  {
    var node := FirstTagged(e.children, side);
    if node.None? {
      return Failure(MissingElement(side));
    }
    if |node.value.children| == 0 {
      return Failure(MissingTermNode(side));
    }
    r := ParseTerm(signature, node.value.children[0]);
  }

  /** `XMLParser.parse_rules`: one rule per `rule` entry, appended in document order. */
  method ParseRules(root: Element, signature: seq<FunctionSymbol>) returns (r: Result<seq<Rule>, Error>)
    ensures r == RulesOf(signature, RuleElements(root))
  {
    var entries := RuleElements(root);
    var rules: seq<Rule> := [];
    var i := 0;
    assert entries[i..] == entries;
    PrependNothing(RulesOf(signature, entries));
    while i < |entries|
      invariant 0 <= i <= |entries|
      invariant RulesOf(signature, entries) == Prepend(rules, RulesOf(signature, entries[i..]))
    {
      CollectAt(RuleReader(signature), entries, i);
      var left := ParseSide(signature, entries[i], "lhs");
      if left.Failure? {
        assert RuleOf(signature, entries[i]) == Failure(left.error);
        return Failure(left.error);
      }
      var right := ParseSide(signature, entries[i], "rhs");
      if right.Failure? {
        assert RuleOf(signature, entries[i]) == Failure(right.error);
        return Failure(right.error);
      }
      var rule := Rule(left.value, right.value);
      assert RuleOf(signature, entries[i]) == Success(rule);
      PrependOne(rules, rule, RulesOf(signature, entries[i + 1..]));
      rules := rules + [rule];
      i := i + 1;
    }
    assert entries[i..] == [] && rules + [] == rules;
    return Success(rules);
  }

  /** The system a document describes: its signature table, then its rules parsed against it. */
  function TrsOf(root: Element): Result<Trs, Error>
  {
    var signature :- SignatureOf(FuncSymElements(root));
    var rules :- RulesOf(signature, RuleElements(root));
    Success(Trs(rules, signature))
  }

  /** `XMLParser(path).get_trs()` on an already parsed document: signature first, then rules. */
  method Read(root: Element) returns (r: Result<Trs, Error>)
    ensures r == TrsOf(root)
  {
    var signature := ParseSignature(root);
    if signature.Failure? {
      return Failure(signature.error);
    }
    var rules := ParseRules(root, signature.value);
    if rules.Failure? {
      return Failure(rules.error);
    }
    return Success(Trs(rules.value, signature.value));
  }

  // ----- what the reader promises -----

  /** What a `funcsym` entry that reads declares. */
  predicate DeclaresSymbol(e: Element, f: FunctionSymbol)
  {
    && FirstTagged(e.children, "name").Some?
    && FirstTagged(e.children, "arity").Some?
    && ParseInt(FirstTagged(e.children, "arity").value.text).Some?
    && var arity := ParseInt(FirstTagged(e.children, "arity").value.text).value;
    && f.name == FirstTagged(e.children, "name").value.text
    && |f.signature| == (if arity >= 0 then arity + 1 else 0)
    && forall k :: 0 <= k < |f.signature| ==> f.signature[k] == SortToken
  }

  /**
   * The table of a document that reads: one symbol per `funcsym` entry, in document
   * order, named by the entry's `name` text, with `arity + 1` placeholder sorts (none
   * when the declared arity is negative).
   */
  lemma DocumentSignature(root: Element)
    requires TrsOf(root).Success?
    ensures var entries, signature := FuncSymElements(root), TrsOf(root).value.signature;
      && |signature| == |entries|
      && forall i :: 0 <= i < |entries| ==> DeclaresSymbol(entries[i], signature[i])
  {
    var entries := FuncSymElements(root);
    SignatureOfEntries(entries);
    var signature := SignatureOf(entries).value;
    forall i | 0 <= i < |entries|
      ensures DeclaresSymbol(entries[i], signature[i])
    {
      assert SymbolOf(entries[i]) == Success(signature[i]);
    }
  }

  lemma {:induction false} ArgsOfEntries(signature: seq<FunctionSymbol>, e: Element, args: seq<Element>)
    requires forall x :: x in args ==> x in e.children
    ensures ArgsOf(signature, e, args).Success? ==>
      && |ArgsOf(signature, e, args).value| == |args|
      && forall i :: 0 <= i < |args| ==>
        |args[i].children| > 0 && TermOf(signature, args[i].children[0]) == Success(ArgsOf(signature, e, args).value[i])
  {
    if |args| > 0 {
      ArgsOfEntries(signature, e, args[1..]);
      assert forall i :: 1 <= i < |args| ==> args[i] == args[1..][i - 1];
    }
  }

  /**
   * The three outcomes of parsing a term node: a `var` node gives `Variable(text, 'a')`;
   * a `funapp` node gives the application of the first table entry with its name (or of
   * nothing) to one argument per `arg` child, in document order; any other tag gives
   * Python's `None`.
   */
  lemma TermOfCases(signature: seq<FunctionSymbol>, e: Element)
    ensures e.tag == "var" ==> TermOf(signature, e) == Success(Var(e.text, SortToken))
    ensures e.tag != "var" && e.tag != "funapp" ==> TermOf(signature, e) == Success(Absent)
    ensures e.tag == "funapp" && TermOf(signature, e).Success? ==>
      var t, args := TermOf(signature, e).value, Tagged(e.children, "arg");
      && FirstTagged(e.children, "name").Some?
      && t.App?
      && t.symbol == Lookup(signature, FirstTagged(e.children, "name").value.text)
      && |t.args| == |args|
      && forall i :: 0 <= i < |args| ==>
        |args[i].children| > 0 && TermOf(signature, args[i].children[0]) == Success(t.args[i])
  {
    ArgsOfEntries(signature, e, Tagged(e.children, "arg"));
    if e.tag == "funapp" && TermOf(signature, e).Success? {
      assert FuncAppOf(signature, e).Success?;
    }
  }

  /**
   * Every `funapp` node the reader reaches from `e` names an entry of the table: the node's
   * own name, then recursively the first child of each of its `arg` children.
   */
  predicate Declared(signature: seq<FunctionSymbol>, e: Element)
    decreases e
  {
    e.tag == "funapp" ==>
      var name, args := FirstTagged(e.children, "name"), Tagged(e.children, "arg");
      && name.Some?
      && (exists i :: 0 <= i < |signature| && signature[i].name == name.value.text)
      && forall k :: 0 <= k < |args| ==> |args[k].children| > 0 ==> Declared(signature, args[k].children[0])
  }

  /**
   * A parsed term is free of unresolved symbols exactly when every name it uses is
   * declared: an undeclared name is not an error of the reader, it only leaves a `None`
   * symbol inside the term.
   */
  lemma {:induction false} ResolvedIffDeclared(signature: seq<FunctionSymbol>, e: Element)
    requires TermOf(signature, e).Success?
    ensures Resolved(TermOf(signature, e).value) <==> Declared(signature, e)
    decreases e
  {
    if e.tag == "funapp" {
      var args := Tagged(e.children, "arg");
      TermOfCases(signature, e);
      var t := TermOf(signature, e).value;
      forall k | 0 <= k < |args|
        ensures Resolved(t.args[k]) <==> Declared(signature, args[k].children[0])
      {
        assert args[k] in e.children;
        ResolvedIffDeclared(signature, args[k].children[0]);
      }
    }
  }
}
