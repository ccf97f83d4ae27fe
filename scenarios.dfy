/**
 * One small document carried through the whole converter: a constant `f`, a unary
 * `g`, and the rule `f -> g(f)`.
 */
module Scenarios {
  import opened Wrappers
  import opened Text
  import opened Errors
  import opened Terms
  import opened XmlReader
  import opened MstrsWriter

  function Leaf(tag: string, text: string): Element
  {
    Element(tag, text, [])
  }

  /** A `funcsym` entry with the given name and arity text. */
  function FuncSym(name: string, arity: string): Element
  {
    Element("funcsym", "", [Leaf("name", name), Leaf("arity", arity)])
  }

  /** `f`, as a term node. */
  const FNode := Element("funapp", "", [Leaf("name", "f")])

  /** `g(f)`, as a term node. */
  const GfNode := Element("funapp", "", [Leaf("name", "g"), Element("arg", "", [FNode])])

  const F := FunctionSymbol("f", ["a"])
  const G := FunctionSymbol("g", ["a", "a"])

  const Symbols := [FuncSym("f", "0"), FuncSym("g", "1")]
  const RuleNode := Element("rule", "", [Element("lhs", "", [FNode]), Element("rhs", "", [GfNode])])
  const RulesNode := Element("rules", "", [RuleNode])
  const SignatureNode := Element("signature", "", Symbols)
  const TrsNode := Element("trs", "", [RulesNode, SignatureNode])

  /** The document `<problem><trs><rules>…</rules><signature>…</signature></trs></problem>`. */
  const Doc := Element("problem", "", [TrsNode])

  lemma DocEntries()
    ensures FuncSymElements(Doc) == Symbols
    ensures RuleElements(Doc) == [RuleNode]
  {
    TrsStep();
    SignatureSteps();
    RuleSteps();
  }

  lemma TrsStep()
    ensures Step([Doc], "trs") == [TrsNode]
  {
    assert [Doc][1..] == [] && Doc.children[1..] == [] && [TrsNode] + [] == [TrsNode];
    assert Tagged(Doc.children, "trs") == [TrsNode];
  }

  lemma SignatureSteps()
    ensures Step(Step([TrsNode], "signature"), "funcsym") == Symbols
  {
    assert Tagged(TrsNode.children, "signature") == [SignatureNode] by {
      assert "rules" != "signature" by { assert |"rules"| != |"signature"|; }
      assert TrsNode.children[1..] == [SignatureNode] && [SignatureNode][1..] == [];
      assert Tagged([SignatureNode], "signature") == [SignatureNode] by {
        assert [SignatureNode] + [] == [SignatureNode];
      }
    }
    assert Step([TrsNode], "signature") == [SignatureNode] by {
      assert [TrsNode][1..] == [] && [SignatureNode] + [] == [SignatureNode];
    }
    assert Tagged(Symbols, "funcsym") == Symbols by {
      assert Symbols[1..] == [FuncSym("g", "1")] && Symbols[1..][1..] == [];
      assert [FuncSym("g", "1")] + [] == [FuncSym("g", "1")];
      assert [FuncSym("f", "0")] + [FuncSym("g", "1")] == Symbols;
    }
    assert Step([SignatureNode], "funcsym") == Symbols by {
      assert [SignatureNode][1..] == [] && Symbols + [] == Symbols;
    }
  }

  lemma RuleSteps()
    ensures Step(Step([TrsNode], "rules"), "rule") == [RuleNode]
  {
    assert Tagged(TrsNode.children, "rules") == [RulesNode] by {
      assert "signature" != "rules" by { assert |"rules"| != |"signature"|; }
      assert TrsNode.children[1..] == [SignatureNode] && [SignatureNode][1..] == [];
      assert Tagged([SignatureNode], "rules") == [];
      assert [RulesNode] + [] == [RulesNode];
    }
    assert Step([TrsNode], "rules") == [RulesNode] by {
      assert [TrsNode][1..] == [] && [RulesNode] + [] == [RulesNode];
    }
    assert Step([RulesNode], "rule") == [RuleNode] by {
      assert [RulesNode][1..] == [] && RulesNode.children[1..] == [];
      assert [RuleNode] + [] == [RuleNode];
      assert Tagged(RulesNode.children, "rule") == [RuleNode];
    }
  }

  lemma NumeralValues()
    ensures ParseInt("0") == Some(0) && ParseInt("1") == Some(1)
  {
    assert "0"[..0] == "" && "1"[..0] == "";
    assert DigitsValue("0") == 0 && DigitsValue("1") == 1;
  }

  lemma ConstantEntry()
    ensures SymbolOf(FuncSym("f", "0")) == Success(F)
  {
    var cs := FuncSym("f", "0").children;
    assert FirstTagged(cs, "name") == Some(Leaf("name", "f"));
    assert FirstTagged(cs, "arity") == Some(Leaf("arity", "0")) by {
      assert cs[1..] == [Leaf("arity", "0")];
    }
    NumeralValues();
    assert Repeat(SortToken, 1) == ["a"] by {
      assert Repeat(SortToken, 0) == [];
    }
  }

  lemma UnaryEntry()
    ensures SymbolOf(FuncSym("g", "1")) == Success(G)
  {
    var cs := FuncSym("g", "1").children;
    assert FirstTagged(cs, "name") == Some(Leaf("name", "g"));
    assert FirstTagged(cs, "arity") == Some(Leaf("arity", "1")) by {
      assert cs[1..] == [Leaf("arity", "1")];
    }
    NumeralValues();
    assert Repeat(SortToken, 2) == ["a", "a"] by {
      assert Repeat(SortToken, 1) == ["a"] by {
        assert Repeat(SortToken, 0) == [];
      }
    }
  }

  /** The document declares `f :: a` and `g :: a -> a`, in that order. */
  lemma DocSignature()
    ensures SignatureOf(Symbols) == Success([F, G])
  {
    ConstantEntry();
    UnaryEntry();
    assert Symbols[1..] == [FuncSym("g", "1")] && Symbols[1..][1..] == [];
    assert SignatureOf([FuncSym("g", "1")]) == Success([G]) by {
      assert [G] + [] == [G];
    }
    assert [F] + [G] == [F, G];
  }

  const Lhs := App(Some(F), [])
  const Rhs := App(Some(G), [App(Some(F), [])])

  lemma LookupNames()
    ensures Lookup([F, G], "f") == Some(F) && Lookup([F, G], "g") == Some(G)
  {
    assert [F, G][1..] == [G];
  }

  lemma TermNodes()
    ensures TermOf([F, G], FNode) == Success(Lhs)
    ensures TermOf([F, G], GfNode) == Success(Rhs)
  {
    LookupNames();
    assert FirstTagged(FNode.children, "name") == Some(Leaf("name", "f"));
    assert Tagged(FNode.children, "arg") == [] by {
      assert FNode.children[1..] == [];
    }
    assert FuncAppOf([F, G], FNode) == Success(Lhs);
    var arg := Element("arg", "", [FNode]);
    assert FirstTagged(GfNode.children, "name") == Some(Leaf("name", "g"));
    assert Tagged(GfNode.children, "arg") == [arg] by {
      assert GfNode.children[1..] == [arg] && [arg][1..] == [];
      assert [arg] + [] == [arg];
    }
    assert ArgsOf([F, G], GfNode, [arg]) == Success([Lhs]) by {
      assert [arg][1..] == [];
      assert [Lhs] + [] == [Lhs];
    }
    assert FuncAppOf([F, G], GfNode) == Success(Rhs);
  }

  /** Its one rule reads as `f -> g(f)`, both symbols resolved. */
  lemma DocRules()
    ensures RulesOf([F, G], [RuleNode]) == Success([Rule(Lhs, Rhs)])
  {
    TermNodes();
    var cs := RuleNode.children;
    assert FirstTagged(cs, "lhs") == Some(Element("lhs", "", [FNode]));
    assert FirstTagged(cs, "rhs") == Some(Element("rhs", "", [GfNode])) by {
      assert cs[1..] == [Element("rhs", "", [GfNode])];
    }
    assert RuleOf([F, G], RuleNode) == Success(Rule(Lhs, Rhs));
    var read := RuleReader([F, G]);
    assert read(RuleNode) == Success(Rule(Lhs, Rhs));
    assert Collect(read, [RuleNode][1..]) == Success([]);
    assert [Rule(Lhs, Rhs)] + [] == [Rule(Lhs, Rhs)];
  }

  /** The document reads as the system with the table `[f, g]` and the rule `f -> g(f)`. */
  lemma DocReads()
    ensures TrsOf(Doc) == Success(Trs([Rule(Lhs, Rhs)], [F, G]))
  {
    DocEntries();
    DocSignature();
    DocRules();
  }

  lemma ConstantLine()
    ensures SignatureLine(F) == Success("f  -> a")
  {
    assert F.signature[..0] == [];
    assert "f" + " " + "" + " -> " + "a" == "f  -> a";
  }

  lemma UnaryLine()
    ensures SignatureLine(G) == Success("g a -> a")
  {
    assert G.signature[..1] == ["a"];
    assert "g" + " " + "a" + " -> " + "a" == "g a -> a";
  }

  lemma SignatureEntries()
    ensures SignatureLines([F, G]) == Success(["f  -> a", "g a -> a"])
  {
    ConstantLine();
    UnaryLine();
    assert [F, G][1..] == [G] && [G][1..] == [];
    assert SignatureLines([G]) == Success(["g a -> a"]) by {
      assert ["g a -> a"] + [] == ["g a -> a"];
    }
    assert ["f  -> a"] + ["g a -> a"] == ["f  -> a", "g a -> a"];
  }

  lemma SignatureItems()
    ensures Join(Parenthesized(["f  -> a", "g a -> a"]), "\n  ") == "(f  -> a)\n  (g a -> a)"
  {
    var items := Parenthesized(["f  -> a", "g a -> a"]);
    assert items == ["(f  -> a)", "(g a -> a)"] by {
      assert "(" + "f  -> a" + ")" == "(f  -> a)";
      assert "(" + "g a -> a" + ")" == "(g a -> a)";
    }
    assert items[1..] == ["(g a -> a)"];
    assert "(f  -> a)" + "\n  " + "(g a -> a)" == "(f  -> a)\n  (g a -> a)";
  }

  lemma SignatureBlockItems()
    ensures SignatureBlock([F, G]) == Success(Block("SIG", Parenthesized(["f  -> a", "g a -> a"])))
  {
    SignatureEntries();
  }

  lemma SignatureBlockLayout()
    ensures Block("SIG", Parenthesized(["f  -> a", "g a -> a"])) == "(SIG\n  (f  -> a)\n  (g a -> a)\n)"
  {
    SignatureItems();
    assert "(" + "SIG" + "\n  " == "(SIG\n  ";
    assert "(SIG\n  " + "(f  -> a)\n  (g a -> a)" + "\n)" == "(SIG\n  (f  -> a)\n  (g a -> a)\n)";
  }

  lemma SignatureText()
    ensures SignatureBlock([F, G]) == Success("(SIG\n  (f  -> a)\n  (g a -> a)\n)")
  {
    SignatureBlockItems();
    SignatureBlockLayout();
  }

  lemma RuleText()
    ensures RuleString(Rule(Lhs, Rhs)) == Success("f -> g(f)")
  {
    assert TermString(Lhs) == Success("f");
    assert ArgStrings([App(Some(F), [])]) == Success(["f"]) by {
      assert [App(Some(F), [])][1..] == [];
      assert ArgStrings([]) == Success([]);
      assert ["f"] + [] == ["f"];
    }
    assert TermString(Rhs) == Success("g(f)") by {
      assert "g" + "(" + Join(["f"], ", ") + ")" == "g(f)";
    }
    assert "f" + " -> " + "g(f)" == "f -> g(f)";
  }

  lemma RulesText()
    ensures GenerateRules(Trs([Rule(Lhs, Rhs)], [F, G])) == Success("(RULES\n  f -> g(f)\n)")
  {
    RuleText();
    assert [Rule(Lhs, Rhs)][1..] == [];
    assert RuleLines([Rule(Lhs, Rhs)]) == Success(["f -> g(f)"]) by {
      assert RuleLines([]) == Success([]);
      assert ["f -> g(f)"] + [] == ["f -> g(f)"];
    }
    assert "(" + "RULES" + "\n  " + Join(["f -> g(f)"], "\n  ") + "\n)" == "(RULES\n  f -> g(f)\n)";
  }

  /** The document converts to this MSTRS text. */
  lemma DocConverts()
    ensures TrsOf(Doc).Success?
    ensures Mstrs(TrsOf(Doc).value) == Success("(SIG\n  (f  -> a)\n  (g a -> a)\n)\n(RULES\n  f -> g(f)\n)")
  {
    DocReads();
    SystemText();
  }

  /** The system of the document renders to this MSTRS text. */
  lemma SystemText()
    ensures Mstrs(Trs([Rule(Lhs, Rhs)], [F, G])) == Success("(SIG\n  (f  -> a)\n  (g a -> a)\n)\n(RULES\n  f -> g(f)\n)")
  {
    SignatureText();
    RulesText();
    assert "(SIG\n  (f  -> a)\n  (g a -> a)\n)" + "\n" + "(RULES\n  f -> g(f)\n)"
        == "(SIG\n  (f  -> a)\n  (g a -> a)\n)\n(RULES\n  f -> g(f)\n)";
  }
}
