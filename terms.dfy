/**
 * The term model of a term-rewriting system (converter.py, classes `Rule`, `Variable`,
 * `FunctionSymbol`, `Function` and `TRS`) and its print forms, which are the syntax of
 * the MSTRS output.
 */
module Terms {
  import opened Wrappers
  import opened Text
  import opened Errors

  /** The one placeholder sort the single-sorted reader gives every position. */
  const SortToken: string := "a"

  /** A symbol and its sort list: argument sorts, then the output sort. */
  datatype FunctionSymbol = FunctionSymbol(name: string, signature: seq<string>)

  /**
   * A term as the reader builds it. `App.symbol` is `None` when the name was not
   * declared, and `Absent` stands where the reader returned Python's `None` for a
   * node that is neither a variable nor an application.
   */
  datatype Term =
    | Var(name: string, sort: string)
    | App(symbol: Option<FunctionSymbol>, args: seq<Term>)
    | Absent

  datatype Rule = Rule(left: Term, right: Term)

  datatype Trs = Trs(rules: seq<Rule>, signature: seq<FunctionSymbol>)

  /** `FunctionSymbol.is_constant`: the sort list holds the output sort alone. */
  predicate IsConstant(f: FunctionSymbol)
  {
    |f.signature| == 1
  }

  /**
   * The symbol the reader makes from a declared arity: `['a'] * (arity + 1)`, which
   * Python makes empty when `arity + 1` is not positive.
   */
  function SymbolOfArity(name: string, arity: int): (f: FunctionSymbol)
    ensures f.name == name
    ensures forall i :: 0 <= i < |f.signature| ==> f.signature[i] == SortToken
    ensures arity >= 0 ==> |f.signature| == arity + 1
    ensures arity < 0 ==> f.signature == []
    ensures IsConstant(f) <==> arity == 0
  {
    FunctionSymbol(name, Repeat(SortToken, if arity + 1 > 0 then arity + 1 else 0))
  }

  /** `FunctionSymbol.__str__`: `name :: s1 -> ... -> sn`. */
  function SymbolString(f: FunctionSymbol): string
  {
    f.name + " :: " + Join(f.signature, " -> ")
  }

  /** Every application in the term names a declared symbol. */
  predicate Resolved(t: Term)
  {
    match t
    case Var(_, _) => true
    case Absent => true
    case App(symbol, args) => symbol.Some? && forall i :: 0 <= i < |args| ==> Resolved(args[i])
  }

  /**
   * `str(term)`. A variable prints its name and `Absent` prints `None`. An application
   * prints its arguments first; then a missing symbol raises, a constant prints its bare
   * name (whatever its arguments), and any other symbol prints `name(a1, ..., an)`.
   */
  function TermString(t: Term): Result<string, Error>
  {
    match t
    case Var(name, _) => Success(name)
    case Absent => Success("None")
    case App(symbol, args) =>
      var parts :- ArgStrings(args);
      if symbol.None? then Failure(UnresolvedSymbol)
      else if IsConstant(symbol.value) then Success(symbol.value.name)
      else Success(symbol.value.name + "(" + Join(parts, ", ") + ")")
  }

  /** The printed arguments, in order; the first failing one decides the error. */
  function ArgStrings(args: seq<Term>): (r: Result<seq<string>, Error>)
    ensures r.Success? ==>
      |r.value| == |args| && forall i :: 0 <= i < |args| ==> TermString(args[i]) == Success(r.value[i])
    ensures r.Failure? ==> exists i :: 0 <= i < |args| && TermString(args[i]) == Failure(r.error)
  {
    if |args| == 0 then Success([])
    else
      var first :- TermString(args[0]);
      var rest :- ArgStrings(args[1..]);
      assert forall i :: 1 <= i < |args| ==> args[i] == args[1..][i - 1];
      Success([first] + rest)
  }

  /** `Rule.__str__`: `left -> right`. */
  function RuleString(r: Rule): Result<string, Error>
  {
    var left :- TermString(r.left);
    var right :- TermString(r.right);
    Success(left + " -> " + right)
  }

  /** Printing a term fails exactly when it holds an undeclared symbol, and only with that error. */
  lemma {:induction false} TermStringSucceeds(t: Term)
    ensures TermString(t).Success? <==> Resolved(t)
    ensures TermString(t).Failure? ==> TermString(t).error == UnresolvedSymbol
    decreases t
  {
    match t
    case Var(_, _) =>
    case Absent =>
    case App(symbol, args) =>
      forall i | 0 <= i < |args|
        ensures TermString(args[i]).Success? <==> Resolved(args[i])
        ensures TermString(args[i]).Failure? ==> TermString(args[i]).error == UnresolvedSymbol
      {
        TermStringSucceeds(args[i]);
      }
  }

  /**
   * The two print forms of an application whose arguments all print: a constant drops
   * its arguments, any other symbol lists exactly one printed argument per argument,
   * in order, between parentheses (so with no arguments it prints `name()`).
   */
  lemma ApplicationForms(f: FunctionSymbol, args: seq<Term>)
    requires forall i :: 0 <= i < |args| ==> Resolved(args[i])
    ensures IsConstant(f) ==> TermString(App(Some(f), args)) == Success(f.name)
    ensures !IsConstant(f) ==> exists parts: seq<string> ::
      && |parts| == |args|
      && (forall i :: 0 <= i < |args| ==> TermString(args[i]) == Success(parts[i]))
      && TermString(App(Some(f), args)) == Success(f.name + "(" + Join(parts, ", ") + ")")
    ensures !IsConstant(f) && args == [] ==> TermString(App(Some(f), args)) == Success(f.name + "()")
  {
    TermStringSucceeds(App(Some(f), args));
    if args == [] {
      assert ArgStrings(args) == Success([]);
      assert f.name + "(" + Join([], ", ") + ")" == f.name + "()";
    }
  }

  /** A rule prints as `left -> right` exactly when both sides are resolved. */
  lemma RulePrintForm(r: Rule)
    ensures RuleString(r).Success? <==> Resolved(r.left) && Resolved(r.right)
    ensures RuleString(r).Success? ==>
      RuleString(r).value == TermString(r.left).value + " -> " + TermString(r.right).value
  {
    TermStringSucceeds(r.left);
    TermStringSucceeds(r.right);
  }

  /** `k` copies of ` -> a`: the arrows and sorts after the first sort of an arity-`k` symbol. */
  function Arrows(k: nat): string
  {
    if k == 0 then "" else " -> " + SortToken + Arrows(k - 1)
  }

  /**
   * The debug print form of a symbol the reader built from a declared arity: for
   * `k >= 0`, `name :: a` followed by `k` arrows, each to another `a`; for a negative
   * arity the sort list is empty and nothing follows `name :: `.
   */
  lemma SymbolStringForm(name: string, arity: int)
    ensures arity >= 0 ==> SymbolString(SymbolOfArity(name, arity)) == name + " :: " + SortToken + Arrows(arity)
    ensures arity < 0 ==> SymbolString(SymbolOfArity(name, arity)) == name + " :: "
  {
    if arity >= 0 {
      SortsJoin(arity);
      assert name + " :: " + (SortToken + Arrows(arity)) == name + " :: " + SortToken + Arrows(arity);
    } else {
      assert Join([], " -> ") == "";
      assert name + " :: " + "" == name + " :: ";
    }
  }

  lemma {:induction false} SortsJoin(k: nat)
    ensures Join(Repeat(SortToken, k + 1), " -> ") == SortToken + Arrows(k)
  {
    var sorts := Repeat(SortToken, k + 1);
    if k == 0 {
      assert sorts == [SortToken];
      assert SortToken + "" == SortToken;
    } else {
      assert sorts[1..] == Repeat(SortToken, k);
      SortsJoin(k - 1);
      assert Join(sorts, " -> ") == SortToken + " -> " + (SortToken + Arrows(k - 1));
      assert SortToken + " -> " + (SortToken + Arrows(k - 1)) == SortToken + (" -> " + SortToken + Arrows(k - 1));
    }
  }
}
