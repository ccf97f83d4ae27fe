/**
 * The experiment runner (main.py, classes `Configuration`, `AnalysisResult` and
 * `CoraRunner`): the cartesian product of the configured options, the command line of
 * one analyser run, and the classification of the analyser's output.
 */
module CoraRunner {
  import opened Wrappers
  import opened Text

  /**
   * One combination of analyser options. The options come from a JSON settings file;
   * the model fixes the types the runner uses them at: the technique and the
   * semi-unifier are strings, the unfolding bound and the timeout integers, and
   * `augment` a boolean.
   */
  datatype Configuration = Configuration(
    technique: string,
    semiUnifier: string,
    maxUnfoldings: int,
    timing: int,
    augment: bool)

  // ----- the command line -----

  /** Python's `str(b)` for a boolean. */
  function BoolString(b: bool): string
  {
    if b then "True" else "False"
  }

  /** `Configuration.to_commandline_arguments`. */
  function CommandlineArguments(c: Configuration): seq<string>
  {
    ["-t", c.technique,
     "-u", IntToString(c.maxUnfoldings),
     "-a", BoolString(c.augment),
     "--su", c.semiUnifier,
     "--timeout", IntToString(c.timing)]
  }

  /** The five flags, in the order the arguments list them. */
  const Flags: seq<string> := ["-t", "-u", "-a", "--su", "--timeout"]

  /**
   * Reading a configuration back from an argument list of that shape: each flag at an
   * even position, followed by its value. `ArgumentsRoundTrip` shows it undoes
   * `to_commandline_arguments`.
   */
  function ConfigurationOf(args: seq<string>): Option<Configuration>
  {
    if |args| != 10 || (exists k :: 0 <= k < 5 && args[2 * k] != Flags[k]) then None
    else
      match (ParseInt(args[3]), ParseInt(args[9]))
      case (Some(u), Some(t)) =>
        if args[5] == "True" then Some(Configuration(args[1], args[7], u, t, true))
        else if args[5] == "False" then Some(Configuration(args[1], args[7], u, t, false))
        else None
      case _ => None
  }

  /**
   * The argument list has ten entries, the five flags at positions 0, 2, 4, 6 and 8,
   * and each field of the configuration can be read back from the entry after its flag.
   */
  lemma ArgumentsRoundTrip(c: Configuration)
    ensures var args := CommandlineArguments(c);
      && |args| == 10
      && (forall k :: 0 <= k < 5 ==> args[2 * k] == Flags[k])
      && ConfigurationOf(args) == Some(c)
  {
    var args := CommandlineArguments(c);
    FlagsInPlace(c);
    assert ParseInt(args[3]) == Some(c.maxUnfoldings) by {
      ParseIntToString(c.maxUnfoldings);
    }
    assert ParseInt(args[9]) == Some(c.timing) by {
      ParseIntToString(c.timing);
    }
    if !c.augment {
      assert args[5] != "True" by {
        assert args[5][0] == 'F';
      }
    }
  }

  /** Each of the five flags sits at its even position of the argument list. */
  lemma FlagsInPlace(c: Configuration)
    ensures var args := CommandlineArguments(c);
      |args| == 10 && forall k :: 0 <= k < 5 ==> args[2 * k] == Flags[k]
  {
    var args := CommandlineArguments(c);
    forall k | 0 <= k < 5
      ensures args[2 * k] == Flags[k]
    {
      if k == 0 {} else if k == 1 {} else if k == 2 {} else if k == 3 {} else {}
    }
  }

  // ----- the cartesian product -----

  /** The innermost loop: one configuration per timeout, in order. */
  function ForTimings(t: string, s: string, u: int, a: bool, timings: seq<int>): (r: seq<Configuration>)
    ensures |r| == |timings|
  {
    if |timings| == 0 then []
    else ForTimings(t, s, u, a, timings[..|timings| - 1]) + [Configuration(t, s, u, timings[|timings| - 1], a)]
  }

  /** The `augment` loop: for each flag, all timeouts. */
  function ForAugments(t: string, s: string, u: int, timings: seq<int>, augment: seq<bool>): seq<Configuration>
  {
    if |augment| == 0 then []
    else ForAugments(t, s, u, timings, augment[..|augment| - 1]) + ForTimings(t, s, u, augment[|augment| - 1], timings)
  }

  /** The `max_unfoldings` loop. */
  function ForUnfoldings(t: string, s: string, maxUnfoldings: seq<int>, timings: seq<int>, augment: seq<bool>)
    : seq<Configuration>
  {
    if |maxUnfoldings| == 0 then []
    else
      ForUnfoldings(t, s, maxUnfoldings[..|maxUnfoldings| - 1], timings, augment)
        + ForAugments(t, s, maxUnfoldings[|maxUnfoldings| - 1], timings, augment)
  }

  /** The `semi_unifiers` loop. */
  function ForSemiUnifiers(t: string, semiUnifiers: seq<string>, maxUnfoldings: seq<int>, timings: seq<int>,
                           augment: seq<bool>): seq<Configuration>
  {
    if |semiUnifiers| == 0 then []
    else
      ForSemiUnifiers(t, semiUnifiers[..|semiUnifiers| - 1], maxUnfoldings, timings, augment)
        + ForUnfoldings(t, semiUnifiers[|semiUnifiers| - 1], maxUnfoldings, timings, augment)
  }

  /**
   * `CoraRunner.get_configurations(techniques, semi_unifiers, max_unfoldings, timings, augment)`:
   * techniques outermost, then semi-unifiers, unfolding bounds and `augment` flags, with
   * timeouts innermost.
   */
  function Configurations(techniques: seq<string>, semiUnifiers: seq<string>, maxUnfoldings: seq<int>,
                          timings: seq<int>, augment: seq<bool>): seq<Configuration>
  {
    if |techniques| == 0 then []
    else
      Configurations(techniques[..|techniques| - 1], semiUnifiers, maxUnfoldings, timings, augment)
        + ForSemiUnifiers(techniques[|techniques| - 1], semiUnifiers, maxUnfoldings, timings, augment)
  }

  /** `CoraRunner.get_configurations`: five nested loops appending to one list. */
  method GetConfigurations(techniques: seq<string>, semiUnifiers: seq<string>, maxUnfoldings: seq<int>,
                           timings: seq<int>, augment: seq<bool>)
    returns (configurations: seq<Configuration>)
    ensures configurations == Configurations(techniques, semiUnifiers, maxUnfoldings, timings, augment)
  {
    configurations := [];
    for i := 0 to |techniques|
      invariant configurations == Configurations(techniques[..i], semiUnifiers, maxUnfoldings, timings, augment)
    {
      var t := techniques[i];
      ghost var before := configurations;
      for j := 0 to |semiUnifiers|
        invariant configurations == before + ForSemiUnifiers(t, semiUnifiers[..j], maxUnfoldings, timings, augment)
      {
        configurations := AppendUnfoldings(configurations, t, semiUnifiers[j], maxUnfoldings, timings, augment);
        SemiUnifiersStep(before, t, semiUnifiers, maxUnfoldings, timings, augment, j);
      }
      TechniquesStep(techniques, semiUnifiers, maxUnfoldings, timings, augment, i);
    }
    assert techniques[..|techniques|] == techniques;
  }

  /** The three inner loops of `get_configurations`, for one technique and one semi-unifier. */
  method AppendUnfoldings(configurations: seq<Configuration>, t: string, s: string, maxUnfoldings: seq<int>,
                          timings: seq<int>, augment: seq<bool>)
    returns (r: seq<Configuration>)
    ensures r == configurations + ForUnfoldings(t, s, maxUnfoldings, timings, augment)
  {
    r := configurations;
    for k := 0 to |maxUnfoldings|
      invariant r == configurations + ForUnfoldings(t, s, maxUnfoldings[..k], timings, augment)
    {
      var u := maxUnfoldings[k];
      ghost var before := r;
      for l := 0 to |augment|
        invariant r == before + ForAugments(t, s, u, timings, augment[..l])
      {
        var a := augment[l];
        ghost var before' := r;
        for m := 0 to |timings|
          invariant r == before' + ForTimings(t, s, u, a, timings[..m])
        {
          r := r + [Configuration(t, s, u, timings[m], a)];
          TimingsStep(before', t, s, u, a, timings, m);
        }
        AugmentsStep(before, t, s, u, timings, augment, l);
      }
      UnfoldingsStep(configurations, t, s, timings, augment, maxUnfoldings, k);
    }
    assert maxUnfoldings[..|maxUnfoldings|] == maxUnfoldings;
  }

  lemma TimingsStep(before: seq<Configuration>, t: string, s: string, u: int, a: bool, timings: seq<int>, m: nat)
    requires m < |timings|
    ensures before + ForTimings(t, s, u, a, timings[..m + 1])
         == before + ForTimings(t, s, u, a, timings[..m]) + [Configuration(t, s, u, timings[m], a)]
  {
    assert timings[..m + 1][..m] == timings[..m];
  }

  lemma AugmentsStep(before: seq<Configuration>, t: string, s: string, u: int, timings: seq<int>, augment: seq<bool>,
                     l: nat)
    requires l < |augment|
    ensures before + ForAugments(t, s, u, timings, augment[..l]) + ForTimings(t, s, u, augment[l], timings[..|timings|])
         == before + ForAugments(t, s, u, timings, augment[..l + 1])
  {
    assert augment[..l + 1][..l] == augment[..l];
    assert timings[..|timings|] == timings;
  }

  lemma UnfoldingsStep(before: seq<Configuration>, t: string, s: string, timings: seq<int>, augment: seq<bool>,
                       maxUnfoldings: seq<int>, k: nat)
    requires k < |maxUnfoldings|
    ensures before + ForUnfoldings(t, s, maxUnfoldings[..k], timings, augment)
              + ForAugments(t, s, maxUnfoldings[k], timings, augment[..|augment|])
         == before + ForUnfoldings(t, s, maxUnfoldings[..k + 1], timings, augment)
  {
    assert maxUnfoldings[..k + 1][..k] == maxUnfoldings[..k];
    assert augment[..|augment|] == augment;
  }

  lemma SemiUnifiersStep(before: seq<Configuration>, t: string, semiUnifiers: seq<string>, maxUnfoldings: seq<int>,
                         timings: seq<int>, augment: seq<bool>, j: nat)
    requires j < |semiUnifiers|
    ensures before + ForSemiUnifiers(t, semiUnifiers[..j], maxUnfoldings, timings, augment)
              + ForUnfoldings(t, semiUnifiers[j], maxUnfoldings, timings, augment)
         == before + ForSemiUnifiers(t, semiUnifiers[..j + 1], maxUnfoldings, timings, augment)
  {
    assert semiUnifiers[..j + 1][..j] == semiUnifiers[..j];
  }

  lemma TechniquesStep(techniques: seq<string>, semiUnifiers: seq<string>, maxUnfoldings: seq<int>,
                       timings: seq<int>, augment: seq<bool>, i: nat)
    requires i < |techniques|
    ensures Configurations(techniques[..i], semiUnifiers, maxUnfoldings, timings, augment)
              + ForSemiUnifiers(techniques[i], semiUnifiers[..|semiUnifiers|], maxUnfoldings, timings, augment)
         == Configurations(techniques[..i + 1], semiUnifiers, maxUnfoldings, timings, augment)
  {
    assert techniques[..i + 1][..i] == techniques[..i];
    assert semiUnifiers[..|semiUnifiers|] == semiUnifiers;
  }


  // ----- the position of each combination -----

  lemma ForTimingsAt(t: string, s: string, u: int, a: bool, timings: seq<int>, m: nat)
    requires m < |timings|
    ensures ForTimings(t, s, u, a, timings)[m] == Configuration(t, s, u, timings[m], a)
  {
    if m < |timings| - 1 {
      ForTimingsAt(t, s, u, a, timings[..|timings| - 1], m);
    }
  }

  /**
   * Entry `m` of block `l` of the `augment` loop, which follows the blocks of the flags
   * before `l`, is entry `m` of the timeouts loop for flag `l`.
   */
  lemma {:induction false} ForAugmentsAt(t: string, s: string, u: int, timings: seq<int>, augment: seq<bool>,
                                         l: nat, m: nat, position: nat)
    requires l < |augment| && m < |timings|
    requires position == |ForAugments(t, s, u, timings, augment[..l])| + m
    ensures position < |ForAugments(t, s, u, timings, augment)|
    ensures ForAugments(t, s, u, timings, augment)[position] == ForTimings(t, s, u, augment[l], timings)[m]
  {
    var prefix := augment[..|augment| - 1];
    if l < |augment| - 1 {
      assert prefix[..l] == augment[..l];
      ForAugmentsAt(t, s, u, timings, prefix, l, m, position);
    } else {
      assert augment[..l] == prefix;
    }
  }

  lemma {:induction false} ForUnfoldingsAt(t: string, s: string, maxUnfoldings: seq<int>, timings: seq<int>,
                                           augment: seq<bool>, k: nat, p: nat, position: nat)
    requires k < |maxUnfoldings| && p < |ForAugments(t, s, maxUnfoldings[k], timings, augment)|
    requires position == |ForUnfoldings(t, s, maxUnfoldings[..k], timings, augment)| + p
    ensures position < |ForUnfoldings(t, s, maxUnfoldings, timings, augment)|
    ensures ForUnfoldings(t, s, maxUnfoldings, timings, augment)[position]
         == ForAugments(t, s, maxUnfoldings[k], timings, augment)[p]
  {
    var prefix := maxUnfoldings[..|maxUnfoldings| - 1];
    if k < |maxUnfoldings| - 1 {
      assert prefix[..k] == maxUnfoldings[..k];
      ForUnfoldingsAt(t, s, prefix, timings, augment, k, p, position);
    } else {
      assert maxUnfoldings[..k] == prefix;
    }
  }

  lemma {:induction false} ForSemiUnifiersAt(t: string, semiUnifiers: seq<string>, maxUnfoldings: seq<int>,
                                             timings: seq<int>, augment: seq<bool>, j: nat, p: nat, position: nat)
    requires j < |semiUnifiers| && p < |ForUnfoldings(t, semiUnifiers[j], maxUnfoldings, timings, augment)|
    requires position == |ForSemiUnifiers(t, semiUnifiers[..j], maxUnfoldings, timings, augment)| + p
    ensures position < |ForSemiUnifiers(t, semiUnifiers, maxUnfoldings, timings, augment)|
    ensures ForSemiUnifiers(t, semiUnifiers, maxUnfoldings, timings, augment)[position]
         == ForUnfoldings(t, semiUnifiers[j], maxUnfoldings, timings, augment)[p]
  {
    var prefix := semiUnifiers[..|semiUnifiers| - 1];
    if j < |semiUnifiers| - 1 {
      assert prefix[..j] == semiUnifiers[..j];
      ForSemiUnifiersAt(t, prefix, maxUnfoldings, timings, augment, j, p, position);
    } else {
      assert semiUnifiers[..j] == prefix;
    }
  }

  lemma {:induction false} ConfigurationsBlockAt(techniques: seq<string>, semiUnifiers: seq<string>,
                                                 maxUnfoldings: seq<int>, timings: seq<int>, augment: seq<bool>,
                                                 i: nat, p: nat, position: nat)
    requires i < |techniques| && p < |ForSemiUnifiers(techniques[i], semiUnifiers, maxUnfoldings, timings, augment)|
    requires position == |Configurations(techniques[..i], semiUnifiers, maxUnfoldings, timings, augment)| + p
    ensures position < |Configurations(techniques, semiUnifiers, maxUnfoldings, timings, augment)|
    ensures Configurations(techniques, semiUnifiers, maxUnfoldings, timings, augment)[position]
         == ForSemiUnifiers(techniques[i], semiUnifiers, maxUnfoldings, timings, augment)[p]
  {
    var prefix := techniques[..|techniques| - 1];
    if i < |techniques| - 1 {
      assert prefix[..i] == techniques[..i];
      ConfigurationsBlockAt(prefix, semiUnifiers, maxUnfoldings, timings, augment, i, p, position);
    } else {
      assert techniques[..i] == prefix;
    }
  }

  lemma AugmentCombination(t: string, s: string, u: int, timings: seq<int>, augment: seq<bool>, i3: nat, i4: nat,
                           position: nat)
    requires i3 < |augment| && i4 < |timings|
    requires position == i3 * |timings| + i4
    ensures position < |ForAugments(t, s, u, timings, augment)|
    ensures ForAugments(t, s, u, timings, augment)[position] == Configuration(t, s, u, timings[i4], augment[i3])
  {
    ForAugmentsLength(t, s, u, timings, augment[..i3], i3);
    ForAugmentsAt(t, s, u, timings, augment, i3, i4, position);
    ForTimingsAt(t, s, u, augment[i3], timings, i4);
  }

  lemma UnfoldingCombination(t: string, s: string, maxUnfoldings: seq<int>, timings: seq<int>, augment: seq<bool>,
                             i2: nat, i3: nat, i4: nat, p: nat, position: nat)
    requires i2 < |maxUnfoldings| && i3 < |augment| && i4 < |timings|
    requires p == i3 * |timings| + i4
    requires position == i2 * (|augment| * |timings|) + p
    ensures position < |ForUnfoldings(t, s, maxUnfoldings, timings, augment)|
    ensures ForUnfoldings(t, s, maxUnfoldings, timings, augment)[position]
         == Configuration(t, s, maxUnfoldings[i2], timings[i4], augment[i3])
  {
    ForUnfoldingsLength(t, s, maxUnfoldings[..i2], timings, augment, i2);
    AugmentCombination(t, s, maxUnfoldings[i2], timings, augment, i3, i4, p);
    ForUnfoldingsAt(t, s, maxUnfoldings, timings, augment, i2, p, position);
  }

  lemma SemiUnifierCombination(t: string, semiUnifiers: seq<string>, maxUnfoldings: seq<int>, timings: seq<int>,
                               augment: seq<bool>, i1: nat, i2: nat, i3: nat, i4: nat, p3: nat, p2: nat, position: nat)
    requires i1 < |semiUnifiers| && i2 < |maxUnfoldings| && i3 < |augment| && i4 < |timings|
    requires p3 == i3 * |timings| + i4
    requires p2 == i2 * (|augment| * |timings|) + p3
    requires position == i1 * (|maxUnfoldings| * (|augment| * |timings|)) + p2
    ensures position < |ForSemiUnifiers(t, semiUnifiers, maxUnfoldings, timings, augment)|
    ensures ForSemiUnifiers(t, semiUnifiers, maxUnfoldings, timings, augment)[position]
         == Configuration(t, semiUnifiers[i1], maxUnfoldings[i2], timings[i4], augment[i3])
  {
    ForSemiUnifiersLength(t, semiUnifiers[..i1], maxUnfoldings, timings, augment, i1);
    UnfoldingCombination(t, semiUnifiers[i1], maxUnfoldings, timings, augment, i2, i3, i4, p3, p2);
    ForSemiUnifiersAt(t, semiUnifiers, maxUnfoldings, timings, augment, i1, p2, position);
  }

  lemma TechniqueCombination(techniques: seq<string>, semiUnifiers: seq<string>, maxUnfoldings: seq<int>,
                             timings: seq<int>, augment: seq<bool>, i0: nat, i1: nat, i2: nat, i3: nat, i4: nat,
                             p3: nat, p2: nat, p1: nat, position: nat)
    requires i0 < |techniques| && i1 < |semiUnifiers| && i2 < |maxUnfoldings| && i3 < |augment| && i4 < |timings|
    requires p3 == i3 * |timings| + i4
    requires p2 == i2 * (|augment| * |timings|) + p3
    requires p1 == i1 * (|maxUnfoldings| * (|augment| * |timings|)) + p2
    requires position == i0 * (|semiUnifiers| * (|maxUnfoldings| * (|augment| * |timings|))) + p1
    ensures position < |Configurations(techniques, semiUnifiers, maxUnfoldings, timings, augment)|
    ensures Configurations(techniques, semiUnifiers, maxUnfoldings, timings, augment)[position]
         == Configuration(techniques[i0], semiUnifiers[i1], maxUnfoldings[i2], timings[i4], augment[i3])
  {
    ConfigurationsLength(techniques[..i0], semiUnifiers, maxUnfoldings, timings, augment, i0);
    SemiUnifierCombination(techniques[i0], semiUnifiers, maxUnfoldings, timings, augment, i1, i2, i3, i4, p3, p2, p1);
    ConfigurationsBlockAt(techniques, semiUnifiers, maxUnfoldings, timings, augment, i0, p1, position);
  }

  // ----- the number of configurations -----

  /** One more block of `k` entries after `a` blocks. */
  lemma MulStep(a: nat, k: nat, n: nat)
    requires n == a + 1
    ensures a * k + k == n * k
  {
  }

  lemma {:induction false} ForAugmentsLength(t: string, s: string, u: int, timings: seq<int>, augment: seq<bool>,
                                             n: nat)
    requires n == |augment|
    ensures |ForAugments(t, s, u, timings, augment)| == n * |timings|
  {
    if n > 0 {
      ForAugmentsLength(t, s, u, timings, augment[..n - 1], n - 1);
      MulStep(n - 1, |timings|, n);
    }
  }

  lemma {:induction false} ForUnfoldingsLength(t: string, s: string, maxUnfoldings: seq<int>, timings: seq<int>,
                                               augment: seq<bool>, n: nat)
    requires n == |maxUnfoldings|
    ensures |ForUnfoldings(t, s, maxUnfoldings, timings, augment)| == n * (|augment| * |timings|)
  {
    if n > 0 {
      ForUnfoldingsLength(t, s, maxUnfoldings[..n - 1], timings, augment, n - 1);
      ForAugmentsLength(t, s, maxUnfoldings[n - 1], timings, augment, |augment|);
      MulStep(n - 1, |augment| * |timings|, n);
    }
  }

  lemma {:induction false} ForSemiUnifiersLength(t: string, semiUnifiers: seq<string>, maxUnfoldings: seq<int>,
                                                 timings: seq<int>, augment: seq<bool>, n: nat)
    requires n == |semiUnifiers|
    ensures |ForSemiUnifiers(t, semiUnifiers, maxUnfoldings, timings, augment)|
         == n * (|maxUnfoldings| * (|augment| * |timings|))
  {
    if n > 0 {
      ForSemiUnifiersLength(t, semiUnifiers[..n - 1], maxUnfoldings, timings, augment, n - 1);
      ForUnfoldingsLength(t, semiUnifiers[n - 1], maxUnfoldings, timings, augment, |maxUnfoldings|);
      MulStep(n - 1, |maxUnfoldings| * (|augment| * |timings|), n);
    }
  }

  lemma {:induction false} ConfigurationsLength(techniques: seq<string>, semiUnifiers: seq<string>,
                                                maxUnfoldings: seq<int>, timings: seq<int>, augment: seq<bool>, n: nat)
    requires n == |techniques|
    ensures |Configurations(techniques, semiUnifiers, maxUnfoldings, timings, augment)|
         == n * (|semiUnifiers| * (|maxUnfoldings| * (|augment| * |timings|)))
  {
    if n > 0 {
      ConfigurationsLength(techniques[..n - 1], semiUnifiers, maxUnfoldings, timings, augment, n - 1);
      ForSemiUnifiersLength(techniques[n - 1], semiUnifiers, maxUnfoldings, timings, augment, |semiUnifiers|);
      MulStep(n - 1, |semiUnifiers| * (|maxUnfoldings| * (|augment| * |timings|)), n);
    }
  }

  /** There is one configuration per combination: the product of the five list lengths. */
  lemma ConfigurationsCount(techniques: seq<string>, semiUnifiers: seq<string>, maxUnfoldings: seq<int>,
                            timings: seq<int>, augment: seq<bool>)
    ensures |Configurations(techniques, semiUnifiers, maxUnfoldings, timings, augment)|
         == |techniques| * |semiUnifiers| * |maxUnfoldings| * |augment| * |timings|
  {
    ConfigurationsLength(techniques, semiUnifiers, maxUnfoldings, timings, augment, |techniques|);
    Reassociate(|techniques|, |semiUnifiers|, |maxUnfoldings|, |augment|, |timings|);
  }

  lemma Reassociate(T: nat, S: nat, U: nat, A: nat, C: nat)
    ensures T * (S * (U * (A * C))) == T * S * U * A * C
  {
    calc {
      T * (S * (U * (A * C)));
      T * ((S * U) * (A * C));
      (T * (S * U)) * (A * C);
      ((T * S * U) * A) * C;
    }
  }

  /** The nested index equals the sum of the sizes of the blocks before the entry, plus its timeout index. */
  lemma Flatten(i0: nat, i1: nat, i2: nat, i3: nat, i4: nat, S: nat, U: nat, A: nat, C: nat)
    ensures (((i0 * S + i1) * U + i2) * A + i3) * C + i4
         == i0 * (S * (U * (A * C))) + (i1 * (U * (A * C)) + (i2 * (A * C) + (i3 * C + i4)))
  {
    calc {
      (((i0 * S + i1) * U + i2) * A + i3) * C + i4;
      ((i0 * S + i1) * U + i2) * (A * C) + i3 * C + i4;
      (i0 * S + i1) * (U * (A * C)) + i2 * (A * C) + i3 * C + i4;
      i0 * (S * (U * (A * C))) + (i1 * (U * (A * C)) + (i2 * (A * C) + (i3 * C + i4)));
    }
  }

  /**
   * The offsets of an entry inside its augment, unfolding and semi-unifier blocks; the nested
   * index is the offset of its technique block plus the last of these.
   */
  lemma Offsets(i0: nat, i1: nat, i2: nat, i3: nat, i4: nat, S: nat, U: nat, A: nat, C: nat)
    returns (p3: nat, p2: nat, p1: nat)
    ensures p3 == i3 * C + i4 && p2 == i2 * (A * C) + p3 && p1 == i1 * (U * (A * C)) + p2
    ensures (((i0 * S + i1) * U + i2) * A + i3) * C + i4 == i0 * (S * (U * (A * C))) + p1
  {
    p3 := i3 * C + i4;
    p2 := i2 * (A * C) + p3;
    p1 := i1 * (U * (A * C)) + p2;
    Flatten(i0, i1, i2, i3, i4, S, U, A, C);
  }

  /**
   * `get_configurations` lists every combination exactly at its lexicographic position:
   * techniques outermost, then semi-unifiers, unfolding bounds and `augment` flags, with
   * timeouts innermost. The timeout comes from `timings` and the flag from `augment`,
   * although the loop passes them to the constructor in swapped order.
   */
  lemma ConfigurationsAt(techniques: seq<string>, semiUnifiers: seq<string>, maxUnfoldings: seq<int>,
                         timings: seq<int>, augment: seq<bool>, i0: nat, i1: nat, i2: nat, i3: nat, i4: nat,
                         index: int)
    requires i0 < |techniques| && i1 < |semiUnifiers| && i2 < |maxUnfoldings| && i3 < |augment| && i4 < |timings|
    requires index == (((i0 * |semiUnifiers| + i1) * |maxUnfoldings| + i2) * |augment| + i3) * |timings| + i4
    ensures 0 <= index < |Configurations(techniques, semiUnifiers, maxUnfoldings, timings, augment)|
    ensures Configurations(techniques, semiUnifiers, maxUnfoldings, timings, augment)[index]
         == Configuration(techniques[i0], semiUnifiers[i1], maxUnfoldings[i2], timings[i4], augment[i3])
  {
    var p3, p2, p1 := Offsets(i0, i1, i2, i3, i4, |semiUnifiers|, |maxUnfoldings|, |augment|, |timings|);
    TechniqueCombination(techniques, semiUnifiers, maxUnfoldings, timings, augment, i0, i1, i2, i3, i4, p3, p2, p1, index);
  }

  // ----- which configurations are listed -----

  /** `c` takes each of its five options from the corresponding list. */
  predicate DrawsFrom(c: Configuration, techniques: seq<string>, semiUnifiers: seq<string>, maxUnfoldings: seq<int>,
                      timings: seq<int>, augment: seq<bool>)
  {
    c.technique in techniques && c.semiUnifier in semiUnifiers && c.maxUnfoldings in maxUnfoldings
    && c.timing in timings && c.augment in augment
  }

  lemma {:induction false} ForTimingsFrom(t: string, s: string, u: int, a: bool, timings: seq<int>)
    ensures forall c :: c in ForTimings(t, s, u, a, timings) ==> c == Configuration(t, s, u, c.timing, a) && c.timing in timings
  {
    if |timings| > 0 {
      var prefix := timings[..|timings| - 1];
      ForTimingsFrom(t, s, u, a, prefix);
      forall c | c in ForTimings(t, s, u, a, timings)
        ensures c == Configuration(t, s, u, c.timing, a) && c.timing in timings
      {
        if c in ForTimings(t, s, u, a, prefix) {
          assert c.timing in prefix;
        }
      }
    }
  }

  lemma {:induction false} ForAugmentsFrom(t: string, s: string, u: int, timings: seq<int>, augment: seq<bool>)
    ensures forall c :: c in ForAugments(t, s, u, timings, augment) ==>
      c == Configuration(t, s, u, c.timing, c.augment) && c.timing in timings && c.augment in augment
  {
    if |augment| > 0 {
      var prefix := augment[..|augment| - 1];
      ForAugmentsFrom(t, s, u, timings, prefix);
      ForTimingsFrom(t, s, u, augment[|augment| - 1], timings);
      forall c | c in ForAugments(t, s, u, timings, augment)
        ensures c == Configuration(t, s, u, c.timing, c.augment) && c.timing in timings && c.augment in augment
      {
        if c in ForAugments(t, s, u, timings, prefix) {
          assert c.augment in prefix;
        }
      }
    }
  }

  lemma {:induction false} ForUnfoldingsFrom(t: string, s: string, maxUnfoldings: seq<int>, timings: seq<int>,
                                             augment: seq<bool>)
    ensures forall c :: c in ForUnfoldings(t, s, maxUnfoldings, timings, augment) ==>
      c.technique == t && c.semiUnifier == s && c.maxUnfoldings in maxUnfoldings && c.timing in timings
      && c.augment in augment
  {
    if |maxUnfoldings| > 0 {
      var prefix := maxUnfoldings[..|maxUnfoldings| - 1];
      ForUnfoldingsFrom(t, s, prefix, timings, augment);
      ForAugmentsFrom(t, s, maxUnfoldings[|maxUnfoldings| - 1], timings, augment);
      forall c | c in ForUnfoldings(t, s, maxUnfoldings, timings, augment)
        ensures c.maxUnfoldings in maxUnfoldings
      {
        if c in ForUnfoldings(t, s, prefix, timings, augment) {
          assert c.maxUnfoldings in prefix;
        }
      }
    }
  }

  lemma {:induction false} ForSemiUnifiersFrom(t: string, semiUnifiers: seq<string>, maxUnfoldings: seq<int>,
                                               timings: seq<int>, augment: seq<bool>)
    ensures forall c :: c in ForSemiUnifiers(t, semiUnifiers, maxUnfoldings, timings, augment) ==>
      c.technique == t && DrawsFrom(c, [t], semiUnifiers, maxUnfoldings, timings, augment)
  {
    if |semiUnifiers| > 0 {
      var prefix := semiUnifiers[..|semiUnifiers| - 1];
      ForSemiUnifiersFrom(t, prefix, maxUnfoldings, timings, augment);
      ForUnfoldingsFrom(t, semiUnifiers[|semiUnifiers| - 1], maxUnfoldings, timings, augment);
      forall c | c in ForSemiUnifiers(t, semiUnifiers, maxUnfoldings, timings, augment)
        ensures c.semiUnifier in semiUnifiers
      {
        if c in ForSemiUnifiers(t, prefix, maxUnfoldings, timings, augment) {
          assert c.semiUnifier in prefix;
        }
      }
    }
  }

  lemma {:induction false} ConfigurationsFrom(techniques: seq<string>, semiUnifiers: seq<string>,
                                              maxUnfoldings: seq<int>, timings: seq<int>, augment: seq<bool>)
    ensures forall c :: c in Configurations(techniques, semiUnifiers, maxUnfoldings, timings, augment) ==>
      DrawsFrom(c, techniques, semiUnifiers, maxUnfoldings, timings, augment)
  {
    if |techniques| > 0 {
      var prefix := techniques[..|techniques| - 1];
      ConfigurationsFrom(prefix, semiUnifiers, maxUnfoldings, timings, augment);
      ForSemiUnifiersFrom(techniques[|techniques| - 1], semiUnifiers, maxUnfoldings, timings, augment);
      forall c | c in Configurations(techniques, semiUnifiers, maxUnfoldings, timings, augment)
        ensures c.technique in techniques
      {
        if c in Configurations(prefix, semiUnifiers, maxUnfoldings, timings, augment) {
          assert c.technique in prefix;
        }
      }
    }
  }

  /**
   * The list is exactly the cartesian product: a configuration is listed if and only if
   * each of its options comes from the corresponding list.
   */
  lemma ConfigurationsMembers(techniques: seq<string>, semiUnifiers: seq<string>, maxUnfoldings: seq<int>,
                              timings: seq<int>, augment: seq<bool>, c: Configuration)
    ensures c in Configurations(techniques, semiUnifiers, maxUnfoldings, timings, augment)
        <==> DrawsFrom(c, techniques, semiUnifiers, maxUnfoldings, timings, augment)
  {
    ConfigurationsFrom(techniques, semiUnifiers, maxUnfoldings, timings, augment);
    if DrawsFrom(c, techniques, semiUnifiers, maxUnfoldings, timings, augment) {
      var i0 :| 0 <= i0 < |techniques| && techniques[i0] == c.technique;
      var i1 :| 0 <= i1 < |semiUnifiers| && semiUnifiers[i1] == c.semiUnifier;
      var i2 :| 0 <= i2 < |maxUnfoldings| && maxUnfoldings[i2] == c.maxUnfoldings;
      var i3 :| 0 <= i3 < |augment| && augment[i3] == c.augment;
      var i4 :| 0 <= i4 < |timings| && timings[i4] == c.timing;
      var index := (((i0 * |semiUnifiers| + i1) * |maxUnfoldings| + i2) * |augment| + i3) * |timings| + i4;
      ConfigurationsAt(techniques, semiUnifiers, maxUnfoldings, timings, augment, i0, i1, i2, i3, i4, index);
    }
  }

  // ----- one line of analyser output -----

  /** `s.replace(c, '')`: every occurrence of `c` dropped, everything else kept in order. */
  function Without(s: string, c: char): (r: string)
    ensures |r| <= |s|
    ensures forall x :: x in r <==> x in s && x != c
  {
    if |s| == 0 then ""
    else (if s[0] == c then "" else [s[0]]) + Without(s[1..], c)
  }

  /** `CoraRunner.remove_newlines`: drop the line feeds, then the carriage returns. */
  function RemoveNewlines(line: string): (r: string)
    ensures '\n' !in r && '\r' !in r
    ensures forall x :: x in r <==> x in line && x != '\n' && x != '\r'
  {
    Without(Without(line, '\n'), '\r')
  }

  /** A single pass that keeps every character other than a line feed or a carriage return. */
  function KeepLineContent(line: string): string
  {
    if |line| == 0 then ""
    else (if line[0] == '\n' || line[0] == '\r' then "" else [line[0]]) + KeepLineContent(line[1..])
  }

  /** The two `replace` passes remove exactly the line breaks and keep the rest in order. */
  lemma {:induction false} RemoveNewlinesKeepsContent(line: string)
    ensures RemoveNewlines(line) == KeepLineContent(line)
  {
    if |line| > 0 {
      RemoveNewlinesKeepsContent(line[1..]);
      var head := if line[0] == '\n' then "" else [line[0]];
      WithoutAppend(head, Without(line[1..], '\n'), '\r');
    }
  }

  lemma {:induction false} WithoutAppend(a: string, b: string, c: char)
    ensures Without(a + b, c) == Without(a, c) + Without(b, c)
  {
    if |a| > 0 {
      WithoutAppend(a[1..], b, c);
      assert (a + b)[1..] == a[1..] + b;
    } else {
      assert a + b == b;
    }
  }

  /** Removing a character that does not occur changes nothing. */
  lemma {:induction false} WithoutAbsent(s: string, c: char)
    requires c !in s
    ensures Without(s, c) == s
  {
    if |s| > 0 {
      WithoutAbsent(s[1..], c);
      assert [s[0]] + s[1..] == s;
    }
  }

  /** Removing the line breaks twice is the same as removing them once. */
  lemma RemoveNewlinesIdempotent(line: string)
    ensures RemoveNewlines(RemoveNewlines(line)) == RemoveNewlines(line)
  {
    var r := RemoveNewlines(line);
    WithoutAbsent(r, '\n');
    WithoutAbsent(r, '\r');
  }

  /** Removing the line breaks of a concatenation removes them from each part. */
  lemma RemoveNewlinesAppend(a: string, b: string)
    ensures RemoveNewlines(a + b) == RemoveNewlines(a) + RemoveNewlines(b)
  {
    WithoutAppend(a, b, '\n');
    WithoutAppend(Without(a, '\n'), Without(b, '\n'), '\r');
  }

  /** The longest prefix of `s` whose characters all satisfy `p`: what a greedy `[...]+` consumes. */
  function Span(s: string, p: char -> bool): (r: string)
    ensures r <= s
    ensures forall i :: 0 <= i < |r| ==> p(r[i])
    ensures |r| < |s| ==> !p(s[|r|])
  {
    if |s| == 0 || !p(s[0]) then ""
    else [s[0]] + Span(s[1..], p)
  }

  /** A run of `p` characters followed by a character outside `p`, or by nothing, is the span. */
  lemma {:induction false} SpanOf(w: string, rest: string, p: char -> bool)
    requires forall i :: 0 <= i < |w| ==> p(w[i])
    requires |rest| == 0 || !p(rest[0])
    ensures Span(w + rest, p) == w
  {
    if |w| > 0 {
      SpanOf(w[1..], rest, p);
      assert (w + rest)[1..] == w[1..] + rest;
      assert [w[0]] + w[1..] == w;
    } else {
      assert w + rest == rest;
    }
  }

  const ResultTypePrefix: string := "Result type: "
  const TimeTakenPrefix: string := "Time taken: "

  /**
   * `RESULT_TYPE_REGEX.match(line)`, anchored at the start of the line: the prefix and
   * then one or more ASCII letters, of which the group captures as many as there are.
   */
  function ResultTypeMatch(line: string): Option<string>
  {
    if !(ResultTypePrefix <= line) then None
    else
      var kind := Span(line[|ResultTypePrefix|..], IsLetter);
      if |kind| == 0 then None else Some(kind)
  }

  /**
   * `TIME_TAKEN_REGEX.match(line)`: the prefix, one or more digits, then `ms`. The group
   * is greedy and a shorter run of digits is followed by a digit, so only the whole run
   * can be followed by `ms`.
   */
  function TimeTakenMatch(line: string): Option<string>
  {
    if !(TimeTakenPrefix <= line) then None
    else
      var rest := line[|TimeTakenPrefix|..];
      var millis := Span(rest, IsDigit);
      if |millis| > 0 && "ms" <= rest[|millis|..] then Some(millis) else None
  }

  /** A match is the prefix, a maximal non-empty run of letters, and the rest of the line. */
  lemma ResultTypeMatched(line: string)
    requires ResultTypeMatch(line).Some?
    ensures var kind := ResultTypeMatch(line).value;
      && ResultTypePrefix + kind <= line
      && |kind| > 0 && (forall i :: 0 <= i < |kind| ==> IsLetter(kind[i]))
      && (|ResultTypePrefix + kind| < |line| ==> !IsLetter(line[|ResultTypePrefix + kind|]))
  {
    var rest := line[|ResultTypePrefix|..];
    var kind := ResultTypeMatch(line).value;
    assert line == ResultTypePrefix + rest;
    assert ResultTypePrefix + kind + rest[|kind|..] == line;
  }

  /** Every line of that shape matches, and the group is exactly the run of letters. */
  lemma ResultTypeMatches(kind: string, rest: string)
    requires |kind| > 0 && forall i :: 0 <= i < |kind| ==> IsLetter(kind[i])
    requires |rest| == 0 || !IsLetter(rest[0])
    ensures ResultTypeMatch(ResultTypePrefix + kind + rest) == Some(kind)
  {
    var line := ResultTypePrefix + kind + rest;
    assert line[|ResultTypePrefix|..] == kind + rest;
    SpanOf(kind, rest, IsLetter);
  }

  /** A match is the prefix, a maximal non-empty run of digits, `ms`, and the rest of the line. */
  lemma TimeTakenMatched(line: string)
    requires TimeTakenMatch(line).Some?
    ensures var millis := TimeTakenMatch(line).value;
      && TimeTakenPrefix + millis + "ms" <= line
      && |millis| > 0 && AllDigits(millis)
  {
    var rest := line[|TimeTakenPrefix|..];
    var millis := TimeTakenMatch(line).value;
    PrefixThen(millis, "ms", rest);
    PrefixThen(TimeTakenPrefix, millis + "ms", line);
    assert TimeTakenPrefix + millis + "ms" == TimeTakenPrefix + (millis + "ms");
  }

  /** A prefix of the line followed by a prefix of what remains is a prefix of the line. */
  lemma PrefixThen(a: string, b: string, line: string)
    requires a <= line && b <= line[|a|..]
    ensures a + b <= line
  {
    assert line[..|a| + |b|] == a + b;
  }

  /** Every line of that shape matches, and the group is exactly the run of digits. */
  lemma TimeTakenMatches(millis: string, rest: string)
    requires |millis| > 0 && AllDigits(millis)
    ensures TimeTakenMatch(TimeTakenPrefix + millis + "ms" + rest) == Some(millis)
  {
    var line := TimeTakenPrefix + millis + "ms" + rest;
    assert line[|TimeTakenPrefix|..] == millis + ("ms" + rest);
    SpanOf(millis, "ms" + rest, IsDigit);
    assert (millis + ("ms" + rest))[|millis|..] == "ms" + rest;
  }

  // ----- the outcome of one analyser run -----

  /** The analyser's own time: the digits it reported, or `0` when there were none. */
  datatype CoraTime = Reported(digits: string) | Zero

  /** `AnalysisResult`: the result type, the analyser's time, the wall-clock time and the error. */
  datatype AnalysisResult = AnalysisResult(resultType: string, coraTime: CoraTime, cpuTime: real, error: Option<string>)

  /**
   * `CoraRunner.parse_analysis_result`: the first line must state the result type and
   * the last the time taken; otherwise the result is `ERROR` with the first line, or
   * `Time match failed`, as the error.
   */
  function ParseAnalysisResult(lines: seq<string>, cpuTime: real): (r: AnalysisResult)
    requires |lines| > 0
    ensures r.cpuTime == cpuTime
    ensures r.error.None? <==> ResultTypeMatch(lines[0]).Some? && TimeTakenMatch(lines[|lines| - 1]).Some?
    ensures r.error.Some? ==> r.resultType == "ERROR" && r.coraTime == Zero
    ensures r.error.None? ==>
      && r.resultType == ResultTypeMatch(lines[0]).value
      && r.coraTime == Reported(TimeTakenMatch(lines[|lines| - 1]).value)
    ensures ResultTypeMatch(lines[0]).None? ==> r.error == Some(lines[0])
    ensures (ResultTypeMatch(lines[0]).Some? && TimeTakenMatch(lines[|lines| - 1]).None?)
              ==> r.error == Some("Time match failed")
  {
    match ResultTypeMatch(lines[0])
    case Some(kind) =>
      (match TimeTakenMatch(lines[|lines| - 1])
       case Some(millis) => AnalysisResult(kind, Reported(millis), cpuTime, None)
       case None => AnalysisResult("ERROR", Zero, cpuTime, Some("Time match failed")))
    case None => AnalysisResult("ERROR", Zero, cpuTime, Some(lines[0]))
  }

  /**
   * A complete transcript yields the result type and the reported milliseconds, whatever
   * comes in between: its first line is the result prefix, a run of letters and then
   * anything that does not start with a letter, and its last line is the timing prefix,
   * a run of digits, `ms` and then anything at all (both patterns are anchored at the
   * start of the line only).
   */
  lemma CompleteTranscript(kind: string, rest1: string, millis: string, rest2: string, middle: seq<string>,
                           cpuTime: real)
    requires |kind| > 0 && forall i :: 0 <= i < |kind| ==> IsLetter(kind[i])
    requires |rest1| == 0 || !IsLetter(rest1[0])
    requires |millis| > 0 && AllDigits(millis)
    ensures ParseAnalysisResult([ResultTypePrefix + kind + rest1] + middle + [TimeTakenPrefix + millis + "ms" + rest2], cpuTime)
         == AnalysisResult(kind, Reported(millis), cpuTime, None)
  {
    var lines := [ResultTypePrefix + kind + rest1] + middle + [TimeTakenPrefix + millis + "ms" + rest2];
    ResultTypeMatches(kind, rest1);
    assert lines[0] == ResultTypePrefix + kind + rest1;
    TimeTakenMatches(millis, rest2);
    assert lines[|lines| - 1] == TimeTakenPrefix + millis + "ms" + rest2;
  }

  /**
   * An output of one line that states a result type never also states the time taken,
   * since the two prefixes differ: such a run is reported as `Time match failed`.
   */
  lemma SingleLineOutput(line: string, cpuTime: real)
    requires ResultTypeMatch(line).Some?
    ensures ParseAnalysisResult([line], cpuTime) == AnalysisResult("ERROR", Zero, cpuTime, Some("Time match failed"))
  {
    assert line[0] == 'R' && TimeTakenPrefix[0] == 'T';
  }
}
