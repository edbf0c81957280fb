/** Properties of left_recursion_choice, which rewrites `P := P tail | base`
    into "parse the base once, then the tail as often as it matches". */
module LeftRecursionProperties {
  import opened Rules
  import opened Interpreter
  import opened ChainProperties
  import opened WellFormedness

  /** If the base does not succeed, its result is returned as it is and the
      tail is never attempted: any other tail, continuation or argument list
      gives the same result. */
  lemma LeftRecursionBaseFails(e: Engine, base: Rule, tail: Rule, other: Rule, cont: seq<Rule>, cont': seq<Rule>, tlp: ProdName, pos: nat, args: seq<Value>, args': seq<Value>, fuel: nat)
    requires !Parse(e, base, [], tlp, pos, [], fuel).outcome.Success?
    ensures Parse(e, LeftRecursionChoice(base, tail), cont, tlp, pos, args, fuel) == Parse(e, base, [], tlp, pos, [], fuel)
    ensures Parse(e, LeftRecursionChoice(base, tail), cont, tlp, pos, args, fuel)
         == Parse(e, LeftRecursionChoice(base, other), cont', tlp, pos, args', fuel)
  {
  }

  function Flatten(ls: seq<Log>): Log {
    if ls == [] then [] else ls[0] + Flatten(ls[1..])
  }

  /** Tail attempt `i` of a loop, started at `ps[i]` with `vs[i]` as leading
      argument, matches and ends at `ps[i + 1]` with value `vs[i + 1]`. */
  ghost predicate TailMatches(e: Engine, tail: Rule, cont: seq<Rule>, tlp: ProdName, fuel: nat, ps: seq<nat>, vs: seq<Value>, ls: seq<Log>, i: nat)
    requires i + 1 < |ps| && i + 1 < |vs| && i < |ls|
  {
    Parse(e, tail, cont, tlp, ps[i], [vs[i]], fuel) == Parsed(Success(vs[i + 1]), ps[i + 1], ls[i])
  }

  /** A run of k = |ps| - 1 matching tail attempts followed by one that does
      not match; `ls` holds the diagnostics of each attempt. */
  ghost predicate TailTrace(e: Engine, tail: Rule, cont: seq<Rule>, tlp: ProdName, fuel: nat, ps: seq<nat>, vs: seq<Value>, ls: seq<Log>)
  {
    && |ps| == |vs| == |ls| >= 1
    && (forall i :: 0 <= i < |ps| - 1 ==> TailMatches(e, tail, cont, tlp, fuel, ps, vs, ls, i))
    && var last := Parse(e, tail, cont, tlp, ps[|ps| - 1], [vs[|vs| - 1]], fuel);
       last.outcome.Unmatched? && last.log == ls[|ls| - 1]
  }

  /** The loop unrolled: after k matching tails and one that does not
      match, the result is the last tail's value at the last tail's end
      position (the mismatching attempt is undone), and every diagnostic
      reported along the way is kept. With k = 0 this is the base value. */
  lemma {:induction false} TailLoopUnrolls(e: Engine, tail: Rule, cont: seq<Rule>, tlp: ProdName, fuel: nat, ps: seq<nat>, vs: seq<Value>, ls: seq<Log>, log: Log, budget: nat)
    requires TailTrace(e, tail, cont, tlp, fuel, ps, vs, ls)
    requires |ps| <= budget
    ensures TailLoop(e, tail, cont, tlp, ps[0], vs[0], log, budget, fuel)
         == Parsed(Success(vs[|vs| - 1]), ps[|ps| - 1], log + Flatten(ls))
    decreases |ps|
  {
    if |ps| == 1 {
      assert Flatten(ls) == ls[0] + Flatten(ls[1..]);
      assert ls[1..] == [];
      assert Flatten(ls) == ls[0];
    } else {
      assert TailMatches(e, tail, cont, tlp, fuel, ps, vs, ls, 0);
      var ps', vs', ls' := ps[1..], vs[1..], ls[1..];
      forall i | 0 <= i < |ps'| - 1
        ensures TailMatches(e, tail, cont, tlp, fuel, ps', vs', ls', i)
      {
        assert TailMatches(e, tail, cont, tlp, fuel, ps, vs, ls, i + 1);
      }
      assert TailTrace(e, tail, cont, tlp, fuel, ps', vs', ls');
      TailLoopUnrolls(e, tail, cont, tlp, fuel, ps', vs', ls', log + ls[0], budget - 1);
      assert (log + ls[0]) + Flatten(ls') == log + (ls[0] + Flatten(ls'));
    }
  }

  /** The same for the whole rule: the base value seeds the loop, and
      B T^k evaluates to the k-th tail value. */
  lemma LeftRecursionUnrolls(e: Engine, base: Rule, tail: Rule, cont: seq<Rule>, tlp: ProdName, pos: nat, args: seq<Value>, fuel: nat, ps: seq<nat>, vs: seq<Value>, ls: seq<Log>, baseLog: Log)
    requires |vs| >= 1 && |ps| >= 1
    requires Parse(e, base, [], tlp, pos, [], fuel) == Parsed(Success(vs[0]), ps[0], baseLog)
    requires TailTrace(e, tail, cont, tlp, fuel, ps, vs, ls)
    requires |ps| <= fuel
    ensures Parse(e, LeftRecursionChoice(base, tail), cont, tlp, pos, args, fuel)
         == Parsed(Success(vs[|vs| - 1]), ps[|ps| - 1], baseLog + Flatten(ls))
  {
    TailLoopUnrolls(e, tail, cont, tlp, fuel, ps, vs, ls, baseLog, fuel);
  }

  /** Each tail receives the previous result as its leading argument: a
      chainable tail at the end of the production hands the callback the
      previous value followed by the values of the tail's own rules. */
  lemma TailBuildsOnPrevious(e: Engine, tail: Rule, tlp: ProdName, pos: nat, prev: Value, fuel: nat)
    requires Chainable(tail)
    requires Produce(e, [tail], tlp, pos, fuel).Produced?
    ensures
      var run := Produce(e, [tail], tlp, pos, fuel);
      Parse(e, tail, [], tlp, pos, [prev], fuel) == Parsed(Success(e.callback(tlp, [prev] + run.values)), run.pos, run.log)
  {
    assert [tail] + [] == [tail];
    assert [tail][1..] == [];
    ChainMatchesProduce(e, [tail], [], tlp, pos, [prev], fuel);
    var run := Produce(e, [tail], tlp, pos, fuel);
    assert run.log + [] == run.log;
  }

  /** An alternative hands the arguments on to its body, so a tail parses as
      the rule below its alternatives. */
  lemma {:induction false} TailParsesAsUnwrapped(e: Engine, t: Rule, cont: seq<Rule>, tlp: ProdName, pos: nat, args: seq<Value>, fuel: nat)
    ensures Parse(e, t, cont, tlp, pos, args, fuel) == Parse(e, Unwrapped(t), cont, tlp, pos, args, fuel)
  {
    if t.Alternative? {
      TailParsesAsUnwrapped(e, t.body, cont, tlp, pos, args, fuel);
    }
  }

  /** In a well-formed left recursion the previous result is never lost:
      the tail at the end of the production hands the callback that result
      first, then the values of the rules below its alternatives. */
  lemma WellFormedTailBuildsOnPrevious(e: Engine, base: Rule, tail: Rule, tlp: ProdName, pos: nat, prev: Value, fuel: nat)
    requires RuleWellFormed(e.grammar, tlp, LeftRecursionChoice(base, tail))
    ensures Chainable(Unwrapped(tail))
    ensures
      var run := Produce(e, [Unwrapped(tail)], tlp, pos, fuel);
      run.Produced? ==>
        Parse(e, tail, [], tlp, pos, [prev], fuel) == Parsed(Success(e.callback(tlp, [prev] + run.values)), run.pos, run.log)
  {
    WellFormedTailIsChainable(e.grammar, tlp, tail);
    TailParsesAsUnwrapped(e, tail, [], tlp, pos, [prev], fuel);
    if Produce(e, [Unwrapped(tail)], tlp, pos, fuel).Produced? {
      TailBuildsOnPrevious(e, Unwrapped(tail), tlp, pos, prev, fuel);
    }
  }

  /** The source has no progress guard: a tail that matches without moving
      would repeat forever. In the model the loop stops when its budget is
      spent and reports OutOfFuel instead of a value. */
  lemma {:induction false} ZeroWidthTailExhaustsBudget(e: Engine, tail: Rule, cont: seq<Rule>, tlp: ProdName, pos: nat, acc: Value, log: Log, budget: nat, fuel: nat)
    requires forall v :: Parse(e, tail, cont, tlp, pos, [v], fuel).outcome.Success? && Parse(e, tail, cont, tlp, pos, [v], fuel).pos == pos
    ensures TailLoop(e, tail, cont, tlp, pos, acc, log, budget, fuel).outcome.OutOfFuel?
    decreases budget
  {
    if budget > 0 {
      var next := Parse(e, tail, cont, tlp, pos, [acc], fuel);
      ZeroWidthTailExhaustsBudget(e, tail, cont, tlp, pos, next.outcome.value, log + next.log, budget - 1, fuel);
    }
  }

  /** A tail attempt at `p` that finishes and, when it matches, consumes
      at least one token. */
  ghost predicate TailProgresses(e: Engine, tail: Rule, cont: seq<Rule>, tlp: ProdName, p: nat, v: Value, fuel: nat) {
    var next := Parse(e, tail, cont, tlp, p, [v], fuel);
    !next.outcome.OutOfFuel? && (next.outcome.Success? ==> p < next.pos)
  }

  /** With the progress guard the source lacks, the loop ends with a value
      after at most one attempt per remaining token plus one. */
  lemma {:induction false} ProgressingTailLoopSucceeds(e: Engine, tail: Rule, cont: seq<Rule>, tlp: ProdName, pos: nat, acc: Value, log: Log, budget: nat, fuel: nat)
    requires forall p: nat, v :: p <= |e.tokens| ==> TailProgresses(e, tail, cont, tlp, p, v, fuel)
    requires pos <= |e.tokens| && |e.tokens| - pos < budget
    ensures TailLoop(e, tail, cont, tlp, pos, acc, log, budget, fuel).outcome.Success?
    decreases budget
  {
    var next := Parse(e, tail, cont, tlp, pos, [acc], fuel);
    assert TailProgresses(e, tail, cont, tlp, pos, acc, fuel);
    if next.outcome.Success? {
      ProgressingTailLoopSucceeds(e, tail, cont, tlp, next.pos, next.outcome.value, log + next.log, budget - 1, fuel);
    }
  }

  /** For the whole rule: if the base matches and every tail attempt makes
      progress, fuel above the number of tokens lets the loop finish with a
      value. */
  lemma ProgressingLeftRecursionSucceeds(e: Engine, base: Rule, tail: Rule, cont: seq<Rule>, tlp: ProdName, pos: nat, args: seq<Value>, fuel: nat)
    requires pos <= |e.tokens| < fuel
    requires Parse(e, base, [], tlp, pos, [], fuel).outcome.Success?
    requires forall p: nat, v :: p <= |e.tokens| ==> TailProgresses(e, tail, cont, tlp, p, v, fuel)
    ensures Parse(e, LeftRecursionChoice(base, tail), cont, tlp, pos, args, fuel).outcome.Success?
  {
    var first := Parse(e, base, [], tlp, pos, [], fuel);
    ProgressingTailLoopSucceeds(e, tail, cont, tlp, first.pos, first.outcome.value, first.log, fuel, fuel);
  }
}
