/** The parse functions of the source that work by updating the tokenizer
    they receive by reference, written as methods over a position variable.
    Sub-parses they delegate to (the referenced production, the base, the
    tail) are calls of the interpreter; each method is proved to compute
    what the interpreter specifies for its rule. */
module Steps {
  import opened Rules
  import opened Interpreter
  import opened ChainProperties

  /** production::parser_impl::parse, recurse_production::parser::parse and
      direct_recurse_production::parser::parse: parse the referenced
      production; if it fails, return its result without running the
      continuation; otherwise run the continuation with the earlier
      arguments unchanged and the new value appended last.

      The contract states this through the direct-style semantics of the
      reference: the result is its run resumed into the continuation, and
      when the reference stops, neither the continuation nor the earlier
      arguments have any influence on the result. */
  method ParseReference(e: Engine, r: Rule, cont: seq<Rule>, tlp: ProdName, pos: nat, args: seq<Value>, fuel: nat)
    returns (res: Parsed)
    requires r.Production? || r.DirectRecurse? || r.Recurse?
    ensures res == Parse(e, r, cont, tlp, pos, args, fuel)
    ensures res == Resume(e, Produce(e, [r], tlp, pos, fuel), cont, tlp, args, fuel)
    ensures Produce(e, [r], tlp, pos, fuel).Stopped? ==>
      forall cont', args' :: Parse(e, r, cont', tlp, pos, args', fuel) == res
  {
    var position := pos;
    var result := ParseProduction(e, Target(r, tlp), position, fuel);
    position := result.pos;
    if result.outcome.Success? {
      var rest := Chain(e, cont, tlp, position, args + [result.outcome.value], fuel);
      res := WithLog(result.log, rest);
    } else {
      res := result;
    }
    ReferenceAsChain(e, r, cont, tlp, pos, args, fuel);
    if Produce(e, [r], tlp, pos, fuel).Stopped? {
      forall cont', args' ensures Parse(e, r, cont', tlp, pos, args', fuel) == res {
        ReferenceAsChain(e, r, cont', tlp, pos, args', fuel);
        ChainShortCircuits(e, [r], cont', tlp, pos, args', fuel);
      }
    }
  }

  /** A reference parsed in front of `cont` is the chain `[r] + cont`, so
      ChainMatchesProduce describes it. */
  lemma ReferenceAsChain(e: Engine, r: Rule, cont: seq<Rule>, tlp: ProdName, pos: nat, args: seq<Value>, fuel: nat)
    requires r.Production? || r.DirectRecurse? || r.Recurse?
    ensures Parse(e, r, cont, tlp, pos, args, fuel) == Chain(e, [r] + cont, tlp, pos, args, fuel)
    ensures Parse(e, r, cont, tlp, pos, args, fuel) == Resume(e, Produce(e, [r], tlp, pos, fuel), cont, tlp, args, fuel)
  {
    assert ([r] + cont)[0] == r && ([r] + cont)[1..] == cont;
    ChainMatchesProduce(e, [r], cont, tlp, pos, args, fuel);
  }

  /** left_recursion_choice::parser::parse: parse the base with the final
      parser as continuation; if it does not match, return that result.
      Otherwise loop: try the tail with the current result as leading
      argument, keep its result and position when it matches, restore the
      position and stop when it does not. The loop runs at most `fuel`
      times; the source's loop has no bound. */
  method ParseLeftRecursionChoice(e: Engine, base: Rule, tail: Rule, cont: seq<Rule>, tlp: ProdName, pos: nat, fuel: nat)
    returns (res: Parsed)
    ensures res == Parse(e, LeftRecursionChoice(base, tail), cont, tlp, pos, [], fuel)
  {
    var first := Parse(e, base, [], tlp, pos, [], fuel);
    if !first.outcome.Success? {
      return first;
    }
    var position := first.pos;
    var result := first.outcome.value;
    var log := first.log;
    var budget := fuel;
    while true
      invariant TailLoop(e, tail, cont, tlp, position, result, log, budget, fuel)
             == TailLoop(e, tail, cont, tlp, first.pos, first.outcome.value, first.log, fuel, fuel)
      decreases budget
    {
      if budget == 0 {
        return Parsed(OutOfFuel, position, log);
      }
      var saved := position;
      var next := Parse(e, tail, cont, tlp, position, [result], fuel);
      log := log + next.log;
      if next.outcome.Unmatched? {
        position := saved;
        break;
      }
      if next.outcome.OutOfFuel? {
        return Parsed(OutOfFuel, next.pos, log);
      }
      result := next.outcome.value;
      position := next.pos;
      budget := budget - 1;
    }
    res := Parsed(Success(result), position, log);
  }
}
