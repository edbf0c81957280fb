/** What the fuel bound means. Fuel only cuts a parse off: a parse that
    finishes within some bound (its outcome is not `OutOfFuel`) gives the
    very same outcome, position and diagnostics under every larger bound.
    So `OutOfFuel` marks a parse that did not finish within the bound, and
    any two finished parses of the same input agree. */
module FuelProperties {
  import opened Rules
  import opened Interpreter

  lemma {:induction false} ParseFuelMonotone(e: Engine, r: Rule, cont: seq<Rule>, tlp: ProdName, pos: nat, args: seq<Value>, fuel: nat, more: nat)
    requires fuel <= more
    requires !Parse(e, r, cont, tlp, pos, args, fuel).outcome.OutOfFuel?
    ensures Parse(e, r, cont, tlp, pos, args, more) == Parse(e, r, cont, tlp, pos, args, fuel)
    decreases fuel, Size(r) + SizeAll(cont), 2, 0
  {
    match r
    case Terminal(k) =>
      if pos < |e.tokens| && e.tokens[pos].kind == k {
        ChainFuelMonotone(e, cont, tlp, pos + 1, args + [TokenValue(e.tokens[pos])], fuel, more);
      }
    case Production(q) => ReferenceFuelMonotone(e, q, cont, tlp, pos, args, fuel, more);
    case DirectRecurse => ReferenceFuelMonotone(e, tlp, cont, tlp, pos, args, fuel, more);
    case Recurse(q) => ReferenceFuelMonotone(e, q, cont, tlp, pos, args, fuel, more);
    case Sequence(rs) =>
      SizeAllAppend(rs, cont);
      ChainFuelMonotone(e, rs + cont, tlp, pos, args, fuel, more);
    case Alternative(_, body) => ParseFuelMonotone(e, body, cont, tlp, pos, args, fuel, more);
    case Choice(alts) => ChoiceFuelMonotone(e, alts, cont, tlp, pos, fuel, more);
    case LeftRecursionChoice(base, tail) =>
      var first := Parse(e, base, [], tlp, pos, [], fuel);
      ParseFuelMonotone(e, base, [], tlp, pos, [], fuel, more);
      if first.outcome.Success? {
        TailLoopFuelMonotone(e, tail, cont, tlp, first.pos, first.outcome.value, first.log, fuel, fuel, more, more);
      }
  }

  lemma {:induction false} ChainFuelMonotone(e: Engine, cont: seq<Rule>, tlp: ProdName, pos: nat, args: seq<Value>, fuel: nat, more: nat)
    requires fuel <= more
    requires !Chain(e, cont, tlp, pos, args, fuel).outcome.OutOfFuel?
    ensures Chain(e, cont, tlp, pos, args, more) == Chain(e, cont, tlp, pos, args, fuel)
    decreases fuel, SizeAll(cont), 3, 0
  {
    if cont != [] {
      ParseFuelMonotone(e, cont[0], cont[1..], tlp, pos, args, fuel, more);
    }
  }

  lemma {:induction false} ReferenceFuelMonotone(e: Engine, target: ProdName, cont: seq<Rule>, tlp: ProdName, pos: nat, args: seq<Value>, fuel: nat, more: nat)
    requires fuel <= more
    requires !Reference(e, target, cont, tlp, pos, args, fuel).outcome.OutOfFuel?
    ensures Reference(e, target, cont, tlp, pos, args, more) == Reference(e, target, cont, tlp, pos, args, fuel)
    decreases fuel, SizeAll(cont) + 1, 1, 0
  {
    var sub := ParseProduction(e, target, pos, fuel);
    ProductionFuelMonotone(e, target, pos, fuel, more);
    if sub.outcome.Success? {
      ChainFuelMonotone(e, cont, tlp, sub.pos, args + [sub.outcome.value], fuel, more);
    }
  }

  lemma {:induction false} ProductionFuelMonotone(e: Engine, name: ProdName, pos: nat, fuel: nat, more: nat)
    requires fuel <= more
    requires !ParseProduction(e, name, pos, fuel).outcome.OutOfFuel?
    ensures ParseProduction(e, name, pos, more) == ParseProduction(e, name, pos, fuel)
    decreases fuel, 0, 0, 0
  {
    if name in e.grammar {
      ParseFuelMonotone(e, e.grammar[name], [], name, pos, [], fuel - 1, more - 1);
    }
  }

  lemma {:induction false} PeekFuelMonotone(e: Engine, alt: Rule, tlp: ProdName, pos: nat, fuel: nat, more: nat)
    requires fuel <= more
    requires !Peek(e, alt, tlp, pos, fuel).OutOfFuel?
    ensures Peek(e, alt, tlp, pos, more) == Peek(e, alt, tlp, pos, fuel)
    decreases fuel, Size(alt), 3, 0
  {
    ParseFuelMonotone(e, PeekRuleOf(alt), [], tlp, pos, [], fuel, more);
  }

  lemma {:induction false} ChoiceFuelMonotone(e: Engine, alts: seq<Rule>, cont: seq<Rule>, tlp: ProdName, pos: nat, fuel: nat, more: nat)
    requires fuel <= more
    requires !ParseChoice(e, alts, cont, tlp, pos, fuel).outcome.OutOfFuel?
    ensures ParseChoice(e, alts, cont, tlp, pos, more) == ParseChoice(e, alts, cont, tlp, pos, fuel)
    decreases fuel, SizeAll(alts) + SizeAll(cont) + 1, 1, 0
  {
    if alts != [] {
      PeekFuelMonotone(e, alts[0], tlp, pos, fuel, more);
      if Peek(e, alts[0], tlp, pos, fuel).Success? {
        ParseFuelMonotone(e, BodyOf(alts[0]), cont, tlp, pos, [], fuel, more);
      } else {
        ChoiceFuelMonotone(e, alts[1..], cont, tlp, pos, fuel, more);
      }
    }
  }

  /** The left-recursion loop under a larger fuel and a larger iteration
      budget: once it has finished, neither bound changes its result. */
  lemma {:induction false} TailLoopFuelMonotone(e: Engine, tail: Rule, cont: seq<Rule>, tlp: ProdName, pos: nat, acc: Value, log: Log, budget: nat, fuel: nat, moreBudget: nat, more: nat)
    requires budget <= moreBudget && fuel <= more
    requires !TailLoop(e, tail, cont, tlp, pos, acc, log, budget, fuel).outcome.OutOfFuel?
    ensures TailLoop(e, tail, cont, tlp, pos, acc, log, moreBudget, more) == TailLoop(e, tail, cont, tlp, pos, acc, log, budget, fuel)
    decreases fuel, Size(tail) + SizeAll(cont) + 1, 1, budget
  {
    if budget > 0 {
      var next := Parse(e, tail, cont, tlp, pos, [acc], fuel);
      ParseFuelMonotone(e, tail, cont, tlp, pos, [acc], fuel, more);
      if next.outcome.Success? {
        TailLoopFuelMonotone(e, tail, cont, tlp, next.pos, next.outcome.value, log + next.log, budget - 1, fuel, moreBudget - 1, more);
      }
    }
  }

  /** Any two bounds under which a production's parse finishes give the same
      outcome, position and diagnostics. */
  lemma FinishedParsesAgree(e: Engine, name: ProdName, pos: nat, fuel: nat, fuel': nat)
    requires !ParseProduction(e, name, pos, fuel).outcome.OutOfFuel?
    requires !ParseProduction(e, name, pos, fuel').outcome.OutOfFuel?
    ensures ParseProduction(e, name, pos, fuel) == ParseProduction(e, name, pos, fuel')
  {
    if fuel <= fuel' {
      ProductionFuelMonotone(e, name, pos, fuel, fuel');
    } else {
      ProductionFuelMonotone(e, name, pos, fuel', fuel);
    }
  }
}
