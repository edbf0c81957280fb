/** The parser chain as an interpreter. A call parses one rule at a cursor
    position and then runs the continuation: the list of rules still to be
    parsed by the enclosing chain, ending in the final step that hands the
    accumulated arguments to the callback of the top-level production.

    Each rule kind is one branch of `Parse`; the choice dispatch and the
    left-recursion loop have functions of their own. Termination rests on
    `fuel`: it drops by one whenever a production is entered, and it also
    bounds the number of tail iterations of a left-recursion loop. Running
    out of it yields `OutOfFuel`: the parse did not finish within the
    bound. A parse that does finish gives the same result under every
    larger bound (FuelProperties); only a parse that is `OutOfFuel` under
    every bound corresponds to one the C++ code never finishes. */
module Interpreter {
  import opened Rules

  /** A report to the error sink; only the exhausted-choice error is raised
      by this part of the engine, and it names the top-level production. */
  datatype Diagnostic = ExhaustedChoice(production: ProdName)

  type Log = seq<Diagnostic>

  /** The parse_result of a step, plus the outcome of a parse cut off by
      the fuel bound. */
  datatype Outcome = Success(value: Value) | Unmatched | OutOfFuel

  /** An outcome, the cursor position afterwards and the diagnostics
      reported while getting there. The position is returned even on
      failure: a plain parse does not rewind the tokenizer. */
  datatype Parsed = Parsed(outcome: Outcome, pos: nat, log: Log)

  /** What stays fixed during one parse: the productions' rule trees, the
      token stream and the user's callback. */
  datatype Engine = Engine(grammar: Grammar, tokens: seq<Token>, callback: (ProdName, seq<Value>) -> Value)

  function WithLog(prefix: Log, p: Parsed): Parsed {
    Parsed(p.outcome, p.pos, prefix + p.log)
  }

  /** Parse rule `r` at `pos` inside top-level production `tlp`, then run
      the continuation `cont` with `args` plus whatever `r` produced. */
  function Parse(e: Engine, r: Rule, cont: seq<Rule>, tlp: ProdName, pos: nat, args: seq<Value>, fuel: nat): (p: Parsed)
    ensures pos <= p.pos
    ensures pos <= |e.tokens| ==> p.pos <= |e.tokens|
    decreases fuel, Size(r) + SizeAll(cont), 2, 0
  {
    match r
    case Terminal(k) =>
      if pos < |e.tokens| && e.tokens[pos].kind == k
      then Chain(e, cont, tlp, pos + 1, args + [TokenValue(e.tokens[pos])], fuel)
      else Parsed(Unmatched, pos, [])
    // A reference to `tlp` itself goes through parse_self, which parses the
    // same rule tree as the production's own parse.
    case Production(q) => Reference(e, q, cont, tlp, pos, args, fuel)
    case DirectRecurse => Reference(e, tlp, cont, tlp, pos, args, fuel)
    case Recurse(q) => Reference(e, q, cont, tlp, pos, args, fuel)
    case Sequence(rs) =>
      SizeAllAppend(rs, cont);
      Chain(e, rs + cont, tlp, pos, args, fuel)
    case Alternative(_, body) => Parse(e, body, cont, tlp, pos, args, fuel)
    case Choice(alts) => ParseChoice(e, alts, cont, tlp, pos, fuel)
    case LeftRecursionChoice(base, tail) =>
      var first := Parse(e, base, [], tlp, pos, [], fuel);
      if first.outcome.Success?
      then TailLoop(e, tail, cont, tlp, first.pos, first.outcome.value, first.log, fuel, fuel)
      else first
  }

  /** Run a continuation; the empty one is the final parser, which calls the
      callback of `tlp` with the accumulated arguments. */
  function Chain(e: Engine, cont: seq<Rule>, tlp: ProdName, pos: nat, args: seq<Value>, fuel: nat): (p: Parsed)
    ensures pos <= p.pos
    ensures pos <= |e.tokens| ==> p.pos <= |e.tokens|
    decreases fuel, SizeAll(cont), 3, 0
  {
    if cont == [] then Parsed(Success(e.callback(tlp, args)), pos, [])
    else Parse(e, cont[0], cont[1..], tlp, pos, args, fuel)
  }

  /** The common body of production, recurse_production and
      direct_recurse_production: parse the referenced production; on
      success continue with its value appended, otherwise stop. */
  function Reference(e: Engine, target: ProdName, cont: seq<Rule>, tlp: ProdName, pos: nat, args: seq<Value>, fuel: nat): (p: Parsed)
    ensures pos <= p.pos
    ensures pos <= |e.tokens| ==> p.pos <= |e.tokens|
    decreases fuel, SizeAll(cont) + 1, 1, 0
  {
    var sub := ParseProduction(e, target, pos, fuel);
    if sub.outcome.Success?
    then WithLog(sub.log, Chain(e, cont, tlp, sub.pos, args + [sub.outcome.value], fuel))
    else sub
  }

  /** A production's own parse: its rule tree with the final parser as
      continuation and itself as top-level production. */
  function ParseProduction(e: Engine, name: ProdName, pos: nat, fuel: nat): (p: Parsed)
    ensures pos <= p.pos
    ensures pos <= |e.tokens| ==> p.pos <= |e.tokens|
    decreases fuel, 0, 0, 0
  {
    if fuel == 0 then Parsed(OutOfFuel, pos, [])
    else if name !in e.grammar then Parsed(Unmatched, pos, [])
    else Parse(e, e.grammar[name], [], name, pos, [], fuel - 1)
  }

  /** choice_alternative::peek: parse the peek rule on a copy of the
      tokenizer and report only whether it matched. Neither the position
      nor any diagnostic of the attempt reaches the caller. */
  function Peek(e: Engine, alt: Rule, tlp: ProdName, pos: nat, fuel: nat): Outcome
    decreases fuel, Size(alt), 3, 0
  {
    Parse(e, PeekRuleOf(alt), [], tlp, pos, [], fuel).outcome
  }

  /** choice::parser::parse_impl: try the alternatives in order and commit to
      the first whose peek matches; report an exhausted choice when none
      does. The choice's parse takes no arguments of its own. */
  function ParseChoice(e: Engine, alts: seq<Rule>, cont: seq<Rule>, tlp: ProdName, pos: nat, fuel: nat): (p: Parsed)
    ensures pos <= p.pos
    ensures pos <= |e.tokens| ==> p.pos <= |e.tokens|
    decreases fuel, SizeAll(alts) + SizeAll(cont) + 1, 1, 0
  {
    if alts == [] then Parsed(Unmatched, pos, [ExhaustedChoice(tlp)])
    else
      match Peek(e, alts[0], tlp, pos, fuel)
      case Success(_) => Parse(e, BodyOf(alts[0]), cont, tlp, pos, [], fuel)
      case Unmatched => ParseChoice(e, alts[1..], cont, tlp, pos, fuel)
      case OutOfFuel => Parsed(OutOfFuel, pos, [])
  }

  /** The `while (true)` loop of left_recursion_choice: try the tail with the
      accumulated result as its leading argument; on a match it becomes the
      new result, on a mismatch the position is restored (try_parse) and the
      last result is returned. `log` holds the diagnostics reported so far;
      `budget` bounds the iterations. */
  function TailLoop(e: Engine, tail: Rule, cont: seq<Rule>, tlp: ProdName, pos: nat, acc: Value, log: Log, budget: nat, fuel: nat): (p: Parsed)
    ensures pos <= p.pos
    ensures pos <= |e.tokens| ==> p.pos <= |e.tokens|
    decreases fuel, Size(tail) + SizeAll(cont) + 1, 1, budget
  {
    if budget == 0 then Parsed(OutOfFuel, pos, log)
    else
      var next := Parse(e, tail, cont, tlp, pos, [acc], fuel);
      match next.outcome
      case Unmatched => Parsed(Success(acc), pos, log + next.log)
      case OutOfFuel => Parsed(OutOfFuel, next.pos, log + next.log)
      case Success(v) => TailLoop(e, tail, cont, tlp, next.pos, v, log + next.log, budget - 1, fuel)
  }
}
