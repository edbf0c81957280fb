/** The engine never looks at the values it passes around: whether a parse
    matches, where it stops and what it reports depend only on the grammar
    and the tokens, not on the callback nor on the arguments gathered so
    far. In particular a peek, which gets no callback in the source, gives
    the same answer whatever the callback is. */
module ValueIndependence {
  import opened Rules
  import opened Interpreter

  /** Two engines that differ at most in their callbacks. */
  predicate SameInput(e: Engine, e': Engine) {
    e.grammar == e'.grammar && e.tokens == e'.tokens
  }

  /** Two results that agree in everything the engine itself decides: the
      kind of outcome, the position and the diagnostics. */
  predicate SameShape(p: Parsed, q: Parsed) {
    && p.pos == q.pos && p.log == q.log
    && p.outcome.Success? == q.outcome.Success?
    && p.outcome.Unmatched? == q.outcome.Unmatched?
  }

  lemma {:induction false} ParseIgnoresValues(e: Engine, e': Engine, r: Rule, cont: seq<Rule>, tlp: ProdName, pos: nat, args: seq<Value>, args': seq<Value>, fuel: nat)
    requires SameInput(e, e')
    ensures SameShape(Parse(e, r, cont, tlp, pos, args, fuel), Parse(e', r, cont, tlp, pos, args', fuel))
    decreases fuel, Size(r) + SizeAll(cont), 2, 0
  {
    match r
    case Terminal(k) =>
      if pos < |e.tokens| && e.tokens[pos].kind == k {
        var v := TokenValue(e.tokens[pos]);
        ChainIgnoresValues(e, e', cont, tlp, pos + 1, args + [v], args' + [v], fuel);
      }
    case Production(q) => ReferenceIgnoresValues(e, e', q, cont, tlp, pos, args, args', fuel);
    case DirectRecurse => ReferenceIgnoresValues(e, e', tlp, cont, tlp, pos, args, args', fuel);
    case Recurse(q) => ReferenceIgnoresValues(e, e', q, cont, tlp, pos, args, args', fuel);
    case Sequence(rs) =>
      SizeAllAppend(rs, cont);
      ChainIgnoresValues(e, e', rs + cont, tlp, pos, args, args', fuel);
    case Alternative(_, body) => ParseIgnoresValues(e, e', body, cont, tlp, pos, args, args', fuel);
    case Choice(alts) => ChoiceIgnoresValues(e, e', alts, cont, tlp, pos, fuel);
    case LeftRecursionChoice(base, tail) =>
      var first, first' := Parse(e, base, [], tlp, pos, [], fuel), Parse(e', base, [], tlp, pos, [], fuel);
      ParseIgnoresValues(e, e', base, [], tlp, pos, [], [], fuel);
      if first.outcome.Success? {
        TailLoopIgnoresValues(e, e', tail, cont, tlp, first.pos, first.outcome.value, first'.outcome.value, first.log, fuel, fuel);
      }
  }

  lemma {:induction false} ChainIgnoresValues(e: Engine, e': Engine, cont: seq<Rule>, tlp: ProdName, pos: nat, args: seq<Value>, args': seq<Value>, fuel: nat)
    requires SameInput(e, e')
    ensures SameShape(Chain(e, cont, tlp, pos, args, fuel), Chain(e', cont, tlp, pos, args', fuel))
    decreases fuel, SizeAll(cont), 3, 0
  {
    if cont != [] {
      ParseIgnoresValues(e, e', cont[0], cont[1..], tlp, pos, args, args', fuel);
    }
  }

  lemma {:induction false} ReferenceIgnoresValues(e: Engine, e': Engine, target: ProdName, cont: seq<Rule>, tlp: ProdName, pos: nat, args: seq<Value>, args': seq<Value>, fuel: nat)
    requires SameInput(e, e')
    ensures SameShape(Reference(e, target, cont, tlp, pos, args, fuel), Reference(e', target, cont, tlp, pos, args', fuel))
    decreases fuel, SizeAll(cont) + 1, 1, 0
  {
    var sub, sub' := ParseProduction(e, target, pos, fuel), ParseProduction(e', target, pos, fuel);
    ProductionIgnoresValues(e, e', target, pos, fuel);
    if sub.outcome.Success? {
      ChainIgnoresValues(e, e', cont, tlp, sub.pos, args + [sub.outcome.value], args' + [sub'.outcome.value], fuel);
    }
  }

  lemma {:induction false} ProductionIgnoresValues(e: Engine, e': Engine, name: ProdName, pos: nat, fuel: nat)
    requires SameInput(e, e')
    ensures SameShape(ParseProduction(e, name, pos, fuel), ParseProduction(e', name, pos, fuel))
    decreases fuel, 0, 0, 0
  {
    if fuel > 0 && name in e.grammar {
      ParseIgnoresValues(e, e', e.grammar[name], [], name, pos, [], [], fuel - 1);
    }
  }

  /** A peek's answer depends on the grammar and the tokens alone. */
  lemma {:induction false} PeekIgnoresValues(e: Engine, e': Engine, alt: Rule, tlp: ProdName, pos: nat, fuel: nat)
    requires SameInput(e, e')
    ensures Peek(e, alt, tlp, pos, fuel).Success? == Peek(e', alt, tlp, pos, fuel).Success?
    ensures Peek(e, alt, tlp, pos, fuel).Unmatched? == Peek(e', alt, tlp, pos, fuel).Unmatched?
    decreases fuel, Size(alt), 3, 0
  {
    ParseIgnoresValues(e, e', PeekRuleOf(alt), [], tlp, pos, [], [], fuel);
  }

  lemma {:induction false} ChoiceIgnoresValues(e: Engine, e': Engine, alts: seq<Rule>, cont: seq<Rule>, tlp: ProdName, pos: nat, fuel: nat)
    requires SameInput(e, e')
    ensures SameShape(ParseChoice(e, alts, cont, tlp, pos, fuel), ParseChoice(e', alts, cont, tlp, pos, fuel))
    decreases fuel, SizeAll(alts) + SizeAll(cont) + 1, 1, 0
  {
    if alts != [] {
      PeekIgnoresValues(e, e', alts[0], tlp, pos, fuel);
      if Peek(e, alts[0], tlp, pos, fuel).Success? {
        ParseIgnoresValues(e, e', BodyOf(alts[0]), cont, tlp, pos, [], [], fuel);
      } else if Peek(e, alts[0], tlp, pos, fuel).Unmatched? {
        ChoiceIgnoresValues(e, e', alts[1..], cont, tlp, pos, fuel);
      }
    }
  }

  lemma {:induction false} TailLoopIgnoresValues(e: Engine, e': Engine, tail: Rule, cont: seq<Rule>, tlp: ProdName, pos: nat, acc: Value, acc': Value, log: Log, budget: nat, fuel: nat)
    requires SameInput(e, e')
    ensures SameShape(TailLoop(e, tail, cont, tlp, pos, acc, log, budget, fuel), TailLoop(e', tail, cont, tlp, pos, acc', log, budget, fuel))
    decreases fuel, Size(tail) + SizeAll(cont) + 1, 1, budget
  {
    if budget > 0 {
      var next, next' := Parse(e, tail, cont, tlp, pos, [acc], fuel), Parse(e', tail, cont, tlp, pos, [acc'], fuel);
      ParseIgnoresValues(e, e', tail, cont, tlp, pos, [acc], [acc'], fuel);
      if next.outcome.Success? {
        TailLoopIgnoresValues(e, e', tail, cont, tlp, next.pos, next.outcome.value, next'.outcome.value, log + next.log, budget - 1, fuel);
      }
    }
  }

  /** choice_alternative::peek receives the tokenizer by value and no
      callback: whatever callback the engine carries, the peek reports the
      same match or mismatch. Its position and diagnostics never reach the
      caller, since `Peek` returns only the outcome. */
  lemma PeekIgnoresCallback(e: Engine, cb: (ProdName, seq<Value>) -> Value, alt: Rule, tlp: ProdName, pos: nat, fuel: nat)
    ensures Peek(e, alt, tlp, pos, fuel).Unmatched? == Peek(e.(callback := cb), alt, tlp, pos, fuel).Unmatched?
    ensures Peek(e, alt, tlp, pos, fuel).Success? == Peek(e.(callback := cb), alt, tlp, pos, fuel).Success?
  {
    PeekIgnoresValues(e, e.(callback := cb), alt, tlp, pos, fuel);
  }
}
