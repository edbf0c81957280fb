/** The grammar vocabulary of the production-rule engine: tokens, the opaque
    semantic values the user's callback builds, and the closed set of rule
    kinds a production's rule tree is made of. */
module Rules {

  /** Names of productions (the C++ code uses one type per production). */
  type ProdName = string

  type TokenKind = nat

  /** A lexical token as delivered by the tokenizer, which is not modelled. */
  datatype Token = Token(kind: TokenKind, spelling: string)

  /** Arguments handed to the callback: a matched token, or a value the
      callback built earlier. The engine never looks inside `Built`. */
  datatype Value = TokenValue(token: Token) | Built(payload: int)

  /** Rule kinds. `Terminal` stands for the token-matching rule of the base
      header, which consumes one token of the given kind. */
  datatype Rule =
    | Terminal(kind: TokenKind)
    | Production(name: ProdName)               // production<P>
    | DirectRecurse                            // direct_recurse_production
    | Recurse(target: ProdName)                // recurse_production<P>
    | Sequence(rules: seq<Rule>)               // sequence<Rules...>
    | Alternative(peek: Rule, body: Rule)      // choice_alternative<PeekRule, Rule>
    | Choice(alts: seq<Rule>)                  // choice<Choices...>
    | LeftRecursionChoice(base: Rule, tail: Rule) // left_recursion_choice<Choice, Tail>

  type Grammar = map<ProdName, Rule>

  /** The rules deriving from base_choice_rule. */
  predicate ChoiceKind(r: Rule) {
    r.Alternative? || r.Choice? || r.LeftRecursionChoice?
  }

  /** Rules that can be continued past: they append their values to the
      argument list and then call the continuation. */
  predicate Chainable(r: Rule) {
    match r
    case Terminal(_) => true
    case Production(_) => true
    case DirectRecurse => true
    case Recurse(_) => true
    case Sequence(rs) => forall i :: 0 <= i < |rs| ==> Chainable(rs[i])
    case _ => false
  }

  predicate AllChainable(rs: seq<Rule>) {
    forall i :: 0 <= i < |rs| ==> Chainable(rs[i])
  }

  /** The production whose parser a reference rule invokes inside the rule
      tree of top-level production `tlp`. */
  function Target(r: Rule, tlp: ProdName): ProdName
    requires r.Production? || r.DirectRecurse? || r.Recurse?
  {
    match r
    case Production(name) => name
    case DirectRecurse => tlp
    case Recurse(target) => target
  }

  /** What a choice alternative commits to: the body of a choice_alternative. */
  function BodyOf(alt: Rule): Rule {
    if alt.Alternative? then alt.body else alt
  }

  /** What a choice alternative peeks at before committing. */
  function PeekRuleOf(alt: Rule): Rule {
    if alt.Alternative? then alt.peek else alt
  }

  /** Size of a rule tree, the structural part of the interpreter's
      termination measure. */
  function Size(r: Rule): (n: nat)
    ensures n >= 1
  {
    match r
    case Sequence(rs) => 1 + SizeAll(rs)
    case Alternative(p, b) => 1 + Size(p) + Size(b)
    case Choice(alts) => 1 + SizeAll(alts)
    case LeftRecursionChoice(b, t) => 1 + Size(b) + Size(t)
    case _ => 1
  }

  function SizeAll(rs: seq<Rule>): nat {
    if rs == [] then 0 else Size(rs[0]) + SizeAll(rs[1..])
  }

  lemma {:induction false} SizeAllAppend(a: seq<Rule>, b: seq<Rule>)
    ensures SizeAll(a + b) == SizeAll(a) + SizeAll(b)
  {
    if a == [] {
      assert a + b == b;
    } else {
      assert (a + b)[1..] == a[1..] + b;
      SizeAllAppend(a[1..], b);
    }
  }
}
