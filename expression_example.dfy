/** A worked grammar: `expr := expr op int | int`, written with a
    left-recursion choice, evaluated by a callback that folds the operators.
    On the tokens `3 + 4 - 2` the parse reduces left to right, to (3+4)-2. */
module ExpressionExample {
  import opened Rules
  import opened Interpreter
  import opened LeftRecursionProperties

  const IntKind: TokenKind := 0
  const OpKind: TokenKind := 1

  const Tail: Rule := Sequence([Terminal(OpKind), Terminal(IntKind)])
  const ExprRule: Rule := LeftRecursionChoice(Terminal(IntKind), Tail)

  function Digit(s: string): int {
    if |s| == 1 && '0' <= s[0] <= '9' then s[0] as int - '0' as int else 0
  }

  /** The user's callback: a lone integer token is its value; a previous
      value, an operator and an integer combine by the operator. */
  function Evaluate(name: ProdName, args: seq<Value>): Value {
    if |args| == 1 && args[0].TokenValue? then Built(Digit(args[0].token.spelling))
    else if |args| == 3 && args[0].Built? && args[1].TokenValue? && args[2].TokenValue? then
      var rhs := Digit(args[2].token.spelling);
      Built(if args[1].token.spelling == "+" then args[0].payload + rhs else args[0].payload - rhs)
    else Built(0)
  }

  function ExampleEngine(): Engine {
    Engine(map["expr" := ExprRule],
           [Token(IntKind, "3"), Token(OpKind, "+"), Token(IntKind, "4"), Token(OpKind, "-"), Token(IntKind, "2")],
           Evaluate)
  }

  /** One tail attempt: an operator and an integer follow at `p`. */
  lemma TailStep(p: nat, prev: Value)
    requires p + 1 < 5 && p % 2 == 1
    ensures
      var e := ExampleEngine();
      Parse(e, Tail, [], "expr", p, [prev], 3)
        == Parsed(Success(Evaluate("expr", [prev, TokenValue(e.tokens[p]), TokenValue(e.tokens[p + 1])])), p + 2, [])
  {
    var e := ExampleEngine();
    assert e.tokens[p].kind == OpKind && e.tokens[p + 1].kind == IntKind by {
      assert p == 1 || p == 3;
    }
    var op, num := TokenValue(e.tokens[p]), TokenValue(e.tokens[p + 1]);
    assert [prev] + [op] == [prev, op] && [prev, op] + [num] == [prev, op, num];
    assert Parse(e, Terminal(IntKind), [], "expr", p + 1, [prev, op], 3)
        == Chain(e, [], "expr", p + 2, [prev, op, num], 3);
    assert [Terminal(IntKind)][1..] == [];
    assert Parse(e, Terminal(OpKind), [Terminal(IntKind)], "expr", p, [prev], 3)
        == Chain(e, [Terminal(IntKind)], "expr", p + 1, [prev, op], 3);
    assert Tail.rules + [] == Tail.rules;
  }

  /** At the end of the input the tail does not match. */
  lemma TailStopsAtEnd(prev: Value)
    ensures Parse(ExampleEngine(), Tail, [], "expr", 5, [prev], 3) == Parsed(Unmatched, 5, [])
  {
    var e := ExampleEngine();
    assert Tail.rules + [] == Tail.rules;
    assert Parse(e, Terminal(OpKind), [Terminal(IntKind)], "expr", 5, [prev], 3) == Parsed(Unmatched, 5, []);
  }

  /** `3 + 4 - 2` parses completely and evaluates to (3 + 4) - 2. */
  lemma EvaluatesLeftToRight()
    ensures ParseProduction(ExampleEngine(), "expr", 0, 4) == Parsed(Success(Built((3 + 4) - 2)), 5, [])
  {
    var e := ExampleEngine();
    var v0, v1, v2 := Built(3), Built(7), Built(5);
    assert Parse(e, Terminal(IntKind), [], "expr", 0, [], 3) == Parsed(Success(v0), 1, []);
    TailStep(1, v0);
    TailStep(3, v1);
    TailStopsAtEnd(v2);
    var ps, vs, ls := [1, 3, 5], [v0, v1, v2], [[], [], []];
    assert TailMatches(e, Tail, [], "expr", 3, ps, vs, ls, 0);
    assert TailMatches(e, Tail, [], "expr", 3, ps, vs, ls, 1);
    assert TailTrace(e, Tail, [], "expr", 3, ps, vs, ls);
    LeftRecursionUnrolls(e, Terminal(IntKind), Tail, [], "expr", 0, [], 3, ps, vs, ls, []);
    assert Flatten(ls) == [];
  }
}
