/** The parser chain against a direct-style reference: for rules that can be
    continued past, `Produce` says which values they append (in order) or
    where the first of them fails. The chain's continuation-passing
    evaluation agrees with it: each layer appends its value and calls the
    next, and a failure returns untouched without calling the rest. */
module ChainProperties {
  import opened Rules
  import opened Interpreter

  /** What a list of chainable rules contributes: the values it appends, or
      the non-success outcome of the first rule that failed. */
  datatype Run =
    | Produced(values: seq<Value>, pos: nat, log: Log)
    | Stopped(outcome: Outcome, pos: nat, log: Log)

  function Prepend(v: Value, log: Log, r: Run): Run {
    if r.Produced? then Produced([v] + r.values, r.pos, log + r.log)
    else Stopped(r.outcome, r.pos, log + r.log)
  }

  /** Run `b` after `first`, unless `first` already stopped. */
  function AndThen(e: Engine, first: Run, b: seq<Rule>, tlp: ProdName, fuel: nat): Run
    requires AllChainable(b)
  {
    if first.Stopped? then first
    else
      var second := Produce(e, b, tlp, first.pos, fuel);
      if second.Produced? then Produced(first.values + second.values, second.pos, first.log + second.log)
      else Stopped(second.outcome, second.pos, first.log + second.log)
  }

  /** Direct-style semantics of chainable rules, one rule after another. */
  function Produce(e: Engine, rs: seq<Rule>, tlp: ProdName, pos: nat, fuel: nat): Run
    requires AllChainable(rs)
    decreases SizeAll(rs)
  {
    if rs == [] then Produced([], pos, [])
    else
      if rs[0].Terminal? then
        if pos < |e.tokens| && e.tokens[pos].kind == rs[0].kind
        then Prepend(TokenValue(e.tokens[pos]), [], Produce(e, rs[1..], tlp, pos + 1, fuel))
        else Stopped(Unmatched, pos, [])
      else if rs[0].Sequence? then
        var ss := rs[0].rules;
        SizeAllAppend(ss, rs[1..]);
        assert SizeAll(rs) == 1 + SizeAll(ss) + SizeAll(rs[1..]);
        assert AllChainable(ss + rs[1..]) by {
          assert forall i :: 0 <= i < |ss| ==> (ss + rs[1..])[i] == ss[i];
          assert forall i :: |ss| <= i < |ss| + |rs| - 1 ==> (ss + rs[1..])[i] == rs[i - |ss| + 1];
        }
        Produce(e, ss + rs[1..], tlp, pos, fuel)
      else
        // Production, DirectRecurse or Recurse
        var sub := ParseProduction(e, Target(rs[0], tlp), pos, fuel);
        if sub.outcome.Success?
        then Prepend(sub.outcome.value, sub.log, Produce(e, rs[1..], tlp, sub.pos, fuel))
        else Stopped(sub.outcome, sub.pos, sub.log)
  }

  /** Hand a run to the continuation: on success the continuation receives
      the earlier arguments followed by the run's values. */
  function Resume(e: Engine, run: Run, cont: seq<Rule>, tlp: ProdName, args: seq<Value>, fuel: nat): Parsed {
    if run.Produced? then WithLog(run.log, Chain(e, cont, tlp, run.pos, args + run.values, fuel))
    else Parsed(run.outcome, run.pos, run.log)
  }

  lemma ResumePrepend(e: Engine, v: Value, log: Log, run: Run, cont: seq<Rule>, tlp: ProdName, args: seq<Value>, fuel: nat)
    ensures Resume(e, Prepend(v, log, run), cont, tlp, args, fuel) == WithLog(log, Resume(e, run, cont, tlp, args + [v], fuel))
  {
    if run.Produced? {
      assert args + ([v] + run.values) == (args + [v]) + run.values;
    }
  }

  /** The chain over `rs + cont` is the direct-style run of `rs` followed by
      the continuation `cont`: each rule appends its value to the arguments
      and hands them on. */
  lemma {:induction false} ChainMatchesProduce(e: Engine, rs: seq<Rule>, cont: seq<Rule>, tlp: ProdName, pos: nat, args: seq<Value>, fuel: nat)
    requires AllChainable(rs)
    ensures Chain(e, rs + cont, tlp, pos, args, fuel) == Resume(e, Produce(e, rs, tlp, pos, fuel), cont, tlp, args, fuel)
    decreases SizeAll(rs)
  {
    if rs == [] {
      assert rs + cont == cont;
      assert args + [] == args;
    } else {
      var rest := rs[1..];
      assert (rs + cont)[0] == rs[0];
      assert (rs + cont)[1..] == rest + cont;
      assert AllChainable(rest) by {
        assert forall i :: 0 <= i < |rest| ==> rest[i] == rs[i + 1];
      }
      if rs[0].Terminal? {
        if pos < |e.tokens| && e.tokens[pos].kind == rs[0].kind {
          var v := TokenValue(e.tokens[pos]);
          ChainMatchesProduce(e, rest, cont, tlp, pos + 1, args + [v], fuel);
          ResumePrepend(e, v, [], Produce(e, rest, tlp, pos + 1, fuel), cont, tlp, args, fuel);
        }
      } else if rs[0].Sequence? {
        var ss := rs[0].rules;
        SizeAllAppend(ss, rest);
        assert SizeAll(rs) == 1 + SizeAll(ss) + SizeAll(rest);
        assert AllChainable(ss + rest) by {
          assert forall i :: 0 <= i < |ss| ==> (ss + rest)[i] == ss[i];
          assert forall i :: |ss| <= i < |ss| + |rest| ==> (ss + rest)[i] == rest[i - |ss|];
        }
        assert ss + (rest + cont) == (ss + rest) + cont;
        ChainMatchesProduce(e, ss + rest, cont, tlp, pos, args, fuel);
      } else {
        assert Parse(e, rs[0], rest + cont, tlp, pos, args, fuel)
            == Reference(e, Target(rs[0], tlp), rest + cont, tlp, pos, args, fuel);
        var sub := ParseProduction(e, Target(rs[0], tlp), pos, fuel);
        if sub.outcome.Success? {
          var v := sub.outcome.value;
          ChainMatchesProduce(e, rest, cont, tlp, sub.pos, args + [v], fuel);
          ResumePrepend(e, v, sub.log, Produce(e, rest, tlp, sub.pos, fuel), cont, tlp, args, fuel);
        }
      }
    }
  }

  /** Sequencing is associative: running `a + b` runs `a`, then `b` from
      where `a` stopped, and stops as soon as `a` stops. */
  lemma {:induction false} ProduceAppend(e: Engine, a: seq<Rule>, b: seq<Rule>, tlp: ProdName, pos: nat, fuel: nat)
    requires AllChainable(a) && AllChainable(b)
    ensures AllChainable(a + b)
    ensures Produce(e, a + b, tlp, pos, fuel) == AndThen(e, Produce(e, a, tlp, pos, fuel), b, tlp, fuel)
    decreases SizeAll(a)
  {
    assert forall i :: 0 <= i < |a| ==> (a + b)[i] == a[i];
    assert forall i :: |a| <= i < |a| + |b| ==> (a + b)[i] == b[i - |a|];
    if a == [] {
      assert a + b == b;
      var r := Produce(e, b, tlp, pos, fuel);
      if r.Produced? {
        assert [] + r.values == r.values;
      }
      assert [] + r.log == r.log;
    } else {
      var rest := a[1..];
      assert (a + b)[0] == a[0];
      assert (a + b)[1..] == rest + b;
      assert AllChainable(rest) by {
        assert forall i :: 0 <= i < |rest| ==> rest[i] == a[i + 1];
      }
      if a[0].Terminal? {
        if pos < |e.tokens| && e.tokens[pos].kind == a[0].kind {
          ProduceAppend(e, rest, b, tlp, pos + 1, fuel);
          AppendShape(e, TokenValue(e.tokens[pos]), [], rest, b, tlp, pos + 1, fuel);
        }
      } else if a[0].Sequence? {
        var ss := a[0].rules;
        SizeAllAppend(ss, rest);
        assert SizeAll(a) == 1 + SizeAll(ss) + SizeAll(rest);
        assert AllChainable(ss + rest) by {
          assert forall i :: 0 <= i < |ss| ==> (ss + rest)[i] == ss[i];
          assert forall i :: |ss| <= i < |ss| + |rest| ==> (ss + rest)[i] == rest[i - |ss|];
        }
        assert ss + (rest + b) == (ss + rest) + b;
        ProduceAppend(e, ss + rest, b, tlp, pos, fuel);
      } else {
        var sub := ParseProduction(e, Target(a[0], tlp), pos, fuel);
        if sub.outcome.Success? {
          ProduceAppend(e, rest, b, tlp, sub.pos, fuel);
          AppendShape(e, sub.outcome.value, sub.log, rest, b, tlp, sub.pos, fuel);
        }
      }
    }
  }

  /** The step case of ProduceAppend: prepending one value commutes with
      running a second list afterwards. */
  lemma AppendShape(e: Engine, v: Value, log: Log, a: seq<Rule>, b: seq<Rule>, tlp: ProdName, pos: nat, fuel: nat)
    requires AllChainable(a) && AllChainable(b)
    ensures Prepend(v, log, AndThen(e, Produce(e, a, tlp, pos, fuel), b, tlp, fuel))
         == AndThen(e, Prepend(v, log, Produce(e, a, tlp, pos, fuel)), b, tlp, fuel)
  {
    var ra := Produce(e, a, tlp, pos, fuel);
    if ra.Produced? {
      var rb := Produce(e, b, tlp, ra.pos, fuel);
      if rb.Produced? {
        assert [v] + (ra.values + rb.values) == ([v] + ra.values) + rb.values;
      }
      assert log + (ra.log + rb.log) == (log + ra.log) + rb.log;
    }
  }

  /** A sequence at the end of a production hands the callback the earlier
      arguments followed by every value its rules produced, in order; if one
      of its rules fails, that outcome is returned and the callback is not
      invoked. */
  lemma SequenceCollectsValues(e: Engine, rs: seq<Rule>, tlp: ProdName, pos: nat, args: seq<Value>, fuel: nat)
    requires AllChainable(rs)
    ensures
      var run := Produce(e, rs, tlp, pos, fuel);
      Parse(e, Sequence(rs), [], tlp, pos, args, fuel) ==
        if run.Produced?
        then Parsed(Success(e.callback(tlp, args + run.values)), run.pos, run.log)
        else Parsed(run.outcome, run.pos, run.log)
  {
    assert rs + [] == rs;
    ChainMatchesProduce(e, rs, [], tlp, pos, args, fuel);
    var run := Produce(e, rs, tlp, pos, fuel);
    assert run.Produced? ==> run.log + [] == run.log;
  }

  /** Short circuit: once a rule of the chain fails, neither the rest of the
      chain, nor the continuation, nor the arguments gathered so far matter. */
  lemma ChainShortCircuits(e: Engine, rs: seq<Rule>, cont: seq<Rule>, tlp: ProdName, pos: nat, args: seq<Value>, fuel: nat)
    requires AllChainable(rs)
    requires Produce(e, rs, tlp, pos, fuel).Stopped?
    ensures
      var run := Produce(e, rs, tlp, pos, fuel);
      Chain(e, rs + cont, tlp, pos, args, fuel) == Parsed(run.outcome, run.pos, run.log)
  {
    ChainMatchesProduce(e, rs, cont, tlp, pos, args, fuel);
  }
}
