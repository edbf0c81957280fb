/** Properties of the ordered choice: peeks are evaluated at the entry
    position and leave no trace, the first alternative whose peek matches
    decides the result by its body alone, and an exhausted choice reports
    exactly one diagnostic and consumes nothing. */
module ChoiceProperties {
  import opened Rules
  import opened Interpreter

  /** No alternative before index `i` has a matching peek at `pos`. */
  ghost predicate PeeksFailBefore(e: Engine, alts: seq<Rule>, tlp: ProdName, pos: nat, fuel: nat, i: nat)
    requires i <= |alts|
  {
    forall j :: 0 <= j < i ==> Peek(e, alts[j], tlp, pos, fuel).Unmatched?
  }

  /** First match wins: if alternative `i` is the first whose peek does
      not fail, the choice is decided there. A matching peek commits to the
      alternative's body, parsed from the choice's own entry position
      whatever the body's outcome; a peek that runs out of fuel stops the
      choice without consuming anything. */
  lemma {:induction false} ChoiceDecidedByFirstPeek(e: Engine, alts: seq<Rule>, cont: seq<Rule>, tlp: ProdName, pos: nat, fuel: nat, i: nat)
    requires i < |alts|
    requires PeeksFailBefore(e, alts, tlp, pos, fuel, i)
    requires !Peek(e, alts[i], tlp, pos, fuel).Unmatched?
    ensures ParseChoice(e, alts, cont, tlp, pos, fuel) ==
      if Peek(e, alts[i], tlp, pos, fuel).Success?
      then Parse(e, BodyOf(alts[i]), cont, tlp, pos, [], fuel)
      else Parsed(OutOfFuel, pos, [])
  {
    if i > 0 {
      assert Peek(e, alts[0], tlp, pos, fuel).Unmatched?;
      var tail := alts[1..];
      assert forall j :: 0 <= j < |tail| ==> tail[j] == alts[j + 1];
      ChoiceDecidedByFirstPeek(e, tail, cont, tlp, pos, fuel, i - 1);
    }
  }

  /** Later alternatives are never consulted: once alternative `i` decides
      the choice, replacing everything after it changes nothing. */
  lemma ChoiceIgnoresLaterAlternatives(e: Engine, alts: seq<Rule>, rest: seq<Rule>, cont: seq<Rule>, tlp: ProdName, pos: nat, fuel: nat, i: nat)
    requires i < |alts|
    requires PeeksFailBefore(e, alts, tlp, pos, fuel, i)
    requires !Peek(e, alts[i], tlp, pos, fuel).Unmatched?
    ensures ParseChoice(e, alts[..i + 1] + rest, cont, tlp, pos, fuel) == ParseChoice(e, alts, cont, tlp, pos, fuel)
  {
    var other := alts[..i + 1] + rest;
    assert forall j :: 0 <= j <= i ==> other[j] == alts[j];
    ChoiceDecidedByFirstPeek(e, alts, cont, tlp, pos, fuel, i);
    ChoiceDecidedByFirstPeek(e, other, cont, tlp, pos, fuel, i);
  }

  /** An exhausted choice reports one exhausted-choice diagnostic naming
      the top-level production, returns the unmatched result and leaves
      the position where it was. */
  lemma {:induction false} ChoiceExhausted(e: Engine, alts: seq<Rule>, cont: seq<Rule>, tlp: ProdName, pos: nat, fuel: nat)
    requires PeeksFailBefore(e, alts, tlp, pos, fuel, |alts|)
    ensures ParseChoice(e, alts, cont, tlp, pos, fuel) == Parsed(Unmatched, pos, [ExhaustedChoice(tlp)])
  {
    if alts != [] {
      assert Peek(e, alts[0], tlp, pos, fuel).Unmatched?;
      var tail := alts[1..];
      assert forall j :: 0 <= j < |tail| ==> tail[j] == alts[j + 1];
      ChoiceExhausted(e, tail, cont, tlp, pos, fuel);
    }
  }

  /** Conversely, the choice itself reports a diagnostic only when it is
      exhausted: if some peek does not fail, the result is that of the
      deciding alternative, whose body alone may report. */
  lemma {:induction false} ChoiceReportsOnlyWhenExhausted(e: Engine, alts: seq<Rule>, cont: seq<Rule>, tlp: ProdName, pos: nat, fuel: nat)
    requires exists i :: 0 <= i < |alts| && !Peek(e, alts[i], tlp, pos, fuel).Unmatched?
    ensures exists i :: (0 <= i < |alts| && PeeksFailBefore(e, alts, tlp, pos, fuel, i) &&
      ParseChoice(e, alts, cont, tlp, pos, fuel) ==
        (if Peek(e, alts[i], tlp, pos, fuel).Success?
         then Parse(e, BodyOf(alts[i]), cont, tlp, pos, [], fuel)
         else Parsed(OutOfFuel, pos, [])))
  {
    if Peek(e, alts[0], tlp, pos, fuel).Unmatched? {
      var tail := alts[1..];
      assert forall j :: 0 <= j < |tail| ==> tail[j] == alts[j + 1];
      var k :| 0 <= k < |alts| && !Peek(e, alts[k], tlp, pos, fuel).Unmatched?;
      assert tail[k - 1] == alts[k];
      ChoiceReportsOnlyWhenExhausted(e, tail, cont, tlp, pos, fuel);
      var i :| 0 <= i < |tail| && PeeksFailBefore(e, tail, tlp, pos, fuel, i) &&
        ParseChoice(e, tail, cont, tlp, pos, fuel) ==
          (if Peek(e, tail[i], tlp, pos, fuel).Success?
           then Parse(e, BodyOf(tail[i]), cont, tlp, pos, [], fuel)
           else Parsed(OutOfFuel, pos, []));
      assert PeeksFailBefore(e, alts, tlp, pos, fuel, i + 1);
    } else {
      assert PeeksFailBefore(e, alts, tlp, pos, fuel, 0);
    }
  }

  /** Dropping an alternative whose peek fails at `pos` does not change the
      result of the choice at `pos`. */
  lemma {:induction false} DropFailingAlternative(e: Engine, alts: seq<Rule>, cont: seq<Rule>, tlp: ProdName, pos: nat, fuel: nat, j: nat)
    requires j < |alts|
    requires Peek(e, alts[j], tlp, pos, fuel).Unmatched?
    ensures ParseChoice(e, alts[..j] + alts[j + 1..], cont, tlp, pos, fuel) == ParseChoice(e, alts, cont, tlp, pos, fuel)
  {
    var dropped := alts[..j] + alts[j + 1..];
    if j == 0 {
      assert dropped == alts[1..];
    } else {
      var tail := alts[1..];
      assert dropped[0] == alts[0];
      assert dropped[1..] == tail[..j - 1] + tail[j..];
      if Peek(e, alts[0], tlp, pos, fuel).Unmatched? {
        DropFailingAlternative(e, tail, cont, tlp, pos, fuel, j - 1);
      }
    }
  }

  /** Why the source forbids duplicate alternatives: a repeated alternative
      can never be chosen, because its twin earlier in the list sees the
      same peek at the same position. */
  lemma {:induction false} DuplicateAlternativeIsDead(e: Engine, alts: seq<Rule>, cont: seq<Rule>, tlp: ProdName, pos: nat, fuel: nat, i: nat, j: nat)
    requires i < j < |alts| && alts[i] == alts[j]
    ensures ParseChoice(e, alts[..j] + alts[j + 1..], cont, tlp, pos, fuel) == ParseChoice(e, alts, cont, tlp, pos, fuel)
  {
    var dropped := alts[..j] + alts[j + 1..];
    assert dropped[0] == alts[0];
    if Peek(e, alts[0], tlp, pos, fuel).Unmatched? {
      if i == 0 {
        DropFailingAlternative(e, alts, cont, tlp, pos, fuel, j);
      } else {
        var tail := alts[1..];
        assert dropped[1..] == tail[..j - 1] + tail[j..];
        DuplicateAlternativeIsDead(e, tail, cont, tlp, pos, fuel, i - 1, j - 1);
      }
    }
  }
}
