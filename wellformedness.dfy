/** The static checks that the C++ code performs at compile time with
    static_assert (and the ones it gets for free from overload resolution),
    stated as a predicate on rule trees and as a checking function that
    lists the violations it finds. */
module WellFormedness {
  import opened Rules

  /** The violations, one per compile-time error of the source. */
  datatype GrammarError =
    | UndefinedProduction(name: ProdName)   // "only a production can be used in this context"
    | SelfRecursion(name: ProdName)         // "no need to use recursion for self recursion"
    | ChoiceComposedFurther                 // "a choice cannot be composed further"
    | DuplicateAlternatives                 // "duplicate alternatives in a choice"
    | NotAnAlternative                      // a choice member without a peek function
    | TailIsChoice                          // a left-recursion tail whose parse takes no arguments
    | EmptyChoice                           // a choice without alternatives has no common result type

  /** mp_is_set on the alternatives of a choice. */
  function NoDuplicates(alts: seq<Rule>): (r: bool)
    ensures r <==> forall i, j :: 0 <= i < j < |alts| ==> alts[i] != alts[j]
  {
    if alts == [] then true
    else
      assert forall k :: 0 <= k < |alts| - 1 ==> alts[1..][k] == alts[k + 1];
      alts[0] !in alts[1..] && NoDuplicates(alts[1..])
  }

  /** A rule whose parse accepts the arguments gathered before it, as the
      tail of a left recursion must: the previous result is passed to it.
      A choice_alternative hands its arguments on to its body, while the
      parse of a choice or a left-recursion choice takes none. */
  predicate TakesArguments(t: Rule) {
    !t.Choice? && !t.LeftRecursionChoice? && (t.Alternative? ==> TakesArguments(t.body))
  }

  /** The rule an alternative finally parses, below any alternatives. */
  function Unwrapped(t: Rule): (u: Rule)
    ensures !u.Alternative?
  {
    if t.Alternative? then Unwrapped(t.body) else t
  }

  /** The well-formedness of a rule tree that belongs to production `tlp`. */
  predicate RuleWellFormed(g: Grammar, tlp: ProdName, r: Rule) {
    match r
    case Terminal(_) => true
    case Production(q) => q in g
    case DirectRecurse => true
    case Recurse(q) => q in g && q != tlp
    case Sequence(rs) =>
      forall i :: 0 <= i < |rs| ==> !ChoiceKind(rs[i]) && RuleWellFormed(g, tlp, rs[i])
    case Alternative(p, b) => RuleWellFormed(g, tlp, p) && RuleWellFormed(g, tlp, b)
    case Choice(alts) =>
      |alts| > 0 && NoDuplicates(alts) && forall i :: 0 <= i < |alts| ==> alts[i].Alternative? && RuleWellFormed(g, tlp, alts[i])
    case LeftRecursionChoice(b, t) =>
      RuleWellFormed(g, tlp, b) && RuleWellFormed(g, tlp, t) && TakesArguments(t)
  }

  /** The compile-time diagnostics of rule tree `r` inside production `tlp`.
      `RuleWellFormed` is the condition the parse lemmas assume; this
      function is the compiler's side, which names each violation it
      finds, and its contract ties the two together. */
  function CheckRule(g: Grammar, tlp: ProdName, r: Rule): (errs: seq<GrammarError>)
    ensures |errs| == 0 <==> RuleWellFormed(g, tlp, r)
  {
    match r
    case Terminal(_) => []
    case Production(q) => if q in g then [] else [UndefinedProduction(q)]
    case DirectRecurse => []
    case Recurse(q) =>
      (if q in g then [] else [UndefinedProduction(q)]) + (if q != tlp then [] else [SelfRecursion(q)])
    case Sequence(rs) => CheckSequenceMembers(g, tlp, rs)
    case Alternative(p, b) => CheckRule(g, tlp, p) + CheckRule(g, tlp, b)
    case Choice(alts) =>
      (if |alts| > 0 then [] else [EmptyChoice])
      + (if NoDuplicates(alts) then [] else [DuplicateAlternatives]) + CheckAlternatives(g, tlp, alts)
    case LeftRecursionChoice(b, t) =>
      CheckRule(g, tlp, b) + CheckRule(g, tlp, t)
      + (if TakesArguments(t) then [] else [TailIsChoice])
  }

  function CheckSequenceMembers(g: Grammar, tlp: ProdName, rs: seq<Rule>): (errs: seq<GrammarError>)
    ensures |errs| == 0 <==> forall i :: 0 <= i < |rs| ==> !ChoiceKind(rs[i]) && RuleWellFormed(g, tlp, rs[i])
  {
    if rs == [] then []
    else
      assert forall k :: 0 <= k < |rs| - 1 ==> rs[1..][k] == rs[k + 1];
      (if ChoiceKind(rs[0]) then [ChoiceComposedFurther] else [])
      + CheckRule(g, tlp, rs[0]) + CheckSequenceMembers(g, tlp, rs[1..])
  }

  function CheckAlternatives(g: Grammar, tlp: ProdName, alts: seq<Rule>): (errs: seq<GrammarError>)
    ensures |errs| == 0 <==> forall i :: 0 <= i < |alts| ==> alts[i].Alternative? && RuleWellFormed(g, tlp, alts[i])
  {
    if alts == [] then []
    else
      assert forall k :: 0 <= k < |alts| - 1 ==> alts[1..][k] == alts[k + 1];
      (if alts[0].Alternative? then [] else [NotAnAlternative])
      + CheckRule(g, tlp, alts[0]) + CheckAlternatives(g, tlp, alts[1..])
  }

  /** A well-formed rule that is not of choice kind can be continued past:
      the checks on sequences reach every level of nesting. */
  lemma {:induction false} WellFormedNonChoiceIsChainable(g: Grammar, tlp: ProdName, r: Rule)
    requires RuleWellFormed(g, tlp, r) && !ChoiceKind(r)
    ensures Chainable(r)
  {
    match r
    case Sequence(rs) =>
      forall i | 0 <= i < |rs|
        ensures Chainable(rs[i])
      {
        WellFormedNonChoiceIsChainable(g, tlp, rs[i]);
      }
    case _ =>
  }

  /** The tail of a well-formed left recursion, below its alternatives, is
      a rule that can be continued past: the previous result it receives
      reaches the continuation. */
  lemma {:induction false} WellFormedTailIsChainable(g: Grammar, tlp: ProdName, t: Rule)
    requires RuleWellFormed(g, tlp, t) && TakesArguments(t)
    ensures Chainable(Unwrapped(t))
  {
    if t.Alternative? {
      WellFormedTailIsChainable(g, tlp, t.body);
    } else {
      WellFormedNonChoiceIsChainable(g, tlp, t);
    }
  }
}
