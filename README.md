# Production-rule parsing engine, modelled in Dafny

This project models the runtime core of foonathan/lex's production-rule
parser (`include/foonathan/lex/detail/production_rule_production.hpp`): a
recursive-descent engine whose grammar is a tree of rules, each rule
parsing its part of the token stream and then handing an accumulating
argument list to a continuation that ends in the user's callback.

The C++ code encodes every rule kind and every continuation as a type.
Here the rule kinds form one closed datatype (`Rules.Rule`), and an
interpreter (`Interpreter.Parse`) replaces template instantiation:

- `Terminal(kind)`: the token rule of the base header. It consumes one token
  of the given kind and appends it as an argument.
- `Production(name)`, `DirectRecurse`, `Recurse(name)`: parse another
  production (or the top-level one itself) and append its value.
- `Sequence(rules)`: the rules in order, each one wrapping the rest.
- `Alternative(peek, body)`: a choice alternative. As a choice member, its
  peek rule decides whether the choice commits to its body.
- `Choice(alts)`: ordered choice. The first alternative whose peek matches
  wins. When none matches, the choice reports an exhausted-choice
  diagnostic.
- `LeftRecursionChoice(base, tail)`: parse the base once, then the tail as
  often as it matches, each time with the previous result as the tail's
  leading argument.

`Interpreter.Parse` threads the continuation as a list of rules. The empty
list is the final parser: it calls the callback `(production, arguments) ->
value` of the top-level production. The callback is an uninterpreted
function parameter, and the values it builds are opaque to the engine. The
tokenizer is a `seq<Token>` plus a cursor position. Every parse returns its
outcome, the new position and the diagnostics reported during that parse.

Outcomes are `Success(value)` and `Unmatched`, as in the source's
`parse_result`. A third outcome, `OutOfFuel`, exists only for the model's
termination measure (see "Left out").

`Steps` holds the two parse functions that the source writes as updates of
a tokenizer passed by reference. They are methods over a position variable,
each proved equal to the interpreter:

- `Steps.ParseReference`: parse the referenced production, then continue.
- `Steps.ParseLeftRecursionChoice`: the `while (true)` loop, with
  `try_parse` restoring the position.

`WellFormedness` states the source's compile-time checks as a predicate on
rule trees, and `CheckRule` lists the violations of that predicate. The
lemma modules then prove:

- choice: first match wins; peeks leave no trace; exhaustion reports
  exactly once; duplicate alternatives are dead code.
- parser chain: agrees with a direct-style reference semantics; short
  circuit on failure.
- left recursion: the base result is returned as-is when it fails; the
  loop equals the unrolled fold `B T^k`; a zero-width tail never finishes;
  progress guarantees termination.

`ExpressionExample` parses `3 + 4 - 2` and proves the result is the value
of `(3 + 4) - 2`.

An exhausted choice reports its diagnostic and then returns the ordinary
unmatched result (`return {};`, line 180); the model does the same, so
there is no third "error reported" outcome.

The engine never inspects the values it passes around: `ValueIndependence`
proves that whether a parse matches, where it stops and what it reports
do not depend on the callback or on the arguments gathered so far. In
particular a peek, which receives no callback, answers the same whatever
the callback is.

Fuel only cuts a parse off: `FuelProperties` proves that a parse which
finishes within some bound gives the same result under every larger one.

## Model

| member | source | states |
|---|---|---|
| `Interpreter.Parse` | include/foonathan/lex/detail/production_rule_production.hpp:127-143 | Parsing any rule in any continuation moves the cursor only forward, and never past the end of the tokens when it starts inside them. |
| `Interpreter.Chain` | include/foonathan/lex/detail/production_rule_production.hpp:142-143 | Running a continuation, ending in the callback of the top-level production, keeps the cursor monotone and within the tokens. |
| `Interpreter.Reference` | include/foonathan/lex/detail/production_rule_production.hpp:111-124 | The shared step of production, recurse and direct recursion keeps the cursor monotone and within the tokens. |
| `Interpreter.ParseProduction` | include/foonathan/lex/detail/production_rule_production.hpp:92-92 | A production's own parse is cursor-monotone and stays within the tokens. |
| `Interpreter.ParseChoice` | include/foonathan/lex/detail/production_rule_production.hpp:174-190 | The choice dispatch is cursor-monotone and stays within the tokens. |
| `Interpreter.TailLoop` | include/foonathan/lex/detail/production_rule_production.hpp:222-233 | The left-recursion loop is cursor-monotone and stays within the tokens. |
| `Steps.ParseReference` | include/foonathan/lex/detail/production_rule_production.hpp:118-123 | The step over a position variable equals the interpreter. Its result is the reference's direct-style run resumed into the continuation: on success the continuation gets the earlier arguments followed by the production's value, with both logs kept. When the referenced production fails, neither the continuation nor the earlier arguments have any influence on the result. The same body appears at lines 53-58 and 92-97. |
| `Steps.ParseLeftRecursionChoice` | include/foonathan/lex/detail/production_rule_production.hpp:212-234 | The loop over a position variable, with `try_parse` restoring the position on a mismatching tail, computes exactly the interpreter's left-recursion result. |
| `WellFormedness.NoDuplicates` | include/foonathan/lex/detail/production_rule_production.hpp:166-166 | True exactly when no two alternatives of the list are equal. |
| `WellFormedness.CheckRule` | include/foonathan/lex/detail/production_rule_production.hpp:69-72 | A rule tree yields no compile-time diagnostic exactly when it is well formed. Well formed means: referenced productions exist (also lines 105-106); explicit recursion never targets the enclosing production; sequences hold no choice-kind rule (lines 139-140); choices hold at least one alternative (line 195 needs a common result type) and distinct choice alternatives (line 166); a left-recursion tail, below any alternatives, is not a choice, since it must accept the previous result (lines 226-227). |
| `WellFormedness.CheckSequenceMembers` | include/foonathan/lex/detail/production_rule_production.hpp:139-140 | A sequence's members yield no diagnostic exactly when none is of choice kind and each is well formed. |
| `WellFormedness.CheckAlternatives` | include/foonathan/lex/detail/production_rule_production.hpp:182-187 | A choice's members yield no diagnostic exactly when each is a choice alternative (the only rule with a peek) and each is well formed. |
| `WellFormedness.WellFormedNonChoiceIsChainable` | include/foonathan/lex/detail/production_rule_production.hpp:139-143 | A well-formed rule not of choice kind can be continued past at every level of nesting, so the chain theorems apply to it. |
| `ChainProperties.ChainMatchesProduce` | include/foonathan/lex/detail/production_rule_production.hpp:142-143 | Chaining `rs` before a continuation equals the direct-style semantics of `rs`: on success, the continuation gets the old arguments followed by the values of `rs` in order; on failure, the first failing outcome comes back untouched. |
| `ChainProperties.ProduceAppend` | include/foonathan/lex/detail/production_rule_production.hpp:136-143 | Sequencing is associative: parsing `a + b` parses `a`, then `b` from where `a` ended, and stops as soon as `a` fails. |
| `ChainProperties.SequenceCollectsValues` | include/foonathan/lex/detail/production_rule_production.hpp:136-144 | A sequence ending a production calls the callback with every produced value, in order. If one of its rules fails, that outcome is returned and no partial result surfaces. |
| `ChainProperties.ChainShortCircuits` | include/foonathan/lex/detail/production_rule_production.hpp:118-123 | Once a rule of the chain fails, the continuation and the arguments gathered so far have no influence on the result. |
| `ChoiceProperties.ChoiceDecidedByFirstPeek` | include/foonathan/lex/detail/production_rule_production.hpp:182-190 | If alternative i is the first whose peek does not fail, the choice's result is exactly alternative i's body parsed from the choice's entry position, even when the body fails. |
| `ChoiceProperties.ChoiceIgnoresLaterAlternatives` | include/foonathan/lex/detail/production_rule_production.hpp:186-189 | Alternatives after the deciding one are never consulted: replacing them leaves the result unchanged. |
| `ChoiceProperties.ChoiceExhausted` | include/foonathan/lex/detail/production_rule_production.hpp:174-181 | When no peek matches, the result is unmatched at the entry position with exactly one exhausted-choice diagnostic naming the top-level production. |
| `ChoiceProperties.ChoiceReportsOnlyWhenExhausted` | include/foonathan/lex/detail/production_rule_production.hpp:182-190 | When some peek does not fail, there is a first deciding alternative and the result is its body's. The choice adds no diagnostic of its own. |
| `ChoiceProperties.DropFailingAlternative` | include/foonathan/lex/detail/production_rule_production.hpp:152-157 | A peek that fails leaves no trace: removing an alternative whose peek fails at the entry position does not change the choice's result. |
| `ChoiceProperties.DuplicateAlternativeIsDead` | include/foonathan/lex/detail/production_rule_production.hpp:166-166 | A repeated alternative can never be chosen: removing the later copy does not change the result, which is why duplicates are rejected. |
| `LeftRecursionProperties.LeftRecursionBaseFails` | include/foonathan/lex/detail/production_rule_production.hpp:216-220 | If the base does not match, its result is returned, and the tail, continuation and arguments play no part. |
| `LeftRecursionProperties.TailLoopUnrolls` | include/foonathan/lex/detail/production_rule_production.hpp:222-231 | After k matching tails, each fed the previous value, and one mismatching tail, the loop returns the k-th value at the k-th end position with all diagnostics kept. |
| `LeftRecursionProperties.LeftRecursionUnrolls` | include/foonathan/lex/detail/production_rule_production.hpp:212-234 | The whole rule on input `B T^k` yields the tail folded k times over the base value; k = 0 gives the base result. |
| `LeftRecursionProperties.TailBuildsOnPrevious` | include/foonathan/lex/detail/production_rule_production.hpp:225-227 | A chainable tail ending the production hands the callback the previous result first, then the tail's own values. |
| `LeftRecursionProperties.ZeroWidthTailExhaustsBudget` | include/foonathan/lex/detail/production_rule_production.hpp:223-231 | A tail that matches without consuming keeps the loop going until its bound is spent, and no value is ever returned. This is the missing progress guard. |
| `LeftRecursionProperties.ProgressingTailLoopSucceeds` | include/foonathan/lex/detail/production_rule_production.hpp:223-231 | If every finishing tail attempt consumes tokens, a bound above the remaining token count suffices for the loop to return a value. |
| `LeftRecursionProperties.ProgressingLeftRecursionSucceeds` | include/foonathan/lex/detail/production_rule_production.hpp:212-234 | A matching base plus tails that make progress, with fuel above the token count, gives a successful left-recursion parse. |
| `WellFormedness.WellFormedTailIsChainable` | include/foonathan/lex/detail/production_rule_production.hpp:225-227 | The tail of a well-formed left recursion, below its alternatives, is a rule that can be continued past, so the previous result it receives reaches the continuation. |
| `LeftRecursionProperties.TailParsesAsUnwrapped` | include/foonathan/lex/detail/production_rule_production.hpp:159-160 | A choice alternative parses as its body with the same continuation and arguments, however deeply alternatives are nested. |
| `LeftRecursionProperties.WellFormedTailBuildsOnPrevious` | include/foonathan/lex/detail/production_rule_production.hpp:225-227 | In a well-formed left recursion, the tail at the end of the production hands the callback the previous result first, then its own values. |
| `FuelProperties.ParseFuelMonotone` | include/foonathan/lex/detail/production_rule_production.hpp:127-143 | A rule's parse that finishes within a fuel bound has the same outcome, position and diagnostics under every larger bound. |
| `FuelProperties.ChainFuelMonotone` | include/foonathan/lex/detail/production_rule_production.hpp:142-143 | A finished run of a continuation is unchanged by more fuel. |
| `FuelProperties.ReferenceFuelMonotone` | include/foonathan/lex/detail/production_rule_production.hpp:118-123 | A finished reference step is unchanged by more fuel. |
| `FuelProperties.ProductionFuelMonotone` | include/foonathan/lex/detail/production_rule_production.hpp:92-92 | A finished production parse is unchanged by more fuel. |
| `FuelProperties.PeekFuelMonotone` | include/foonathan/lex/detail/production_rule_production.hpp:152-157 | A peek that finishes gives the same answer under more fuel. |
| `FuelProperties.ChoiceFuelMonotone` | include/foonathan/lex/detail/production_rule_production.hpp:174-190 | A finished choice dispatch is unchanged by more fuel. |
| `FuelProperties.TailLoopFuelMonotone` | include/foonathan/lex/detail/production_rule_production.hpp:222-233 | A finished left-recursion loop is unchanged by more fuel and a larger iteration bound. |
| `FuelProperties.FinishedParsesAgree` | include/foonathan/lex/detail/production_rule_production.hpp:92-92 | Any two bounds under which a production's parse finishes give the same result, so the bound is not part of the meaning. |
| `ValueIndependence.PeekIgnoresCallback` | include/foonathan/lex/detail/production_rule_production.hpp:152-157 | `choice_alternative::peek` gets the tokenizer by value and no callback: whichever callback the engine carries, the peek reports the same match or mismatch. Only that answer reaches the choice, since `Interpreter.Peek` returns the outcome alone, with no position or diagnostics. |
| `ValueIndependence.PeekIgnoresValues` | include/foonathan/lex/detail/production_rule_production.hpp:152-157 | Two engines with the same grammar and tokens get the same peek answer, whatever their callbacks. |
| `ValueIndependence.ParseIgnoresValues` | include/foonathan/lex/detail/production_rule_production.hpp:127-143 | Whether a rule's parse matches, where it stops and which diagnostics it reports do not depend on the callback or on the arguments passed in. |
| `ValueIndependence.ChainIgnoresValues` | include/foonathan/lex/detail/production_rule_production.hpp:142-143 | The same for a continuation, down to the final parser, whose call of the callback always succeeds. |
| `ValueIndependence.ReferenceIgnoresValues` | include/foonathan/lex/detail/production_rule_production.hpp:118-123 | The same for the reference step: the production's value is only appended, never inspected. |
| `ValueIndependence.ProductionIgnoresValues` | include/foonathan/lex/detail/production_rule_production.hpp:92-92 | The same for a production's own parse. |
| `ValueIndependence.ChoiceIgnoresValues` | include/foonathan/lex/detail/production_rule_production.hpp:174-190 | The same for the choice dispatch, whose decisions rest on peeks alone. |
| `ValueIndependence.TailLoopIgnoresValues` | include/foonathan/lex/detail/production_rule_production.hpp:222-233 | The same for the left-recursion loop: the previous result it feeds to the tail never decides whether the tail matches. |
| `ExpressionExample.EvaluatesLeftToRight` | include/foonathan/lex/detail/production_rule_production.hpp:202-234 | `expr := expr op int \| int` on `3 + 4 - 2` consumes all five tokens and evaluates to (3 + 4) - 2. |

## Left out

- Return-type deduction and callback detection (`callback_return_type`, `missing_callback_result_of`, `std::common_type_t`, lines 36-44, 74-83 and 195-196) are C++ type machinery. The callback here is a total function, so every production has one.
- `production_rule_base.hpp` is not part of this model. Only its assumed contracts are modelled:
  - `parser_for` means "parse, then run the continuation".
  - `final_parser` calls the callback and always succeeds.
  - `try_parse` restores the position on a mismatch.
  - `is_rule_parsed` runs the peek rule and only reports whether it matched. It has no access to the callback, so its diagnostics are dropped.
  - `Production::parse` and `parse_self` parse the production's rule tree alone. They differ only in return-type handling, so `Production(tlp)` and `DirectRecurse` parse identically here.
- The tokenizer and token matching are not modelled: a token stream is a sequence, and `Terminal(kind)` matches one token by kind.
- Error objects (`exhausted_choice`, `report_error`) are reduced to an entry naming the production in the diagnostic log.
- Compile-time failures that the C++ compiler turns into errors are given a harmless meaning here instead. Well-formedness rules all of them out:
  - A reference to an undefined production parses as unmatched.
  - A choice member that is not a choice alternative peeks with itself.
  - A choice without alternatives parses as an exhausted choice.
  - Arguments passed to a choice or left-recursion rule are ignored, since their parse takes none. The only place arguments could reach such a rule is a left-recursion tail, possibly below alternatives, and `TakesArguments` rejects such a tail.
- Interpreter.Parse: termination rests on a fuel bound that drops at each production entry and also caps the left-recursion iterations. Where the C++ would recurse or loop forever, the model returns `OutOfFuel` under every bound. A parse that finishes gives the same result under every larger bound (`FuelProperties.ParseFuelMonotone`).
- Steps.ParseLeftRecursionChoice: the loop is bounded by the fuel, while the source's `while (true)` has no bound and no progress guard. `ZeroWidthTailExhaustsBudget` shows what such a tail does.
- The methods in `Steps` delegate their sub-parses to the interpreter's functions. The recursive descent itself is modelled on values, not as mutually recursive methods over a shared tokenizer.
- Concurrency, I/O and the concrete semantic values are outside the core.
