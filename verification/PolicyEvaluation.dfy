/** Evaluating parsed rules, and holding a recorded decision against the evaluation of the
    inputs recorded with it. Parsing bytes into rules is a
    parameter: `None` is a policy that does not parse. */
module PolicyEvaluation {
  import opened Outcomes

  datatype Decided = DENY | SUSPEND | ALLOW

  datatype Rule = Rule(
    ruleId: string,
    capability: string,
    scope: string,
    principals: seq<string>,
    outcome: Decided,
    argumentsDigest: Option<string>)

  datatype Inputs = Inputs(
    scope: string,
    capability: string,
    references: seq<string>,
    argumentsDigest: Option<string>)

  datatype Triple = Triple(outcome: string, reason: string, ruleId: Option<string>)

  type Parser = string -> Option<seq<Rule>>

  const RECIPE := "sayfirst/policy-evaluation/v1"
  const RECIPE_REASONS := {"policy_allows", "policy_denies", "policy_absent", "policy_requires_review"}

  predicate Applies(r: Rule, i: Inputs) {
    && r.capability == i.capability
    && r.scope == i.scope
    && (exists p :: p in r.principals && p in i.references)
    && (r.argumentsDigest == None || r.argumentsDigest == i.argumentsDigest)
  }

  function Applying(rules: seq<Rule>, i: Inputs): seq<Rule> {
    if rules == [] then []
    else (if Applies(rules[0], i) then [rules[0]] else []) + Applying(rules[1..], i)
  }

  function FirstWith(applying: seq<Rule>, outcome: Decided): Option<Rule> {
    if applying == [] then None
    else if applying[0].outcome == outcome then Some(applying[0])
    else FirstWith(applying[1..], outcome)
  }

  function OutcomeText(d: Decided): string {
    match d case DENY => "deny" case SUSPEND => "suspend" case ALLOW => "allow"
  }

  function ReasonText(d: Decided): string {
    match d case DENY => "policy_denies" case SUSPEND => "policy_requires_review" case ALLOW => "policy_allows"
  }

  function TripleOf(r: Rule): Triple {
    Triple(OutcomeText(r.outcome), ReasonText(r.outcome), Some(r.ruleId))
  }

  const ABSENT := Triple("deny", "policy_absent", None)

  /** Strictest first over the rules that apply, in file order within one outcome. */
  function Evaluate(rules: seq<Rule>, i: Inputs): Triple {
    var applying := Applying(rules, i);
    if applying == [] then ABSENT
    else if FirstWith(applying, DENY).Some? then TripleOf(FirstWith(applying, DENY).value)
    else if FirstWith(applying, SUSPEND).Some? then TripleOf(FirstWith(applying, SUSPEND).value)
    else
      NeverNothing(applying);
      TripleOf(FirstWith(applying, ALLOW).value)
  }

  /** An applying rule that neither denies nor suspends allows: the evaluation never falls through. */
  lemma NeverNothing(applying: seq<Rule>)
    requires applying != [] && FirstWith(applying, DENY) == None && FirstWith(applying, SUSPEND) == None
    ensures FirstWith(applying, ALLOW).Some?
  {
    FirstIsFirst(applying, DENY);
    FirstIsFirst(applying, SUSPEND);
    FirstIsFirst(applying, ALLOW);
    assert applying[0] in applying;
  }

  lemma {:induction false} FirstIsFirst(applying: seq<Rule>, outcome: Decided)
    ensures match FirstWith(applying, outcome)
      case None => forall r :: r in applying ==> r.outcome != outcome
      case Some(r) => r in applying && r.outcome == outcome
  {
    if applying != [] && applying[0].outcome != outcome {
      FirstIsFirst(applying[1..], outcome);
    }
  }

  lemma {:induction false} ApplyingIsExact(rules: seq<Rule>, i: Inputs)
    ensures forall r :: r in Applying(rules, i) <==> r in rules && Applies(r, i)
  {
    if rules != [] {
      ApplyingIsExact(rules[1..], i);
      assert rules == [rules[0]] + rules[1..];
    }
  }

  // -- strictest wins ------------------------------------------------------------------

  ghost predicate SomeApplies(rules: seq<Rule>, i: Inputs, d: Decided) {
    exists r :: r in rules && Applies(r, i) && r.outcome == d
  }

  ghost predicate AnyApplies(rules: seq<Rule>, i: Inputs) {
    exists r :: r in rules && Applies(r, i)
  }

  /** The outcome and the reason, said without any order: a denial if some applying rule
      denies, or if none applies; else a suspension if some suspends; else an allow. */
  ghost function Strictest(rules: seq<Rule>, i: Inputs): (string, string) {
    if !AnyApplies(rules, i) then ("deny", "policy_absent")
    else if SomeApplies(rules, i, DENY) then ("deny", "policy_denies")
    else if SomeApplies(rules, i, SUSPEND) then ("suspend", "policy_requires_review")
    else ("allow", "policy_allows")
  }

  lemma StrictestWins(rules: seq<Rule>, i: Inputs)
    ensures (Evaluate(rules, i).outcome, Evaluate(rules, i).reason) == Strictest(rules, i)
  {
    var applying := Applying(rules, i);
    ApplyingIsExact(rules, i);
    FirstIsFirst(applying, DENY);
    FirstIsFirst(applying, SUSPEND);
    FirstIsFirst(applying, ALLOW);
    if applying != [] {
      assert applying[0] in applying;
    }
    if AnyApplies(rules, i) {
      var r :| r in rules && Applies(r, i);
      assert r in applying;
    }
  }

  ghost predicate SameReferences(i: Inputs, j: Inputs) {
    && i.scope == j.scope && i.capability == j.capability && i.argumentsDigest == j.argumentsDigest
    && forall p :: p in i.references <==> p in j.references
  }

  /** Neither the order nor the repetition of rules, or of references, moves the outcome or
      the reason. */
  lemma OrderAndRepetitionDoNotMatter(rules: seq<Rule>, others: seq<Rule>, i: Inputs, j: Inputs)
    requires SameReferences(i, j)
    requires forall r :: r in rules <==> r in others
    ensures Evaluate(rules, i).outcome == Evaluate(others, j).outcome
    ensures Evaluate(rules, i).reason == Evaluate(others, j).reason
  {
    StrictestWins(rules, i);
    StrictestWins(others, j);
    assert forall r :: Applies(r, i) <==> Applies(r, j);
    assert forall d :: SomeApplies(rules, i, d) <==> SomeApplies(others, j, d);
    assert AnyApplies(rules, i) <==> AnyApplies(others, j);
  }

  function Strictness(outcome: string): nat {
    if outcome == "deny" then 2 else if outcome == "suspend" then 1 else 0
  }

  /** Once some rule applies, no further rule can loosen the outcome. When none does, the
      default denial is loosened exactly by applying rules none of which denies. */
  lemma AddingRulesNeverLoosensADecision(rules: seq<Rule>, more: seq<Rule>, i: Inputs)
    requires forall r :: r in rules ==> r in more
    ensures Strictness(Evaluate(more, i).outcome) < Strictness(Evaluate(rules, i).outcome)
      <==> !AnyApplies(rules, i) && AnyApplies(more, i) && !SomeApplies(more, i, DENY)
  {
    StrictestWins(rules, i);
    StrictestWins(more, i);
  }

  /** Where in the file the first applying rule of one outcome stands, or the file's end. */
  function Place(rules: seq<Rule>, i: Inputs, d: Decided): (n: nat)
    ensures n <= |rules|
    ensures n < |rules| ==> Applies(rules[n], i) && rules[n].outcome == d
    ensures forall m :: 0 <= m < n ==> !(Applies(rules[m], i) && rules[m].outcome == d)
  {
    if rules == [] || (Applies(rules[0], i) && rules[0].outcome == d) then 0 else 1 + Place(rules[1..], i, d)
  }

  lemma {:induction false} FirstIsInPlace(rules: seq<Rule>, i: Inputs, d: Decided)
    ensures var n := Place(rules, i, d);
      FirstWith(Applying(rules, i), d) == if n < |rules| then Some(rules[n]) else None
  {
    if rules != [] {
      FirstIsInPlace(rules[1..], i, d);
      if Applies(rules[0], i) {
        assert Applying(rules, i)[1..] == Applying(rules[1..], i);
      } else {
        assert Applying(rules, i) == Applying(rules[1..], i);
      }
    }
  }

  /** The rule named is the first applying rule, in file order, of the outcome given. */
  lemma NamedRuleIsFirstInFileOrder(rules: seq<Rule>, i: Inputs)
    requires AnyApplies(rules, i)
    ensures exists d :: (
      && OutcomeText(d) == Evaluate(rules, i).outcome
      && Place(rules, i, d) < |rules|
      && Evaluate(rules, i) == TripleOf(rules[Place(rules, i, d)]))
  {
    var applying := Applying(rules, i);
    ApplyingIsExact(rules, i);
    var r :| r in rules && Applies(r, i);
    assert r in applying;
    FirstIsInPlace(rules, i, DENY);
    FirstIsInPlace(rules, i, SUSPEND);
    FirstIsInPlace(rules, i, ALLOW);
    if FirstWith(applying, DENY) == None && FirstWith(applying, SUSPEND) == None {
      NeverNothing(applying);
      assert OutcomeText(ALLOW) == Evaluate(rules, i).outcome;
    } else if FirstWith(applying, DENY) == None {
      assert OutcomeText(SUSPEND) == Evaluate(rules, i).outcome;
    } else {
      assert OutcomeText(DENY) == Evaluate(rules, i).outcome;
    }
  }

  // -- a recorded decision against its own inputs -----------------------------------------

  datatype Rederivation = Confirmed | Differs | Unverifiable

  datatype Cause = NoCause | MembersAbsent | RecipeUnsupported | ReasonOutsideRecipe | PolicyUnparseable
                 | EntryUntrusted | PolicyAbsent | PolicyDamaged | PolicyStateUnknown

  /** The recorded inputs and answer; `None` is a member a historical entry did not record. */
  datatype RecordedDecision = RecordedDecision(
    scope: string,
    capability: string,
    references: Option<seq<string>>,
    argumentsDigest: Option<string>,
    answer: Triple,
    recipe: Option<string>)

  datatype Rederived = Rederived(verdict: Rederivation, cause: Cause)

  function InputsOf(d: RecordedDecision): Inputs
    requires d.references.Some?
  {
    Inputs(d.scope, d.capability, d.references.value, d.argumentsDigest)
  }

  function Rederive(d: RecordedDecision, policy: string, parse: Parser): Rederived {
    if d.recipe == None || d.references == None then Rederived(Unverifiable, MembersAbsent)
    else if d.recipe.value != RECIPE then Rederived(Unverifiable, RecipeUnsupported)
    else if d.answer.reason !in RECIPE_REASONS then Rederived(Unverifiable, ReasonOutsideRecipe)
    else match parse(policy)
      case None => Rederived(Unverifiable, PolicyUnparseable)
      case Some(rules) =>
        if Evaluate(rules, InputsOf(d)) == d.answer then Rederived(Confirmed, NoCause)
        else Rederived(Differs, NoCause)
  }

  /** The record names this recipe, carries its inputs, and its answer is what they yield. */
  ghost predicate AnswersItsInputs(d: RecordedDecision, policy: string, parse: Parser) {
    && d.recipe == Some(RECIPE)
    && d.references.Some?
    && parse(policy).Some?
    && d.answer == Evaluate(parse(policy).value, InputsOf(d))
  }

  /** The record names this recipe, carries its inputs and a reason of the recipe's own four. */
  predicate InScope(d: RecordedDecision) {
    && d.recipe == Some(RECIPE) && d.references.Some?
    && (d.answer.reason == "policy_allows" || d.answer.reason == "policy_denies"
        || d.answer.reason == "policy_absent" || d.answer.reason == "policy_requires_review")
  }

  /** Its own policy bytes evaluate its own inputs to another answer. */
  ghost predicate AnswersOtherwise(d: RecordedDecision, policy: string, parse: Parser) {
    InScope(d) && parse(policy).Some? && d.answer != Evaluate(parse(policy).value, InputsOf(d))
  }

  /** `confirmed` says exactly that, and nothing about anything else: an evaluated answer
      always carries a reason of the recipe's own, so no true answer is out of its scope. */
  lemma ConfirmedIsExact(d: RecordedDecision, policy: string, parse: Parser)
    ensures Rederive(d, policy, parse).verdict == Confirmed <==> AnswersItsInputs(d, policy, parse)
  {
    if parse(policy).Some? && d.references.Some? {
      ReasonsAreTheRecipes(parse(policy).value, InputsOf(d));
    }
  }

  lemma ReasonsAreTheRecipes(rules: seq<Rule>, i: Inputs)
    ensures Evaluate(rules, i).reason in RECIPE_REASONS
  {
    StrictestWins(rules, i);
  }

  /** `differs` says exactly that a record in the recipe's scope is not what its bytes evaluate to;
      and for the rest, each cause of not knowing is the first of these to hold. */
  lemma DiffersIsExact(d: RecordedDecision, policy: string, parse: Parser)
    ensures var r := Rederive(d, policy, parse);
      && (r.verdict == Differs <==> AnswersOtherwise(d, policy, parse))
      && (r.verdict == Unverifiable <==> !InScope(d) || parse(policy) == None)
      && (r.cause == MembersAbsent <==> d.recipe == None || d.references == None)
      && (r.cause == RecipeUnsupported <==> d.recipe.Some? && d.references.Some? && d.recipe != Some(RECIPE))
      && (r.cause == ReasonOutsideRecipe <==> d.recipe == Some(RECIPE) && d.references.Some? && !InScope(d))
      && (r.cause == PolicyUnparseable <==> InScope(d) && parse(policy) == None)
      && (r.verdict != Unverifiable ==> r.cause == NoCause)
  {
    if parse(policy).Some? && d.references.Some? {
      ReasonsAreTheRecipes(parse(policy).value, InputsOf(d));
    }
  }

  // -- which rules decide ----------------------------------------------------------------------

  /** A rule written for something else: another scope or capability, principals the question does
      not read, or other arguments. */
  predicate ForOthers(r: Rule, i: Inputs) {
    || r.scope != i.scope || r.capability != i.capability
    || (r.argumentsDigest.Some? && r.argumentsDigest != i.argumentsDigest)
    || forall p :: p in r.principals ==> p !in i.references
  }

  /** Such rules never count, and every other rule does: with none of them the answer is the default
      denial; one that denies is enough to deny; and without one that suspends or denies, it allows. */
  lemma OnlyItsOwnRulesDecide(rules: seq<Rule>, i: Inputs)
    ensures (forall r :: r in rules ==> ForOthers(r, i)) <==> Evaluate(rules, i) == ABSENT
    ensures (exists r :: r in rules && !ForOthers(r, i) && r.outcome == DENY) <==> Evaluate(rules, i).reason == "policy_denies"
    ensures Evaluate(rules, i).outcome == "allow" <==>
      (exists r :: r in rules && !ForOthers(r, i)) && forall r :: r in rules && !ForOthers(r, i) ==> r.outcome == ALLOW
  {
    StrictestWins(rules, i);
    AppliesUnlessForOthers(rules, i);
  }

  lemma AppliesUnlessForOthers(rules: seq<Rule>, i: Inputs)
    ensures forall r: Rule :: Applies(r, i) <==> !ForOthers(r, i)
    ensures !AnyApplies(rules, i) ==> Evaluate(rules, i) == ABSENT
  {
    ApplyingIsExact(rules, i);
    if Applying(rules, i) != [] { assert Applying(rules, i)[0] in Applying(rules, i); }
  }
}
