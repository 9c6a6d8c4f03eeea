/** One call at both its doors: the schema its tool publishes, and the evaluation of what was sent. */
module ConstraintDoors {
  import opened Names
  import opened Constraints
  import opened ConstraintInput
  import opened ConstraintEval
  import opened ConstraintProjection
  import opened ConstraintSoundness
  import opened ConstraintRefusals

  /** The schema and the evaluation agree, as far as the rules project: exactly where every rule
      does, on what the caller sent where implications add to it, and otherwise in letting every
      legal call through where every at-least-one delivers. */
  ghost predicate Agree(cs: seq<Decl>, input: Input, keys: set<string>, schema: Keywords, refused: bool)
    requires Registered(cs) && Finishes(cs)
  {
    && (KeysMatch(cs, input, keys) && AllExact(cs) ==> (Accepts(schema, keys) <==> !refused))
    && (KeysMatch(cs, input, keys) && AllDeliver(cs) && !refused ==> Accepts(schema, keys))
    && (KeysMatch(cs, ByHand(input), keys) && AllExact(cs) ==>
      (Accepts(schema, keys) <==> AllSatisfied(cs, ByHand(input))))
  }

  /** The arguments are read from the positionals, the set is evaluated and the schema projected. */
  method JudgeCall(cs: seq<Decl>, args: seq<Arg>, positionals: Positionals,
                   store: map<string, Entry>, selectors: set<string>, elected: set<string>)
    returns (input: Input, schema: Keywords, refusal: Option<Violation>)
    requires Registered(cs) && Finishes(cs) && DistinctNames(args)
    ensures input == Input(store, input.args, selectors, elected) && Covers(args, positionals, input.args, |args|)
    ensures forall keys :: Agree(cs, input, keys, schema, refusal.Some?)
  {
    var values := NewArgInput(args, positionals);
    input := Input(store, values, selectors, elected);
    refusal := EvaluateConstraints(cs, input);
    var fidelities;
    schema, fidelities := ProjectConstraints(cs);
    forall keys ensures Agree(cs, input, keys, schema, refusal.Some?) {
      DoorsAgree(cs, input, keys);
      assert Accepts(schema, keys) <==> KeyRules(cs, |cs|, keys);
    }
  }

  lemma DoorsAgree(cs: seq<Decl>, input: Input, keys: set<string>)
    requires Registered(cs) && Finishes(cs)
    ensures KeysMatch(cs, input, keys) && AllExact(cs) ==> (KeyRules(cs, |cs|, keys) <==> AllSatisfied(cs, input))
    ensures KeysMatch(cs, input, keys) && AllDeliver(cs) && AllSatisfied(cs, input) ==> KeyRules(cs, |cs|, keys)
    ensures KeysMatch(cs, ByHand(input), keys) && AllExact(cs) ==>
      (KeyRules(cs, |cs|, keys) <==> AllSatisfied(cs, ByHand(input)))
  {
    if KeysMatch(cs, input, keys) {
      if AllExact(cs) { ExactProjection(cs, input, keys); }
      if AllDeliver(cs) && AllSatisfied(cs, input) { SoundProjection(cs, input, keys); }
    }
    if KeysMatch(cs, ByHand(input), keys) && AllExact(cs) { HandProjection(cs, input, keys); }
  }
}
