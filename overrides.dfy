/** The override registry of `scrapy_poet/overrides.py`: rules of the form
    "for URLs matching these patterns, use type `use` instead of type
    `insteadOf`", and the per-request map of type replacements they give. */
module Overrides {
  import opened Base
  import opened UrlMatching
  import Http

  /** `web_poet.overrides.OverrideRule`. */
  datatype OverrideRule = OverrideRule(forPatterns: Patterns, use: Value, insteadOf: Value)

  /** A rule as the user writes it: a tuple or list of any length, or an
      `OverrideRule` already built. */
  datatype RuleFromUser = AsTuple(items: seq<Value>) | AsRule(rule: OverrideRule)

  /** The `ValueError` raised for a tuple or list rule that does not have
      exactly three elements; its message quotes the offending rule. */
  datatype ValueError = InvalidTupleRule(items: seq<Value>)

  /** `add_rule`'s normalisation: a three-element tuple `(pattern, use,
      insteadOf)` becomes `OverrideRule(Patterns([pattern]), use, insteadOf)`,
      any other length is an error, a structured rule is kept as it is. */
  function ToOverrideRule(rule: RuleFromUser): Result<OverrideRule, ValueError>
  {
    match rule
    case AsRule(r) => Success(r)
    case AsTuple(items) =>
      if |items| != 3 then Failure(InvalidTupleRule(items))
      else Success(OverrideRule(Patterns([items[0]], []), items[1], items[2]))
  }

  /** The three-element tuple a rule with a single included pattern is written as. */
  function AsTupleOf(rule: OverrideRule): RuleFromUser
    requires |rule.forPatterns.included| == 1
  {
    AsTuple([rule.forPatterns.included[0], rule.use, rule.insteadOf])
  }

  /** A rule with one included pattern and no excluded one is the same
      whether it is given as a tuple or as an `OverrideRule`. */
  lemma TupleRuleRoundTrip(rule: OverrideRule)
    requires |rule.forPatterns.included| == 1 && rule.forPatterns.excluded == []
    ensures ToOverrideRule(AsTupleOf(rule)) == ToOverrideRule(AsRule(rule)) == Success(rule)
  {
    assert [rule.forPatterns.included[0]] == rule.forPatterns.included;
  }

  /** The rules `__init__` stores for the configured list: each element
      normalised in order; the first malformed one aborts with its error. */
  function ToOverrideRules(xs: seq<RuleFromUser>): Result<seq<OverrideRule>, ValueError>
  {
    if xs == [] then Success([])
    else match ToOverrideRules(xs[..|xs| - 1])
      case Failure(e) => Failure(e)
      case Success(rs) =>
        match ToOverrideRule(xs[|xs| - 1])
        case Failure(e) => Failure(e)
        case Success(r) => Success(rs + [r])
  }

  /** The configured list is accepted exactly when every element is well
      formed, and then it gives one rule per element, in the same order. */
  lemma {:induction false} ToOverrideRulesSuccess(xs: seq<RuleFromUser>)
    ensures ToOverrideRules(xs).Success? <==> forall i :: 0 <= i < |xs| ==> ToOverrideRule(xs[i]).Success?
    ensures ToOverrideRules(xs).Success? ==>
      |ToOverrideRules(xs).value| == |xs| &&
      forall i :: 0 <= i < |xs| ==> ToOverrideRules(xs).value[i] == ToOverrideRule(xs[i]).value
  {
    if xs != [] {
      var init := xs[..|xs| - 1];
      ToOverrideRulesSuccess(init);
      assert forall i :: 0 <= i < |init| ==> init[i] == xs[i];
    }
  }

  /** A rejected list is rejected with the error of its first malformed element. */
  lemma {:induction false} ToOverrideRulesFailure(xs: seq<RuleFromUser>)
    requires ToOverrideRules(xs).Failure?
    ensures exists k :: 0 <= k < |xs| && ToOverrideRule(xs[k]) == Failure(ToOverrideRules(xs).error) &&
                        forall j :: 0 <= j < k ==> ToOverrideRule(xs[j]).Success?
  {
    var init := xs[..|xs| - 1];
    assert forall i :: 0 <= i < |init| ==> init[i] == xs[i];
    if ToOverrideRules(init).Failure? {
      ToOverrideRulesFailure(init);
    } else {
      ToOverrideRulesSuccess(init);
      var k := |xs| - 1;
      assert ToOverrideRule(xs[k]) == Failure(ToOverrideRules(xs).error);
    }
  }

  /** Once a prefix of the list is rejected, so is the whole list, with the same error. */
  lemma {:induction false} PrefixFailureAborts(xs: seq<RuleFromUser>, n: nat)
    requires n <= |xs| && ToOverrideRules(xs[..n]).Failure?
    ensures ToOverrideRules(xs) == ToOverrideRules(xs[..n])
    decreases |xs| - n
  {
    if n < |xs| {
      assert xs[..n + 1][..n] == xs[..n];
      PrefixFailureAborts(xs, n + 1);
    } else {
      assert xs[..n] == xs;
    }
  }

  /** The `matcher` entry for type `t`, created empty when missing, as
      `defaultdict(URLMatcher)` does. */
  function MatcherFor(m: map<Value, URLMatcher>, t: Value): URLMatcher
  {
    if t in m then m[t] else EmptyMatcher()
  }

  /** Registers rule number `id` in the matcher of the type it replaces. */
  function Register(m: map<Value, URLMatcher>, id: nat, rule: OverrideRule): map<Value, URLMatcher>
    requires forall t :: t in m ==> m[t].Valid()
  {
    m[rule.insteadOf := MatcherFor(m, rule.insteadOf).AddOrUpdate(id, rule.forPatterns)]
  }

  /** `mt`, the matcher of type `t`, stores only rules of the list that
      replace `t`, each under its position and with its own patterns. */
  ghost predicate StoresRulesOf(rules: seq<OverrideRule>, t: Value, mt: URLMatcher)
  {
    && mt.Valid()
    && forall id :: id in mt.patterns ==>
         id < |rules| && rules[id].insteadOf == t && mt.patterns[id] == rules[id].forPatterns
  }

  /** `m` indexes `rules`: every matcher stores only rules that replace its
      type, and every rule is stored in the matcher of the type it replaces. */
  ghost predicate Indexes(rules: seq<OverrideRule>, m: map<Value, URLMatcher>)
  {
    && (forall t :: t in m ==> StoresRulesOf(rules, t, m[t]))
    && (forall i :: 0 <= i < |rules| ==> rules[i].insteadOf in m && i in m[rules[i].insteadOf].patterns)
  }

  /** Registering the next rule under its position keeps the index exact. */
  lemma RegisterKeepsIndex(rules: seq<OverrideRule>, m: map<Value, URLMatcher>, rule: OverrideRule)
    requires Indexes(rules, m)
    ensures Indexes(rules + [rule], Register(m, |rules|, rule))
  {
    var rules', m' := rules + [rule], Register(m, |rules|, rule);
    forall t | t in m' ensures StoresRulesOf(rules', t, m'[t]) {
      if t != rule.insteadOf {
        assert m'[t] == m[t];
      } else {
        assert m'[t].patterns == MatcherFor(m, t).patterns[|rules| := rule.forPatterns];
      }
    }
    forall i | 0 <= i < |rules'| ensures rules'[i].insteadOf in m' && i in m'[rules'[i].insteadOf].patterns {
      if i < |rules| {
        assert rules'[i] == rules[i];
      }
    }
  }

  /** The matchers that registering `rules` one after the other builds. */
  ghost function Index(rules: seq<OverrideRule>): (m: map<Value, URLMatcher>)
    ensures Indexes(rules, m)
  {
    if rules == [] then map[]
    else
      var init := rules[..|rules| - 1];
      assert init + [rules[|init|]] == rules;
      RegisterKeepsIndex(init, Index(init), rules[|init|]);
      Register(Index(init), |init|, rules[|init|])
  }

  /** Appending a rule registers it on top of the matchers of the earlier rules. */
  lemma IndexAppend(rules: seq<OverrideRule>, rule: OverrideRule)
    ensures Index(rules + [rule]) == Register(Index(rules), |rules|, rule)
  {
    assert (rules + [rule])[..|rules|] == rules;
  }

  /** The map `overrides_for` returns for `url`: each type whose matcher finds
      a rule id for the URL, mapped to that rule's `use`. */
  ghost function OverridesOf(rules: seq<OverrideRule>, url: Url, matches: MatchRelation): map<Value, Value>
  {
    var m := Index(rules);
    map t | t in m && m[t].Match(url, matches).Some? :: rules[m[t].Match(url, matches).value].use
  }

  /** A type is overridden for `url` exactly when some rule replacing it has
      patterns that match `url`; it is then replaced by the `use` of such a rule. */
  lemma OverridesOfMeaning(rules: seq<OverrideRule>, url: Url, matches: MatchRelation, t: Value)
    ensures t in OverridesOf(rules, url, matches) <==>
      exists i :: 0 <= i < |rules| && rules[i].insteadOf == t && matches(rules[i].forPatterns, url)
    ensures t in OverridesOf(rules, url, matches) ==>
      exists i :: 0 <= i < |rules| && rules[i].insteadOf == t && matches(rules[i].forPatterns, url) &&
        OverridesOf(rules, url, matches)[t] == rules[i].use
  {
    var m := Index(rules);
    if i :| 0 <= i < |rules| && rules[i].insteadOf == t && matches(rules[i].forPatterns, url) {
      assert i in m[t].patterns && matches(m[t].patterns[i], url);
    }
    if t in OverridesOf(rules, url, matches) {
      var id := m[t].Match(url, matches).value;
      assert id < |rules| && rules[id].insteadOf == t && matches(rules[id].forPatterns, url);
    }
  }

  /** Overrides are resolved per type: a new rule for one type leaves the
      override of every other type as it was. */
  lemma AddingRuleKeepsOtherTypes(rules: seq<OverrideRule>, rule: OverrideRule, url: Url, matches: MatchRelation, t: Value)
    requires t != rule.insteadOf
    ensures t in OverridesOf(rules + [rule], url, matches) <==> t in OverridesOf(rules, url, matches)
    ensures t in OverridesOf(rules, url, matches) ==>
      OverridesOf(rules + [rule], url, matches)[t] == OverridesOf(rules, url, matches)[t]
  {
    IndexAppend(rules, rule);
    var m, m' := Index(rules), Index(rules + [rule]);
    assert t in m' <==> t in m;
    if t in m {
      assert m'[t] == m[t];
      var id := m[t].Match(url, matches);
      if id.Some? {
        assert (rules + [rule])[id.value] == rules[id.value];
      }
    }
  }

  /** `OverridesRegistry`: the list of rules and, for each type that some rule
      replaces, a URL matcher from rule ids (positions in `rules`) to patterns. */
  class OverridesRegistry {
    var rules: seq<OverrideRule>
    var matcher: map<Value, URLMatcher>

    /** The matchers are the ones registering `rules` in order gives. */
    ghost predicate Valid()
      reads this
    {
      matcher == Index(rules)
    }

    /** `OverridesRegistry()`: no rules and no matchers. */
    constructor ()
      ensures Valid() && rules == [] && matcher == map[]
    {
      rules := [];
      matcher := map[];
    }

    /** `OverridesRegistry(rules)`: `add_rule` on each element of `init` in
        order (`None` stands for no rules); the `ValueError` of the first
        malformed element propagates and no registry is returned. */
    static method FromRules(init: Option<seq<RuleFromUser>>) returns (result: Result<OverridesRegistry, ValueError>)
      ensures result.Success? ==> fresh(result.value) && result.value.Valid()
      ensures var xs := if init.Some? then init.value else [];
        match ToOverrideRules(xs)
        case Success(rs) => result.Success? && result.value.rules == rs
        case Failure(e) => result == Failure(e)
    {
      var xs := if init.Some? then init.value else [];
      var registry := new OverridesRegistry();
      var i := 0;
      assert xs[..0] == [];
      while i < |xs|
        invariant 0 <= i <= |xs|
        invariant fresh(registry) && registry.Valid()
        invariant ToOverrideRules(xs[..i]) == Success(registry.rules)
      {
        var err := registry.AddRule(xs[i]);
        assert xs[..i + 1][..i] == xs[..i] && xs[..i + 1][i] == xs[i];
        if err.Some? {
          PrefixFailureAborts(xs, i + 1);
          return Failure(err.value);
        }
        i := i + 1;
      }
      assert xs[..i] == xs;
      return Success(registry);
    }

    /** `add_rule(rule)`. A tuple or list that does not have three elements
        raises `ValueError` and changes nothing. Otherwise the normalised rule
        is appended to `rules` and its position is stored, with its patterns,
        in the matcher of the type it replaces; no other matcher changes. */
    method AddRule(rule: RuleFromUser) returns (err: Option<ValueError>)
      requires Valid()
      modifies this
      ensures Valid()
      ensures err.Some? <==> rule.AsTuple? && |rule.items| != 3
      ensures err == (if ToOverrideRule(rule).Failure? then Some(ToOverrideRule(rule).error) else None)
      ensures err.Some? ==> err.value == InvalidTupleRule(rule.items) && rules == old(rules) && matcher == old(matcher)
      ensures err.None? ==> rules == old(rules) + [ToOverrideRule(rule).value]
      ensures rule.AsRule? ==> rules == old(rules) + [rule.rule]
      ensures rule.AsTuple? && |rule.items| == 3 ==>
        rules == old(rules) + [OverrideRule(Patterns([rule.items[0]], []), rule.items[1], rule.items[2])]
      ensures err.None? ==>
        var added := rules[|rules| - 1];
        && matcher.Keys == old(matcher).Keys + {added.insteadOf}
        && matcher[added.insteadOf].patterns ==
             MatcherFor(old(matcher), added.insteadOf).patterns[|rules| - 1 := added.forPatterns]
        && forall t :: t in old(matcher) && t != added.insteadOf ==> matcher[t] == old(matcher)[t]
    {
      var normalised := ToOverrideRule(rule);
      if normalised.Failure? {
        return Some(normalised.error);
      }
      var r := normalised.value;
      IndexAppend(rules, r);
      rules := rules + [r];
      matcher := Register(matcher, |rules| - 1, r);
      return None;
    }

    /** `overrides_for(request)`: for each type with a matcher, the `use` of
        the rule whose id the matcher finds for the request URL; types whose
        matcher finds nothing are absent. */
    method OverridesFor(request: Http.Request, matches: MatchRelation) returns (overrides: map<Value, Value>)
      requires Valid()
      ensures overrides == OverridesOf(rules, request.url, matches)
      ensures overrides.Keys <= matcher.Keys
      ensures forall t :: t in matcher ==> (t in overrides <==> matcher[t].Match(request.url, matches).Some?)
      ensures forall t :: t in overrides ==>
        var id := matcher[t].Match(request.url, matches).value;
        id < |rules| && rules[id].insteadOf == t && overrides[t] == rules[id].use
    {
      overrides := map[];
      var pending := matcher.Keys;
      while pending != {}
        invariant pending <= matcher.Keys
        invariant forall t :: t in overrides <==>
          t in matcher && t !in pending && matcher[t].Match(request.url, matches).Some?
        invariant forall t :: t in overrides ==>
          overrides[t] == rules[matcher[t].Match(request.url, matches).value].use
        decreases pending
      {
        var insteadOf :| insteadOf in pending;
        var ruleId := matcher[insteadOf].Match(request.url, matches);
        if ruleId.Some? {
          overrides := overrides[insteadOf := rules[ruleId.value].use];
        }
        pending := pending - {insteadOf};
      }
    }
  }

  /** The configuration of the override test: a tuple rule replacing
      `PricePO` and a structured rule replacing `EurDollarRate`, both for
      the pattern `domain`. */
  function TestOverridesConfig(domain: string): seq<RuleFromUser>
  {
    [ AsTuple([Str(domain), Class("PriceInDollarsPO"), Class("PricePO")]),
      AsRule(OverrideRule(Patterns([Str(domain)], []), Class("OtherEurDollarRate"), Class("EurDollarRate"))) ]
  }

  /** The rules the configuration of the override test gives. */
  lemma TestOverridesRules(domain: string)
    ensures ToOverrideRules(TestOverridesConfig(domain)) == Success([
      OverrideRule(Patterns([Str(domain)], []), Class("PriceInDollarsPO"), Class("PricePO")),
      OverrideRule(Patterns([Str(domain)], []), Class("OtherEurDollarRate"), Class("EurDollarRate"))])
  {
    var xs := TestOverridesConfig(domain);
    var first := xs[..1];
    assert first[..0] == [] && |first| == 1 && first[0] == xs[0];
    assert ToOverrideRules(first[..0]) == Success([]);
    var r0 := ToOverrideRule(xs[0]);
    assert r0.Success?;
    assert ToOverrideRule(first[|first| - 1]) == r0;
    assert ToOverrideRules(first) == Success([] + [r0.value]);
    assert [] + [r0.value] == [r0.value];
    assert xs[..|xs| - 1] == first;
    var r1 := ToOverrideRule(xs[1]);
    assert r1.Success? && ToOverrideRule(xs[|xs| - 1]) == r1;
    assert ToOverrideRules(xs) == Success([r0.value] + [r1.value]);
    assert [r0.value] + [r1.value] == [r0.value, r1.value];
  }

  /** For a request URL that the pattern `domain` matches, the rules keyed on
      `domain` replace both `PricePO` and `EurDollarRate`. */
  lemma OverridesApplyToMatchingDomain(domain: string, url: Url, matches: MatchRelation)
    requires matches(Patterns([Str(domain)], []), url)
    ensures ToOverrideRules(TestOverridesConfig(domain)).Success?
    ensures OverridesOf(ToOverrideRules(TestOverridesConfig(domain)).value, url, matches) ==
      map[Class("PricePO") := Class("PriceInDollarsPO"), Class("EurDollarRate") := Class("OtherEurDollarRate")]
  {
    TestOverridesRules(domain);
    var rs := ToOverrideRules(TestOverridesConfig(domain)).value;
    var o := OverridesOf(rs, url, matches);
    var expected := map[Class("PricePO") := Class("PriceInDollarsPO"), Class("EurDollarRate") := Class("OtherEurDollarRate")];
    forall t ensures t in o <==> t in expected {
      OverridesOfMeaning(rs, url, matches, t);
      if t == Class("PricePO") {
        assert rs[0].insteadOf == t && matches(rs[0].forPatterns, url);
      } else if t == Class("EurDollarRate") {
        assert rs[1].insteadOf == t && matches(rs[1].forPatterns, url);
      }
    }
    forall t | t in o ensures o[t] == expected[t] {
      OverridesOfMeaning(rs, url, matches, t);
    }
  }

  /** For a request URL that the pattern `domain` does not match, the rules
      keyed on `domain` replace nothing, so the original types are used. */
  lemma OverridesSkipOtherDomain(domain: string, url: Url, matches: MatchRelation)
    requires !matches(Patterns([Str(domain)], []), url)
    ensures ToOverrideRules(TestOverridesConfig(domain)).Success?
    ensures OverridesOf(ToOverrideRules(TestOverridesConfig(domain)).value, url, matches) == map[]
  {
    TestOverridesRules(domain);
    var rs := ToOverrideRules(TestOverridesConfig(domain)).value;
    forall t ensures t !in OverridesOf(rs, url, matches) {
      OverridesOfMeaning(rs, url, matches, t);
    }
  }

  /** The override test: the request URL matches `example.com` and not
      `other-example.com`; the first configuration replaces both types, the
      second replaces neither. */
  lemma TestOverrides(url: Url, matches: MatchRelation)
    requires matches(Patterns([Str("example.com")], []), url)
    requires !matches(Patterns([Str("other-example.com")], []), url)
    ensures ToOverrideRules(TestOverridesConfig("example.com")).Success?
    ensures ToOverrideRules(TestOverridesConfig("other-example.com")).Success?
    ensures OverridesOf(ToOverrideRules(TestOverridesConfig("example.com")).value, url, matches) ==
      map[Class("PricePO") := Class("PriceInDollarsPO"), Class("EurDollarRate") := Class("OtherEurDollarRate")]
    ensures OverridesOf(ToOverrideRules(TestOverridesConfig("other-example.com")).value, url, matches) == map[]
  {
    OverridesApplyToMatchingDomain("example.com", url, matches);
    OverridesSkipOtherDomain("other-example.com", url, matches);
  }
}
