# scrapy-poet: override registry and injection middleware, in Dafny

This project models two pieces of scrapy-poet, and proves properties about them.

The first piece is the **override registry** (`OverridesRegistry`). It holds an append-only list of override rules. Each rule says: "for URLs matching these patterns, use page object type `use` instead of type `instead_of`". For every replaced type, the registry also keeps a URL matcher from rule ids (positions in the list) to pattern sets. For a request, it returns the map from type to replacement type.

The second piece is what the **injection middleware** (`InjectionMiddleware`) decides at request time:
- whether a download can be skipped and a `DummyResponse` used in its place;
- how the injected dependencies are merged into the callback's keyword arguments, with the user's own arguments taking precedence.

Modules, leaf first:
- `Base` (base.dfy): `Value`, a Python object as it appears in configuration or callback arguments (a string, a class or an object). Also `Option` and `Result`.
- `UrlMatching` (url_matching.dfy): the interface of the external `url_matcher` library. It has `Patterns` and `URLMatcher` with `AddOrUpdate` and `Match`. Whether a pattern set matches a URL is the relation `matches`, which callers pass in. Nothing is assumed about it.
- `Http` (http.dfy): a Scrapy `Request`, which is a class because the middleware fills its `cbKwargs` in place, and `Response`, either downloaded or a `DummyResponse`.
- `Overrides` (overrides.dfy): rule normalisation, the index invariant, the `OverridesRegistry` class and the override scenario from the test suite.
- `Middleware` (middleware.dfy): the injector as an oracle, `ProcessRequest`, `ProcessResponse` and the argument merge.

The registry's invariant, `OverridesRegistry.Valid()`, says the matchers are exactly those that registering `rules` in order builds (`Index(rules)`). `Index` guarantees `Indexes(rules, matcher)`:
- every id stored in `matcher[T]` is a valid position in `rules`;
- the rule at that position replaces `T`, and its patterns are the ones stored;
- every rule is stored in the matcher of the type it replaces.

The contracts are stated in terms of a few functions of the model:
- `ToOverrideRule` is the normalisation `add_rule` applies to one rule (scrapy_poet/overrides.py:101-111).
- `ToOverrideRules` is what the `__init__` loop makes of the configured list (scrapy_poet/overrides.py:96-97).
- `MatcherFor` and `Register` are the `defaultdict` lookup and the `add_or_update` call (scrapy_poet/overrides.py:113-115).
- `OverridesOf` is the map `overrides_for` returns (scrapy_poet/overrides.py:117-123).

Two points about the source:
- `add_rule` raises `ValueError` (here `InvalidTupleRule`) for a tuple or list rule that does not have exactly three elements. That is its only check (scrapy_poet/overrides.py:101-107).
- The ranking among several matching pattern sets belongs to `url_matcher`. `URLMatcher.Match` promises only "some stored id whose patterns match, or `None` exactly when none match". Its body returns, among the matching ids, the one first added most recently: an id stored again keeps its original place. No other member depends on which matching id it returns.

## Model

| member | source | states |
|---|---|---|
| `UrlMatching.URLMatcher.AddOrUpdate` | scrapy_poet/overrides.py:113-115 | The id is stored with the given patterns, replacing any earlier entry. Every other id keeps its entry, and the matcher stays well formed. |
| `UrlMatching.URLMatcher.Match` | scrapy_poet/overrides.py:120-121 | A returned id is stored and its patterns match the URL. `None` is returned exactly when no stored pattern set matches. |
| `UrlMatching.EmptyMatcher` | scrapy_poet/overrides.py:95 | The matcher that `defaultdict(URLMatcher)` creates for a new type stores nothing. |
| `Overrides.TupleRuleRoundTrip` | scrapy_poet/overrides.py:108-111 | The 3-tuple `(pattern, use, instead_of)` normalises to `OverrideRule(Patterns([pattern]), use, instead_of)`. That is the same rule the structured form gives. |
| `Overrides.ToOverrideRulesSuccess` | scrapy_poet/overrides.py:96-97 | A configured list is accepted exactly when every element is well formed. It then gives one rule per element, in order. |
| `Overrides.ToOverrideRulesFailure` | scrapy_poet/overrides.py:96-97 | A rejected list fails with the `ValueError` of its first malformed element, and every earlier element is well formed. |
| `Overrides.PrefixFailureAborts` | scrapy_poet/overrides.py:96-97 | Once a prefix of the list raises, the whole construction raises the same error. |
| `Overrides.RegisterKeepsIndex` | scrapy_poet/overrides.py:112-115 | Appending a rule and registering its index under its `instead_of` keeps the index invariant. |
| `Overrides.Index` | scrapy_poet/overrides.py:112-115 | The matchers built from a rule list satisfy `Indexes`: each stored id is a valid position whose rule replaces that matcher's type, and each rule is stored under its own type. |
| `Overrides.OverridesOfMeaning` | scrapy_poet/overrides.py:117-123 | A type is in the overrides for a URL exactly when some rule replacing it matches the URL. Its replacement is then the `use` of such a rule. |
| `Overrides.AddingRuleKeepsOtherTypes` | scrapy_poet/overrides.py:113-115 | A new rule for type `T` leaves both the presence and the replacement of every other type's override unchanged. |
| `Overrides.OverridesRegistry.constructor` | scrapy_poet/overrides.py:93-95 | A registry built with no rules has no rules and no matchers. |
| `Overrides.OverridesRegistry.FromRules` | scrapy_poet/overrides.py:93-97 | Constructing with `None`, or with a list of rules, equals calling `add_rule` on each element in order. The result is a valid registry holding exactly the normalised list. If an element is malformed, its `ValueError` is returned and there is no registry. |
| `Overrides.OverridesRegistry.AddRule` | scrapy_poet/overrides.py:100-115 | A tuple or list whose length is not 3 raises `ValueError`, and `rules` and `matcher` stay as they were. Otherwise exactly one rule is appended: the 3-tuple's `OverrideRule`, or the given rule. Its position is stored with its patterns in the matcher of its `instead_of`, and every other matcher stays the same. The invariant is kept. |
| `Overrides.OverridesRegistry.OverridesFor` | scrapy_poet/overrides.py:117-123 | The result's keys are a subset of the matcher keys. A type is a key exactly when its matcher returns an id for the request URL, and then it maps to `rules[id].use`, where that rule replaces the type. |
| `Overrides.TestOverridesRules` | tests/test_injection.py:312-316 | The test configuration, one tuple rule and one structured rule, normalises to two rules with the same patterns. |
| `Overrides.OverridesApplyToMatchingDomain` | tests/test_injection.py:309-316 | If the URL matches the configured domain, `PricePO` is replaced by `PriceInDollarsPO` and `EurDollarRate` by `OtherEurDollarRate`. No other type is replaced. |
| `Overrides.OverridesSkipOtherDomain` | tests/test_injection.py:309-316 | If the URL does not match the configured domain, nothing is overridden, so the original types are used. |
| `Overrides.TestOverrides` | tests/test_injection.py:306-337 | For a URL that `example.com` matches and `other-example.com` does not, the first configuration overrides both types and the second overrides none. |
| `Middleware.MergeCallbackArguments` | scrapy_poet/middleware.py:88-90 | The merged arguments have the user's keys plus the injected keys. User arguments keep their values, and injected ones fill only the keys the user did not set. |
| `Middleware.MergeIsIdempotent` | scrapy_poet/middleware.py:98-101 | Merging the same injected arguments a second time changes nothing. |
| `Middleware.InjectionMiddleware.ProcessRequest` | scrapy_poet/middleware.py:71-75 | Returns `None` exactly when the injector says the response is required. Otherwise it returns a `DummyResponse` whose URL is the request's and whose request is the original request. |
| `Middleware.InjectionMiddleware.ProcessResponse` | scrapy_poet/middleware.py:93-104 | The response returned is the one given. `cbKwargs` ends up as the merge of its old value with the injected arguments: the old keys plus the injected keys, with old values kept. |

## Left out

- URL-matching semantics of `url_matcher` (how include/exclude patterns and domains match a URL, specificity ordering, `get_domain`): that library is not part of this model. Pattern matching is the parameter `matches`, and `Match` is specified only by "some matching id, or none exactly when none match".
- `Patterns` keeps only its included and excluded patterns. The priority that `url_matcher.Patterns` carries is not modelled.
- `OverridesRegistry.__init__` is modelled as the static method `FromRules` and an empty constructor, because a Dafny constructor cannot raise. The first `ValueError` is returned as `Failure`.
- Rules that are neither a tuple/list nor an `OverrideRule` are not modelled. The source's type hints exclude them.
- The injector itself is an oracle of two functions: `isScrapyResponseRequired` and `buildCallbackDependencies`. This covers planning, providers, priorities, overrides applied to nested dependencies and the cache layer. The `inlineCallbacks` deferred plumbing is left out, and the built arguments arrive as an already-computed map. `scrapy_poet/injection.py` is not part of this model.
- The unused `spider` parameters, `from_crawler`, settings and object loading, signal wiring, `spider_closed`, `OverridesRegistry.from_crawler` and logging are framework glue. None of them affects the modelled results.
- The iteration order of Python dictionaries is not modelled. The loops in `overrides_for` and `process_response` visit keys in an unspecified order, and each result is proved the same for every order.
- The utility modules, the example spider, the test page-object library (sockets) and the floating-point price arithmetic of the test page objects are outside the modelled core.
