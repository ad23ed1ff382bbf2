/** The part of the external `url_matcher` library that the override registry
    uses: a pattern set and a matcher that indexes ids against pattern sets.
    Which URLs a pattern set matches is not defined here: it is the relation
    `matches` that every query takes as a parameter. */
module UrlMatching {
  import opened Base

  /** `url_matcher.Patterns`: URLs that match one of `included` and none of
      `excluded` match the set (the relation is supplied by the caller). */
  datatype Patterns = Patterns(included: seq<Value>, excluded: seq<Value>)

  /** Whether a pattern set matches a URL. */
  type MatchRelation = (Patterns, Url) -> bool

  /** `url_matcher.URLMatcher`: `patterns` maps each id to its pattern set;
      `order` lists the ids in the order they were first added. */
  datatype URLMatcher = URLMatcher(order: seq<nat>, patterns: map<nat, Patterns>) {

    /** Every stored id is listed in `order`. */
    ghost predicate Valid() {
      forall id :: id in patterns ==> id in order
    }

    /** `add_or_update(id, patterns)`: stores `p` under `id`, replacing what
        was stored there before. */
    function AddOrUpdate(id: nat, p: Patterns): (r: URLMatcher)
      requires Valid()
      ensures r.Valid()
      ensures r.patterns == patterns[id := p]
    {
      if id in patterns then URLMatcher(order, patterns[id := p])
      else URLMatcher(order + [id], patterns[id := p])
    }

    /** `match(url)`: an id whose pattern set matches `url`, or `None` exactly
        when no stored pattern set matches it. This model answers with the
        matching id whose first addition is the most recent (an id stored
        again keeps its place in `order`); nothing else in the model relies
        on which matching id is returned. */
    function Match(url: Url, matches: MatchRelation): (r: Option<nat>)
      requires Valid()
      ensures r.Some? ==> r.value in patterns && matches(patterns[r.value], url)
      ensures r.None? <==> forall id :: id in patterns ==> !matches(patterns[id], url)
    {
      var r := MatchAmong(|order|, url, matches);
      assert r.None? ==> forall id :: id in patterns ==> !matches(patterns[id], url) by {
        if r.None? {
          forall id | id in patterns ensures !matches(patterns[id], url) {
            var k :| 0 <= k < |order| && order[k] == id;
          }
        }
      }
      r
    }

    /** The last of the first `n` ids of `order` that is stored and matches `url`. */
    function MatchAmong(n: nat, url: Url, matches: MatchRelation): (r: Option<nat>)
      requires n <= |order|
      ensures r.Some? ==> r.value in patterns && matches(patterns[r.value], url)
      ensures r.None? <==> forall k :: 0 <= k < n ==> order[k] !in patterns || !matches(patterns[order[k]], url)
      decreases n
    {
      if n == 0 then None
      else if order[n - 1] in patterns && matches(patterns[order[n - 1]], url) then Some(order[n - 1])
      else MatchAmong(n - 1, url, matches)
    }
  }

  /** The matcher that `defaultdict(URLMatcher)` creates for a missing key. */
  function EmptyMatcher(): (r: URLMatcher)
    ensures r.Valid() && r.patterns == map[]
  {
    URLMatcher([], map[])
  }
}
