/**
 * The counting and grouping rules of the inspector's page audits
 * (`AuditRules.js`): resources grouped by host, the "combine external
 * resources" count, the cacheable/non-cacheable split, the cookie-size
 * statistics and the static-cookieless accumulation. `asParsedURL`, the
 * header checks behind `_isExplicitlyNonCacheable` and the cookie matching
 * functions of `WebInspector.Cookies` are not part of this model and are
 * parameters. JavaScript objects used as dictionaries are maps together with
 * the order in which their keys were added. `for ... in` is taken to visit
 * them in that order; JavaScript visits integer-like keys first, in numeric
 * order, which is not modelled.
 */
module AuditRules {
  import opened JsRuntime
  import ResourceUtils

  /** The fields of a network resource the audits read (`statusCode` is `None` when undefined). */
  datatype Resource = Resource(url: string, resourceType: int, statusCode: Option<int>, domain: string)

  /** What `getDomainToResourcesMap` files: the resource itself, or only its url. */
  datatype Entry = FullResource(resource: Resource) | UrlOnly(url: string)

  predicate Distinct(keys: seq<string>)
  {
    forall i, j :: 0 <= i < j < |keys| ==> keys[i] != keys[j]
  }

  lemma DistinctSnoc(keys: seq<string>, x: string)
    requires Distinct(keys) && x !in keys
    ensures Distinct(keys + [x])
  {
  }

  /** A dictionary from host to the entries filed under it, with its keys in insertion order. */
  datatype DomainMap = DomainMap(order: seq<string>, groups: map<string, seq<Entry>>)
  {
    predicate Valid()
    {
      Distinct(order) && (forall d :: d in groups ==> d in order) && (forall d :: d in order ==> d in groups)
    }
  }

  /** The host a resource is filed under: none when its type is not asked for or its url does not parse. */
  function Host(parse: string -> Option<ResourceUtils.ParsedURL>, types: Option<seq<int>>, r: Resource): Option<string>
  {
    if types.Some? && r.resourceType !in types.value then None
    else match parse(r.url)
      case None => None
      case Some(u) => Some(u.host)
  }

  function EntryOf(full: bool, r: Resource): Entry
  {
    if full then FullResource(r) else UrlOnly(r.url)
  }

  /** `domainResources.push(...)`, creating the list under a new key first. */
  function Add(m: DomainMap, d: string, e: Entry): (r: DomainMap)
    requires m.Valid()
    ensures r.Valid() && d in r.order
    ensures forall x :: x in m.order ==> x in r.order
  {
    if d in m.groups then m.(groups := m.groups[d := m.groups[d] + [e]])
    else DomainMap(m.order + [d], m.groups[d := [e]])
  }

  /** The dictionary `getDomainToResourcesMap` builds, one resource at a time. */
  function Grouped(parse: string -> Option<ResourceUtils.ParsedURL>, types: Option<seq<int>>, full: bool, rs: seq<Resource>): (m: DomainMap)
    ensures m.Valid()
  {
    if rs == [] then DomainMap([], map[])
    else
      var m := Grouped(parse, types, full, rs[..|rs| - 1]);
      match Host(parse, types, rs[|rs| - 1])
      case None => m
      case Some(d) => Add(m, d, EntryOf(full, rs[|rs| - 1]))
  }

  /** `getDomainToResourcesMap` (`types` is `None` for null). */
  method GetDomainToResourcesMap(parse: string -> Option<ResourceUtils.ParsedURL>, types: Option<seq<int>>, needFullResources: bool,
                                 resources: seq<Resource>) returns (m: DomainMap)
    ensures m == Grouped(parse, types, needFullResources, resources)
  {
    m := DomainMap([], map[]);
    for i := 0 to |resources|
      invariant m == Grouped(parse, types, needFullResources, resources[..i])
    {
      assert resources[..i + 1][..i] == resources[..i];
      var resource := resources[i];
      if types.Some? && resource.resourceType !in types.value {
        continue;
      }
      var parsedURL := parse(resource.url);
      if parsedURL.None? {
        continue;
      }
      var domain := parsedURL.value.host;
      assert Host(parse, types, resources[..i + 1][i]) == Some(domain);
      m := Push(m, domain, if needFullResources then FullResource(resource) else UrlOnly(resource.url));
    }
    assert resources[..|resources|] == resources;
  }

  /** One push onto the list under `domain`, created empty when the key is new. */
  method Push(m: DomainMap, domain: string, entry: Entry) returns (r: DomainMap)
    requires m.Valid()
    ensures r == Add(m, domain, entry)
  {
    r := m;
    if domain !in r.groups {
      r := DomainMap(r.order + [domain], r.groups[domain := []]);
    }
    var list := r.groups[domain] + [entry];
    assert list == if domain in m.groups then m.groups[domain] + [entry] else [entry];
    r := DomainMap(r.order, r.groups[domain := list]);
    assert r.groups == m.groups[domain := list];
  }

  /** The entries of the resources with host `d`, in input order. */
  function EntriesFor(parse: string -> Option<ResourceUtils.ParsedURL>, types: Option<seq<int>>, full: bool, rs: seq<Resource>, d: string): seq<Entry>
  {
    if rs == [] then []
    else EntriesFor(parse, types, full, rs[..|rs| - 1], d) +
         (if Host(parse, types, rs[|rs| - 1]) == Some(d) then [EntryOf(full, rs[|rs| - 1])] else [])
  }

  /**
   * A host is a key exactly when some kept resource has it, and its list is
   * the kept resources with that host, each once, in input order.
   */
  lemma {:induction false} GroupedMeans(parse: string -> Option<ResourceUtils.ParsedURL>, types: Option<seq<int>>, full: bool, rs: seq<Resource>)
    ensures var m := Grouped(parse, types, full, rs);
            forall d :: (d in m.groups <==> EntriesFor(parse, types, full, rs, d) != []) &&
                        (d in m.groups ==> m.groups[d] == EntriesFor(parse, types, full, rs, d))
  {
    if rs != [] {
      var front, last := rs[..|rs| - 1], rs[|rs| - 1];
      GroupedMeans(parse, types, full, front);
      forall d
        ensures var m := Grouped(parse, types, full, rs);
                (d in m.groups <==> EntriesFor(parse, types, full, rs, d) != []) &&
                (d in m.groups ==> m.groups[d] == EntriesFor(parse, types, full, rs, d))
      {
        GroupedStep(parse, types, full, rs, d);
      }
    }
  }

  /** How the last resource changes one host's list: appended when it has that host, untouched otherwise. */
  lemma GroupedStep(parse: string -> Option<ResourceUtils.ParsedURL>, types: Option<seq<int>>, full: bool, rs: seq<Resource>, d: string)
    requires rs != []
    ensures var m0, m := Grouped(parse, types, full, rs[..|rs| - 1]), Grouped(parse, types, full, rs);
            var added := Host(parse, types, rs[|rs| - 1]) == Some(d);
            (d in m.groups <==> d in m0.groups || added) &&
            (d in m.groups ==> m.groups[d] == (if d in m0.groups then m0.groups[d] else []) + (if added then [EntryOf(full, rs[|rs| - 1])] else [])) &&
            EntriesFor(parse, types, full, rs, d) ==
              EntriesFor(parse, types, full, rs[..|rs| - 1], d) + (if added then [EntryOf(full, rs[|rs| - 1])] else [])
  {
    var m0 := Grouped(parse, types, full, rs[..|rs| - 1]);
    match Host(parse, types, rs[|rs| - 1])
    case None =>
    case Some(h) =>
      if h in m0.groups {
        assert Grouped(parse, types, full, rs).groups == m0.groups[h := m0.groups[h] + [EntryOf(full, rs[|rs| - 1])]];
      } else {
        assert Grouped(parse, types, full, rs).groups == m0.groups[h := [EntryOf(full, rs[|rs| - 1])]];
      }
  }

  /** The number of resources kept. */
  function Kept(parse: string -> Option<ResourceUtils.ParsedURL>, types: Option<seq<int>>, rs: seq<Resource>): nat
  {
    if rs == [] then 0 else Kept(parse, types, rs[..|rs| - 1]) + (if Host(parse, types, rs[|rs| - 1]).Some? then 1 else 0)
  }

  /** The list lengths summed over the keys `keys`. */
  function CountOver(keys: seq<string>, parse: string -> Option<ResourceUtils.ParsedURL>, types: Option<seq<int>>, full: bool, rs: seq<Resource>): int
  {
    if keys == [] then 0
    else CountOver(keys[..|keys| - 1], parse, types, full, rs) + |EntriesFor(parse, types, full, rs, keys[|keys| - 1])|
  }

  lemma {:induction false} CountOverSnoc(keys: seq<string>, parse: string -> Option<ResourceUtils.ParsedURL>, types: Option<seq<int>>, full: bool, rs: seq<Resource>, r: Resource)
    requires Distinct(keys)
    ensures CountOver(keys, parse, types, full, rs + [r]) ==
            CountOver(keys, parse, types, full, rs) + (if Host(parse, types, r).Some? && Host(parse, types, r).value in keys then 1 else 0)
  {
    assert (rs + [r])[..|rs|] == rs;
    if keys != [] {
      var init := keys[..|keys| - 1];
      assert Distinct(init);
      CountOverSnoc(init, parse, types, full, rs, r);
      assert keys == init + [keys[|keys| - 1]];
    }
  }

  /** Every kept resource is counted under exactly one host. */
  lemma {:induction false} CountOverAll(keys: seq<string>, parse: string -> Option<ResourceUtils.ParsedURL>, types: Option<seq<int>>, full: bool, rs: seq<Resource>)
    requires Distinct(keys)
    requires forall i :: 0 <= i < |rs| && Host(parse, types, rs[i]).Some? ==> Host(parse, types, rs[i]).value in keys
    ensures CountOver(keys, parse, types, full, rs) == Kept(parse, types, rs)
  {
    if rs == [] {
      CountOverEmpty(keys, parse, types, full);
    } else {
      var init := rs[..|rs| - 1];
      CountOverAll(keys, parse, types, full, init);
      CountOverSnoc(keys, parse, types, full, init, rs[|rs| - 1]);
      assert init + [rs[|rs| - 1]] == rs;
    }
  }

  lemma {:induction false} CountOverEmpty(keys: seq<string>, parse: string -> Option<ResourceUtils.ParsedURL>, types: Option<seq<int>>, full: bool)
    ensures CountOver(keys, parse, types, full, []) == 0
  {
    if keys != [] {
      CountOverEmpty(keys[..|keys| - 1], parse, types, full);
    }
  }

  /** The keys are exactly the hosts of the kept resources. */
  lemma {:induction false} GroupedKeys(parse: string -> Option<ResourceUtils.ParsedURL>, types: Option<seq<int>>, full: bool, rs: seq<Resource>)
    ensures var m := Grouped(parse, types, full, rs);
            forall i :: 0 <= i < |rs| && Host(parse, types, rs[i]).Some? ==> Host(parse, types, rs[i]).value in m.order
  {
    if rs != [] {
      var init := rs[..|rs| - 1];
      GroupedKeys(parse, types, full, init);
      forall i | 0 <= i < |rs| - 1 && Host(parse, types, rs[i]).Some?
        ensures Host(parse, types, rs[i]).value in Grouped(parse, types, full, init).order
      {
        assert rs[i] == init[i];
      }
    }
  }

  /** The lists of the dictionary hold, together, exactly the kept resources. */
  lemma GroupedTotal(parse: string -> Option<ResourceUtils.ParsedURL>, types: Option<seq<int>>, full: bool, rs: seq<Resource>)
    ensures CountOver(Grouped(parse, types, full, rs).order, parse, types, full, rs) == Kept(parse, types, rs)
  {
    GroupedKeys(parse, types, full, rs);
    CountOverAll(Grouped(parse, types, full, rs).order, parse, types, full, rs);
  }

  /** With `needFullResources` set every entry is a resource. */
  predicate FullEntries(m: DomainMap)
  {
    forall d, e :: d in m.groups && e in m.groups[d] ==> e.FullResource?
  }

  lemma {:induction false} GroupedFull(parse: string -> Option<ResourceUtils.ParsedURL>, types: Option<seq<int>>, rs: seq<Resource>)
    ensures FullEntries(Grouped(parse, types, true, rs))
  {
    if rs != [] {
      GroupedFull(parse, types, rs[..|rs| - 1]);
    }
  }

  // ---------------------------------------------------------------------
  // CombineExternalResourcesRule

  /** The list lengths of a dictionary, in key order. */
  function Counts(order: seq<string>, groups: map<string, seq<Entry>>): (cs: seq<int>)
    ensures |cs| == |order|
    ensures forall k :: 0 <= k < |order| ==> cs[k] == (if order[k] in groups then |groups[order[k]]| else 0)
  {
    if order == [] then []
    else
      var d := order[|order| - 1];
      Counts(order[..|order| - 1], groups) + [if d in groups then |groups[d]| else 0]
  }

  /** Each domain over the allowance adds its excess less one. */
  function Penalty(counts: seq<int>, allowed: int): int
  {
    if counts == [] then 0
    else
      var extra := counts[|counts| - 1] - allowed;
      Penalty(counts[..|counts| - 1], allowed) + (if extra <= 0 then 0 else extra - 1)
  }

  /** Each domain over the allowance adds all its resources. */
  function Violations(counts: seq<int>, allowed: int): int
  {
    if counts == [] then 0
    else
      var extra := counts[|counts| - 1] - allowed;
      Violations(counts[..|counts| - 1], allowed) + (if extra <= 0 then 0 else counts[|counts| - 1])
  }

  /** The penalty is zero exactly when no domain exceeds the allowance by more than one. */
  lemma {:induction false} PenaltyZero(counts: seq<int>, allowed: int)
    ensures Penalty(counts, allowed) >= 0
    ensures Penalty(counts, allowed) == 0 <==> forall k :: 0 <= k < |counts| ==> counts[k] <= allowed + 1
  {
    if counts != [] {
      var init := counts[..|counts| - 1];
      PenaltyZero(init, allowed);
      assert forall k :: 0 <= k < |init| ==> init[k] == counts[k];
    }
  }

  /**
   * `CombineExternalResourcesRule.doRun` over the resources of one type:
   * whether it reports (it does not when the penalty is zero), and what it adds
   * to the violation count.
   */
  method CombineExternalResources(parse: string -> Option<ResourceUtils.ParsedURL>, resources: seq<Resource>, resourceType: int,
                                  allowedPerDomain: int) returns (reported: bool, violationCount: int)
    ensures var m := Grouped(parse, Some([resourceType]), false, resources);
            reported <==> exists k :: 0 <= k < |m.order| && |m.groups[m.order[k]]| > allowedPerDomain + 1
    ensures violationCount == Violations(Counts(Grouped(parse, Some([resourceType]), false, resources).order,
                                               Grouped(parse, Some([resourceType]), false, resources).groups), allowedPerDomain)
  {
    var m := GetDomainToResourcesMap(parse, Some([resourceType]), false, resources);
    reported, violationCount := PenalizeDomains(m, allowedPerDomain);
  }

  /** The penalty and the violations of one more domain. */
  lemma PenaltySnoc(counts: seq<int>, k: int, allowed: int)
    requires 0 <= k < |counts|
    ensures var extra := counts[k] - allowed;
            Penalty(counts[..k + 1], allowed) == Penalty(counts[..k], allowed) + (if extra <= 0 then 0 else extra - 1) &&
            Violations(counts[..k + 1], allowed) == Violations(counts[..k], allowed) + (if extra <= 0 then 0 else counts[k])
  {
    assert counts[..k + 1][..k] == counts[..k];
  }

  /** Some domain has more than one resource over the allowance exactly when the penalty is not zero. */
  lemma OverfullIffPenalty(m: DomainMap, allowed: int)
    requires forall k :: 0 <= k < |m.order| ==> m.order[k] in m.groups
    ensures (exists k :: 0 <= k < |m.order| && |m.groups[m.order[k]]| > allowed + 1) <==>
            Penalty(Counts(m.order, m.groups), allowed) != 0
  {
    var counts := Counts(m.order, m.groups);
    PenaltyZero(counts, allowed);
    if exists k :: 0 <= k < |m.order| && |m.groups[m.order[k]]| > allowed + 1 {
      var k :| 0 <= k < |m.order| && |m.groups[m.order[k]]| > allowed + 1;
      assert counts[k] > allowed + 1;
    }
  }

  /** The loop of `doRun` over the domains of a dictionary. */
  method PenalizeDomains(m: DomainMap, allowedPerDomain: int) returns (reported: bool, violationCount: int)
    requires m.Valid()
    ensures reported <==> exists k :: 0 <= k < |m.order| && |m.groups[m.order[k]]| > allowedPerDomain + 1
    ensures violationCount == Violations(Counts(m.order, m.groups), allowedPerDomain)
  {
    assert forall k :: 0 <= k < |m.order| ==> m.order[k] in m.groups;
    var counts := Counts(m.order, m.groups);
    var penalizedResourceCount := 0;
    violationCount := 0;
    for k := 0 to |m.order|
      invariant penalizedResourceCount == Penalty(counts[..k], allowedPerDomain)
      invariant violationCount == Violations(counts[..k], allowedPerDomain)
    {
      PenaltySnoc(counts, k, allowedPerDomain);
      var domainResources := m.groups[m.order[k]];
      assert |domainResources| == counts[k];
      var extraResourceCount := |domainResources| - allowedPerDomain;
      if extraResourceCount <= 0 {
        continue;
      }
      penalizedResourceCount := penalizedResourceCount + extraResourceCount - 1;
      violationCount := violationCount + |domainResources|;
    }
    assert counts[..|m.order|] == counts;
    OverfullIffPenalty(m, allowedPerDomain);
    reported := penalizedResourceCount != 0;
  }

  // ---------------------------------------------------------------------
  // CacheControlRule

  const CACHEABLE_RESPONSE_CODES: map<int, bool> :=
    map[200 := true, 203 := true, 206 := true, 300 := true, 301 := true, 410 := true, 304 := true]

  /** `isCacheableResource`: a status code found in the table. */
  function IsCacheableResource(r: Resource): (b: bool)
    ensures b <==> r.statusCode.Some? && r.statusCode.value in {200, 203, 206, 300, 301, 304, 410}
  {
    r.statusCode.Some? && r.statusCode.value in CACHEABLE_RESPONSE_CODES && CACHEABLE_RESPONSE_CODES[r.statusCode.value]
  }

  /** The two lists `_cacheableAndNonCacheableResources` builds. */
  function Partition(rs: seq<Resource>, explicitlyNonCacheable: Resource -> bool): (seq<Resource>, seq<Resource>)
  {
    if rs == [] then ([], [])
    else
      var p := Partition(rs[..|rs| - 1], explicitlyNonCacheable);
      var r := rs[|rs| - 1];
      if !IsCacheableResource(r) then p
      else if explicitlyNonCacheable(r) then (p.0, p.1 + [r])
      else (p.0 + [r], p.1)
  }

  /** The cacheable resources, in input order. */
  function CacheableOnly(rs: seq<Resource>): seq<Resource>
  {
    if rs == [] then []
    else CacheableOnly(rs[..|rs| - 1]) + (if IsCacheableResource(rs[|rs| - 1]) then [rs[|rs| - 1]] else [])
  }

  /**
   * Resources with a non-cacheable status are dropped; every other one lands in
   * exactly one of the lists, the explicitly non-cacheable ones in the second.
   */
  lemma {:induction false} PartitionMeans(rs: seq<Resource>, explicitlyNonCacheable: Resource -> bool)
    ensures var p := Partition(rs, explicitlyNonCacheable);
            multiset(p.0) + multiset(p.1) == multiset(CacheableOnly(rs)) &&
            (forall r :: r in p.0 ==> IsCacheableResource(r) && !explicitlyNonCacheable(r)) &&
            (forall r :: r in p.1 ==> IsCacheableResource(r) && explicitlyNonCacheable(r))
  {
    if rs != [] {
      PartitionMeans(rs[..|rs| - 1], explicitlyNonCacheable);
    }
  }

  /** `_cacheableAndNonCacheableResources`. */
  method CacheableAndNonCacheableResources(resources: seq<Resource>, explicitlyNonCacheable: Resource -> bool)
    returns (cacheable: seq<Resource>, nonCacheable: seq<Resource>)
    ensures (cacheable, nonCacheable) == Partition(resources, explicitlyNonCacheable)
  {
    cacheable, nonCacheable := [], [];
    for i := 0 to |resources|
      invariant (cacheable, nonCacheable) == Partition(resources[..i], explicitlyNonCacheable)
    {
      assert resources[..i + 1][..i] == resources[..i];
      var resource := resources[i];
      if !IsCacheableResource(resource) {
        continue;
      }
      if explicitlyNonCacheable(resource) {
        nonCacheable := nonCacheable + [resource];
      } else {
        cacheable := cacheable + [resource];
      }
    }
    assert resources[..|resources|] == resources;
  }

  // ---------------------------------------------------------------------
  // CookieSizeRule._average and _max

  function Sum(xs: seq<int>): int
  {
    if xs == [] then 0 else Sum(xs[..|xs| - 1]) + xs[|xs| - 1]
  }

  /** `Math.round(total / n)`: the integer nearest the mean, halves rounded up; 0 for no sizes. */
  function AverageSize(sizes: seq<int>): (avg: int)
    ensures sizes == [] ==> avg == 0
    ensures sizes != [] ==> 2 * |sizes| * avg - |sizes| <= 2 * Sum(sizes) < 2 * |sizes| * avg + |sizes|
  {
    if sizes == [] then 0
    else
      var n := |sizes|;
      var q := (2 * Sum(sizes) + n) / (2 * n);
      assert 2 * n * q <= 2 * Sum(sizes) + n < 2 * n * q + 2 * n by {
        RoundDown(2 * Sum(sizes) + n, 2 * n);
      }
      q
  }

  lemma RoundDown(x: int, d: int)
    requires d > 0
    ensures d * (x / d) <= x < d * (x / d) + d
  {
  }

  /** `_average`: the running total, then the rounded mean. */
  method Average(sizes: seq<int>) returns (avg: int)
    ensures avg == AverageSize(sizes)
  {
    var total := 0;
    for i := 0 to |sizes|
      invariant total == Sum(sizes[..i])
    {
      assert sizes[..i + 1][..i] == sizes[..i];
      total := total + sizes[i];
    }
    assert sizes[..|sizes|] == sizes;
    if |sizes| == 0 {
      avg := 0;
    } else {
      avg := (2 * total + |sizes|) / (2 * |sizes|);
    }
  }

  /** The largest size, and never below 0 (the scan starts from 0). */
  function MaxSize(sizes: seq<int>): (r: int)
    ensures r >= 0 && forall i :: 0 <= i < |sizes| ==> sizes[i] <= r
    ensures r == 0 || exists i :: 0 <= i < |sizes| && sizes[i] == r
  {
    if sizes == [] then 0
    else
      var r := MaxSize(sizes[..|sizes| - 1]);
      if sizes[|sizes| - 1] > r then sizes[|sizes| - 1] else r
  }

  /** With sizes that are not negative, the result is one of them. */
  lemma MaxSizeAttained(sizes: seq<int>)
    requires sizes != [] && forall i :: 0 <= i < |sizes| ==> sizes[i] >= 0
    ensures exists i :: 0 <= i < |sizes| && sizes[i] == MaxSize(sizes)
  {
    if MaxSize(sizes) == 0 {
      assert sizes[0] == 0;
    }
  }

  /** `_max`: `Math.max` over the sizes, starting from 0. */
  method Max(sizes: seq<int>) returns (result: int)
    ensures result == MaxSize(sizes)
  {
    result := 0;
    for i := 0 to |sizes|
      invariant result == MaxSize(sizes[..i])
    {
      assert sizes[..i + 1][..i] == sizes[..i];
      result := if sizes[i] > result then sizes[i] else result;
    }
    assert sizes[..|sizes|] == sizes;
  }

  // ---------------------------------------------------------------------
  // CookieRuleBase.mapResourceCookies

  datatype Cookie = Cookie(domain: string, size: int)

  function Sizes(cookies: seq<Cookie>): (sizes: seq<int>)
    ensures |sizes| == |cookies| && forall i :: 0 <= i < |cookies| ==> sizes[i] == cookies[i].size
  {
    if cookies == [] then [] else Sizes(cookies[..|cookies| - 1]) + [cookies[|cookies| - 1].size]
  }

  /** `_callbackForResourceCookiePairs`: the resources of one list whose url the cookie matches. */
  function ResourcePairs(entries: seq<Entry>, cookie: Cookie, urlMatches: (Cookie, string) -> bool): seq<(Resource, Cookie)>
  {
    if entries == [] then []
    else
      var e := entries[|entries| - 1];
      ResourcePairs(entries[..|entries| - 1], cookie, urlMatches) +
      (if e.FullResource? && urlMatches(cookie, e.resource.url) then [(e.resource, cookie)] else [])
  }

  /** One cookie against the lists of the keys `keys` whose domain it matches. */
  function CookiePairs(keys: seq<string>, m: DomainMap, cookie: Cookie, domainMatches: (string, string) -> bool,
                       urlMatches: (Cookie, string) -> bool): seq<(Resource, Cookie)>
  {
    if keys == [] then []
    else
      var d := keys[|keys| - 1];
      CookiePairs(keys[..|keys| - 1], m, cookie, domainMatches, urlMatches) +
      (if d in m.groups && domainMatches(cookie.domain, d) then ResourcePairs(m.groups[d], cookie, urlMatches) else [])
  }

  /** Every (resource, cookie) pair `mapResourceCookies` hands to its callback, in call order. */
  function Matched(cookies: seq<Cookie>, m: DomainMap, domainMatches: (string, string) -> bool,
                   urlMatches: (Cookie, string) -> bool): seq<(Resource, Cookie)>
  {
    if cookies == [] then []
    else Matched(cookies[..|cookies| - 1], m, domainMatches, urlMatches) +
         CookiePairs(m.order, m, cookies[|cookies| - 1], domainMatches, urlMatches)
  }

  lemma {:induction false} ResourcePairsMeans(entries: seq<Entry>, cookie: Cookie, urlMatches: (Cookie, string) -> bool)
    ensures forall r, c :: (r, c) in ResourcePairs(entries, cookie, urlMatches) <==>
                           c == cookie && FullResource(r) in entries && urlMatches(cookie, r.url)
  {
    if entries != [] {
      var init := entries[..|entries| - 1];
      ResourcePairsMeans(init, cookie, urlMatches);
      assert entries == init + [entries[|entries| - 1]];
    }
  }

  lemma {:induction false} CookiePairsMeans(keys: seq<string>, m: DomainMap, cookie: Cookie, domainMatches: (string, string) -> bool,
                                            urlMatches: (Cookie, string) -> bool)
    ensures forall r, c :: (r, c) in CookiePairs(keys, m, cookie, domainMatches, urlMatches) <==>
                           c == cookie && urlMatches(cookie, r.url) &&
                           exists d :: d in keys && d in m.groups && domainMatches(cookie.domain, d) && FullResource(r) in m.groups[d]
  {
    if keys != [] {
      var init := keys[..|keys| - 1];
      var d := keys[|keys| - 1];
      CookiePairsMeans(init, m, cookie, domainMatches, urlMatches);
      if d in m.groups {
        ResourcePairsMeans(m.groups[d], cookie, urlMatches);
      }
      assert keys == init + [d];
    }
  }

  /**
   * A pair is reported exactly when the cookie is one of the cookies, its
   * domain matches a key of the dictionary, the resource is filed under that
   * key and the cookie matches the resource's url.
   */
  lemma {:induction false} MatchedMeans(cookies: seq<Cookie>, m: DomainMap, domainMatches: (string, string) -> bool,
                                        urlMatches: (Cookie, string) -> bool)
    ensures forall r, c :: (r, c) in Matched(cookies, m, domainMatches, urlMatches) <==>
                           c in cookies && urlMatches(c, r.url) &&
                           exists d :: d in m.order && d in m.groups && domainMatches(c.domain, d) && FullResource(r) in m.groups[d]
  {
    if cookies != [] {
      var init := cookies[..|cookies| - 1];
      MatchedMeans(init, m, domainMatches, urlMatches);
      CookiePairsMeans(m.order, m, cookies[|cookies| - 1], domainMatches, urlMatches);
      assert cookies == init + [cookies[|cookies| - 1]];
    }
  }

  /** `_callbackForResourceCookiePairs`. */
  method CallbackForResourceCookiePairs(entries: seq<Entry>, cookie: Cookie, urlMatches: (Cookie, string) -> bool)
    returns (pairs: seq<(Resource, Cookie)>)
    requires forall e :: e in entries ==> e.FullResource?
    ensures pairs == ResourcePairs(entries, cookie, urlMatches)
  {
    pairs := [];
    for i := 0 to |entries|
      invariant pairs == ResourcePairs(entries[..i], cookie, urlMatches)
    {
      assert entries[..i + 1][..i] == entries[..i];
      if urlMatches(cookie, entries[i].resource.url) {
        pairs := pairs + [(entries[i].resource, cookie)];
      }
    }
    assert entries[..|entries|] == entries;
  }

  lemma CookiePairsStep(keys: seq<string>, k: int, m: DomainMap, cookie: Cookie, domainMatches: (string, string) -> bool,
                        urlMatches: (Cookie, string) -> bool)
    requires 0 <= k < |keys|
    ensures CookiePairs(keys[..k + 1], m, cookie, domainMatches, urlMatches) ==
            CookiePairs(keys[..k], m, cookie, domainMatches, urlMatches) +
            (if keys[k] in m.groups && domainMatches(cookie.domain, keys[k]) then ResourcePairs(m.groups[keys[k]], cookie, urlMatches) else [])
  {
    assert keys[..k + 1][..k] == keys[..k];
  }

  /** One round of `mapResourceCookies`: a cookie against every domain of the dictionary. */
  method CookieResourcePairs(m: DomainMap, cookie: Cookie, domainMatches: (string, string) -> bool,
                             urlMatches: (Cookie, string) -> bool) returns (pairs: seq<(Resource, Cookie)>)
    requires FullEntries(m)
    ensures pairs == CookiePairs(m.order, m, cookie, domainMatches, urlMatches)
  {
    pairs := [];
    for k := 0 to |m.order|
      invariant pairs == CookiePairs(m.order[..k], m, cookie, domainMatches, urlMatches)
    {
      CookiePairsStep(m.order, k, m, cookie, domainMatches, urlMatches);
      var resourceDomain := m.order[k];
      if resourceDomain in m.groups && domainMatches(cookie.domain, resourceDomain) {
        var found := CallbackForResourceCookiePairs(m.groups[resourceDomain], cookie, urlMatches);
        pairs := pairs + found;
      }
    }
    assert m.order[..|m.order|] == m.order;
  }

  /** `mapResourceCookies` over a dictionary of full resources. */
  method MapResourceCookies(m: DomainMap, allCookies: seq<Cookie>, domainMatches: (string, string) -> bool,
                            urlMatches: (Cookie, string) -> bool) returns (pairs: seq<(Resource, Cookie)>)
    requires FullEntries(m)
    ensures pairs == Matched(allCookies, m, domainMatches, urlMatches)
  {
    pairs := [];
    for i := 0 to |allCookies|
      invariant pairs == Matched(allCookies[..i], m, domainMatches, urlMatches)
    {
      assert allCookies[..i + 1][..i] == allCookies[..i];
      var found := CookieResourcePairs(m, allCookies[i], domainMatches, urlMatches);
      pairs := pairs + found;
    }
    assert allCookies[..|allCookies|] == allCookies;
  }

  // ---------------------------------------------------------------------
  // Dictionaries keyed by url or by domain, filled from the pairs

  /** The keys, each once, in order of first appearance (the `for ... in` order of a dictionary filled with them). */
  function FirstSeen(keys: seq<string>): (r: seq<string>)
    ensures Distinct(r)
    ensures forall u :: u in r <==> u in keys
  {
    if keys == [] then []
    else
      var r := FirstSeen(keys[..|keys| - 1]);
      assert forall u :: u in keys <==> u in keys[..|keys| - 1] || u == keys[|keys| - 1];
      if keys[|keys| - 1] in r then r else r + [keys[|keys| - 1]]
  }

  function Urls(pairs: seq<(Resource, Cookie)>): (urls: seq<string>)
    ensures |urls| == |pairs| && forall i :: 0 <= i < |pairs| ==> urls[i] == pairs[i].0.url
  {
    if pairs == [] then [] else Urls(pairs[..|pairs| - 1]) + [pairs[|pairs| - 1].0.url]
  }

  function Domains(pairs: seq<(Resource, Cookie)>): (domains: seq<string>)
    ensures |domains| == |pairs| && forall i :: 0 <= i < |pairs| ==> domains[i] == pairs[i].0.domain
  {
    if pairs == [] then [] else Domains(pairs[..|pairs| - 1]) + [pairs[|pairs| - 1].0.domain]
  }

  /** The cookie bytes sent with `url`. */
  function BytesFor(pairs: seq<(Resource, Cookie)>, url: string): int
  {
    if pairs == [] then 0
    else BytesFor(pairs[..|pairs| - 1], url) + (if pairs[|pairs| - 1].0.url == url then pairs[|pairs| - 1].1.size else 0)
  }

  /** All cookie bytes of the pairs. */
  function SizeSum(pairs: seq<(Resource, Cookie)>): int
  {
    if pairs == [] then 0 else SizeSum(pairs[..|pairs| - 1]) + pairs[|pairs| - 1].1.size
  }

  /** `BytesFor` summed over the urls `keys`. */
  function BytesOver(keys: seq<string>, pairs: seq<(Resource, Cookie)>): int
  {
    if keys == [] then 0 else BytesOver(keys[..|keys| - 1], pairs) + BytesFor(pairs, keys[|keys| - 1])
  }

  lemma {:induction false} BytesOverSnoc(keys: seq<string>, pairs: seq<(Resource, Cookie)>, p: (Resource, Cookie))
    requires Distinct(keys)
    ensures BytesOver(keys, pairs + [p]) == BytesOver(keys, pairs) + (if p.0.url in keys then p.1.size else 0)
  {
    assert (pairs + [p])[..|pairs|] == pairs;
    if keys != [] {
      var init := keys[..|keys| - 1];
      assert Distinct(init);
      BytesOverSnoc(init, pairs, p);
      assert keys == init + [keys[|keys| - 1]];
    }
  }

  lemma {:induction false} BytesOverEmpty(keys: seq<string>)
    ensures BytesOver(keys, []) == 0
  {
    if keys != [] {
      BytesOverEmpty(keys[..|keys| - 1]);
    }
  }

  /** Summed over distinct urls that cover every pair, the per-url bytes are all the bytes. */
  lemma {:induction false} BytesOverAll(keys: seq<string>, pairs: seq<(Resource, Cookie)>)
    requires Distinct(keys)
    requires forall u :: u in Urls(pairs) ==> u in keys
    ensures BytesOver(keys, pairs) == SizeSum(pairs)
  {
    if pairs == [] {
      BytesOverEmpty(keys);
    } else {
      var init := pairs[..|pairs| - 1];
      assert Urls(pairs) == Urls(init) + [pairs[|pairs| - 1].0.url];
      BytesOverAll(keys, init);
      BytesOverSnoc(keys, init, pairs[|pairs| - 1]);
      assert init + [pairs[|pairs| - 1]] == pairs;
    }
  }

  /** The dictionary `StaticCookielessRule._collectorCallback` fills: `(data[url] || 0) + cookie.size` per pair. */
  function BytesDict(pairs: seq<(Resource, Cookie)>): map<string, int>
  {
    if pairs == [] then map[]
    else
      var bytes := BytesDict(pairs[..|pairs| - 1]);
      var url := pairs[|pairs| - 1].0.url;
      bytes[url := (if url in bytes then bytes[url] else 0) + pairs[|pairs| - 1].1.size]
  }

  lemma {:induction false} BytesForAbsent(pairs: seq<(Resource, Cookie)>, url: string)
    requires url !in Urls(pairs)
    ensures BytesFor(pairs, url) == 0
  {
    if pairs != [] {
      var init := pairs[..|pairs| - 1];
      assert Urls(pairs) == Urls(init) + [pairs[|pairs| - 1].0.url];
      BytesForAbsent(init, url);
    }
  }

  /** The dictionary holds, for each url of the pairs and no other, the bytes sent with it. */
  lemma {:induction false} BytesDictMeans(pairs: seq<(Resource, Cookie)>)
    ensures forall u :: u in BytesDict(pairs) <==> u in Urls(pairs)
    ensures forall u :: u in BytesDict(pairs) ==> BytesDict(pairs)[u] == BytesFor(pairs, u)
  {
    if pairs != [] {
      var init := pairs[..|pairs| - 1];
      BytesDictMeans(init);
      if pairs[|pairs| - 1].0.url !in Urls(init) {
        BytesForAbsent(init, pairs[|pairs| - 1].0.url);
      }
      assert Urls(pairs) == Urls(init) + [pairs[|pairs| - 1].0.url];
    }
  }

  lemma BytesDictStep(pairs: seq<(Resource, Cookie)>, i: int, bytes: map<string, int>, total: int)
    requires 0 <= i < |pairs| && bytes == BytesDict(pairs[..i])
    requires total == (if pairs[i].0.url in bytes then bytes[pairs[i].0.url] else 0) + pairs[i].1.size
    ensures Urls(pairs[..i + 1]) == Urls(pairs[..i]) + [pairs[i].0.url]
    ensures BytesDict(pairs[..i + 1]) == bytes[pairs[i].0.url := total]
  {
    assert pairs[..i + 1][..i] == pairs[..i];
  }

  /** `StaticCookielessRule._collectorCallback` over all pairs: bytes per url, urls in insertion order. */
  method CollectCookieBytes(pairs: seq<(Resource, Cookie)>) returns (urls: seq<string>, bytes: map<string, int>)
    ensures urls == FirstSeen(Urls(pairs))
    ensures bytes == BytesDict(pairs)
  {
    urls, bytes := [], map[];
    for i := 0 to |pairs|
      invariant urls == FirstSeen(Urls(pairs[..i]))
      invariant bytes == BytesDict(pairs[..i])
      invariant forall u :: u in bytes <==> u in urls
    {
      var url := pairs[i].0.url;
      var total := (if url in bytes then bytes[url] else 0) + pairs[i].1.size;
      BytesDictStep(pairs, i, bytes, total);
      if url !in bytes {
        urls := urls + [url];
      }
      bytes := bytes[url := total];
    }
    assert pairs[..|pairs|] == pairs;
  }

  /** The cookies sent with resources of domain `d`, in order. */
  function CookiesFor(pairs: seq<(Resource, Cookie)>, d: string): seq<Cookie>
  {
    if pairs == [] then []
    else CookiesFor(pairs[..|pairs| - 1], d) + (if pairs[|pairs| - 1].0.domain == d then [pairs[|pairs| - 1].1] else [])
  }

  lemma {:induction false} CookiesForEmpty(pairs: seq<(Resource, Cookie)>, d: string)
    ensures CookiesFor(pairs, d) != [] <==> d in Domains(pairs)
  {
    if pairs != [] {
      var init := pairs[..|pairs| - 1];
      CookiesForEmpty(init, d);
      assert Domains(pairs) == Domains(init) + [pairs[|pairs| - 1].0.domain];
    }
  }

  /** The dictionary `CookieSizeRule`'s `collectorCallback` fills: each cookie pushed under its resource's domain. */
  function CookiesDict(pairs: seq<(Resource, Cookie)>): map<string, seq<Cookie>>
  {
    if pairs == [] then map[]
    else
      var cookies := CookiesDict(pairs[..|pairs| - 1]);
      var domain := pairs[|pairs| - 1].0.domain;
      cookies[domain := (if domain in cookies then cookies[domain] else []) + [pairs[|pairs| - 1].1]]
  }

  /** The dictionary holds, for each resource domain of the pairs and no other, the cookies sent to it in order. */
  lemma {:induction false} CookiesDictMeans(pairs: seq<(Resource, Cookie)>)
    ensures forall d :: d in CookiesDict(pairs) <==> d in Domains(pairs)
    ensures forall d :: d in CookiesDict(pairs) ==> CookiesDict(pairs)[d] == CookiesFor(pairs, d)
  {
    if pairs != [] {
      var init := pairs[..|pairs| - 1];
      CookiesDictMeans(init);
      CookiesForEmpty(init, pairs[|pairs| - 1].0.domain);
      assert Domains(pairs) == Domains(init) + [pairs[|pairs| - 1].0.domain];
    }
  }

  lemma CookiesDictStep(pairs: seq<(Resource, Cookie)>, i: int, cookies: map<string, seq<Cookie>>, list: seq<Cookie>)
    requires 0 <= i < |pairs| && cookies == CookiesDict(pairs[..i])
    requires list == (if pairs[i].0.domain in cookies then cookies[pairs[i].0.domain] else []) + [pairs[i].1]
    ensures Domains(pairs[..i + 1]) == Domains(pairs[..i]) + [pairs[i].0.domain]
    ensures CookiesDict(pairs[..i + 1]) == cookies[pairs[i].0.domain := list]
  {
    assert pairs[..i + 1][..i] == pairs[..i];
  }

  /** `CookieSizeRule`'s `collectorCallback` over all pairs: cookies per resource domain, domains in insertion order. */
  method CollectCookiesByDomain(pairs: seq<(Resource, Cookie)>) returns (domains: seq<string>, cookies: map<string, seq<Cookie>>)
    ensures domains == FirstSeen(Domains(pairs))
    ensures cookies == CookiesDict(pairs)
  {
    domains, cookies := [], map[];
    for i := 0 to |pairs|
      invariant domains == FirstSeen(Domains(pairs[..i]))
      invariant cookies == CookiesDict(pairs[..i])
      invariant forall d :: d in cookies <==> d in domains
    {
      var domain := pairs[i].0.domain;
      var list := (if domain in cookies then cookies[domain] else []) + [pairs[i].1];
      CookiesDictStep(pairs, i, cookies, list);
      if domain !in cookies {
        domains := domains + [domain];
      }
      cookies := cookies[domain := list];
    }
    assert pairs[..|pairs|] == pairs;
  }

  // ---------------------------------------------------------------------
  // CookieSizeRule.processCookies

  const MAX_BYTES_THRESHOLD: int := 1000

  datatype DomainCookieStats = DomainCookieStats(domain: string, avgCookieSize: int, maxCookieSize: int)

  /** The entry of one domain: the average and the largest of its cookie sizes. */
  function StatOf(domain: string, cookies: seq<Cookie>): DomainCookieStats
  {
    DomainCookieStats(domain, AverageSize(Sizes(cookies)), MaxSize(Sizes(cookies)))
  }

  /** The statistics of one domain, as the loop of `processCookies` computes them. */
  method DomainStat(domain: string, cookies: seq<Cookie>) returns (stat: DomainCookieStats)
    ensures stat == StatOf(domain, cookies)
  {
    var sizes := Sizes(cookies);
    var avg := Average(sizes);
    var max := Max(sizes);
    stat := DomainCookieStats(domain, avg, max);
  }

  /** The `sortedCookieSizes` entries, before sorting. */
  method CookieStats(domains: seq<string>, cookies: map<string, seq<Cookie>>) returns (stats: seq<DomainCookieStats>)
    requires forall d :: d in domains ==> d in cookies
    ensures |stats| == |domains|
    ensures forall k :: 0 <= k < |domains| ==> stats[k] == StatOf(domains[k], cookies[domains[k]])
  {
    stats := [];
    for k := 0 to |domains|
      invariant |stats| == k
      invariant forall j :: 0 <= j < k ==> stats[j] == StatOf(domains[j], cookies[domains[j]])
    {
      assert domains[k] in domains;
      var stat := DomainStat(domains[k], cookies[domains[k]]);
      stats := stats + [stat];
    }
  }

  function StatDomains(stats: seq<DomainCookieStats>): (ds: seq<string>)
    ensures |ds| == |stats| && forall k :: 0 <= k < |stats| ==> ds[k] == stats[k].domain
  {
    if stats == [] then [] else StatDomains(stats[..|stats| - 1]) + [stats[|stats| - 1].domain]
  }

  /** The domains whose largest cookie exceeds the maximum. */
  method HugeCookieDomains(stats: seq<DomainCookieStats>) returns (huge: seq<string>)
    ensures forall d :: d in huge <==> exists k :: 0 <= k < |stats| && stats[k].domain == d && stats[k].maxCookieSize > MAX_BYTES_THRESHOLD
    ensures Distinct(StatDomains(stats)) ==> Distinct(huge)
  {
    huge := [];
    for i := 0 to |stats|
      invariant forall d :: d in huge <==> exists k :: 0 <= k < i && stats[k].domain == d && stats[k].maxCookieSize > MAX_BYTES_THRESHOLD
      invariant Distinct(StatDomains(stats)) ==> Distinct(huge)
    {
      ghost var listed := huge;
      if Distinct(StatDomains(stats)) {
        assert forall k :: 0 <= k < i ==> StatDomains(stats)[k] != StatDomains(stats)[i];
        assert stats[i].domain !in listed;
        DistinctSnoc(listed, stats[i].domain);
      }
      if stats[i].maxCookieSize > MAX_BYTES_THRESHOLD {
        huge := huge + [stats[i].domain];
      }
    }
  }

  /** The domains whose average cookie lies strictly between the two thresholds. */
  method BigAverageDomains(stats: seq<DomainCookieStats>, avgBytesThreshold: int) returns (big: seq<string>)
    ensures forall d :: d in big <==> exists k :: 0 <= k < |stats| && stats[k].domain == d &&
                                                 avgBytesThreshold < stats[k].avgCookieSize < MAX_BYTES_THRESHOLD
    ensures Distinct(StatDomains(stats)) ==> Distinct(big)
  {
    big := [];
    for i := 0 to |stats|
      invariant forall d :: d in big <==> exists k :: 0 <= k < i && stats[k].domain == d &&
                                                      avgBytesThreshold < stats[k].avgCookieSize < MAX_BYTES_THRESHOLD
      invariant Distinct(StatDomains(stats)) ==> Distinct(big)
    {
      ghost var listed := big;
      if Distinct(StatDomains(stats)) {
        assert forall k :: 0 <= k < i ==> StatDomains(stats)[k] != StatDomains(stats)[i];
        assert stats[i].domain !in listed;
        DistinctSnoc(listed, stats[i].domain);
      }
      if avgBytesThreshold < stats[i].avgCookieSize < MAX_BYTES_THRESHOLD {
        big := big + [stats[i].domain];
      }
    }
  }

  /** The per-domain statistics of the pairs and the two lists built from them. */
  method ListedDomains(pairs: seq<(Resource, Cookie)>, avgBytesThreshold: int) returns (huge: seq<string>, big: seq<string>)
    ensures Distinct(huge) && Distinct(big)
    ensures forall d :: d in huge <==> CookiesFor(pairs, d) != [] && MaxSize(Sizes(CookiesFor(pairs, d))) > MAX_BYTES_THRESHOLD
    ensures forall d :: d in big <==> CookiesFor(pairs, d) != [] && avgBytesThreshold < AverageSize(Sizes(CookiesFor(pairs, d))) < MAX_BYTES_THRESHOLD
  {
    var domains, stats := PerDomainStats(pairs);
    huge := HugeCookieDomains(stats);
    big := BigAverageDomains(stats, avgBytesThreshold);
    StatsMeans(stats, domains, pairs, avgBytesThreshold);
  }

  /** `cookiesPerResourceDomain` and the `sortedCookieSizes` entries built from it, before sorting. */
  method PerDomainStats(pairs: seq<(Resource, Cookie)>) returns (domains: seq<string>, stats: seq<DomainCookieStats>)
    ensures |stats| == |domains| && StatDomains(stats) == domains && Distinct(domains)
    ensures forall k :: 0 <= k < |stats| ==>
              stats[k] == StatOf(domains[k], CookiesFor(pairs, domains[k]))
    ensures forall x :: x in domains <==> CookiesFor(pairs, x) != []
  {
    var cookies;
    domains, cookies := CollectCookiesByDomain(pairs);
    assert forall x :: x in domains ==> x in cookies by {
      CookiesDictMeans(pairs);
    }
    stats := CookieStats(domains, cookies);
    assert StatDomains(stats) == domains;
    forall k | 0 <= k < |stats|
      ensures stats[k] == StatOf(domains[k], CookiesFor(pairs, domains[k]))
    {
      CookiesDictMeans(pairs);
    }
    forall x
      ensures x in domains <==> CookiesFor(pairs, x) != []
    {
      CookiesForEmpty(pairs, x);
    }
  }

  /** A domain has statistics exactly when some cookie was sent to it, and they are those of its cookies. */
  lemma StatsMeans(stats: seq<DomainCookieStats>, domains: seq<string>, pairs: seq<(Resource, Cookie)>, avgBytesThreshold: int)
    requires |stats| == |domains|
    requires forall k :: 0 <= k < |stats| ==>
               stats[k] == StatOf(domains[k], CookiesFor(pairs, domains[k]))
    requires forall x :: x in domains <==> CookiesFor(pairs, x) != []
    ensures forall d :: (exists k :: 0 <= k < |stats| && stats[k].domain == d && stats[k].maxCookieSize > MAX_BYTES_THRESHOLD) <==>
                        CookiesFor(pairs, d) != [] && MaxSize(Sizes(CookiesFor(pairs, d))) > MAX_BYTES_THRESHOLD
    ensures forall d :: (exists k :: 0 <= k < |stats| && stats[k].domain == d &&
                                     avgBytesThreshold < stats[k].avgCookieSize < MAX_BYTES_THRESHOLD) <==>
                        CookiesFor(pairs, d) != [] && avgBytesThreshold < AverageSize(Sizes(CookiesFor(pairs, d))) < MAX_BYTES_THRESHOLD
  {
    forall d | CookiesFor(pairs, d) != []
      ensures exists k :: 0 <= k < |stats| && stats[k].domain == d
    {
      var k :| 0 <= k < |domains| && domains[k] == d;
      assert stats[k].domain == d;
    }
  }

  datatype CookieSizeReport = CookieSizeReport(averageAll: int, hugeCookieDomains: seq<string>, bigAverageDomains: seq<string>,
                                               violationCount: int)

  /**
   * `CookieSizeRule.processCookies`: nothing without cookies; otherwise the
   * average over all cookies, the domains whose largest cookie exceeds the
   * maximum, the domains whose average lies strictly between the two
   * thresholds, and the violations they add.
   */
  method CookieSize(parse: string -> Option<ResourceUtils.ParsedURL>, resources: seq<Resource>, allCookies: seq<Cookie>,
                    avgBytesThreshold: int, domainMatches: (string, string) -> bool, urlMatches: (Cookie, string) -> bool)
    returns (report: Option<CookieSizeReport>)
    ensures report.None? <==> allCookies == []
    ensures report.Some? ==> report.value.averageAll == AverageSize(Sizes(allCookies)) &&
                             Distinct(report.value.hugeCookieDomains) && Distinct(report.value.bigAverageDomains) &&
                             report.value.violationCount == |report.value.hugeCookieDomains| + |report.value.bigAverageDomains|
    ensures report.Some? ==>
              var pairs := Matched(allCookies, Grouped(parse, None, true, resources), domainMatches, urlMatches);
              forall d :: (d in report.value.hugeCookieDomains <==>
                           CookiesFor(pairs, d) != [] && MaxSize(Sizes(CookiesFor(pairs, d))) > MAX_BYTES_THRESHOLD) &&
                          (d in report.value.bigAverageDomains <==>
                           CookiesFor(pairs, d) != [] && avgBytesThreshold < AverageSize(Sizes(CookiesFor(pairs, d))) < MAX_BYTES_THRESHOLD)
  {
    if |allCookies| == 0 {
      return None;
    }
    var m := GetDomainToResourcesMap(parse, None, true, resources);
    GroupedFull(parse, None, resources);
    var pairs := MapResourceCookies(m, allCookies, domainMatches, urlMatches);
    var avgAllCookiesSize := Average(Sizes(allCookies));
    var huge, big := ListedDomains(pairs, avgBytesThreshold);
    report := Some(CookieSizeReport(avgAllCookiesSize, huge, big, |huge| + |big|));
  }

  // ---------------------------------------------------------------------
  // StaticCookielessRule.processCookies

  datatype CookielessReport = CookielessReport(cookieBytes: int, badUrls: seq<string>, violationCount: int)

  /** The `totalStaticResources` loop: the list lengths of the dictionary, summed. */
  method CountResources(m: DomainMap, parse: string -> Option<ResourceUtils.ParsedURL>, types: Option<seq<int>>, resources: seq<Resource>)
    returns (total: int)
    requires m == Grouped(parse, types, true, resources)
    ensures total == Kept(parse, types, resources)
  {
    GroupedMeans(parse, types, true, resources);
    total := 0;
    for k := 0 to |m.order|
      invariant total == CountOver(m.order[..k], parse, types, true, resources)
    {
      assert m.order[..k + 1][..k] == m.order[..k];
      total := total + |m.groups[m.order[k]]|;
    }
    assert m.order[..|m.order|] == m.order;
    GroupedTotal(parse, types, true, resources);
  }

  lemma BytesOverSnocKey(keys: seq<string>, k: int, pairs: seq<(Resource, Cookie)>)
    requires 0 <= k < |keys|
    ensures BytesOver(keys[..k + 1], pairs) == BytesOver(keys[..k], pairs) + BytesFor(pairs, keys[k])
  {
    assert keys[..k + 1][..k] == keys[..k];
  }

  /** What `BadUrls` reads off the collected urls and byte dictionary. */
  lemma CollectedBytes(pairs: seq<(Resource, Cookie)>, urls: seq<string>, bytes: map<string, int>)
    requires urls == FirstSeen(Urls(pairs)) && bytes == BytesDict(pairs)
    ensures forall k :: 0 <= k < |urls| ==> urls[k] in bytes && bytes[urls[k]] == BytesFor(pairs, urls[k])
  {
    assert forall k :: 0 <= k < |urls| ==> urls[k] in Urls(pairs);
    BytesDictMeans(pairs);
  }

  /** The urls that were sent cookies, in insertion order, and all the cookie bytes sent. */
  method BadUrls(pairs: seq<(Resource, Cookie)>) returns (badUrls: seq<string>, cookieBytes: int)
    ensures badUrls == FirstSeen(Urls(pairs)) && cookieBytes == SizeSum(pairs)
  {
    var urls, bytes := CollectCookieBytes(pairs);
    CollectedBytes(pairs, urls, bytes);
    badUrls := [];
    cookieBytes := 0;
    for k := 0 to |urls|
      invariant badUrls == urls[..k]
      invariant cookieBytes == BytesOver(urls[..k], pairs)
    {
      BytesOverSnocKey(urls, k, pairs);
      badUrls := badUrls + [urls[k]];
      cookieBytes := cookieBytes + bytes[urls[k]];
    }
    assert urls[..|urls|] == urls;
    BytesOverAll(urls, pairs);
  }

  /**
   * `StaticCookielessRule.processCookies` with the stylesheet and image types
   * given as `staticTypes`: nothing with fewer static resources, or fewer urls
   * that were sent cookies, than `minResources`; otherwise those urls in the
   * order they were first matched, all the cookie bytes sent with them, and one
   * violation per url.
   */
  method StaticCookieless(parse: string -> Option<ResourceUtils.ParsedURL>, resources: seq<Resource>, allCookies: seq<Cookie>,
                          staticTypes: seq<int>, minResources: int, domainMatches: (string, string) -> bool,
                          urlMatches: (Cookie, string) -> bool) returns (report: Option<CookielessReport>)
    ensures var pairs := Matched(allCookies, Grouped(parse, Some(staticTypes), true, resources), domainMatches, urlMatches);
            var urls := FirstSeen(Urls(pairs));
            (report.Some? <==> Kept(parse, Some(staticTypes), resources) >= minResources && |urls| >= minResources) &&
            (report.Some? ==> report.value == CookielessReport(SizeSum(pairs), urls, |urls|))
  {
    var m := GetDomainToResourcesMap(parse, Some(staticTypes), true, resources);
    var totalStaticResources := CountResources(m, parse, Some(staticTypes), resources);
    if totalStaticResources < minResources {
      return None;
    }
    GroupedFull(parse, Some(staticTypes), resources);
    var pairs := MapResourceCookies(m, allCookies, domainMatches, urlMatches);
    var badUrls, cookieBytes := BadUrls(pairs);
    if |badUrls| < minResources {
      return None;
    }
    report := Some(CookielessReport(cookieBytes, badUrls, |badUrls|));
  }
}
