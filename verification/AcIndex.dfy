/** The index from (requirement, criterion) to the scenarios that carry both. */
module AcIndex {
  import opened Text
  import opened Gherkin

  type Key = (string, string)

  type Index = map<Key, seq<string>>

  function Replace(s: string, from: char, to: char): string {
    seq(|s|, i requires 0 <= i < |s| => if s[i] == from then to else s[i])
  }

  function Location(s: Scenario): string {
    Replace(s.filePath, '\\', '/') + ":" + Print(s.lineNumber)
  }

  function Repeat(x: string, n: nat): seq<string> {
    seq(n, i => x)
  }

  /** How often the inner loop lists a location under a key, for one requirement tag. */
  function AcWeight(reqTag: string, acTags: seq<string>, key: Key): nat {
    if acTags == [] then 0
    else AcWeight(reqTag, acTags[..|acTags| - 1], key)
         + if key == (reqTag, acTags[|acTags| - 1]) then 1 else 0
  }

  function ReqWeight(reqTags: seq<string>, acTags: seq<string>, key: Key): nat {
    if reqTags == [] then 0
    else ReqWeight(reqTags[..|reqTags| - 1], acTags, key)
         + AcWeight(reqTags[|reqTags| - 1], acTags, key)
  }

  /** How often a scenario is listed under a key. */
  function Weight(s: Scenario, key: Key): nat {
    multiset(ReqTags(s))[key.0] * multiset(AcTags(s))[key.1]
  }

  /** The naive scan: the locations of the scenarios under a key, in order. */
  function Locations(scenarios: seq<Scenario>, key: Key): seq<string> {
    if scenarios == [] then []
    else
      var s := scenarios[|scenarios| - 1];
      Locations(scenarios[..|scenarios| - 1], key) + Repeat(Location(s), Weight(s, key))
  }

  function Get(index: Index, key: Key): seq<string> {
    if key in index then index[key] else []
  }

  /** The index lists exactly what the scan finds, and has no key without a location. */
  ghost predicate Indexes(index: Index, scenarios: seq<Scenario>) {
    && (forall key :: key in index ==> index[key] != [])
    && (forall key :: Get(index, key) == Locations(scenarios, key))
  }

  lemma {:induction false} AcWeightIsCount(reqTag: string, acTags: seq<string>, key: Key)
    ensures AcWeight(reqTag, acTags, key) == if key.0 == reqTag then multiset(acTags)[key.1] else 0
  {
    if acTags != [] {
      var init, t := acTags[..|acTags| - 1], acTags[|acTags| - 1];
      assert acTags == init + [t];
      AcWeightIsCount(reqTag, init, key);
    }
  }

  lemma {:induction false} ReqWeightIsProduct(reqTags: seq<string>, acTags: seq<string>, key: Key)
    ensures ReqWeight(reqTags, acTags, key) == multiset(reqTags)[key.0] * multiset(acTags)[key.1]
  {
    if reqTags != [] {
      var init, t := reqTags[..|reqTags| - 1], reqTags[|reqTags| - 1];
      assert reqTags == init + [t];
      ReqWeightIsProduct(init, acTags, key);
      AcWeightIsCount(t, acTags, key);
      OneMore(multiset(init)[key.0], multiset(acTags)[key.1]);
    }
  }

  lemma OneMore(m: nat, n: nat)
    ensures (m + 1) * n == m * n + n
  {
  }

  lemma RepeatMore(before: seq<string>, x: string, m: nat, n: nat)
    ensures before + Repeat(x, m) + Repeat(x, n) == before + Repeat(x, m + n)
  {
  }

  lemma Pushed(before: seq<string>, x: string, m: nat)
    ensures before + Repeat(x, m) + [x] == before + Repeat(x, m + 1)
  {
  }

  method BuildIndex(scenarios: seq<Scenario>) returns (index: Index)
    ensures Indexes(index, scenarios)
  {
    index := map[];
    for i := 0 to |scenarios|
      invariant Indexes(index, scenarios[..i])
    {
      var s := scenarios[i];
      assert scenarios[..i + 1][..i] == scenarios[..i];
      ghost var before := index;
      if ReqTags(s) != [] {
        index := AddLocation(index, ReqTags(s), AcTags(s), Location(s));
      }
      forall key
        ensures Get(index, key) == Locations(scenarios[..i + 1], key)
      {
        ReqWeightIsProduct(ReqTags(s), AcTags(s), key);
        assert Get(before, key) == Locations(scenarios[..i], key);
        assert ReqTags(s) == [] ==> Repeat(Location(s), Weight(s, key)) == [];
      }
    }
    assert scenarios[..|scenarios|] == scenarios;
  }

  /** Each key has the location as often again as all requirement tags give it weight. */
  ghost predicate GrownByAll(before: Index, index: Index, location: string, reqTags: seq<string>,
                             acTags: seq<string>) {
    forall key :: Get(index, key) == Get(before, key) + Repeat(location, ReqWeight(reqTags, acTags, key))
  }

  /** The same for one requirement tag. */
  ghost predicate GrownByOne(before: Index, index: Index, location: string, reqTag: string,
                             acTags: seq<string>) {
    forall key :: Get(index, key) == Get(before, key) + Repeat(location, AcWeight(reqTag, acTags, key))
  }

  lemma OneTagMore(before: Index, middle: Index, index: Index, location: string,
                   reqTags: seq<string>, t: string, acTags: seq<string>)
    requires GrownByAll(before, middle, location, reqTags, acTags)
    requires GrownByOne(middle, index, location, t, acTags)
    ensures GrownByAll(before, index, location, reqTags + [t], acTags)
  {
    assert (reqTags + [t])[..|reqTags|] == reqTags;
    forall key
      ensures Get(index, key)
           == Get(before, key) + Repeat(location, ReqWeight(reqTags + [t], acTags, key))
    {
      assert Get(middle, key) == Get(before, key) + Repeat(location, ReqWeight(reqTags, acTags, key));
      RepeatMore(Get(before, key), location, ReqWeight(reqTags, acTags, key), AcWeight(t, acTags, key));
    }
  }

  lemma OneEntryMore(before: Index, middle: Index, location: string, reqTag: string,
                     acTags: seq<string>, t: string)
    requires GrownByOne(before, middle, location, reqTag, acTags)
    ensures GrownByOne(before, middle[(reqTag, t) := Get(middle, (reqTag, t)) + [location]],
                       location, reqTag, acTags + [t])
  {
    var index := middle[(reqTag, t) := Get(middle, (reqTag, t)) + [location]];
    assert (acTags + [t])[..|acTags|] == acTags;
    forall key
      ensures Get(index, key)
           == Get(before, key) + Repeat(location, AcWeight(reqTag, acTags + [t], key))
    {
      assert Get(middle, key) == Get(before, key) + Repeat(location, AcWeight(reqTag, acTags, key));
      Pushed(Get(before, key), location, AcWeight(reqTag, acTags, key));
    }
  }

  method AddLocation(before: Index, reqTags: seq<string>, acTags: seq<string>, location: string)
    returns (index: Index)
    requires forall key :: key in before ==> before[key] != []
    ensures forall key :: key in index ==> index[key] != []
    ensures GrownByAll(before, index, location, reqTags, acTags)
  {
    index := before;
    for i := 0 to |reqTags|
      invariant forall key :: key in index ==> index[key] != []
      invariant GrownByAll(before, index, location, reqTags[..i], acTags)
    {
      ghost var middle := index;
      index := AddRequirement(index, reqTags[i], acTags, location);
      OneTagMore(before, middle, index, location, reqTags[..i], reqTags[i], acTags);
      assert reqTags[..i + 1] == reqTags[..i] + [reqTags[i]];
    }
    assert reqTags[..|reqTags|] == reqTags;
  }

  method AddRequirement(before: Index, reqTag: string, acTags: seq<string>, location: string)
    returns (index: Index)
    requires forall key :: key in before ==> before[key] != []
    ensures forall key :: key in index ==> index[key] != []
    ensures GrownByOne(before, index, location, reqTag, acTags)
  {
    index := before;
    for j := 0 to |acTags|
      invariant forall key :: key in index ==> index[key] != []
      invariant GrownByOne(before, index, location, reqTag, acTags[..j])
    {
      OneEntryMore(before, index, location, reqTag, acTags[..j], acTags[j]);
      var here := (reqTag, acTags[j]);
      index := index[here := Get(index, here) + [location]];
      assert acTags[..j + 1] == acTags[..j] + [acTags[j]];
    }
    assert acTags[..|acTags|] == acTags;
  }

  // ---- What a lookup finds ----

  lemma WeightOfTags(s: Scenario, key: Key)
    ensures Weight(s, key) ==
      if IsReqTag(key.0) && IsAcTag(key.1) then multiset(s.tags)[key.0] * multiset(s.tags)[key.1] else 0
  {
    FilterCounts(s.tags, IsReqTag, key.0);
    FilterCounts(s.tags, IsAcTag, key.1);
  }

  /** One scenario carries both tags. */
  predicate Covers(s: Scenario, key: Key) {
    key.0 in s.tags && key.1 in s.tags
  }

  lemma WeightIsCover(s: Scenario, key: Key)
    ensures Weight(s, key) > 0 <==> IsReqTag(key.0) && IsAcTag(key.1) && Covers(s, key)
  {
    WeightOfTags(s, key);
    var m, n := multiset(s.tags)[key.0], multiset(s.tags)[key.1];
    assert m > 0 <==> key.0 in s.tags;
    assert n > 0 <==> key.1 in s.tags;
    PositiveProduct(m, n);
  }

  lemma PositiveProduct(m: nat, n: nat)
    ensures m * n > 0 <==> m > 0 && n > 0
  {
  }

  /** A requirement's criterion is covered exactly when some one scenario carries both tags. */
  lemma {:induction false} CoveredExactlyWhen(scenarios: seq<Scenario>, key: Key)
    ensures Locations(scenarios, key) != [] <==>
      IsReqTag(key.0) && IsAcTag(key.1) && exists s :: s in scenarios && Covers(s, key)
  {
    if scenarios != [] {
      var init, s := scenarios[..|scenarios| - 1], scenarios[|scenarios| - 1];
      assert scenarios == init + [s];
      CoveredExactlyWhen(init, key);
      WeightIsCover(s, key);
      assert |Repeat(Location(s), Weight(s, key))| == Weight(s, key);
    }
  }

  function JoinBr(ls: seq<string>): string {
    if ls == [] then "" else if |ls| == 1 then ls[0] else ls[0] + "<br>" + JoinBr(ls[1..])
  }

  /** A cell lists its locations with a break between any two. */
  lemma {:induction false} JoinedWithBreaks(a: seq<string>, b: seq<string>)
    ensures a == [] ==> JoinBr(a) == ""
    ensures |a| == 1 ==> JoinBr(a) == a[0]
    ensures a != [] && b != [] ==> JoinBr(a + b) == JoinBr(a) + "<br>" + JoinBr(b)
  {
    if a != [] && b != [] {
      assert (a + b)[1..] == a[1..] + b;
      if |a| == 1 {
        assert a[1..] + b == b;
      } else {
        JoinedWithBreaks(a[1..], b);
        BreakAssociates(a[0], JoinBr(a[1..]), JoinBr(b));
      }
    }
  }

  lemma BreakAssociates(a: string, b: string, c: string)
    ensures a + "<br>" + (b + "<br>" + c) == a + "<br>" + b + "<br>" + c
  {
  }

  /** Scanning two lists one after the other. */
  lemma {:induction false} LocationsConcat(a: seq<Scenario>, b: seq<Scenario>, key: Key)
    ensures Locations(a + b, key) == Locations(a, key) + Locations(b, key)
  {
    if b == [] {
      assert a + b == a;
    } else {
      assert (a + b)[..|a + b| - 1] == a + b[..|b| - 1];
      LocationsConcat(a, b[..|b| - 1], key);
    }
  }

  /** `portable` is the path with slashes for backslashes. */
  predicate IsPortable(path: string, portable: string) {
    && |portable| == |path|
    && forall i :: 0 <= i < |path| ==> portable[i] == if path[i] == '\\' then '/' else path[i]
  }

  /** How often a scenario's location is listed, and what it says. */
  lemma LocationsOfOne(s: Scenario, key: Key) returns (portable: string)
    ensures IsPortable(s.filePath, portable)
    ensures forall l :: l in Locations([s], key) ==> l == portable + ":" + Print(s.lineNumber)
    ensures |Locations([s], key)| ==
      if IsReqTag(key.0) && IsAcTag(key.1) then multiset(s.tags)[key.0] * multiset(s.tags)[key.1] else 0
  {
    portable := Replace(s.filePath, '\\', '/');
    WeightOfTags(s, key);
    assert [s][..0] == [];
    assert Locations([s], key) == Repeat(Location(s), Weight(s, key));
  }

  /** The Gherkin cell of a row, and whether the row counts as covered. */
  method Lookup(index: Index, reqId: string, acId: string, ghost scenarios: seq<Scenario>)
    returns (cell: string, hasGherkin: bool)
    requires Indexes(index, scenarios)
    ensures hasGherkin <==>
      IsReqTag(reqId) && IsAcTag(acId) && exists s :: s in scenarios && Covers(s, (reqId, acId))
    ensures cell == if hasGherkin then JoinBr(Locations(scenarios, (reqId, acId))) else "-"
  {
    var key := (reqId, acId);
    CoveredExactlyWhen(scenarios, key);
    assert Get(index, key) == Locations(scenarios, key);
    if key in index && index[key] != [] {
      cell, hasGherkin := JoinBr(index[key]), true;
    } else {
      cell, hasGherkin := "-", false;
    }
  }
}
