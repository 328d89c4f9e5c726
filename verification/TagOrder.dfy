/** Which tags are looked at, and the order of the errors about them. */
module TagOrder {
  import opened Gherkin

  /** The tags of requirements and of criteria are told by how they begin. */
  lemma TagPrefixes(s: Scenario, t: string)
    ensures t in ReqTags(s) <==> t in s.tags && ("REQ-" <= t || "INF-REQ-" <= t)
    ensures t in AcTags(s) <==> t in s.tags && "AC-" <= t
  {
    FilterCounts(s.tags, IsReqTag, t);
    FilterCounts(s.tags, IsAcTag, t);
    assert t in ReqTags(s) <==> t in multiset(ReqTags(s));
    assert t in AcTags(s) <==> t in multiset(AcTags(s));
    assert t in s.tags <==> t in multiset(s.tags);
  }

  /** `kept` are the elements of `all` that qualify, at increasing places, and there is no other. */
  predicate Picks(all: seq<string>, keep: string -> bool, at: seq<nat>, kept: seq<string>) {
    && |at| == |kept|
    && (forall k :: 0 <= k < |at| ==> at[k] < |all| && kept[k] == all[at[k]])
    && (forall a, b :: 0 <= a < b < |at| ==> at[a] < at[b])
    && (forall i :: 0 <= i < |all| ==> (keep(all[i]) <==> i in at))
  }

  lemma PicksMore(all: seq<string>, keep: string -> bool, at: seq<nat>, kept: seq<string>, last: string)
    requires Picks(all, keep, at, kept)
    ensures keep(last) ==> Picks(all + [last], keep, at + [|all|], kept + [last])
    ensures !keep(last) ==> Picks(all + [last], keep, at, kept)
  {
    assert forall i :: i in at ==> i < |all|;
  }

  /** A filter keeps what qualifies, in order. */
  lemma {:induction false} FilterPicks(all: seq<string>, keep: string -> bool) returns (at: seq<nat>)
    ensures Picks(all, keep, at, Filter(all, keep))
  {
    at := [];
    if all != [] {
      var init, last := all[..|all| - 1], all[|all| - 1];
      at := FilterPicks(init, keep);
      PicksMore(init, keep, at, Filter(init, keep), last);
      assert init + [last] == all;
      at := if keep(last) then at + [|init|] else at;
    }
  }

  lemma {:induction false} FilterTwice(all: seq<string>, first: string -> bool, second: string -> bool,
                                       both: string -> bool)
    requires forall t :: both(t) <==> first(t) && second(t)
    ensures Filter(Filter(all, first), second) == Filter(all, both)
  {
    if all != [] {
      FilterTwice(all[..|all| - 1], first, second, both);
      FilterMore(Filter(all[..|all| - 1], first), all[|all| - 1], second);
    }
  }

  lemma FilterMore(init: seq<string>, last: string, keep: string -> bool)
    ensures Filter(init + [last], keep) == Filter(init, keep) + if keep(last) then [last] else []
    ensures Filter(init + [], keep) == Filter(init, keep)
  {
    assert (init + [last])[..|init|] == init && init + [] == init;
  }

  function ErrorsAt(s: Scenario, tags: seq<string>): (errors: seq<CrossRefError>)
    ensures |errors| == |tags|
    ensures forall k :: 0 <= k < |tags| ==> errors[k] == InvalidGherkinTag(s.filePath, s.lineNumber, tags[k])
  {
    seq(|tags|, k requires 0 <= k < |tags| => InvalidGherkinTag(s.filePath, s.lineNumber, tags[k]))
  }

  function Unknown(ids: set<string>): string -> bool {
    t => t !in ids
  }

  function UnknownReq(ids: set<string>): string -> bool {
    t => ("REQ-" <= t || "INF-REQ-" <= t) && t !in ids
  }

  function UnknownAc(ids: set<string>): string -> bool {
    t => "AC-" <= t && t !in ids
  }

  lemma {:induction false} InvalidIsFiltered(s: Scenario, tags: seq<string>, ids: set<string>)
    ensures Invalid(s, tags, ids) == ErrorsAt(s, Filter(tags, Unknown(ids)))
  {
    if tags != [] {
      InvalidIsFiltered(s, tags[..|tags| - 1], ids);
    }
  }

  /** The errors of one scenario: its unknown requirement tags in order, then its unknown criterion
      tags in order, at its place. */
  lemma ErrorsOfOne(s: Scenario, reqIds: set<string>, acIds: set<string>)
    returns (reqsAt: seq<nat>, reqs: seq<string>, acsAt: seq<nat>, acs: seq<string>)
    ensures Picks(s.tags, UnknownReq(reqIds), reqsAt, reqs)
    ensures Picks(s.tags, UnknownAc(acIds), acsAt, acs)
    ensures TagErrors([s], reqIds, acIds) == ErrorsAt(s, reqs + acs)
  {
    reqs, acs := Filter(s.tags, UnknownReq(reqIds)), Filter(s.tags, UnknownAc(acIds));
    reqsAt := FilterPicks(s.tags, UnknownReq(reqIds));
    acsAt := FilterPicks(s.tags, UnknownAc(acIds));
    FilterTwice(s.tags, IsReqTag, Unknown(reqIds), UnknownReq(reqIds));
    FilterTwice(s.tags, IsAcTag, Unknown(acIds), UnknownAc(acIds));
    InvalidIsFiltered(s, ReqTags(s), reqIds);
    InvalidIsFiltered(s, AcTags(s), acIds);
    assert [s][..0] == [];
  }

  lemma ErrorsMore(init: seq<Scenario>, s: Scenario, reqIds: set<string>, acIds: set<string>)
    ensures TagErrors(init + [s], reqIds, acIds)
         == TagErrors(init, reqIds, acIds) + TagErrors([s], reqIds, acIds)
  {
    assert (init + [s])[..|init|] == init && [s][..0] == [];
  }

  /** Scenarios are validated one after the other. */
  lemma {:induction false} ErrorsConcat(a: seq<Scenario>, b: seq<Scenario>, reqIds: set<string>,
                                        acIds: set<string>)
    ensures TagErrors(a + b, reqIds, acIds) == TagErrors(a, reqIds, acIds) + TagErrors(b, reqIds, acIds)
  {
    if b == [] {
      assert a + b == a;
    } else {
      var init, s := b[..|b| - 1], b[|b| - 1];
      assert a + b == a + init + [s] && b == init + [s];
      ErrorsConcat(a, init, reqIds, acIds);
      ErrorsMore(a + init, s, reqIds, acIds);
      ErrorsMore(init, s, reqIds, acIds);
    }
  }
}
