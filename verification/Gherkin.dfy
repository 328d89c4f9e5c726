/** Scanning feature files for scenarios and their tags. */
module Gherkin {
  import opened Text

  datatype Scenario = Scenario(filePath: string, lineNumber: nat, name: string, tags: seq<string>)

  // ---- Lines ----

  /** `str::split_whitespace` */
  function Words(s: string): seq<string>
    decreases |s|
  {
    var t := TrimStart(s);
    TrimStartShortens(s);
    if t == "" then []
    else
      var n := WordLength(t);
      [t[..n]] + Words(t[n..])
  }

  lemma {:induction false} TrimStartShortens(s: string)
    ensures |TrimStart(s)| <= |s|
    ensures TrimStart(s) != "" ==> !IsWhitespace(TrimStart(s)[0])
  {
    if s != "" && IsWhitespace(s[0]) {
      TrimStartShortens(s[1..]);
    }
  }

  function WordLength(s: string): (n: nat)
    ensures n <= |s|
    ensures s != "" && !IsWhitespace(s[0]) ==> n > 0
  {
    if s == "" || IsWhitespace(s[0]) then 0 else 1 + WordLength(s[1..])
  }

  function ParseTags(words: seq<string>): seq<string> {
    if words == [] then []
    else (if "@" <= words[0] then [TrimStartMatches(words[0], "@")] else []) + ParseTags(words[1..])
  }

  function ParseTagsFromLine(line: string): seq<string> {
    ParseTags(Words(line))
  }

  const STEP_WORDS := ["Given", "When", "Then", "And", "But", "Examples:", "|"]

  predicate StartsWithAny(s: string, words: seq<string>) {
    words != [] && (words[0] <= s || StartsWithAny(s, words[1..]))
  }

  /** What a trimmed line is to the scanner. */
  datatype Line =
    | TagLine(tags: seq<string>)
    | FeatureLine
    | ScenarioLine(name: string)
    | ClearingLine
    | OtherLine

  function Classify(trimmed: string): Line {
    if "@" <= trimmed then TagLine(ParseTagsFromLine(trimmed))
    else if "Feature:" <= trimmed then FeatureLine
    else if "Scenario:" <= trimmed then ScenarioLine(Trim(TrimStartMatches(trimmed, "Scenario:")))
    else if "Scenario Outline:" <= trimmed then
      ScenarioLine(Trim(TrimStartMatches(trimmed, "Scenario Outline:")))
    else if trimmed != "" && !("#" <= trimmed) && !StartsWithAny(trimmed, STEP_WORDS) then ClearingLine
    else OtherLine
  }

  function ClassifyAll(content: string): seq<Line> {
    var lines := Lines(content);
    seq(|lines|, i requires 0 <= i < |lines| => Classify(Trim(lines[i])))
  }

  // ---- The declarative scope ----

  /** A scenario has begun since the last feature line. */
  predicate InScenario(ls: seq<Line>, i: nat)
    requires i <= |ls|
  {
    exists j | 0 <= j < i :: ls[j].ScenarioLine? && NoFeature(ls, j, i)
  }

  predicate NoFeature(ls: seq<Line>, j: nat, i: nat)
    requires i <= |ls|
  {
    forall k :: j < k < i ==> !ls[k].FeatureLine?
  }

  /** Tags do not reach over a scenario line, a feature line, or other text before the first
      scenario of a feature. */
  predicate IsBoundary(ls: seq<Line>, j: nat)
    requires j < |ls|
  {
    ls[j].ScenarioLine? || ls[j].FeatureLine? || (ls[j].ClearingLine? && !InScenario(ls, j))
  }

  function LastBoundary(ls: seq<Line>, i: nat): (b: int)
    requires i <= |ls|
    ensures -1 <= b < i && (b >= 0 ==> IsBoundary(ls, b))
    ensures forall j :: b < j < i ==> !IsBoundary(ls, j)
  {
    if i == 0 then -1 else if IsBoundary(ls, i - 1) then i - 1 else LastBoundary(ls, i - 1)
  }

  function LastFeature(ls: seq<Line>, i: nat): (f: int)
    requires i <= |ls|
    ensures -1 <= f < i && (f >= 0 ==> ls[f].FeatureLine?)
    ensures forall j :: f < j < i ==> !ls[j].FeatureLine?
  {
    if i == 0 then -1 else if ls[i - 1].FeatureLine? then i - 1 else LastFeature(ls, i - 1)
  }

  /** The tags on the tag lines from `lo` to before `hi`, in order. */
  function TagsBetween(ls: seq<Line>, lo: nat, hi: nat): seq<string>
    requires hi <= |ls|
  {
    if hi <= lo then []
    else TagsBetween(ls, lo, hi - 1) + if ls[hi - 1].TagLine? then ls[hi - 1].tags else []
  }

  /** The tags that reach line `i`. */
  function Pending(ls: seq<Line>, i: nat): seq<string>
    requires i <= |ls|
  {
    TagsBetween(ls, LastBoundary(ls, i) + 1, i)
  }

  function FeatureTags(ls: seq<Line>, i: nat): seq<string>
    requires i <= |ls|
  {
    var f := LastFeature(ls, i);
    if f == -1 then [] else Pending(ls, f)
  }

  /** The tags of a scenario: those that reached its feature, then those that reach its own line. */
  function TagsOf(ls: seq<Line>, i: nat): seq<string>
    requires i <= |ls|
  {
    FeatureTags(ls, i) + Pending(ls, i)
  }

  /** The scenario that begins on line `i`. */
  function ScenarioAt(path: string, ls: seq<Line>, i: nat): Scenario
    requires i < |ls| && ls[i].ScenarioLine?
  {
    Scenario(path, i + 1, ls[i].name, TagsOf(ls, i))
  }

  function Scenarios(path: string, ls: seq<Line>, n: nat): seq<Scenario>
    requires n <= |ls|
  {
    if n == 0 then []
    else Scenarios(path, ls, n - 1) + if ls[n - 1].ScenarioLine? then [ScenarioAt(path, ls, n - 1)] else []
  }

  // ---- The scanner ----

  /** The three variables of the scanner. */
  datatype Scope = Scope(featureTags: seq<string>, currentTags: seq<string>, inScenario: bool) {
    function Move(line: Line): Scope {
      match line
      case TagLine(tags) => this.(currentTags := currentTags + tags)
      case FeatureLine => Scope(currentTags, [], false)
      case ScenarioLine(_) => this.(currentTags := [], inScenario := true)
      case ClearingLine => if inScenario then this else this.(currentTags := [])
      case OtherLine => this
    }
  }

  function ScopeAfter(ls: seq<Line>, n: nat): Scope
    requires n <= |ls|
  {
    if n == 0 then Scope([], [], false) else ScopeAfter(ls, n - 1).Move(ls[n - 1])
  }

  function Scanned(path: string, ls: seq<Line>, n: nat): seq<Scenario>
    requires n <= |ls|
  {
    if n == 0 then []
    else
      var s := ScopeAfter(ls, n - 1);
      Scanned(path, ls, n - 1)
      + match ls[n - 1]
        case ScenarioLine(name) => [Scenario(path, n, name, s.featureTags + s.currentTags)]
        case _ => []
  }

  method ParseFeatureFile(path: string, content: string) returns (scenarios: seq<Scenario>)
    ensures var ls := ClassifyAll(content); scenarios == Scanned(path, ls, |ls|)
  {
    var ls := ClassifyAll(content);
    scenarios := [];
    var featureTags: seq<string>, currentTags: seq<string>, inScenario := [], [], false;
    for i := 0 to |ls|
      invariant scenarios == Scanned(path, ls, i)
      invariant Scope(featureTags, currentTags, inScenario) == ScopeAfter(ls, i)
    {
      match ls[i] {
        case TagLine(tags) =>
          currentTags := currentTags + tags;
        case FeatureLine =>
          featureTags, currentTags, inScenario := currentTags, [], false;
        case ScenarioLine(name) =>
          scenarios := scenarios + [Scenario(path, i + 1, name, featureTags + currentTags)];
          currentTags, inScenario := [], true;
        case ClearingLine =>
          if !inScenario {
            currentTags := [];
          }
        case OtherLine =>
      }
    }
  }

  /** What the three variables should be. */
  function ScopeAt(ls: seq<Line>, n: nat): Scope
    requires n <= |ls|
  {
    Scope(FeatureTags(ls, n), Pending(ls, n), InScenario(ls, n))
  }

  lemma {:induction false} VariablesAreScope(ls: seq<Line>, n: nat)
    requires n <= |ls|
    ensures ScopeAfter(ls, n) == ScopeAt(ls, n)
  {
    if n > 0 {
      VariablesAreScope(ls, n - 1);
      ScopeMoves(ls, n - 1);
    }
  }

  /** One pass with three variables computes the declarative scope. */
  lemma {:induction false} ScanIsScope(path: string, ls: seq<Line>, n: nat)
    requires n <= |ls|
    ensures Scanned(path, ls, n) == Scenarios(path, ls, n)
  {
    if n > 0 {
      ScanIsScope(path, ls, n - 1);
      VariablesAreScope(ls, n - 1);
    }
  }

  lemma ScenarioBegun(ls: seq<Line>, i: nat)
    requires i < |ls|
    ensures InScenario(ls, i + 1)
       <==> ls[i].ScenarioLine? || (InScenario(ls, i) && !ls[i].FeatureLine?)
  {
    if ls[i].ScenarioLine? {
      assert NoFeature(ls, i, i + 1);
    } else if InScenario(ls, i) && !ls[i].FeatureLine? {
      var j :| 0 <= j < i && ls[j].ScenarioLine? && NoFeature(ls, j, i);
      assert NoFeature(ls, j, i + 1);
    } else if !ls[i].FeatureLine? {
      assert forall j :: 0 <= j < i && NoFeature(ls, j, i + 1) ==> NoFeature(ls, j, i);
    }
  }

  lemma ScopeMoves(ls: seq<Line>, i: nat)
    requires i < |ls|
    ensures ScopeAt(ls, i + 1) == ScopeAt(ls, i).Move(ls[i])
  {
    ScenarioBegun(ls, i);
    PendingMoves(ls, i);
    assert FeatureTags(ls, i + 1)
        == if ls[i].FeatureLine? then Pending(ls, i) else FeatureTags(ls, i);
  }

  lemma PendingMoves(ls: seq<Line>, i: nat)
    requires i < |ls|
    ensures Pending(ls, i + 1)
         == if IsBoundary(ls, i) then []
            else Pending(ls, i) + if ls[i].TagLine? then ls[i].tags else []
  {
  }

  // ---- What the scope means ----

  /** Nothing from `k` on stops tags before line `i`. */
  predicate Reaches(ls: seq<Line>, k: nat, i: nat)
    requires i <= |ls|
  {
    k < i && forall j :: k <= j < i ==> !IsBoundary(ls, j)
  }

  lemma {:induction false} TagsBetweenMembers(ls: seq<Line>, lo: nat, hi: nat, t: string)
    requires hi <= |ls|
    ensures t in TagsBetween(ls, lo, hi)
       <==> exists k :: lo <= k < hi && ls[k].TagLine? && t in ls[k].tags
  {
    if lo < hi {
      TagsBetweenMembers(ls, lo, hi - 1, t);
    }
  }

  lemma PendingMembers(ls: seq<Line>, i: nat, t: string)
    requires i <= |ls|
    ensures t in Pending(ls, i)
       <==> exists k :: 0 <= k < i && ls[k].TagLine? && t in ls[k].tags && Reaches(ls, k, i)
  {
    var b := LastBoundary(ls, i);
    TagsBetweenMembers(ls, b + 1, i, t);
    if t in Pending(ls, i) {
      var k :| b + 1 <= k < i && ls[k].TagLine? && t in ls[k].tags;
      assert Reaches(ls, k, i);
    }
    if k :| 0 <= k < i && ls[k].TagLine? && t in ls[k].tags && Reaches(ls, k, i) {
      assert b < k;
    }
  }

  /** A scenario carries a tag exactly when some tag line has it and reaches the scenario, or
      reaches the last feature line before it. */
  lemma TagsOfMembers(ls: seq<Line>, i: nat, t: string)
    requires i < |ls|
    ensures t in TagsOf(ls, i) <==>
      exists k :: 0 <= k < i && ls[k].TagLine? && t in ls[k].tags
        && (Reaches(ls, k, i) || (LastFeature(ls, i) >= 0 && Reaches(ls, k, LastFeature(ls, i))))
  {
    var f := LastFeature(ls, i);
    PendingMembers(ls, i, t);
    if f >= 0 {
      PendingMembers(ls, f, t);
    }
  }

  /** The positions of the scenario lines. */
  function ScenarioLines(ls: seq<Line>, n: nat): (at: seq<nat>)
    requires n <= |ls|
    ensures forall k :: 0 <= k < |at| ==> at[k] < n && ls[at[k]].ScenarioLine?
    ensures forall a, b :: 0 <= a < b < |at| ==> at[a] < at[b]
  {
    if n == 0 then []
    else ScenarioLines(ls, n - 1) + if ls[n - 1].ScenarioLine? then [n - 1] else []
  }

  lemma {:induction false} EveryScenarioLine(ls: seq<Line>, n: nat, i: nat)
    requires i < n <= |ls| && ls[i].ScenarioLine?
    ensures i in ScenarioLines(ls, n)
  {
    if i < n - 1 {
      EveryScenarioLine(ls, n - 1, i);
    }
  }

  lemma {:induction false} FoundPerLine(path: string, ls: seq<Line>, n: nat)
    requires n <= |ls|
    ensures |Scenarios(path, ls, n)| == |ScenarioLines(ls, n)|
    ensures forall k :: 0 <= k < |ScenarioLines(ls, n)| ==>
      Scenarios(path, ls, n)[k] == ScenarioAt(path, ls, ScenarioLines(ls, n)[k])
  {
    if n > 0 {
      FoundPerLine(path, ls, n - 1);
    }
  }

  /** The scenarios found are those of the scenario lines, each once and in order. */
  lemma ScenarioPerLine(path: string, ls: seq<Line>, n: nat)
    requires n <= |ls|
    ensures var found, at := Scenarios(path, ls, n), ScenarioLines(ls, n);
      && |found| == |at|
      && (forall k :: 0 <= k < |at| ==> found[k] == ScenarioAt(path, ls, at[k]))
      && (forall a, b :: 0 <= a < b < |at| ==> at[a] < at[b])
      && (forall i :: 0 <= i < n && ls[i].ScenarioLine? ==> i in at)
  {
    FoundPerLine(path, ls, n);
    forall i | 0 <= i < n && ls[i].ScenarioLine?
      ensures i in ScenarioLines(ls, n)
    {
      EveryScenarioLine(ls, n, i);
    }
  }

  // ---- Requirement and criterion tags ----

  predicate IsReqTag(t: string) {
    "REQ-" <= t || "INF-REQ-" <= t
  }

  predicate IsAcTag(t: string) {
    "AC-" <= t
  }

  function Filter(tags: seq<string>, keep: string -> bool): seq<string> {
    if tags == [] then []
    else Filter(tags[..|tags| - 1], keep)
         + if keep(tags[|tags| - 1]) then [tags[|tags| - 1]] else []
  }

  function ReqTags(s: Scenario): seq<string> {
    Filter(s.tags, IsReqTag)
  }

  function AcTags(s: Scenario): seq<string> {
    Filter(s.tags, IsAcTag)
  }

  /** Filtering keeps each tag that qualifies as often as it comes. */
  lemma {:induction false} FilterCounts(tags: seq<string>, keep: string -> bool, t: string)
    ensures multiset(Filter(tags, keep))[t] == if keep(t) then multiset(tags)[t] else 0
  {
    if tags != [] {
      var init, last := tags[..|tags| - 1], tags[|tags| - 1];
      assert tags == init + [last];
      FilterCounts(init, keep, t);
    }
  }

  datatype CrossRefError = InvalidGherkinTag(featurePath: string, line: nat, tag: string)

  function Invalid(s: Scenario, tags: seq<string>, ids: set<string>): seq<CrossRefError> {
    if tags == [] then []
    else
      var t := tags[|tags| - 1];
      Invalid(s, tags[..|tags| - 1], ids)
      + if t in ids then [] else [InvalidGherkinTag(s.filePath, s.lineNumber, t)]
  }

  function TagErrors(scenarios: seq<Scenario>, reqIds: set<string>, acIds: set<string>): seq<CrossRefError> {
    if scenarios == [] then []
    else
      var s := scenarios[|scenarios| - 1];
      TagErrors(scenarios[..|scenarios| - 1], reqIds, acIds)
      + Invalid(s, ReqTags(s), reqIds) + Invalid(s, AcTags(s), acIds)
  }

  method ValidateTags(scenarios: seq<Scenario>, reqIds: set<string>, acIds: set<string>)
    returns (errors: seq<CrossRefError>)
    ensures errors == TagErrors(scenarios, reqIds, acIds)
  {
    errors := [];
    for i := 0 to |scenarios|
      invariant errors == TagErrors(scenarios[..i], reqIds, acIds)
    {
      var s := scenarios[i];
      assert scenarios[..i + 1][..i] == scenarios[..i];
      errors := AddInvalid(errors, s, ReqTags(s), reqIds);
      errors := AddInvalid(errors, s, AcTags(s), acIds);
    }
    assert scenarios[..|scenarios|] == scenarios;
  }

  method AddInvalid(before: seq<CrossRefError>, s: Scenario, tags: seq<string>, ids: set<string>)
    returns (errors: seq<CrossRefError>)
    ensures errors == before + Invalid(s, tags, ids)
  {
    errors := before;
    for j := 0 to |tags|
      invariant errors == before + Invalid(s, tags[..j], ids)
    {
      assert tags[..j + 1][..j] == tags[..j];
      if tags[j] !in ids {
        errors := errors + [InvalidGherkinTag(s.filePath, s.lineNumber, tags[j])];
      }
    }
    assert tags[..|tags|] == tags;
  }

  lemma {:induction false} InvalidCounts(s: Scenario, tags: seq<string>, ids: set<string>, e: CrossRefError)
    ensures multiset(Invalid(s, tags, ids))[e]
         == if e == InvalidGherkinTag(s.filePath, s.lineNumber, e.tag) && e.tag !in ids
            then multiset(tags)[e.tag] else 0
  {
    if tags != [] {
      var init, t := tags[..|tags| - 1], tags[|tags| - 1];
      assert tags == init + [t];
      InvalidCounts(s, init, ids, e);
    }
  }

  /** How often a scenario is blamed for a tag. */
  function Blame(s: Scenario, e: CrossRefError, reqIds: set<string>, acIds: set<string>): nat {
    if e != InvalidGherkinTag(s.filePath, s.lineNumber, e.tag) then 0
    else if (IsReqTag(e.tag) && e.tag !in reqIds) || (IsAcTag(e.tag) && e.tag !in acIds)
    then multiset(s.tags)[e.tag] else 0
  }

  function TotalBlame(scenarios: seq<Scenario>, e: CrossRefError, reqIds: set<string>,
                      acIds: set<string>): nat {
    if scenarios == [] then 0
    else TotalBlame(scenarios[..|scenarios| - 1], e, reqIds, acIds)
         + Blame(scenarios[|scenarios| - 1], e, reqIds, acIds)
  }

  /** Every occurrence of an unknown tag is reported at its scenario, and nothing else is. */
  lemma {:induction false} ErrorsExactly(
      scenarios: seq<Scenario>, reqIds: set<string>, acIds: set<string>, e: CrossRefError)
    ensures multiset(TagErrors(scenarios, reqIds, acIds))[e] == TotalBlame(scenarios, e, reqIds, acIds)
  {
    if scenarios != [] {
      var s := scenarios[|scenarios| - 1];
      ErrorsExactly(scenarios[..|scenarios| - 1], reqIds, acIds, e);
      InvalidCounts(s, ReqTags(s), reqIds, e);
      InvalidCounts(s, AcTags(s), acIds, e);
      FilterCounts(s.tags, IsReqTag, e.tag);
      FilterCounts(s.tags, IsAcTag, e.tag);
      ReqIsNotAc(e.tag);
    }
  }

  lemma ReqIsNotAc(t: string)
    ensures !(IsReqTag(t) && IsAcTag(t))
  {
    assert "AC-"[0] == 'A' && "REQ-"[0] == 'R' && "INF-REQ-"[0] == 'I';
  }
}
