/** Changelog text from conventional commits. */
module Changelog {
  import opened Wrappers
  import opened Lists
  import opened Text

  datatype ChangelogEntry = ChangelogEntry(
    commitType: string, scope: Option<string>, message: string, hash: string, breaking: bool)

  /** The section headers, each with its text. */
  datatype Section =
    | Added | BreakingChanges | CI | Chore | Documentation | Fixed | Other
    | Performance | Refactored | Testing
  {
    function Name(): string {
      match this
      case Added => "Added"
      case BreakingChanges => "Breaking Changes"
      case CI => "CI"
      case Chore => "Chore"
      case Documentation => "Documentation"
      case Fixed => "Fixed"
      case Other => "Other"
      case Performance => "Performance"
      case Refactored => "Refactored"
      case Testing => "Testing"
    }

    /** Display order */
    function Order(): nat {
      match this
      case BreakingChanges => 0
      case Added => 1
      case Fixed => 2
      case Performance => 3
      case Refactored => 4
      case Documentation => 5
      case Testing => 6
      case CI => 7
      case Chore => 8
      case Other => 9
    }
  }

  function TypeToSection(commitType: string): Section {
    if commitType == "feat" then Added
    else if commitType == "fix" then Fixed
    else if commitType == "docs" then Documentation
    else if commitType == "test" then Testing
    else if commitType == "ci" then CI
    else if commitType == "refactor" then Refactored
    else if commitType == "perf" then Performance
    else if commitType == "chore" then Chore
    else Other
  }

  // ---- Grouping ----

  predicate BelongsIn(e: ChangelogEntry, section: Section) {
    (section == BreakingChanges && e.breaking) || TypeToSection(e.commitType) == section
  }

  /** The entries of one section, in input order. */
  function EntriesIn(entries: seq<ChangelogEntry>, section: Section): seq<ChangelogEntry> {
    if entries == [] then []
    else
      var init, e := entries[..|entries| - 1], entries[|entries| - 1];
      EntriesIn(init, section) + if BelongsIn(e, section) then [e] else []
  }

  type Groups = map<Section, seq<ChangelogEntry>>

  function Push(groups: Groups, section: Section, e: ChangelogEntry): Groups {
    groups[section := (if section in groups then groups[section] else []) + [e]]
  }

  /** The iteration order of the map: the sections by the bytes of their names. */
  const MAP_ORDER := [Added, BreakingChanges, CI, Chore, Documentation, Fixed, Other,
                      Performance, Refactored, Testing]

  /** Each section that has entries, with its entries. */
  function GroupsOf(entries: seq<ChangelogEntry>): Groups {
    map s: Section | EntriesIn(entries, s) != [] :: EntriesIn(entries, s)
  }

  lemma GroupsGrow(entries: seq<ChangelogEntry>, e: ChangelogEntry)
    ensures var groups := if e.breaking then Push(GroupsOf(entries), BreakingChanges, e)
                          else GroupsOf(entries);
      GroupsOf(entries + [e]) == Push(groups, TypeToSection(e.commitType), e)
  {
    var groups := if e.breaking then Push(GroupsOf(entries), BreakingChanges, e)
                  else GroupsOf(entries);
    var more, more' := GroupsOf(entries + [e]), Push(groups, TypeToSection(e.commitType), e);
    assert (entries + [e])[..|entries|] == entries;
    forall s: Section
      ensures EntriesIn(entries + [e], s) == EntriesIn(entries, s) + if BelongsIn(e, s) then [e] else []
      ensures s in more <==> s in more'
      ensures s in more ==> more[s] == more'[s]
    {
    }
  }

  method GroupByType(entries: seq<ChangelogEntry>) returns (groups: Groups)
    ensures groups == GroupsOf(entries)
  {
    groups := map[];
    for i := 0 to |entries|
      invariant groups == GroupsOf(entries[..i])
    {
      var e := entries[i];
      GroupsGrow(entries[..i], e);
      assert entries[..i + 1] == entries[..i] + [e];
      if e.breaking {
        groups := Push(groups, BreakingChanges, e);
      }
      groups := Push(groups, TypeToSection(e.commitType), e);
    }
    assert entries[..|entries|] == entries;
  }

  /** `into_iter().collect()`: the names of the groups in map order. */
  function Collect(names: seq<Section>, groups: Groups): seq<Section> {
    if names == [] then []
    else (if names[0] in groups then [names[0]] else []) + Collect(names[1..], groups)
  }

  /** `sort_by_key` with the display order, a stable sort. */
  function Insert(name: Section, sorted: seq<Section>): seq<Section> {
    if sorted == [] || name.Order() <= sorted[0].Order() then [name] + sorted
    else [sorted[0]] + Insert(name, sorted[1..])
  }

  function SortByOrder(names: seq<Section>): seq<Section> {
    if names == [] then [] else Insert(names[0], SortByOrder(names[1..]))
  }

  function SortedSections(groups: Groups): seq<Section> {
    SortByOrder(Collect(MAP_ORDER, groups))
  }

  lemma {:induction false} InsertKeepsNames(name: Section, sorted: seq<Section>)
    ensures multiset(Insert(name, sorted)) == multiset{name} + multiset(sorted)
  {
    if !(sorted == [] || name.Order() <= sorted[0].Order()) {
      assert sorted == [sorted[0]] + sorted[1..];
      InsertKeepsNames(name, sorted[1..]);
    }
  }

  lemma {:induction false} SortKeepsNames(names: seq<Section>)
    ensures multiset(SortByOrder(names)) == multiset(names)
  {
    if names != [] {
      SortKeepsNames(names[1..]);
      InsertKeepsNames(names[0], SortByOrder(names[1..]));
      assert names == [names[0]] + names[1..];
    }
  }

  lemma {:induction false} CollectedNames(names: seq<Section>, groups: Groups)
    requires forall i, j :: 0 <= i < j < |names| ==> names[i] != names[j]
    ensures forall s :: multiset(Collect(names, groups))[s] == if s in names && s in groups then 1 else 0
  {
    if names != [] {
      CollectedNames(names[1..], groups);
      assert names == [names[0]] + names[1..];
    }
  }

  /** Every group is a section once, and nothing else is a section. */
  lemma SectionsOnce(groups: Groups)
    ensures forall s :: multiset(SortedSections(groups))[s] == if s in groups then 1 else 0
    ensures forall s :: s in SortedSections(groups) <==> s in groups
  {
    forall s: Section
      ensures s in MAP_ORDER
    {
      var k := match s case Added => 0 case BreakingChanges => 1 case CI => 2 case Chore => 3
        case Documentation => 4 case Fixed => 5 case Other => 6 case Performance => 7
        case Refactored => 8 case Testing => 9;
      assert MAP_ORDER[k] == s;
    }
    CollectedNames(MAP_ORDER, groups);
    SortKeepsNames(Collect(MAP_ORDER, groups));
    forall s
      ensures s in SortedSections(groups) <==> s in groups
    {
      assert s in SortedSections(groups) <==> s in multiset(SortedSections(groups));
    }
  }

  // ---- Printing ----

  function FormatEntry(e: ChangelogEntry): string {
    "- " + (if e.breaking then "**BREAKING** " else "")
    + (match e.scope case Some(s) => "**" + s + "**: " case None => "")
    + e.message + " (" + e.hash + ")"
  }

  function Bullets(entries: seq<ChangelogEntry>): (ls: seq<string>)
    ensures |ls| == |entries|
    ensures forall i :: 0 <= i < |ls| ==> ls[i] == FormatEntry(entries[i])
  {
    seq(|entries|, i requires 0 <= i < |entries| => FormatEntry(entries[i]))
  }

  function SectionLines(entries: seq<ChangelogEntry>, section: Section): seq<string> {
    ["", "### " + section.Name(), ""] + Bullets(EntriesIn(entries, section))
  }

  function AllSectionLines(entries: seq<ChangelogEntry>, sections: seq<Section>): seq<string> {
    if sections == [] then []
    else
      AllSectionLines(entries, sections[..|sections| - 1])
      + SectionLines(entries, sections[|sections| - 1])
  }

  const NOTHING_FOUND := "No conventional commits found."

  /** The lines of the changelog. */
  function ChangelogLines(entries: seq<ChangelogEntry>, title: string): seq<string> {
    [title] + if entries == [] then ["", NOTHING_FOUND]
              else AllSectionLines(entries, SortedSections(GroupsOf(entries)))
  }

  /** The text that `generate_changelog` returns. */
  function ChangelogText(entries: seq<ChangelogEntry>, title: string): string {
    Unlines(ChangelogLines(entries, title))
  }

  lemma UnlinesOfOne(ls: seq<string>, l: string)
    ensures Unlines(ls + [l]) == Unlines(ls) + (l + "\n")
  {
    UnlinesAppend(ls, [l]);
    assert Unlines([l]) == l + "\n" + Unlines([]);
  }

  lemma UnlinesOfHeading(heading: string)
    ensures Unlines(["", heading, ""]) == "\n" + heading + "\n\n"
  {
    UnlinesOfOne([], "");
    UnlinesOfOne([""], heading);
    UnlinesOfOne(["", heading], "");
    assert [] + [""] == [""] && [""] + [heading] == ["", heading];
    assert ["", heading] + [""] == ["", heading, ""];
  }

  lemma UnlinesOfThree(a: string, c: string)
    ensures Unlines([a, "", c]) == a + "\n\n" + c + "\n"
  {
    UnlinesOfOne([], a);
    UnlinesOfOne([a], "");
    UnlinesOfOne([a, ""], c);
    assert [] + [a] == [a] && [a] + [""] == [a, ""] && [a, ""] + [c] == [a, "", c];
  }

  method PushSection(output: string, section: Section, members: seq<ChangelogEntry>) returns (r: string)
    ensures r == output + Unlines(["", "### " + section.Name(), ""] + Bullets(members))
  {
    ghost var head := ["", "### " + section.Name(), ""];
    UnlinesOfHeading("### " + section.Name());
    r := output + ("\n### " + section.Name() + "\n\n");
    assert "\n### " + section.Name() == "\n" + ("### " + section.Name());
    assert head + Bullets(members[..0]) == head;
    for j := 0 to |members|
      invariant r == output + Unlines(head + Bullets(members[..j]))
    {
      var line := FormatEntry(members[j]) + "\n";
      UnlinesOfOne(head + Bullets(members[..j]), FormatEntry(members[j]));
      ConcatAssociates(output, Unlines(head + Bullets(members[..j])), line);
      r := r + line;
      assert head + Bullets(members[..j]) + [FormatEntry(members[j])] == head + Bullets(members[..j + 1]);
    }
    assert members[..|members|] == members;
  }

  lemma AllSectionLinesGrow(entries: seq<ChangelogEntry>, sections: seq<Section>, i: nat)
    requires i < |sections|
    ensures Unlines(AllSectionLines(entries, sections[..i + 1]))
         == Unlines(AllSectionLines(entries, sections[..i])) + Unlines(SectionLines(entries, sections[i]))
  {
    assert sections[..i + 1][..i] == sections[..i];
    UnlinesAppend(AllSectionLines(entries, sections[..i]), SectionLines(entries, sections[i]));
  }

  method PushSections(title: string, entries: seq<ChangelogEntry>, groups: Groups,
                      sections: seq<Section>) returns (output: string)
    requires forall i :: 0 <= i < |sections| ==>
      sections[i] in groups && groups[sections[i]] == EntriesIn(entries, sections[i])
    ensures output == title + "\n" + Unlines(AllSectionLines(entries, sections))
  {
    output := title + "\n";
    ghost var head := output;
    for i := 0 to |sections|
      invariant output == head + Unlines(AllSectionLines(entries, sections[..i]))
    {
      output := PushSection(output, sections[i], groups[sections[i]]);
      AllSectionLinesGrow(entries, sections, i);
      ConcatAssociates(head, Unlines(AllSectionLines(entries, sections[..i])),
                       Unlines(SectionLines(entries, sections[i])));
    }
    assert sections[..|sections|] == sections;
  }

  method GenerateChangelog(entries: seq<ChangelogEntry>, title: string) returns (output: string)
    ensures output == ChangelogText(entries, title)
  {
    if entries == [] {
      UnlinesOfThree(title, NOTHING_FOUND);
      output := title + "\n\n" + NOTHING_FOUND + "\n";
      assert [title] + ["", NOTHING_FOUND] == [title, "", NOTHING_FOUND];
    } else {
      var groups := GroupByType(entries);
      SectionsOnce(groups);
      output := PushSections(title, entries, groups, SortedSections(groups));
    }
  }
}
