/** What the generated changelog conserves. */
module ChangelogLaws {
  import opened Text
  import opened Changelog

  // ---- Sections ----

  predicate Ordered(names: seq<Section>) {
    forall i, j :: 0 <= i < j < |names| ==> names[i].Order() <= names[j].Order()
  }

  lemma {:induction false} SortIsSorted(names: seq<Section>)
    ensures Ordered(SortByOrder(names))
  {
    if names != [] {
      SortIsSorted(names[1..]);
      InsertIsSorted(names[0], SortByOrder(names[1..]));
    }
  }

  lemma {:induction false} InsertIsSorted(name: Section, sorted: seq<Section>)
    requires Ordered(sorted)
    ensures Ordered(Insert(name, sorted))
    ensures forall s :: s in Insert(name, sorted) ==> s == name || s in sorted
  {
    if !(sorted == [] || name.Order() <= sorted[0].Order()) {
      InsertIsSorted(name, sorted[1..]);
      var r := Insert(name, sorted);
      forall j | 1 <= j < |r|
        ensures sorted[0].Order() <= r[j].Order()
      {
        assert r[j] == Insert(name, sorted[1..])[j - 1] && r[j] in Insert(name, sorted[1..]);
      }
    }
  }

  lemma OnceIsDistinct(names: seq<Section>, i: nat, j: nat)
    requires forall s :: multiset(names)[s] <= 1
    requires i < j < |names|
    ensures names[i] != names[j]
  {
    assert names == names[..j] + names[j..];
    assert multiset(names) == multiset(names[..j]) + multiset(names[j..]);
    assert names[..j][i] == names[i] && names[j..][0] == names[j];
    assert multiset(names[..j])[names[i]] >= 1 && multiset(names[j..])[names[j]] >= 1;
    assert multiset(names)[names[i]] <= 1;
  }

  lemma SectionsAreDistinct(groups: Groups)
    ensures var sections := SortedSections(groups);
      && (forall i, j :: 0 <= i < j < |sections| ==> sections[i] != sections[j])
      && (forall s :: s in sections <==> s in groups)
  {
    SectionsOnce(groups);
    var sections := SortedSections(groups);
    assert forall s :: multiset(sections)[s] <= 1;
    forall i, j | 0 <= i < j < |sections|
      ensures sections[i] != sections[j]
    {
      OnceIsDistinct(sections, i, j);
    }
  }

  /** The sections come out in display order, each one that has entries and no other, once. */
  lemma SectionsInOrder(entries: seq<ChangelogEntry>)
    ensures var sections := SortedSections(GroupsOf(entries));
      && (forall i, j :: 0 <= i < j < |sections| ==> sections[i].Order() < sections[j].Order())
      && (forall s :: s in sections <==> exists e :: e in entries && BelongsIn(e, s))
  {
    var groups, sections := GroupsOf(entries), SortedSections(GroupsOf(entries));
    SectionsAreDistinct(groups);
    SortIsSorted(Collect(MAP_ORDER, groups));
    assert forall s: Section, r: Section :: s.Order() == r.Order() ==> s == r;
    forall s: Section
      ensures s in groups <==> exists e :: e in entries && BelongsIn(e, s)
    {
      SectionIsUsed(entries, s);
    }
  }

  lemma SectionIsUsed(entries: seq<ChangelogEntry>, s: Section)
    ensures EntriesIn(entries, s) != [] <==> exists e :: e in entries && BelongsIn(e, s)
  {
    var ps := Positions(entries, s);
    SectionKeepsOrder(entries, s);
    if EntriesIn(entries, s) != [] {
      assert ps[0] in ps && entries[ps[0]] in entries;
    }
    if e :| e in entries && BelongsIn(e, s) {
      var i :| 0 <= i < |entries| && entries[i] == e;
      assert i in ps;
    }
  }

  /** Where the entries of a section stand in the input. */
  function Positions(entries: seq<ChangelogEntry>, section: Section): (ps: seq<nat>)
    ensures |ps| == |EntriesIn(entries, section)|
    ensures forall k :: 0 <= k < |ps| ==> ps[k] < |entries|
  {
    if entries == [] then []
    else
      Positions(entries[..|entries| - 1], section)
      + if BelongsIn(entries[|entries| - 1], section) then [|entries| - 1] else []
  }

  lemma {:induction false} PositionsHold(entries: seq<ChangelogEntry>, section: Section, k: nat)
    requires k < |Positions(entries, section)|
    ensures var i := Positions(entries, section)[k];
      entries[i] == EntriesIn(entries, section)[k] && BelongsIn(entries[i], section)
  {
    var init := entries[..|entries| - 1];
    if k < |Positions(init, section)| {
      PositionsHold(init, section, k);
    }
  }

  lemma {:induction false} PositionsAscend(entries: seq<ChangelogEntry>, section: Section, k: nat, l: nat)
    requires k < l < |Positions(entries, section)|
    ensures Positions(entries, section)[k] < Positions(entries, section)[l]
  {
    var init := entries[..|entries| - 1];
    if l < |Positions(init, section)| {
      PositionsAscend(init, section, k, l);
    }
  }

  lemma {:induction false} PositionsComplete(entries: seq<ChangelogEntry>, section: Section, i: nat)
    requires i < |entries| && BelongsIn(entries[i], section)
    ensures i in Positions(entries, section)
  {
    if i < |entries| - 1 {
      PositionsComplete(entries[..|entries| - 1], section, i);
    }
  }

  /** A section holds the entries at increasing positions of the input, and at each position whose
      entry belongs in the section. */
  lemma SectionKeepsOrder(entries: seq<ChangelogEntry>, section: Section)
    ensures var ps := Positions(entries, section);
      && (forall k :: 0 <= k < |ps| ==> entries[ps[k]] == EntriesIn(entries, section)[k])
      && (forall k, l :: 0 <= k < l < |ps| ==> ps[k] < ps[l])
      && (forall i :: i in ps <==> 0 <= i < |entries| && BelongsIn(entries[i], section))
  {
    var ps := Positions(entries, section);
    forall k | 0 <= k < |ps|
      ensures entries[ps[k]] == EntriesIn(entries, section)[k] && BelongsIn(entries[ps[k]], section)
    {
      PositionsHold(entries, section, k);
    }
    forall k, l | 0 <= k < l < |ps|
      ensures ps[k] < ps[l]
    {
      PositionsAscend(entries, section, k, l);
    }
    forall i | 0 <= i < |entries| && BelongsIn(entries[i], section)
      ensures i in ps
    {
      PositionsComplete(entries, section, i);
    }
  }

  // ---- Counting bullets ----

  function Sum(entries: seq<ChangelogEntry>, names: seq<Section>): nat {
    if names == [] then 0 else |EntriesIn(entries, names[0])| + Sum(entries, names[1..])
  }

  lemma {:induction false} SumOfInsert(entries: seq<ChangelogEntry>, name: Section, sorted: seq<Section>)
    ensures Sum(entries, Insert(name, sorted)) == |EntriesIn(entries, name)| + Sum(entries, sorted)
  {
    if !(sorted == [] || name.Order() <= sorted[0].Order()) {
      SumOfInsert(entries, name, sorted[1..]);
      assert Insert(name, sorted)[1..] == Insert(name, sorted[1..]);
    } else {
      assert Insert(name, sorted)[1..] == sorted;
    }
  }

  lemma {:induction false} SumOfSort(entries: seq<ChangelogEntry>, names: seq<Section>)
    ensures Sum(entries, SortByOrder(names)) == Sum(entries, names)
  {
    if names != [] {
      SumOfSort(entries, names[1..]);
      SumOfInsert(entries, names[0], SortByOrder(names[1..]));
    }
  }

  lemma {:induction false} SumOfCollect(entries: seq<ChangelogEntry>, names: seq<Section>)
    ensures Sum(entries, Collect(names, GroupsOf(entries))) == Sum(entries, names)
  {
    if names != [] {
      var tail := Collect(names[1..], GroupsOf(entries));
      SumOfCollect(entries, names[1..]);
      if names[0] in GroupsOf(entries) {
        assert ([names[0]] + tail)[1..] == tail;
      } else {
        assert [] + tail == tail;
      }
    }
  }

  /** What one more entry adds to each section. */
  lemma {:induction false} SumGrows(entries: seq<ChangelogEntry>, e: ChangelogEntry, names: seq<Section>)
    ensures Sum(entries + [e], names) == Sum(entries, names) + Shares(e, names)
  {
    if names != [] {
      assert (entries + [e])[..|entries|] == entries;
      SumGrows(entries, e, names[1..]);
    }
  }

  function Shares(e: ChangelogEntry, names: seq<Section>): nat {
    if names == [] then 0 else (if BelongsIn(e, names[0]) then 1 else 0) + Shares(e, names[1..])
  }

  lemma {:induction false} SharesAppend(e: ChangelogEntry, a: seq<Section>, b: seq<Section>)
    ensures Shares(e, a + b) == Shares(e, a) + Shares(e, b)
  {
    if a == [] {
      assert a + b == b;
    } else {
      assert (a + b)[1..] == a[1..] + b;
      SharesAppend(e, a[1..], b);
    }
  }

  /** An entry belongs in its type's section, and in the breaking changes if it is one. */
  lemma SharesOfAll(e: ChangelogEntry)
    ensures Shares(e, MAP_ORDER) == 1 + if e.breaking then 1 else 0
  {
    SharesOneByOne(e);
    assert TypeToSection(e.commitType) != BreakingChanges;
  }

  lemma SharesOneByOne(e: ChangelogEntry)
    ensures Shares(e, MAP_ORDER)
         == Share(e, Added) + Share(e, BreakingChanges) + Share(e, CI) + Share(e, Chore)
            + Share(e, Documentation) + Share(e, Fixed) + Share(e, Other) + Share(e, Performance)
            + Share(e, Refactored) + Share(e, Testing)
  {
    var a := [Added, BreakingChanges, CI];
    var b := [Chore, Documentation, Fixed];
    var c := [Other, Performance];
    var d := [Refactored, Testing];
    assert MAP_ORDER == a + (b + (c + d));
    SharesAppend(e, a, b + (c + d));
    SharesAppend(e, b, c + d);
    SharesAppend(e, c, d);
    SharesOfThree(e, Added, BreakingChanges, CI);
    SharesOfThree(e, Chore, Documentation, Fixed);
    SharesOfTwo(e, Other, Performance);
    SharesOfTwo(e, Refactored, Testing);
  }

  function Share(e: ChangelogEntry, s: Section): nat {
    if BelongsIn(e, s) then 1 else 0
  }

  lemma SharesOfTwo(e: ChangelogEntry, s: Section, r: Section)
    ensures Shares(e, [s, r]) == Share(e, s) + Share(e, r)
  {
    assert [s, r][1..] == [r] && [r][1..] == [];
    assert Shares(e, [r]) == Share(e, r) + Shares(e, []);
  }

  lemma SharesOfThree(e: ChangelogEntry, s: Section, r: Section, q: Section)
    ensures Shares(e, [s, r, q]) == Share(e, s) + Share(e, r) + Share(e, q)
  {
    assert [s, r, q][1..] == [r, q];
    SharesOfTwo(e, r, q);
  }

  function Breaking(entries: seq<ChangelogEntry>): nat {
    if entries == [] then 0
    else Breaking(entries[..|entries| - 1]) + if entries[|entries| - 1].breaking then 1 else 0
  }

  lemma {:induction false} SumOfNothing(names: seq<Section>)
    ensures Sum([], names) == 0
  {
    if names != [] {
      SumOfNothing(names[1..]);
    }
  }

  lemma {:induction false} SumOfAll(entries: seq<ChangelogEntry>)
    ensures Sum(entries, MAP_ORDER) == |entries| + Breaking(entries)
  {
    if entries == [] {
      SumOfNothing(MAP_ORDER);
    } else {
      var init, e := entries[..|entries| - 1], entries[|entries| - 1];
      assert init + [e] == entries;
      SumOfAll(init);
      SumGrows(init, e, MAP_ORDER);
      SharesOfAll(e);
    }
  }

  predicate IsBullet(l: string) {
    "- " <= l
  }

  function CountBullets(ls: seq<string>): nat {
    if ls == [] then 0 else (if IsBullet(ls[0]) then 1 else 0) + CountBullets(ls[1..])
  }

  lemma {:induction false} CountAppend(a: seq<string>, b: seq<string>)
    ensures CountBullets(a + b) == CountBullets(a) + CountBullets(b)
  {
    if a == [] {
      assert a + b == b;
    } else {
      assert (a + b)[1..] == a[1..] + b;
      CountAppend(a[1..], b);
    }
  }

  lemma {:induction false} CountOfAllBullets(ls: seq<string>)
    requires forall i :: 0 <= i < |ls| ==> IsBullet(ls[i])
    ensures CountBullets(ls) == |ls|
  {
    if ls != [] {
      CountOfAllBullets(ls[1..]);
    }
  }

  lemma FormattedIsBullet(e: ChangelogEntry)
    ensures IsBullet(FormatEntry(e))
  {
    assert FormatEntry(e)[..2] == "- ";
  }

  lemma CountOfSection(entries: seq<ChangelogEntry>, section: Section)
    ensures CountBullets(SectionLines(entries, section)) == |EntriesIn(entries, section)|
  {
    var heading := "### " + section.Name();
    var bullets := Bullets(EntriesIn(entries, section));
    forall i | 0 <= i < |bullets|
      ensures IsBullet(bullets[i])
    {
      FormattedIsBullet(EntriesIn(entries, section)[i]);
    }
    CountOfAllBullets(bullets);
    CountOfHeading(heading);
    CountAppend(["", heading, ""], bullets);
  }

  lemma CountOfHeading(heading: string)
    requires heading != "" && heading[0] == '#'
    ensures CountBullets(["", heading, ""]) == 0
  {
    assert ["", heading, ""][1..] == [heading, ""] && [heading, ""][1..] == [""] && [""][1..] == [];
    assert !IsBullet(heading) && !IsBullet("");
    assert CountBullets([""]) == 0 && CountBullets([heading, ""]) == 0;
  }

  lemma {:induction false} CountOfSections(entries: seq<ChangelogEntry>, sections: seq<Section>)
    ensures CountBullets(AllSectionLines(entries, sections)) == SumBack(entries, sections)
  {
    if sections != [] {
      var init := sections[..|sections| - 1];
      CountOfSections(entries, init);
      CountOfSection(entries, sections[|sections| - 1]);
      CountAppend(AllSectionLines(entries, init), SectionLines(entries, sections[|sections| - 1]));
    }
  }

  function SumBack(entries: seq<ChangelogEntry>, names: seq<Section>): nat {
    if names == [] then 0
    else SumBack(entries, names[..|names| - 1]) + |EntriesIn(entries, names[|names| - 1])|
  }

  lemma {:induction false} SumBackIsSum(entries: seq<ChangelogEntry>, names: seq<Section>)
    ensures SumBack(entries, names) == Sum(entries, names)
  {
    if |names| > 1 {
      var first, mid, last := names[0], names[1..|names| - 1], names[|names| - 1];
      SumBackIsSum(entries, names[1..]);
      SumBackIsSum(entries, names[..|names| - 1]);
      SumBackIsSum(entries, mid);
      assert names[1..][..|names| - 2] == mid && names[..|names| - 1][1..] == mid;
    }
  }

  // ---- The text ----

  /** An entry as `git log` gives it: no field spans lines. */
  predicate SingleLine(e: ChangelogEntry) {
    && OneLine(e.message) && OneLine(e.hash)
    && (e.scope.Some? ==> OneLine(e.scope.value))
  }

  lemma FormattedIsPlain(e: ChangelogEntry)
    requires SingleLine(e)
    ensures PlainLine(FormatEntry(e)) && FormatEntry(e)[|FormatEntry(e)| - 1] == ')'
  {
  }

  lemma SectionsArePlain(entries: seq<ChangelogEntry>, sections: seq<Section>)
    requires forall e :: e in entries ==> SingleLine(e)
    ensures forall l :: l in AllSectionLines(entries, sections) ==> PlainLine(l) && !("## " <= l)
  {
    if sections != [] {
      var section := sections[|sections| - 1];
      SectionsArePlain(entries, sections[..|sections| - 1]);
      SectionIsPlain(entries, section);
    }
  }

  lemma SectionIsPlain(entries: seq<ChangelogEntry>, section: Section)
    requires forall e :: e in entries ==> SingleLine(e)
    ensures forall l :: l in SectionLines(entries, section) ==> PlainLine(l) && !("## " <= l)
  {
    var es, ps := EntriesIn(entries, section), Positions(entries, section);
    SectionKeepsOrder(entries, section);
    forall i | 0 <= i < |es|
      ensures PlainLine(FormatEntry(es[i])) && !("## " <= FormatEntry(es[i]))
    {
      assert entries[ps[i]] in entries;
      FormattedIsPlain(es[i]);
      FormattedIsBullet(es[i]);
      NoHeading(FormatEntry(es[i]));
    }
    NoHeading("");
    HeadingIsPlain(section);
  }

  lemma NoHeading(l: string)
    requires l == "" || l[0] != '#' || (|l| > 2 && l[2] != ' ')
    ensures !("## " <= l)
  {
    assert "## "[0] == '#' && "## "[2] == ' ';
  }

  lemma HeadingIsPlain(section: Section)
    ensures PlainLine("### " + section.Name()) && !("## " <= "### " + section.Name())
  {
    assert ("### " + section.Name())[2] == '#';
    NoHeading("### " + section.Name());
    match section
    case Added =>
    case BreakingChanges =>
    case CI =>
    case Chore =>
    case Documentation =>
    case Fixed =>
    case Other =>
    case Performance =>
    case Refactored =>
    case Testing =>
  }

  /** The lines of the text are the changelog's lines. */
  lemma LinesOfChangelog(entries: seq<ChangelogEntry>, title: string)
    requires PlainLine(title) && forall e :: e in entries ==> SingleLine(e)
    ensures Lines(ChangelogText(entries, title)) == ChangelogLines(entries, title)
  {
    var ls := ChangelogLines(entries, title);
    SectionsArePlain(entries, SortedSections(GroupsOf(entries)));
    LinesOfUnlines(ls, "");
    assert Unlines(ls) + "" == Unlines(ls) && ls + [] == ls;
  }

  /** The text has one bullet line for each entry, and one more for each breaking one. */
  lemma BulletsConserved(entries: seq<ChangelogEntry>, title: string)
    requires PlainLine(title) && !IsBullet(title) && forall e :: e in entries ==> SingleLine(e)
    ensures CountBullets(Lines(ChangelogText(entries, title))) == |entries| + Breaking(entries)
  {
    LinesOfChangelog(entries, title);
    if entries == [] {
      NoBullets(title);
    } else {
      assert ChangelogLines(entries, title)[1..] == AllSectionLines(entries, SortedSections(GroupsOf(entries)));
      CountOfAllSections(entries);
    }
  }

  lemma NoBullets(title: string)
    requires !IsBullet(title)
    ensures CountBullets(ChangelogLines([], title)) == 0
  {
    var body := ChangelogLines([], title)[1..];
    assert body == ["", NOTHING_FOUND] && body[1..] == [NOTHING_FOUND] && [NOTHING_FOUND][1..] == [];
    assert !IsBullet("") && !IsBullet(NOTHING_FOUND) by { assert NOTHING_FOUND[0] == 'N'; }
    assert CountBullets([NOTHING_FOUND]) == 0;
  }

  lemma CountOfAllSections(entries: seq<ChangelogEntry>)
    ensures CountBullets(AllSectionLines(entries, SortedSections(GroupsOf(entries))))
         == |entries| + Breaking(entries)
  {
    CountOfSections(entries, SortedSections(GroupsOf(entries)));
    SumBackIsSum(entries, SortedSections(GroupsOf(entries)));
    SumOfSort(entries, Collect(MAP_ORDER, GroupsOf(entries)));
    SumOfCollect(entries, MAP_ORDER);
    SumOfAll(entries);
  }
}
