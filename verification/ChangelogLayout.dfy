/** What a generated changelog looks like: which bullets stand below which headings. */
module ChangelogLayout {
  import opened Text
  import opened Changelog
  import opened ChangelogLaws

  /** The headings in the order in which they come, and the commit type of each but the first and the
      last: breaking changes of any type, and types that have no heading. */
  const HEADINGS := [
    "### Breaking Changes", "### Added", "### Fixed", "### Performance", "### Refactored",
    "### Documentation", "### Testing", "### CI", "### Chore", "### Other"
  ]

  const TYPES := ["", "feat", "fix", "perf", "refactor", "docs", "test", "ci", "chore", ""]

  predicate Belongs(e: ChangelogEntry, k: nat) {
    if k == 0 then e.breaking
    else if k < 9 then e.commitType == TYPES[k]
    else forall j :: 1 <= j < 9 ==> e.commitType != TYPES[j]
  }

  function Bullet(e: ChangelogEntry): string {
    var text := e.message + " (" + e.hash + ")";
    match (e.breaking, e.scope)
    case (false, None) => "- " + text
    case (false, Some(s)) => "- **" + s + "**: " + text
    case (true, None) => "- **BREAKING** " + text
    case (true, Some(s)) => "- **BREAKING** **" + s + "**: " + text
  }

  /** The bullets of the entries below heading `k`, in input order. */
  function BulletsBelow(entries: seq<ChangelogEntry>, k: nat): seq<string> {
    if entries == [] then []
    else
      var e := entries[|entries| - 1];
      BulletsBelow(entries[..|entries| - 1], k) + if Belongs(e, k) then [Bullet(e)] else []
  }

  function Block(entries: seq<ChangelogEntry>, k: nat): seq<string>
    requires k < |HEADINGS|
  {
    var bullets := BulletsBelow(entries, k);
    if bullets == [] then [] else ["", HEADINGS[k], ""] + bullets
  }

  /** The first `n` headings that have entries, each with its bullets. */
  function Layout(entries: seq<ChangelogEntry>, n: nat): seq<string>
    requires n <= |HEADINGS|
  {
    if n == 0 then [] else Layout(entries, n - 1) + Block(entries, n - 1)
  }

  // ---- The generator makes this layout ----

  const DISPLAY := [
    BreakingChanges, Added, Fixed, Performance, Refactored, Documentation, Testing, CI, Chore, Other
  ]

  lemma DisplayOrder(k: nat)
    requires k < 10
    ensures DISPLAY[k].Order() == k
  {
  }

  lemma FirstHeadings(k: nat)
    requires k < 5
    ensures HEADINGS[k] == "### " + DISPLAY[k].Name()
  {
  }

  lemma LastHeadings(k: nat)
    requires 5 <= k < 10
    ensures HEADINGS[k] == "### " + DISPLAY[k].Name()
  {
  }

  lemma DisplayIs(k: nat)
    requires k < 10
    ensures HEADINGS[k] == "### " + DISPLAY[k].Name() && DISPLAY[k].Order() == k
  {
    DisplayOrder(k);
    if k < 5 {
      FirstHeadings(k);
    } else {
      LastHeadings(k);
    }
  }

  lemma SameBullet(e: ChangelogEntry)
    ensures FormatEntry(e) == Bullet(e)
  {
    var text := e.message + " (" + e.hash + ")";
    match (e.breaking, e.scope) {
      case (false, None) =>
        assert FormatEntry(e) == "- " + "" + "" + text;
      case (false, Some(s)) =>
        assert FormatEntry(e) == "- " + "" + ("**" + s + "**: ") + text;
        assert "- " + "" + "**" == "- **";
      case (true, None) =>
        assert FormatEntry(e) == "- " + "**BREAKING** " + "" + text;
        assert "- " + "**BREAKING** " + "" == "- **BREAKING** ";
      case (true, Some(s)) =>
        assert FormatEntry(e) == "- " + "**BREAKING** " + ("**" + s + "**: ") + text;
        assert "- " + "**BREAKING** " + "**" == "- **BREAKING** **";
    }
  }

  lemma SameBelonging(e: ChangelogEntry, k: nat)
    requires k < 10
    ensures Belongs(e, k) <==> BelongsIn(e, DISPLAY[k])
  {
    assert TYPES[1] == "feat" && TYPES[2] == "fix" && TYPES[3] == "perf" && TYPES[4] == "refactor";
    assert TYPES[5] == "docs" && TYPES[6] == "test" && TYPES[7] == "ci" && TYPES[8] == "chore";
  }

  lemma {:induction false} SameBullets(entries: seq<ChangelogEntry>, k: nat)
    requires k < 10
    ensures BulletsBelow(entries, k) == Bullets(EntriesIn(entries, DISPLAY[k]))
  {
    if entries != [] {
      var init, e := entries[..|entries| - 1], entries[|entries| - 1];
      SameBullets(init, k);
      SameBullet(e);
      SameBelonging(e, k);
    }
  }

  predicate IsDisplay(display: seq<Section>) {
    |display| == 10 && forall k: nat :: k < 10 ==> display[k].Order() == k
  }

  /** Of the first `n` sections in display order, those that have entries. */
  function Used(entries: seq<ChangelogEntry>, display: seq<Section>, n: nat): seq<Section>
    requires n <= |display|
  {
    if n == 0 then []
    else
      Used(entries, display, n - 1)
      + if EntriesIn(entries, display[n - 1]) != [] then [display[n - 1]] else []
  }

  lemma SameBlock(entries: seq<ChangelogEntry>, k: nat)
    requires k < 10
    ensures Block(entries, k)
         == if EntriesIn(entries, DISPLAY[k]) == [] then [] else SectionLines(entries, DISPLAY[k])
  {
    SameBullets(entries, k);
    DisplayIs(k);
  }

  lemma SectionAppended(entries: seq<ChangelogEntry>, init: seq<Section>, s: Section)
    ensures AllSectionLines(entries, init + [s]) == AllSectionLines(entries, init) + SectionLines(entries, s)
  {
    assert (init + [s])[..|init|] == init;
  }

  lemma {:induction false} UsedLines(entries: seq<ChangelogEntry>, n: nat)
    requires n <= 10
    ensures AllSectionLines(entries, Used(entries, DISPLAY, n)) == Layout(entries, n)
  {
    if n > 0 {
      UsedLines(entries, n - 1);
      SameBlock(entries, n - 1);
      OneMoreBlock(entries, Used(entries, DISPLAY, n - 1), DISPLAY[n - 1], Layout(entries, n - 1),
                   Block(entries, n - 1));
    }
  }

  lemma OneMoreBlock(entries: seq<ChangelogEntry>, used: seq<Section>, s: Section, ls: seq<string>,
                     block: seq<string>)
    requires AllSectionLines(entries, used) == ls
    requires block == if EntriesIn(entries, s) == [] then [] else SectionLines(entries, s)
    ensures AllSectionLines(entries, used + if EntriesIn(entries, s) != [] then [s] else []) == ls + block
  {
    SectionAppended(entries, used, s);
    assert used + [] == used && ls + [] == ls;
  }

  predicate Increasing(sections: seq<Section>) {
    forall i, j :: 0 <= i < j < |sections| ==> sections[i].Order() < sections[j].Order()
  }

  lemma OrderDecides(s: Section, r: Section)
    requires s.Order() == r.Order()
    ensures s == r
  {
  }

  lemma {:induction false} UsedIncreases(entries: seq<ChangelogEntry>, display: seq<Section>, n: nat)
    requires IsDisplay(display) && n <= 10
    ensures Increasing(Used(entries, display, n))
    ensures forall s :: s in Used(entries, display, n) <==> s.Order() < n && EntriesIn(entries, s) != []
  {
    if n > 0 {
      UsedIncreases(entries, display, n - 1);
      forall s: Section | s.Order() == n - 1
        ensures s == display[n - 1]
      {
        OrderDecides(s, display[n - 1]);
      }
    }
  }

  lemma BothEmpty(a: seq<Section>, b: seq<Section>)
    requires forall s :: s in a <==> s in b
    ensures a == [] <==> b == []
  {
    if a != [] {
      assert a[0] in b;
    }
    if b != [] {
      assert b[0] in a;
    }
  }

  lemma {:induction false} IncreasingIsUnique(a: seq<Section>, b: seq<Section>)
    requires Increasing(a) && Increasing(b) && forall s :: s in a <==> s in b
    ensures a == b
  {
    BothEmpty(a, b);
    if a != [] {
      var x, y := a[|a| - 1], b[|b| - 1];
      assert x in b && y in a;
      OrderDecides(x, y);
      var a', b' := a[..|a| - 1], b[..|b| - 1];
      assert a == a' + [x] && b == b' + [x];
      forall s: Section
        ensures s in a' <==> s in b'
      {
        assert s in a' <==> s in a && s != x;
        assert s in b' <==> s in b && s != x;
      }
      IncreasingIsUnique(a', b');
    }
  }

  lemma InDisplayOrder()
    ensures IsDisplay(DISPLAY)
  {
    forall k: nat | k < 10
      ensures DISPLAY[k].Order() == k
    {
      DisplayOrder(k);
    }
  }

  lemma SortedAreUsed(entries: seq<ChangelogEntry>, display: seq<Section>)
    requires IsDisplay(display)
    ensures SortedSections(GroupsOf(entries)) == Used(entries, display, 10)
  {
    var sections := SortedSections(GroupsOf(entries));
    SectionsInOrder(entries);
    UsedIncreases(entries, display, 10);
    forall s: Section
      ensures s in sections <==> s in Used(entries, display, 10)
    {
      SectionIsUsed(entries, s);
    }
    IncreasingIsUnique(sections, Used(entries, display, 10));
  }

  /** The generated lines are the title and this layout, or one sentence if there is no entry. */
  lemma GeneratedLayout(entries: seq<ChangelogEntry>, title: string)
    ensures ChangelogLines(entries, title) ==
      [title] + if entries == [] then ["", "No conventional commits found."] else Layout(entries, 10)
  {
    InDisplayOrder();
    SortedAreUsed(entries, DISPLAY);
    UsedLines(entries, 10);
  }

  // ---- Reading it by headings ----

  /** Each bullet line with the heading above it. */
  function Filed(ls: seq<string>, heading: string): seq<(string, string)> {
    if ls == [] then []
    else if "### " <= ls[0] then Filed(ls[1..], ls[0])
    else if "- " <= ls[0] then [(heading, ls[0])] + Filed(ls[1..], heading)
    else Filed(ls[1..], heading)
  }

  function LastHeading(ls: seq<string>, heading: string): string {
    if ls == [] then heading
    else LastHeading(ls[1..], if "### " <= ls[0] then ls[0] else heading)
  }

  lemma {:induction false} FiledConcat(a: seq<string>, b: seq<string>, heading: string)
    ensures Filed(a + b, heading) == Filed(a, heading) + Filed(b, LastHeading(a, heading))
  {
    if a == [] {
      assert a + b == b;
    } else {
      FiledConcat(a[1..], b, if "### " <= a[0] then a[0] else heading);
      assert (a + b)[0] == a[0] && (a + b)[1..] == a[1..] + b;
    }
  }

  function Under(heading: string, bullets: seq<string>): (ps: seq<(string, string)>)
    ensures |ps| == |bullets| && forall i :: 0 <= i < |ps| ==> ps[i] == (heading, bullets[i])
  {
    seq(|bullets|, i requires 0 <= i < |bullets| => (heading, bullets[i]))
  }

  lemma {:induction false} FiledBullets(bullets: seq<string>, heading: string)
    requires forall i :: 0 <= i < |bullets| ==> "- " <= bullets[i]
    ensures Filed(bullets, heading) == Under(heading, bullets)
  {
    if bullets != [] {
      assert "- "[0] == '-' && "### "[0] == '#' && !("### " <= bullets[0]);
      FiledBullets(bullets[1..], heading);
    }
  }

  lemma {:induction false} BulletsAreBullets(entries: seq<ChangelogEntry>, k: nat)
    ensures forall i :: 0 <= i < |BulletsBelow(entries, k)| ==> "- " <= BulletsBelow(entries, k)[i]
  {
    if entries != [] {
      BulletsAreBullets(entries[..|entries| - 1], k);
    }
  }

  lemma FiledBlock(entries: seq<ChangelogEntry>, k: nat, heading: string)
    requires k < 10
    ensures Filed(Block(entries, k), heading) == Under(HEADINGS[k], BulletsBelow(entries, k))
  {
    var bullets, h := BulletsBelow(entries, k), HEADINGS[k];
    if bullets != [] {
      BulletsAreBullets(entries, k);
      FiledBullets(bullets, h);
      DisplayIs(k);
      HeadingFirst(h, bullets, heading);
    }
  }

  lemma HeadingFirst(h: string, bullets: seq<string>, heading: string)
    requires "### " <= h
    ensures Filed(["", h, ""] + bullets, heading) == Filed(bullets, h)
  {
    var ls := ["", h, ""] + bullets;
    var two, one := [h, ""] + bullets, [""] + bullets;
    assert !("### " <= "") && !("- " <= "");
    assert ls[1..] == two && ls[0] == "" && Filed(ls, heading) == Filed(two, heading);
    assert two[1..] == one && two[0] == h && Filed(two, heading) == Filed(one, h);
    assert one[1..] == bullets && one[0] == "";
  }

  /** What stands below the first `n` headings. */
  function Pairs(entries: seq<ChangelogEntry>, n: nat): seq<(string, string)>
    requires n <= 10
  {
    if n == 0 then [] else Pairs(entries, n - 1) + Under(HEADINGS[n - 1], BulletsBelow(entries, n - 1))
  }

  lemma {:induction false} FiledLayout(entries: seq<ChangelogEntry>, n: nat, heading: string)
    requires n <= 10
    ensures Filed(Layout(entries, n), heading) == Pairs(entries, n)
  {
    if n > 0 {
      FiledLayout(entries, n - 1, heading);
      FiledConcat(Layout(entries, n - 1), Block(entries, n - 1), heading);
      FiledBlock(entries, n - 1, LastHeading(Layout(entries, n - 1), heading));
    }
  }

  /** Read by its headings, a generated changelog has, in the order of the headings, below each the
      bullets of the entries that belong there, in input order, and no other. */
  lemma ChangelogIsFiled(entries: seq<ChangelogEntry>, title: string)
    requires PlainLine(title) && entries != [] && forall e :: e in entries ==> SingleLine(e)
    ensures Lines(ChangelogText(entries, title)) != [] && Lines(ChangelogText(entries, title))[0] == title
    ensures Filed(Lines(ChangelogText(entries, title))[1..], title) == Pairs(entries, 10)
  {
    LinesOfChangelog(entries, title);
    GeneratedLayout(entries, title);
    FiledLayout(entries, 10, title);
    assert ChangelogLines(entries, title)[1..] == Layout(entries, 10);
  }

  lemma {:induction false} BelowExactlyWhen(entries: seq<ChangelogEntry>, k: nat, b: string)
    ensures b in BulletsBelow(entries, k) <==> exists e :: e in entries && Belongs(e, k) && Bullet(e) == b
  {
    if entries != [] {
      var init, last := entries[..|entries| - 1], entries[|entries| - 1];
      BelowExactlyWhen(init, k, b);
      assert entries == init + [last];
    }
  }

  lemma {:induction false} HeadingsDiffer(k: nat, j: nat)
    requires k < 10 && j < 10 && HEADINGS[k] == HEADINGS[j]
    ensures k == j
  {
    DisplayIs(k);
    DisplayIs(j);
    var a, b := DISPLAY[k].Name(), DISPLAY[j].Name();
    assert a == ("### " + a)[4..] && b == ("### " + b)[4..];
    NamesDiffer(DISPLAY[k], DISPLAY[j]);
  }

  lemma NamesDiffer(s: Section, r: Section)
    requires s.Name() == r.Name()
    ensures s == r
  {
  }

  lemma {:induction false} InPairs(entries: seq<ChangelogEntry>, n: nat, k: nat, b: string)
    requires n <= 10 && k < 10
    ensures (HEADINGS[k], b) in Pairs(entries, n) <==> k < n && b in BulletsBelow(entries, k)
  {
    if n > 0 {
      InPairs(entries, n - 1, k, b);
      if HEADINGS[k] == HEADINGS[n - 1] {
        HeadingsDiffer(k, n - 1);
      }
      InUnder(HEADINGS[n - 1], BulletsBelow(entries, n - 1), HEADINGS[k], b);
    }
  }

  lemma InUnder(h: string, bullets: seq<string>, g: string, b: string)
    ensures (g, b) in Under(h, bullets) <==> g == h && b in bullets
  {
    var ps := Under(h, bullets);
    if g == h && b in bullets {
      var i :| 0 <= i < |bullets| && bullets[i] == b;
      assert ps[i] == (g, b);
    }
  }

  /** A line stands as a bullet below heading `k`, and above the next one, exactly if it is the bullet
      of an entry that belongs there: a breaking change, an entry of the heading's type, or, for
      the last heading, one whose type has none. */
  lemma StandsBelowExactlyWhen(entries: seq<ChangelogEntry>, title: string, k: nat, b: string)
    requires PlainLine(title) && entries != [] && forall e :: e in entries ==> SingleLine(e)
    requires k < 10
    ensures (HEADINGS[k], b) in Filed(Lines(ChangelogText(entries, title))[1..], title) <==>
      exists e :: e in entries && Belongs(e, k) && Bullet(e) == b
  {
    ChangelogIsFiled(entries, title);
    InPairs(entries, 10, k, b);
    BelowExactlyWhen(entries, k, b);
  }
}
