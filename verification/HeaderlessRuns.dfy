/** Runs of the two changelog commands on a file that has no unreleased section yet: releases, until
    the first write makes one. */
module HeaderlessRuns {
  import opened Wrappers
  import opened Text
  import opened Changelog
  import opened ChangelogLaws
  import opened ReleaseHistory
  import opened FirstSection

  /** The released text holds the marker of an unreleased section. */
  predicate Marked(step: Step) {
    Contains(StepText(step), HEADER)
  }

  predicate Releases(steps: seq<Step>) {
    forall s :: s in steps ==> s.Release? && SoundStep(s)
  }

  predicate Unmarked(steps: seq<Step>) {
    steps == [] || (Unmarked(steps[..|steps| - 1]) && !Marked(steps[|steps| - 1]))
  }

  /** The released sections on top of what was there, the latest first. */
  function Pile(steps: seq<Step>, rest: string): string {
    if steps == [] then rest
    else StepText(steps[|steps| - 1]) + ("\n" + Pile(steps[..|steps| - 1], rest))
  }

  lemma SoundText(step: Step)
    requires step.Release? && SoundStep(step)
    ensures "## [" <= StepText(step)
    ensures SectionText(StepText(step), "## [" + step.version + "] - " + step.date)
  {
    var title := "## [" + step.version + "] - " + step.date;
    assert "## [" <= title;
    GeneratedText(step.entries, title);
  }

  lemma ReleaseApplied(content: string, step: Step)
    requires !HasHeader(content) && step.Release? && SoundStep(step)
    ensures var at, c := InsertPosition(content), ApplyStep(content, step);
      && c == content[..at] + StepText(step) + ("\n" + content[at..])
      && (HasHeader(c) <==> Marked(step))
      && (Ended(content) ==> InsertPosition(c) == at && c[..at] == content[..at]
                             && c[at..] == StepText(step) + ("\n" + content[at..]))
  {
    var title := "## [" + step.version + "] - " + step.date;
    SoundText(step);
    ReleaseWithoutHeader(content, title, StepText(step));
    Parts(content[..InsertPosition(content)], StepText(step), "\n" + content[InsertPosition(content)..]);
  }

  lemma PlaceIsEnded(content: string, c: string)
    requires Ended(content) && InsertPosition(c) == InsertPosition(content)
    requires c[..InsertPosition(content)] == content[..InsertPosition(content)]
    ensures Ended(c)
  {
    var at := InsertPosition(content);
    assert c[at - 1] == c[..at][at - 1] == content[..at][at - 1];
  }

  /** As long as no released text holds the marker, the released sections are whole, the latest on
      top, and the text around them is as it was. */
  lemma {:induction false} SectionsPile(content: string, steps: seq<Step>)
    requires !HasHeader(content) && Ended(content) && Releases(steps) && Unmarked(steps)
    ensures var at, c := InsertPosition(content), RunSteps(content, steps);
      && !HasHeader(c) && Ended(c) && InsertPosition(c) == at
      && c[..at] == content[..at] && c[at..] == Pile(steps, content[at..])
  {
    if steps != [] {
      var init, step := steps[..|steps| - 1], steps[|steps| - 1];
      var c := RunSteps(content, init);
      SectionsPile(content, init);
      ReleaseApplied(c, step);
      PlaceIsEnded(c, ApplyStep(c, step));
    }
  }

  lemma MarkerAfter(content: string, step: Step)
    requires step.Release? && SoundStep(step)
    ensures HasHeader(ApplyStep(content, step)) <==> HasHeader(content) || Marked(step)
  {
    if HasHeader(content) {
      StepRewrites(content, step);
    } else {
      ReleaseApplied(content, step);
    }
  }

  /** Over every run of releases: the file gets a marker exactly if some released text has it. */
  lemma {:induction false} MarkedExactlyWhen(content: string, steps: seq<Step>)
    requires !HasHeader(content) && Releases(steps)
    ensures HasHeader(RunSteps(content, steps)) <==> !Unmarked(steps)
  {
    if steps != [] {
      MarkedExactlyWhen(content, steps[..|steps| - 1]);
      MarkerAfter(RunSteps(content, steps[..|steps| - 1]), steps[|steps| - 1]);
    }
  }

  /** Over every run of releases on a file without an unreleased section, the next command finds the
      released sections whole, at the place where they were, exactly if no released text holds the
      marker. */
  lemma WholeExactlyWhen(content: string, steps: seq<Step>)
    requires !HasHeader(content) && Ended(content) && Releases(steps)
    ensures var at, c := InsertPosition(content), RunSteps(content, steps);
      && (!HasHeader(c) && InsertPosition(c) == at <==> Unmarked(steps))
      && (Unmarked(steps) ==> c == content[..at] + Pile(steps, content[at..]))
  {
    MarkedExactlyWhen(content, steps);
    if Unmarked(steps) {
      SectionsPile(content, steps);
      Joined(RunSteps(content, steps), InsertPosition(content), content[..InsertPosition(content)],
             Pile(steps, content[InsertPosition(content)..]));
    }
  }

  lemma Joined(c: string, at: nat, a: string, b: string)
    requires at <= |c| && c[..at] == a && c[at..] == b
    ensures c == a + b
  {
  }

  /** From the first write on the released sections are a stack on top of the pile, over all later
      runs, whenever something was released before or what was there is a released section. */
  lemma FirstWriteJoins(content: string, releases: seq<Step>, first: seq<ChangelogEntry>, steps: seq<Step>)
    requires !HasHeader(content) && Ended(content) && Releases(releases) && Unmarked(releases)
    requires SoundStep(Write(first)) && forall s :: s in steps ==> SoundStep(s)
    ensures var at := InsertPosition(content);
      var c := RunSteps(ApplyStep(RunSteps(content, releases), Write(first)), steps);
      && HasHeader(c) && Before(c) == content[..at]
      && (History(c) == Stack(steps) + Pile(releases, content[at..])
          <==> releases != [] || Released(content[at..]))
  {
    SectionsPile(content, releases);
    FirstWriteKeepsExactlyWhen(RunSteps(content, releases), first, steps);
    if releases != [] {
      SoundText(releases[|releases| - 1]);
    }
  }

  // ---- A marker in a released text ----

  lemma NoSectionInside(g: string, title: string, i: nat, rest: string, k: nat)
    requires SectionText(g, title) && OneLine(title) && i + k < |g|
    ensures !At(g[i..] + ("\n" + rest), k, NEXT_SECTION)
  {
    var s, m, n := g[i..] + ("\n" + rest), i + k, |title|;
    assert g[|g| - 1] == '\n' && s[|g| - 1 - i] == '\n' && s[|g| - i] == '\n';
    AtNewline(s, k);
    if m < n {
      assert s[k] == g[m] == g[..n][m] == title[m];
    } else if m + 5 <= |g| {
      assert !At(g[n..], m - n, NEXT_SECTION);
      assert s[k..k + 5] == g[n..][m - n..m - n + 5];
    } else if k + 5 <= |s| {
      var j := if m < |g| - 1 then |g| - 1 - m else 1;
      assert s[k..k + 5][j] == '\n' && NEXT_SECTION[j] != '\n';
    }
  }

  lemma MarkedInserted(content: string, g: string, title: string)
    requires !HasHeader(content) && SectionText(g, title) && "## [" <= title && OneLine(title)
    requires Contains(g, HEADER)
    ensures var at, i := InsertPosition(content), Find(g, HEADER).value;
      var c := content[..at] + g + ("\n" + content[at..]);
      HasHeader(c) && Before(c) == content[..at] + g[..i] && |History(c)| <= |content| - at
  {
    var at, i := InsertPosition(content), Find(g, HEADER).value;
    MarkerOfRelease(content, at, g);
    HistoryAfterMarker(content[..at], g, title, content[at..], i);
    CutBefore(content[..at], g, "\n" + content[at..], i);
  }

  lemma MarkedRelease(content: string, step: Step)
    requires !HasHeader(content) && step.Release? && SoundStep(step) && Marked(step)
    ensures var at, g, i := InsertPosition(content), StepText(step), Find(StepText(step), HEADER).value;
      var c := ApplyStep(content, step);
      HasHeader(c) && Before(c) == content[..at] + g[..i] && |History(c)| <= |content| - at
  {
    SoundText(step);
    ReleaseApplied(content, step);
    MarkedInserted(content, StepText(step), "## [" + step.version + "] - " + step.date);
  }

  /** A release whose text holds the marker, in a message say, is cut by the next command, whichever
      it is: the text from the marker on is replaced. */
  lemma MarkedReleaseIsCut(content: string, step: Step, next: Step)
    requires !HasHeader(content) && step.Release? && SoundStep(step) && SoundStep(next) && Marked(step)
    ensures var at, g, i := InsertPosition(content), StepText(step), Find(StepText(step), HEADER).value;
      var c := ApplyStep(content, step);
      && HasHeader(c) && Before(c) == content[..at] + g[..i] && |History(c)| <= |content| - at
      && ApplyStep(c, next)
         == content[..at] + g[..i] + Top(next)
            + ((if next.Release? then StepText(next) else "") + History(c))
  {
    MarkedRelease(content, step);
    StepRewrites(ApplyStep(content, step), next);
  }

  lemma CutBefore(pre: string, g: string, rest: string, i: nat)
    requires i <= |g|
    ensures (pre + g + rest)[..|pre| + i] == pre + g[..i]
  {
  }

  lemma HistoryAfterMarker(pre: string, g: string, title: string, rest: string, i: nat)
    requires SectionText(g, title) && OneLine(title) && Find(g, HEADER) == Some(i)
    requires Find(pre + g + ("\n" + rest), HEADER) == Some(|pre| + i)
    ensures |History(pre + g + ("\n" + rest))| <= |rest|
  {
    var c, after := pre + g + ("\n" + rest), |pre| + i + |HEADER|;
    assert c[after..] == g[i + |HEADER|..] + ("\n" + rest);
    FindIsFirst(c[after..], NEXT_SECTION);
    match Find(c[after..], NEXT_SECTION)
    case None =>
    case Some(k) =>
      if i + |HEADER| + k < |g| {
        NoSectionInside(g, title, i + |HEADER|, rest, k);
      }
  }

  // ---- Text that does not end its line ----

  lemma NoHeadingInLines(ls: seq<string>)
    requires ls != [] && forall i :: 1 <= i < |ls| ==> OneLine(ls[i]) && !("## " <= ls[i])
    ensures ls[0] <= Unlines(ls) && Without(Unlines(ls)[|ls[0]|..], "## ")
  {
    var title, rest := ls[0], Unlines(ls[1..]);
    LinesAreWithout(ls[1..], "## ");
    WithoutCons("", rest, "## ");
    assert Unlines(ls) == title + "\n" + rest;
    assert (title + "\n" + rest)[|title|..] == "" + "\n" + rest;
  }

  lemma NoHeadingInText(entries: seq<ChangelogEntry>, title: string)
    requires forall e :: e in entries ==> SingleLine(e)
    ensures title <= ChangelogText(entries, title)
    ensures Without(ChangelogText(entries, title)[|title|..], "## ")
  {
    var ls := ChangelogLines(entries, title);
    BodyLines(entries, title);
    assert ls[0] == title && forall i :: 1 <= i < |ls| ==> ls[i] == ls[1..][i - 1];
    NoHeadingInLines(ls);
  }

  predicate HeadingAt(s: string, j: nat) {
    j + 4 <= |s| && s[j] == '\n' && s[j + 1] == '#' && s[j + 2] == '#' && s[j + 3] == ' '
  }

  lemma HeadingChars(s: string, j: nat)
    ensures At(s, j, "\n## ") <==> HeadingAt(s, j)
  {
    var pat := "\n## ";
    if j + 4 <= |s| {
      assert pat[0] == '\n' && pat[1] == '#' && pat[2] == '#' && pat[3] == ' ';
      assert s[j..j + 4] == [s[j], s[j + 1], s[j + 2], s[j + 3]];
    }
  }

  lemma NoHeadingBefore(content: string, g: string, j: nat)
    requires !HeadingAt(content, j) && j < |content| && content[|content| - 1] != '\n'
    requires |g| >= 2 && g[0] == '#' && g[1] == '#'
    ensures !HeadingAt(content + g + "\n", j)
  {
    var c, at := content + g + "\n", |content|;
    assert c[at - 1] == content[at - 1] && c[at] == '#' && c[at + 1] == '#';
    assert forall i :: 0 <= i < at ==> c[i] == content[i];
  }

  lemma NoHeadingAfter(content: string, g: string, n: nat, m: nat)
    requires n <= m && n <= |g| && g != "" && g[|g| - 1] == '\n' && !HeadingAt(g[n..], m - n)
    ensures !HeadingAt(content + g + "\n", |content| + m)
  {
    var c, at := content + g + "\n", |content|;
    assert c[at + |g| - 1] == '\n' && c[at + |g|] == '\n';
    assert forall i :: 0 <= i < |g| - n ==> c[at + n + i] == g[n..][i];
  }

  lemma NoHeadingAtEnd(content: string, g: string, title: string, j: nat)
    requires !HeadingAt(content, j) && (content != "" ==> content[|content| - 1] != '\n')
    requires "## [" <= title && OneLine(title) && title + "\n" <= g && g[|g| - 1] == '\n'
    requires |title| <= j - |content| ==> !HeadingAt(g[|title|..], j - |content| - |title|)
    ensures !HeadingAt(content + g + "\n", j)
  {
    var at, n := |content|, |title|;
    if j < at {
      assert g[0] == title[0] == '#' && g[1] == title[1] == '#';
      NoHeadingBefore(content, g, j);
    } else if j < at + n {
      assert (content + g + "\n")[j] == g[j - at] == title[j - at];
    } else {
      NoHeadingAfter(content, g, n, j - at);
    }
  }

  lemma NoPlaceFound(content: string, g: string, title: string)
    requires Find(content, "\n## ") == None && (content != "" ==> content[|content| - 1] != '\n')
    requires "## [" <= title && OneLine(title) && title + "\n" <= g && g[|g| - 1] == '\n'
    requires Without(g[|title|..], "## ")
    ensures Find(content + g + "\n", "\n## ") == None
  {
    var c := content + g + "\n";
    FindIsFirst(content, "\n## ");
    forall j: nat
      ensures !At(c, j, "\n## ")
    {
      HeadingChars(content, j);
      HeadingChars(c, j);
      assert !At(content, j, "\n## ");
      if |title| <= j - |content| {
        var k: nat := j - |content| - |title|;
        HeadingChars(g[|title|..], k);
        assert "\n" + "## " == "\n## " && !At(g[|title|..], k, "\n" + "## ");
      }
      NoHeadingAtEnd(content, g, title, j);
    }
    NotFound(c, "\n## ");
  }

  lemma HeadingEnds(content: string)
    ensures Find(content, "\n## ").Some? ==> Ended(content)
  {
    FindIsFirst(content, "\n## ");
    match Find(content, "\n## ")
    case None =>
    case Some(i) => assert content[i..i + 4][0] == '\n';
  }

  /** If the text does not end its line, the first release ends it, and later ones pile up below. */
  lemma FirstReleaseEndsLine(content: string, step: Step)
    requires !HasHeader(content) && !Ended(content) && step.Release? && SoundStep(step)
    ensures var c := ApplyStep(content, step);
      c == content + StepText(step) + "\n" && InsertPosition(c) == |c| && Ended(c)
  {
    var title := "## [" + step.version + "] - " + step.date;
    SoundText(step);
    ReleaseApplied(content, step);
    NoHeadingInText(step.entries, title);
    EndsLine(content, StepText(step), title);
  }

  lemma EndsLine(content: string, g: string, title: string)
    requires !Ended(content) && SectionText(g, title) && "## [" <= title && OneLine(title)
    requires Without(g[|title|..], "## ")
    ensures var at := InsertPosition(content);
      var c := content[..at] + g + ("\n" + content[at..]);
      c == content + g + "\n" && InsertPosition(c) == |c| && Ended(c)
  {
    HeadingEnds(content);
    assert content[..|content|] == content && content[|content|..] == "";
    NoPlaceFound(content, g, title);
  }

  lemma {:induction false} FirstThenRest(content: string, steps: seq<Step>)
    requires steps != []
    ensures RunSteps(content, steps) == RunSteps(ApplyStep(content, steps[0]), steps[1..])
  {
    var init := steps[..|steps| - 1];
    if init == [] {
      assert steps[1..] == [] && RunSteps(content, init) == content;
    } else {
      FirstThenRest(content, init);
      assert init[1..] == steps[1..][..|steps| - 2] && init[0] == steps[0];
    }
  }

  lemma UnmarkedParts(steps: seq<Step>)
    requires steps != [] && Unmarked(steps)
    ensures !Marked(steps[0]) && Unmarked(steps[1..])
  {
    var init := steps[..|steps| - 1];
    if init != [] {
      UnmarkedParts(init);
      assert init[1..] == steps[1..][..|steps| - 2] && init[0] == steps[0];
    }
  }

  /** Such a file keeps its released sections whole as well, but not with the latest on top. */
  lemma UnendedPile(content: string, steps: seq<Step>)
    requires !HasHeader(content) && !Ended(content) && Releases(steps) && Unmarked(steps) && steps != []
    ensures RunSteps(content, steps) == content + StepText(steps[0]) + "\n" + Pile(steps[1..], "")
    ensures !HasHeader(RunSteps(content, steps))
  {
    var c := ApplyStep(content, steps[0]);
    FirstThenRest(content, steps);
    UnmarkedParts(steps);
    FirstReleaseEndsLine(content, steps[0]);
    ReleaseApplied(content, steps[0]);
    WholeExactlyWhen(c, steps[1..]);
    assert c[..|c|] == c && c[|c|..] == "";
  }
}
