/** Rewriting CHANGELOG.md: unreleased changes on top, released sections below. */
module ReleaseHistory {
  import opened Wrappers
  import opened Lists
  import opened Text
  import opened Changelog
  import opened ChangelogLaws
  import opened ChangelogLayout

  const HEADER := "## [Unreleased]"
  const NEXT_SECTION := "\n## ["

  /** Where the section that starts before `after` ends. */
  function NextSection(content: string, after: nat): (r: nat)
    requires after <= |content|
    ensures after <= r <= |content|
  {
    match Find(content[after..], NEXT_SECTION)
    case Some(i) => after + i + 1
    case None => |content|
  }

  /** Where a section goes when there is no unreleased one: before the first second-level header. */
  function InsertPosition(content: string): (r: nat)
    ensures r <= |content|
  {
    match Find(content, "\n## ")
    case Some(i) => i + 1
    case None => |content|
  }

  function WriteChangelog(content: string, newUnreleased: string): string {
    match Find(content, HEADER)
    case Some(start) =>
      content[..start] + TrimEnd(newUnreleased) + "\n"
      + content[NextSection(content, start + |HEADER|)..]
    case None =>
      var at := InsertPosition(content);
      content[..at] + TrimEnd(newUnreleased) + "\n\n" + content[at..]
  }

  function InsertVersionedChangelog(content: string, section: string): string {
    match Find(content, HEADER)
    case Some(start) =>
      content[..start] + HEADER + "\n\n" + TrimEnd(section) + "\n"
      + content[NextSection(content, start + |HEADER|)..]
    case None =>
      var at := InsertPosition(content);
      content[..at] + TrimEnd(section) + "\n\n" + content[at..]
  }

  // ---- The parts of a changelog ----

  predicate HasHeader(content: string) {
    Contains(content, HEADER)
  }

  function Before(content: string): string
    requires HasHeader(content)
  {
    content[..Find(content, HEADER).value]
  }

  /** The released sections, from the first one on. */
  function History(content: string): string
    requires HasHeader(content)
  {
    content[NextSection(content, Find(content, HEADER).value + |HEADER|)..]
  }

  /** No line of `s` but the first starts a section. */
  ghost predicate Sectionless(s: string) {
    forall j: nat :: !At(s, j, NEXT_SECTION)
  }

  predicate Released(s: string) {
    s == "" || "## [" <= s
  }

  lemma AtNewline(s: string, j: nat)
    ensures At(s, j, NEXT_SECTION) <==> j < |s| && s[j] == '\n' && "## [" <= s[j + 1..]
  {
    if j + 5 <= |s| {
      assert s[j..j + 5] == [s[j]] + s[j + 1..][..4];
      assert NEXT_SECTION == ['\n'] + "## [";
    }
  }

  lemma HistoryIsReleased(content: string)
    requires HasHeader(content)
    ensures Released(History(content))
  {
    var after := Find(content, HEADER).value + |HEADER|;
    FindIsFirst(content[after..], NEXT_SECTION);
    match Find(content[after..], NEXT_SECTION)
    case Some(i) =>
      AtNewline(content[after..], i);
      assert content[after..][i + 1..] == content[after + i + 1..];
    case None =>
  }

  lemma HeaderStays(content: string, more: string)
    requires HasHeader(content)
    ensures Find(Before(content) + HEADER + more, HEADER) == Find(content, HEADER)
  {
    var start, n := Find(content, HEADER).value, |HEADER|;
    var c := Before(content) + HEADER + more;
    FindIsFirst(content, HEADER);
    assert c[..start + n] == content[..start + n];
    forall j: nat | j < start
      ensures !At(c, j, HEADER)
    {
      assert c[j..j + n] == content[j..j + n];
      assert !At(content, j, HEADER);
    }
    FoundAt(c, HEADER, start);
  }

  /** A text put together from its parts has these parts. */
  lemma Reassembled(content: string, body: string, history: string)
    requires HasHeader(content) && Released(history)
    requires body != "" && body[|body| - 1] == '\n' && Sectionless(body)
    ensures var c := Before(content) + HEADER + body + history;
      HasHeader(c) && Before(c) == Before(content) && History(c) == history
  {
    var start, c := Find(content, HEADER).value, Before(content) + HEADER + body + history;
    HeaderStays(content, body + history);
    ConcatAssociates(Before(content) + HEADER, body, history);
    NextAfterBody(body, history);
    assert c[start + |HEADER|..] == body + history;
    assert c[start + |HEADER| + |body|..] == history;
    assert c[..start] == Before(content);
  }

  lemma NextAfterBody(body: string, history: string)
    requires Released(history)
    requires body != "" && body[|body| - 1] == '\n' && Sectionless(body)
    ensures Find(body + history, NEXT_SECTION) == if history == "" then None else Some(|body| - 1)
  {
    var s := body + history;
    forall j: nat | j < |body| - 1
      ensures !At(s, j, NEXT_SECTION)
    {
      AtNewline(s, j);
      AtNewline(body, j);
      assert !At(body, j, NEXT_SECTION);
      assert s[j] == body[j] && s[j + 1..] == body[j + 1..] + history;
      if j + 5 <= |body| {
        assert s[j + 1..][..4] == body[j + 1..][..4];
      } else {
        assert s[j + 1..][|body| - j - 2] == '\n';
        assert "## ["[|body| - j - 2] != '\n';
      }
    }
    if history == "" {
      assert s == body;
      NotFound(s, NEXT_SECTION);
    } else {
      assert s[|body| - 1..|body| + 4] == "\n" + history[..4];
      FoundAt(s, NEXT_SECTION, |body| - 1);
    }
  }

  // ---- Generated sections ----

  /** No line of `s` but the first starts with the mark. */
  ghost predicate Without(s: string, mark: string) {
    forall j: nat :: !At(s, j, "\n" + mark)
  }

  lemma AtMark(s: string, j: nat, mark: string)
    ensures At(s, j, "\n" + mark) <==> j < |s| && s[j] == '\n' && mark <= s[j + 1..]
  {
    var n := |mark|;
    if j + n + 1 <= |s| {
      assert s[j..j + n + 1] == [s[j]] + s[j + 1..][..n];
      assert "\n" + mark == ['\n'] + mark;
    }
  }

  lemma WithoutCons(l: string, rest: string, mark: string)
    requires OneLine(l) && Without(rest, mark) && !(mark <= rest)
    ensures Without(l + "\n" + rest, mark)
  {
    var s := l + "\n" + rest;
    forall j: nat
      ensures !At(s, j, "\n" + mark)
    {
      AtMark(s, j, mark);
      if j < |l| {
        assert s[j] == l[j];
      } else if j == |l| {
        assert s[j + 1..] == rest;
      } else if j < |s| {
        AtMark(rest, j - |l| - 1, mark);
        assert !At(rest, j - |l| - 1, "\n" + mark);
        assert s[j + 1..] == rest[j - |l|..];
      }
    }
  }

  lemma NoMarkCons(l: string, rest: string, mark: string)
    requires OneLine(l) && OneLine(mark) && !(mark <= l)
    ensures !(mark <= l + "\n" + rest)
  {
    var s, n := l + "\n" + rest, |mark|;
    if |l| < n {
      assert s[|l|] == '\n';
      assert mark[|l|] != '\n';
    } else {
      assert s[..n] == l[..n];
    }
  }

  lemma {:induction false} LinesAreWithout(ls: seq<string>, mark: string)
    requires OneLine(mark) && mark != ""
    requires forall i :: 0 <= i < |ls| ==> OneLine(ls[i]) && !(mark <= ls[i])
    ensures Without(Unlines(ls), mark) && !(mark <= Unlines(ls))
  {
    if ls != [] {
      LinesAreWithout(ls[1..], mark);
      WithoutCons(ls[0], Unlines(ls[1..]), mark);
      NoMarkCons(ls[0], Unlines(ls[1..]), mark);
    }
  }

  lemma SectionIsHeading(l: string)
    ensures "## [" <= l ==> "## " <= l
  {
    assert "## ["[..3] == "## ";
  }

  lemma TrimmedLine(init: string, last: string)
    requires last != "" && !IsWhitespace(last[|last| - 1])
    ensures TrimEnd(init + (last + "\n")) + "\n" == init + (last + "\n")
  {
    var s := init + (last + "\n");
    assert s[..|s| - 1] == init + last;
  }

  /** A text that replaces, or becomes, a section: a title and lines that start no section, the
      last of which ends in ink. */
  ghost predicate SectionText(g: string, title: string) {
    title + "\n" <= g && Sectionless(g[|title|..]) && TrimEnd(g) + "\n" == g
  }

  lemma LinesMakeSection(ls: seq<string>)
    requires ls != [] && forall i :: 1 <= i < |ls| ==> OneLine(ls[i]) && !("## [" <= ls[i])
    requires ls[|ls| - 1] != "" && !IsWhitespace(ls[|ls| - 1][|ls[|ls| - 1]| - 1])
    ensures SectionText(Unlines(ls), ls[0])
  {
    var title, rest := ls[0], Unlines(ls[1..]);
    LinesAreWithout(ls[1..], "## [");
    WithoutCons("", rest, "## [");
    assert NEXT_SECTION == "\n" + "## [";
    assert (title + "\n" + rest)[|title|..] == "" + "\n" + rest;
    TrimmedLines(ls);
  }

  lemma TrimmedLines(ls: seq<string>)
    requires ls != [] && ls[|ls| - 1] != "" && !IsWhitespace(ls[|ls| - 1][|ls[|ls| - 1]| - 1])
    ensures TrimEnd(Unlines(ls)) + "\n" == Unlines(ls)
  {
    var init, last := ls[..|ls| - 1], ls[|ls| - 1];
    UnlinesOfOne(init, last);
    assert ls == init + [last];
    TrimmedLine(Unlines(init), last);
  }

  lemma GeneratedText(entries: seq<ChangelogEntry>, title: string)
    requires forall e :: e in entries ==> SingleLine(e)
    ensures SectionText(ChangelogText(entries, title), title)
  {
    var ls := ChangelogLines(entries, title);
    BodyLines(entries, title);
    LastLine(entries, title);
    assert forall i :: 1 <= i < |ls| ==> ls[i] == ls[1..][i - 1];
    LinesMakeSection(ls);
  }

  lemma BodyLines(entries: seq<ChangelogEntry>, title: string)
    requires forall e :: e in entries ==> SingleLine(e)
    ensures var ls := ChangelogLines(entries, title)[1..];
      forall i :: 0 <= i < |ls| ==> OneLine(ls[i]) && !("## " <= ls[i]) && !("## [" <= ls[i])
  {
    var ls := ChangelogLines(entries, title)[1..];
    forall i | 0 <= i < |ls|
      ensures "## [" <= ls[i] ==> "## " <= ls[i]
    {
      SectionIsHeading(ls[i]);
    }
    if entries == [] {
      NoHeading("");
      NoHeading(NOTHING_FOUND);
      assert OneLine("") && OneLine(NOTHING_FOUND);
      assert ls == ["", NOTHING_FOUND];
    } else {
      assert ls == AllSectionLines(entries, SortedSections(GroupsOf(entries)));
      SectionsArePlain(entries, SortedSections(GroupsOf(entries)));
      assert forall i :: 0 <= i < |ls| ==> ls[i] in ls;
    }
  }

  lemma LastLine(entries: seq<ChangelogEntry>, title: string)
    ensures var ls := ChangelogLines(entries, title);
      ls[|ls| - 1] != "" && !IsWhitespace(ls[|ls| - 1][|ls[|ls| - 1]| - 1])
  {
    if entries == [] {
      assert NOTHING_FOUND[|NOTHING_FOUND| - 1] == '.';
    } else {
      LastIsBullet(entries);
    }
  }

  lemma LastIsBullet(entries: seq<ChangelogEntry>)
    requires entries != []
    ensures var ls := AllSectionLines(entries, SortedSections(GroupsOf(entries)));
      ls != [] && ls[|ls| - 1] != "" && ls[|ls| - 1][|ls[|ls| - 1]| - 1] == ')'
  {
    var sections := SortedSections(GroupsOf(entries));
    SectionsInOrder(entries);
    assert entries[0] in entries && BelongsIn(entries[0], TypeToSection(entries[0].commitType));
    assert TypeToSection(entries[0].commitType) in sections;
    assert sections[|sections| - 1] in sections;
    SectionIsUsed(entries, sections[|sections| - 1]);
    LastOfSections(entries, sections);
  }

  lemma LastOfSections(entries: seq<ChangelogEntry>, sections: seq<Section>)
    requires sections != [] && EntriesIn(entries, sections[|sections| - 1]) != []
    ensures var ls := AllSectionLines(entries, sections);
      ls != [] && ls[|ls| - 1] != "" && ls[|ls| - 1][|ls[|ls| - 1]| - 1] == ')'
  {
    var es := EntriesIn(entries, sections[|sections| - 1]);
    var bullets := Bullets(es);
    EndsInParenthesis(es[|es| - 1]);
    assert bullets[|es| - 1] == FormatEntry(es[|es| - 1]);
  }

  lemma EndsInParenthesis(e: ChangelogEntry)
    ensures FormatEntry(e) != "" && FormatEntry(e)[|FormatEntry(e)| - 1] == ')'
  {
  }

  // ---- Runs of the two commands ----

  datatype Step =
    | Write(entries: seq<ChangelogEntry>)
    | Release(version: string, date: string, entries: seq<ChangelogEntry>)

  function StepText(step: Step): string {
    match step
    case Write(entries) => ChangelogText(entries, HEADER)
    case Release(version, date, entries) => ChangelogText(entries, "## [" + version + "] - " + date)
  }

  function ApplyStep(content: string, step: Step): string {
    match step
    case Write(_) => WriteChangelog(content, StepText(step))
    case Release(_, _, _) => InsertVersionedChangelog(content, StepText(step))
  }

  function RunSteps(content: string, steps: seq<Step>): string {
    if steps == [] then content
    else ApplyStep(RunSteps(content, steps[..|steps| - 1]), steps[|steps| - 1])
  }

  predicate SoundStep(step: Step) {
    && (forall e :: e in step.entries ==> SingleLine(e))
    && (step.Release? ==> OneLine(step.version) && OneLine(step.date))
  }

  /** The unreleased section that a step leaves. */
  function Top(step: Step): string {
    if step.Write? then StepText(step) else HEADER + "\n\n"
  }

  /** The sections that the steps released, the latest on top. */
  function Stack(steps: seq<Step>): string {
    if steps == [] then ""
    else
      var step := steps[|steps| - 1];
      (if step.Release? then StepText(step) else "") + Stack(steps[..|steps| - 1])
  }

  /** A step's text is headed by its own title, and has its own entries below the headings. */
  lemma StepShows(step: Step)
    requires SoundStep(step) && step.entries != []
    requires step.Release? ==> step.date != "" && step.date[|step.date| - 1] != '\r'
    ensures var ls := Lines(StepText(step));
      && ls != [] && Filed(ls[1..], ls[0]) == Pairs(step.entries, 10)
      && ls[0] == match step
         case Write(_) => "## [Unreleased]"
         case Release(version, date, _) => "## [" + version + "] - " + date
  {
    var title := match step
      case Write(_) => "## [Unreleased]"
      case Release(version, date, _) => "## [" + version + "] - " + date;
    assert PlainLine(title) by {
      match step
      case Write(_) => assert HEADER[|HEADER| - 1] == ']';
      case Release(version, date, _) => assert title[|title| - 1] == date[|date| - 1];
    }
    ChangelogIsFiled(step.entries, title);
  }

  lemma GlueWritten(pre: string, trimmed: string, end: string, history: string, head: string, body: string)
    requires trimmed + end == head + body
    ensures pre + trimmed + end + history == pre + head + body + history
  {
    assert pre + trimmed + end == pre + (trimmed + end);
    assert pre + head + body == pre + (head + body);
  }

  lemma GlueReleased(pre: string, head: string, gap: string, trimmed: string, end: string, history: string)
    ensures pre + head + gap + trimmed + end + history == pre + head + gap + ((trimmed + end) + history)
    ensures pre + (head + gap) + ((trimmed + end) + history)
         == pre + head + gap + ((trimmed + end) + history)
  {
    assert pre + head + gap + trimmed + end == pre + head + gap + (trimmed + end);
    assert pre + (head + gap) == pre + head + gap;
  }

  /** Writing any section text replaces the unreleased section and nothing else. */
  lemma WriteRewrites(content: string, g: string)
    requires HasHeader(content) && SectionText(g, HEADER)
    ensures var c := WriteChangelog(content, g);
      && HasHeader(c) && Before(c) == Before(content) && History(c) == History(content)
      && c == Before(content) + g + History(content)
  {
    var history, body := History(content), g[|HEADER|..];
    HistoryIsReleased(content);
    assert g == HEADER + body && body != "" && body[|body| - 1] == g[|g| - 1];
    Reassembled(content, body, history);
    GlueWritten(Before(content), TrimEnd(g), "\n", history, HEADER, body);
    ConcatAssociates(Before(content), HEADER, body);
  }

  /** Releasing any section text empties the unreleased section and pushes the text. */
  lemma ReleaseRewrites(content: string, title: string, g: string)
    requires HasHeader(content) && SectionText(g, title) && "## [" <= title
    ensures var c := InsertVersionedChangelog(content, g);
      && HasHeader(c) && Before(c) == Before(content) && History(c) == g + History(content)
      && c == Before(content) + (HEADER + "\n\n") + History(c)
  {
    var history := History(content);
    assert "## [" <= g + history;
    SectionlessBlank();
    Reassembled(content, "\n\n", g + history);
    GlueReleased(Before(content), HEADER, "\n\n", TrimEnd(g), "\n", history);
  }

  lemma StepRewrites(content: string, step: Step)
    requires HasHeader(content) && SoundStep(step)
    ensures var c := ApplyStep(content, step);
      && HasHeader(c) && Before(c) == Before(content)
      && History(c) == (if step.Release? then StepText(step) else "") + History(content)
      && c == Before(content) + Top(step) + History(c)
  {
    match step
    case Write(entries) =>
      GeneratedText(entries, HEADER);
      WriteRewrites(content, StepText(step));
      assert "" + History(content) == History(content);
    case Release(version, date, entries) =>
      var title := "## [" + version + "] - " + date;
      assert "## [" <= title;
      GeneratedText(entries, title);
      ReleaseRewrites(content, title, StepText(step));
  }

  lemma SectionlessBlank()
    ensures Sectionless("\n\n")
  {
  }

  /** Whatever order the two commands run in, the text before the header stays, and the released
      sections are a stack: a write leaves them byte for byte, a release pushes its own section. */
  lemma {:induction false} HistoryIsStack(content: string, steps: seq<Step>)
    requires HasHeader(content) && forall s :: s in steps ==> SoundStep(s)
    ensures var c := RunSteps(content, steps);
      && HasHeader(c) && Before(c) == Before(content)
      && History(c) == Stack(steps) + History(content)
      && (steps != [] ==> c == Before(content) + Top(steps[|steps| - 1]) + (Stack(steps) + History(content)))
  {
    if steps == [] {
      assert "" + History(content) == History(content);
    } else {
      var init, step := steps[..|steps| - 1], steps[|steps| - 1];
      HistoryIsStack(content, init);
      StepRewrites(RunSteps(content, init), step);
      ConcatAssociates(if step.Release? then StepText(step) else "", Stack(init), History(content));
    }
  }

  /** Writing is absorbing: what was written before makes no difference, so it is idempotent. */
  lemma WriteAbsorbs(content: string, first: seq<ChangelogEntry>, second: seq<ChangelogEntry>)
    requires HasHeader(content) && SoundStep(Write(first)) && SoundStep(Write(second))
    ensures ApplyStep(ApplyStep(content, Write(first)), Write(second)) == ApplyStep(content, Write(second))
  {
    StepRewrites(content, Write(first));
    StepRewrites(ApplyStep(content, Write(first)), Write(second));
    StepRewrites(content, Write(second));
    assert "" + ("" + History(content)) == "" + History(content);
  }
}
