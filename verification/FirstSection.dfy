/** The two changelog commands on a file that has no unreleased section yet. */
module FirstSection {
  import opened Wrappers
  import opened Text
  import opened Changelog
  import opened ReleaseHistory

  /** The header does not overlap itself. */
  lemma HeaderIsUnbordered(k: nat)
    requires 0 < k < |HEADER|
    ensures HEADER[k..] != HEADER[..|HEADER| - k]
  {
    if HEADER[k] == '#' {
      assert k == 1;
      assert HEADER[k..][1] != HEADER[..|HEADER| - k][1];
    } else {
      assert HEADER[k..][0] != HEADER[..|HEADER| - k][0];
    }
  }

  lemma HeaderLandsAt(content: string, at: nat, g: string, rest: string)
    requires !HasHeader(content) && at <= |content| && HEADER <= g
    ensures Find(content[..at] + g + rest, HEADER) == Some(at)
  {
    var s, n := content[..at] + g + rest, |HEADER|;
    FindIsFirst(content, HEADER);
    forall j: nat | j < at
      ensures !At(s, j, HEADER)
    {
      assert !At(content, j, HEADER);
      if j + n <= at {
        assert s[j..j + n] == content[j..j + n];
      } else {
        HeaderIsUnbordered(at - j);
        assert j + n <= |s| ==> s[j..j + n][at - j..] == g[..n - (at - j)];
      }
    }
    assert s[at..at + n] == g[..n];
    FoundAt(s, HEADER, at);
  }

  lemma SectionlessGap(body: string)
    requires Sectionless(body)
    ensures Sectionless(body + "\n")
  {
    var s := body + "\n";
    forall j: nat
      ensures !At(s, j, NEXT_SECTION)
    {
      assert !At(body, j, NEXT_SECTION);
      if j + 5 <= |body| {
        assert s[j..j + 5] == body[j..j + 5];
      } else if j + 5 == |s| {
        assert s[j..j + 5][4] == '\n' && NEXT_SECTION[4] == '[';
      }
    }
  }

  /** The first write puts its section where the text before it ends, and takes what follows for
      released sections exactly if that starts with one. */
  lemma FirstWrite(content: string, g: string)
    requires !HasHeader(content) && SectionText(g, HEADER)
    ensures var at, c := InsertPosition(content), WriteChangelog(content, g);
      && c == content[..at] + g + ("\n" + content[at..])
      && HasHeader(c) && Before(c) == content[..at]
      && (History(c) == content[at..] <==> Released(content[at..]))
  {
    var at, c := InsertPosition(content), WriteChangelog(content, g);
    var rest, body := content[at..], g[|HEADER|..];
    FirstHeader(content, g);
    HistoryIsReleased(c);
    if Released(rest) {
      assert g == HEADER + body;
      HistoryAfterGap(c, at, body, rest);
    }
  }

  lemma FirstHeader(content: string, g: string)
    requires !HasHeader(content) && SectionText(g, HEADER)
    ensures var at, c := InsertPosition(content), WriteChangelog(content, g);
      && c == content[..at] + g + ("\n" + content[at..]) && c[at..] == g + ("\n" + content[at..])
      && Find(c, HEADER) == Some(at) && c[..at] == content[..at]
  {
    var at := InsertPosition(content);
    Gap(content[..at], TrimEnd(g), content[at..]);
    HeaderLandsAt(content, at, g, "\n" + content[at..]);
    Parts(content[..at], g, "\n" + content[at..]);
  }

  lemma Parts(a: string, b: string, c: string)
    ensures (a + b + c)[..|a|] == a && (a + b + c)[|a|..] == b + c
  {
  }

  lemma HistoryAfterGap(c: string, at: nat, body: string, rest: string)
    requires Find(c, HEADER) == Some(at) && c[at..] == HEADER + body + ("\n" + rest)
    requires Sectionless(body) && Released(rest)
    ensures History(c) == rest
  {
    SectionlessGap(body);
    NextAfterBody(body + "\n", rest);
    assert c[at + |HEADER|..] == c[at..][|HEADER|..] == body + "\n" + rest;
    assert c[at + |HEADER| + |body| + 1..] == rest;
  }

  lemma Gap(pre: string, trimmed: string, rest: string)
    ensures pre + trimmed + "\n\n" + rest == pre + (trimmed + "\n") + ("\n" + rest)
  {
    assert "\n\n" == "\n" + "\n";
  }

  lemma Cancels(a: string, b: string, c: string)
    ensures a + b == a + c <==> b == c
  {
    if a + b == a + c {
      assert b == (a + b)[|a|..] && c == (a + c)[|a|..];
    }
  }

  /** From the first write on, nothing that was in the file is lost, whatever commands follow,
      exactly if the file had no second-level heading or the first of them is a released section. */
  lemma FirstWriteKeepsExactlyWhen(content: string, first: seq<ChangelogEntry>, steps: seq<Step>)
    requires !HasHeader(content) && SoundStep(Write(first))
    requires forall s :: s in steps ==> SoundStep(s)
    ensures var at, c := InsertPosition(content), RunSteps(ApplyStep(content, Write(first)), steps);
      && HasHeader(c) && Before(c) == content[..at]
      && (History(c) == Stack(steps) + content[at..] <==> Released(content[at..]))
  {
    var c := ApplyStep(content, Write(first));
    GeneratedText(first, HEADER);
    FirstWrite(content, StepText(Write(first)));
    HistoryIsStack(c, steps);
    Cancels(Stack(steps), History(c), content[InsertPosition(content)..]);
  }

  lemma MarkerAt(content: string, at: nat, g: string, j: nat)
    requires !HasHeader(content) && at <= |content| && "## [" <= g
    ensures At(content[..at] + g + ("\n" + content[at..]), j, HEADER) <==> at <= j && At(g, j - at, HEADER)
  {
    var s, n, rest := content[..at] + g + ("\n" + content[at..]), |HEADER|, content[at..];
    FindIsFirst(content, HEADER);
    assert forall i :: 0 <= i < n ==> HEADER[i] != '\n';
    assert forall i :: 0 < i < n && HEADER[i] == '#' ==> i == 1;
    if j + n <= |s| {
      var x := s[j..j + n];
      assert forall i :: 0 <= i < n ==> x[i] == s[j + i];
      if j + n <= at {
        assert forall i :: 0 <= i < n ==> x[i] == content[..at][j + i] == content[j..j + n][i];
        assert x == content[j..j + n] && !At(content, j, HEADER);
      } else if j < at {
        assert x[at - j] == g[0] == '#' && (at - j == 1 ==> x[2] == g[1] == '#');
        assert HEADER[2] == ' ';
      } else if j + n <= at + |g| {
        assert x == g[j - at..j - at + n];
      } else if j <= at + |g| {
        assert x[at + |g| - j] == '\n';
      } else {
        var i := j - |g| - 1;
        assert forall k :: 0 <= k < n ==> x[k] == content[at..][i - at + k] == content[i..i + n][k];
        assert x == content[i..i + n] && !At(content, i, HEADER);
      }
    }
  }

  /** After a release without an unreleased section the file has the marker exactly if the released
      text has it, and there. */
  lemma MarkerOfRelease(content: string, at: nat, g: string)
    requires !HasHeader(content) && at <= |content| && "## [" <= g
    ensures Find(content[..at] + g + ("\n" + content[at..]), HEADER)
         == match Find(g, HEADER) case Some(i) => Some(at + i) case None => None
  {
    var s := content[..at] + g + ("\n" + content[at..]);
    FindIsFirst(g, HEADER);
    forall j: nat
      ensures At(s, j, HEADER) <==> at <= j && At(g, j - at, HEADER)
    {
      MarkerAt(content, at, g, j);
    }
    match Find(g, HEADER)
    case Some(i) =>
      assert At(s, at + i, HEADER);
      FoundAt(s, HEADER, at + i);
    case None => NotFound(s, HEADER);
  }

  /** The text before the place for sections ends its line. */
  predicate Ended(content: string) {
    var at := InsertPosition(content); at > 0 && content[at - 1] == '\n'
  }

  lemma NextPlace(content: string, g: string)
    requires "## [" <= g
    ensures var at := InsertPosition(content);
      InsertPosition(content[..at] + g + ("\n" + content[at..])) == at <==> Ended(content)
  {
    var at := InsertPosition(content);
    var c := content[..at] + g + ("\n" + content[at..]);
    FindIsFirst(content, "\n## ");
    FindIsFirst(c, "\n## ");
    if Ended(content) {
      HeadingFoundAt(content, at, g, "\n" + content[at..]);
    } else if Find(c, "\n## ").Some? {
      var i := Find(c, "\n## ").value;
      assert c[i] == c[i..i + 4][0] == '\n';
      assert i < at ==> c[i] == content[i];
    }
  }

  /** A release without an unreleased section keeps the whole text and goes on top of the sections.
      The next one goes to the same place exactly if the text before ends its line and the released
      text does not hold the marker of an unreleased section, in some message perhaps. */
  lemma ReleaseWithoutHeader(content: string, title: string, g: string)
    requires !HasHeader(content) && SectionText(g, title) && "## [" <= title
    ensures var at, c := InsertPosition(content), InsertVersionedChangelog(content, g);
      && c == content[..at] + g + ("\n" + content[at..])
      && (HasHeader(c) <==> Contains(g, HEADER))
      && (InsertPosition(c) == at <==> Ended(content))
      && (!HasHeader(c) && InsertPosition(c) == at <==> Ended(content) && !Contains(g, HEADER))
  {
    var at := InsertPosition(content);
    Gap(content[..at], TrimEnd(g), content[at..]);
    MarkerOfRelease(content, at, g);
    NextPlace(content, g);
  }

  lemma NoHeadingAcross(content: string, at: nat, more: string, j: nat)
    requires 0 < at <= |content| && content[at - 1] == '\n'
    requires j < at - 1 && !At(content, j, "\n## ")
    ensures !At(content[..at] + more, j, "\n## ")
  {
    var s, pat := content[..at] + more, "\n## ";
    if j + 4 <= at {
      assert s[j..j + 4] == content[j..j + 4];
    } else if j + 4 <= |s| {
      assert s[j..j + 4][at - 1 - j] == '\n';
      assert pat[1] != '\n' && pat[2] != '\n' && pat[3] != '\n';
    }
  }

  lemma HeadingFoundAt(content: string, at: nat, g: string, rest: string)
    requires 0 < at <= |content| && content[at - 1] == '\n' && "## " <= g
    requires forall j: nat :: j < at - 1 ==> !At(content, j, "\n## ")
    ensures Find(content[..at] + g + rest, "\n## ") == Some(at - 1)
  {
    var s := content[..at] + g + rest;
    forall j: nat | j < at - 1
      ensures !At(s, j, "\n## ")
    {
      assert !At(content, j, "\n## ");
      NoHeadingAcross(content, at, g + rest, j);
      assert content[..at] + (g + rest) == s;
    }
    assert s[at - 1..at + 3] == "\n" + g[..3];
    FoundAt(s, "\n## ", at - 1);
  }
}
