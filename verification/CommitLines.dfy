/** Which lines give which changelog entries. */
module CommitLines {
  import opened Wrappers
  import opened Lists
  import opened Text
  import opened Changelog
  import opened CommitParsing

  /** The prefix has this type, this scope, and the mark of a breaking change or not.  What follows a
      closed scope does not count. */
  predicate Says(prefix: string, e: ChangelogEntry, after: string) {
    && prefix == e.commitType + ScopeText(e.scope) + after + (if e.breaking then "!" else "")
    && (!e.breaking && prefix != "" ==> prefix[|prefix| - 1] != '!')
    && '(' !in e.commitType
    && if e.scope.Some? then ')' !in e.commitType && ')' !in e.scope.value else after == ""
  }

  lemma SaidIsParsed(prefix: string, e: ChangelogEntry, after: string, types: seq<string>)
    requires Says(prefix, e, after) && e.commitType in types
    ensures ParsePrefix(prefix, e.hash, e.message, types) == Entry(e)
  {
    var t, head := e.commitType, e.commitType + ScopeText(e.scope) + after;
    if e.breaking {
      assert prefix[|prefix| - 1] == '!' && prefix[..|prefix| - 1] == head;
    } else {
      assert prefix == head;
    }
    match e.scope {
      case None =>
        assert head == t;
        NoChar(head, '(');
      case Some(s) =>
        ScopeClosed(t, s, after, head);
    }
  }

  lemma ScopeClosed(t: string, s: string, after: string, head: string)
    requires '(' !in t && ')' !in t && ')' !in s && head == t + ("(" + s + ")") + after
    ensures Find(head, "(") == Some(|t|) && Find(head, ")") == Some(|t| + 1 + |s|)
    ensures head[..|t|] == t && head[|t| + 1..|t| + 1 + |s|] == s
  {
    FindChar(t, '(', s + ")" + after);
    assert head == t + ['('] + (s + ")" + after);
    FindChar(t + "(" + s, ')', after);
    assert head == (t + "(" + s) + [')'] + after;
  }

  lemma ParsedIsSaid(prefix: string, hash: string, message: string, types: seq<string>) returns (after: string)
    requires ParsePrefix(prefix, hash, message, types).Entry?
    ensures var e := ParsePrefix(prefix, hash, message, types).entry;
      Says(prefix, e, after) && e.commitType in types && e.hash == hash && e.message == message
  {
    var head := Unmarked(prefix);
    FoundFirst(head, '(');
    FoundFirst(head, ')');
    FoundIsChar(head, '(');
    FoundIsChar(head, ')');
    after := "";
    match Find(head, "(") {
      case None =>
      case Some(start) =>
        var end := Find(head, ")").value;
        after := head[end + 1..];
        Reassembled(head, start, end);
        NotInPart(head, ')', 0, start, end);
        NotInPart(head, ')', start + 1, end, end);
    }
  }

  lemma NotInPart(s: string, c: char, lo: nat, hi: nat, end: nat)
    requires lo <= hi <= end <= |s| && c !in s[..end]
    ensures c !in s[lo..hi]
  {
    forall j | 0 <= j < hi - lo
      ensures s[lo..hi][j] != c
    {
      assert s[lo..hi][j] == s[..end][lo + j];
    }
  }

  lemma Reassembled(head: string, start: nat, end: nat)
    requires start < end < |head| && head[start] == '(' && head[end] == ')'
    ensures head == head[..start] + ("(" + head[start + 1..end] + ")") + head[end + 1..]
  {
  }

  /** The line splits into the hash, a blank, and a text that, trimmed, splits into the prefix, the
      first ": ", and a text that, trimmed, is the message. */
  ghost predicate Splits(line: string, e: ChangelogEntry, rest: string, prefix: string, tail: string) {
    && Trim(line) == e.hash + " " + rest && ' ' !in e.hash
    && Trim(rest) == prefix + ": " + tail && (forall j: nat :: !At(prefix, j, ": "))
    && Trim(tail) == e.message && e.message != ""
  }

  ghost predicate Gives(line: string, e: ChangelogEntry) {
    exists rest: string, prefix: string, tail: string, after: string ::
      Splits(line, e, rest, prefix, tail) && Says(prefix, e, after) && e.commitType in COMMIT_TYPES
  }

  lemma SplitIsParsed(line: string, e: ChangelogEntry, rest: string, prefix: string, tail: string,
                      types: seq<string>)
    requires Splits(line, e, rest, prefix, tail)
    ensures ParseLine(line, types) == ParsePrefix(prefix, e.hash, e.message, types)
  {
    var t := Trim(line);
    FindChar(e.hash, ' ', rest);
    assert t == e.hash + [' '] + rest;
    assert t[..|e.hash|] == e.hash && t[|e.hash| + 1..] == rest;
    FindColon(prefix, tail);
    assert Trim(rest)[..|prefix|] == prefix && Trim(rest)[|prefix| + 2..] == tail;
  }

  lemma SplitAtBlank(t: string)
    ensures match Find(t, " ")
      case Some(i) => t == t[..i] + " " + t[i + 1..] && ' ' !in t[..i]
      case None => true
  {
    FoundFirst(t, ' ');
    FoundIsChar(t, ' ');
  }

  lemma SplitAtColon(r: string)
    ensures match Find(r, ": ")
      case Some(c) => r == r[..c] + ": " + r[c + 2..] && forall j: nat :: !At(r[..c], j, ": ")
      case None => true
  {
    FindIsFirst(r, ": ");
    match Find(r, ": ")
    case None =>
    case Some(c) =>
      NoColonBefore(r, c);
      assert r[c..c + 2] == ": ";
  }

  lemma ParsedIsSplit(line: string, types: seq<string>) returns (rest: string, prefix: string, tail: string)
    requires ParseLine(line, types).Entry?
    ensures Splits(line, ParseLine(line, types).entry, rest, prefix, tail)
    ensures var e := ParseLine(line, types).entry;
      ParsePrefix(prefix, e.hash, e.message, types) == Entry(e)
  {
    var t := Trim(line);
    SplitAtBlank(t);
    var i := Find(t, " ").value;
    rest := t[i + 1..];
    SplitAtColon(Trim(rest));
    var colon := Find(Trim(rest), ": ").value;
    prefix, tail := Trim(rest)[..colon], Trim(rest)[colon + 2..];
    var after := ParsedIsSaid(prefix, t[..i], Trim(tail), types);
  }

  /** A line gives an entry exactly when it has the documented parts, and then the entry of these. */
  lemma GivesExactlyWhen(line: string, e: ChangelogEntry)
    ensures ParseCommit(line) == Entry(e) <==> Gives(line, e)
  {
    if ParseCommit(line) == Entry(e) {
      var rest, prefix, tail := ParsedIsSplit(line, COMMIT_TYPES);
      var after := ParsedIsSaid(prefix, e.hash, e.message, COMMIT_TYPES);
    }
    if Gives(line, e) {
      var rest: string, prefix: string, tail: string, after: string :|
        Splits(line, e, rest, prefix, tail) && Says(prefix, e, after) && e.commitType in COMMIT_TYPES;
      SplitIsParsed(line, e, rest, prefix, tail, COMMIT_TYPES);
      SaidIsParsed(prefix, e, after, COMMIT_TYPES);
    }
  }

  lemma ValidTypes(t: string)
    ensures t in COMMIT_TYPES <==>
      || t == "feat" || t == "fix" || t == "docs" || t == "test" || t == "ci" || t == "refactor"
      || t == "perf" || t == "chore" || t == "build" || t == "style" || t == "revert"
  {
  }

  // ---- Lines that are skipped ----

  /** Skipped is what has no prefix and message, and of what has them, and does not panic, exactly what
      opens a parenthesis and never closes it, or has no valid type. */
  lemma SkippedExactlyWhen(line: string)
    ensures ParseCommit(line) == Skipped <==>
      match PrefixOf(line)
      case None => true
      case Some(prefix) =>
        && !Misplaced(Unmarked(prefix))
        && (('(' in Unmarked(prefix) && ')' !in Unmarked(prefix))
            || TypeOf(Unmarked(prefix)) !in COMMIT_TYPES)
  {
    LineSkippedExactlyWhen(line, COMMIT_TYPES);
  }

  /** What stands before the first opening parenthesis. */
  function TypeOf(head: string): string {
    match Find(head, "(") case None => head case Some(start) => head[..start]
  }

  lemma PrefixSkippedExactlyWhen(prefix: string, hash: string, message: string, types: seq<string>)
    ensures ParsePrefix(prefix, hash, message, types) == Skipped <==>
      var head := Unmarked(prefix);
      !Misplaced(head) && (('(' in head && ')' !in head) || TypeOf(head) !in types)
  {
    var head := Unmarked(prefix);
    MisplacedIs(head);
    FoundFirst(head, '(');
    FoundFirst(head, ')');
    FoundIsChar(head, '(');
    FoundIsChar(head, ')');
  }

  lemma LineSkippedExactlyWhen(line: string, types: seq<string>)
    ensures ParseLine(line, types) == Skipped <==>
      match PrefixOf(line)
      case None => true
      case Some(prefix) =>
        var head := Unmarked(prefix);
        !Misplaced(head) && (('(' in head && ')' !in head) || TypeOf(head) !in types)
  {
    var t := Trim(line);
    match Find(t, " ") {
      case None =>
      case Some(i) =>
        var rest := Trim(t[i + 1..]);
        match Find(rest, ": ") {
          case None =>
          case Some(colon) =>
            PrefixSkippedExactlyWhen(rest[..colon], t[..i], Trim(rest[colon + 2..]), types);
        }
    }
  }

  // ---- All lines ----

  function Both(x: Option<seq<ChangelogEntry>>, y: Option<seq<ChangelogEntry>>): Option<seq<ChangelogEntry>> {
    if x.Some? && y.Some? then Some(x.value + y.value) else None
  }

  lemma {:induction false} ConcatBy(parse: string -> Parsed, a: seq<string>, b: seq<string>)
    ensures EntriesBy(parse, a + b) == Both(EntriesBy(parse, a), EntriesBy(parse, b))
  {
    if b == [] {
      assert a + b == a && EntriesBy(parse, b) == Some([]);
      assert EntriesBy(parse, a).Some? ==> EntriesBy(parse, a).value + [] == EntriesBy(parse, a).value;
    } else {
      var init, last := b[..|b| - 1], parse(b[|b| - 1]);
      ConcatBy(parse, a, init);
      assert (a + b)[..|a + b| - 1] == a + init;
      if EntriesBy(parse, a).Some? && EntriesBy(parse, init).Some? && last.Entry? {
        ConcatAssociates(EntriesBy(parse, a).value, EntriesBy(parse, init).value, [last.entry]);
      }
    }
  }

  lemma OneBy(parse: string -> Parsed, line: string)
    ensures EntriesBy(parse, [line]) ==
      match parse(line)
      case Entry(e) => Some([e])
      case Skipped => Some([])
      case Panic => None
  {
    assert [line][..0] == [] && EntriesBy(parse, []) == Some([]);
    assert parse(line).Entry? ==> [] + [parse(line).entry] == [parse(line).entry];
  }

  /** The log is read line by line: two parts of it give what the first gives and then what the second
      gives, and one line gives its entry, or nothing, or a panic. */
  lemma ReadLineByLine(a: seq<string>, b: seq<string>, line: string)
    ensures Entries(a + b) == Both(Entries(a), Entries(b))
    ensures Entries([line]) ==
      match ParseCommit(line)
      case Entry(e) => Some([e])
      case Skipped => Some([])
      case Panic => None
  {
    ConcatBy(ParseCommit, a, b);
    OneBy(ParseCommit, line);
  }
}
