/** Changelog entries from what git logs, one line for each commit. */
module CommitParsing {
  import opened Wrappers
  import opened Text
  import opened Changelog
  import opened ChangelogLaws
  import opened ReleaseHistory

  /** A slice whose end is before its start panics. */
  datatype Parsed = Entry(entry: ChangelogEntry) | Skipped | Panic

  const COMMIT_TYPES := [
    "feat", "fix", "docs", "test", "ci", "refactor", "perf", "chore", "build", "style", "revert"
  ]

  /** `types` are the valid types. */
  function ParsePrefix(prefix: string, hash: string, message: string, types: seq<string>): Parsed {
    var breaking := prefix != "" && prefix[|prefix| - 1] == '!';
    var head := if breaking then prefix[..|prefix| - 1] else prefix;
    match Find(head, "(")
    case None => ParseType(head, None, message, hash, breaking, types)
    case Some(start) =>
      match Find(head, ")")
      case None => Skipped
      case Some(end) =>
        if end < start + 1 then Panic
        else ParseType(head[..start], Some(head[start + 1..end]), message, hash, breaking, types)
  }

  function ParseType(commitType: string, scope: Option<string>, message: string, hash: string,
                     breaking: bool, types: seq<string>): Parsed {
    if commitType in types then Entry(ChangelogEntry(commitType, scope, message, hash, breaking))
    else Skipped
  }

  function ParseCommit(line: string): Parsed {
    ParseLine(line, COMMIT_TYPES)
  }

  function ParseLine(line: string, types: seq<string>): Parsed {
    var line := Trim(line);
    match Find(line, " ")
    case None => Skipped
    case Some(i) =>
      var rest := Trim(line[i + 1..]);
      match Find(rest, ": ")
      case None => Skipped
      case Some(colon) =>
        var message := Trim(rest[colon + 2..]);
        if message == "" then Skipped else ParsePrefix(rest[..colon], line[..i], message, types)
  }

  /** The entries of the lines that have one, or None if some line panics. */
  function EntriesBy(parse: string -> Parsed, ls: seq<string>): Option<seq<ChangelogEntry>> {
    if ls == [] then Some([])
    else
      match (EntriesBy(parse, ls[..|ls| - 1]), parse(ls[|ls| - 1]))
      case (Some(es), Entry(e)) => Some(es + [e])
      case (Some(es), Skipped) => Some(es)
      case _ => None
  }

  function Entries(ls: seq<string>): Option<seq<ChangelogEntry>> {
    EntriesBy(ParseCommit, ls)
  }

  function ReadGitLog(stdout: string): Option<seq<ChangelogEntry>> {
    Entries(Lines(stdout))
  }

  // ---- Fields are single lines ----

  lemma Within(s: string, lo: nat, hi: nat)
    requires lo <= hi <= |s| && OneLine(s)
    ensures OneLine(s[lo..hi])
  {
  }

  lemma TrimmedOneLine(s: string)
    requires OneLine(s)
    ensures OneLine(Trim(s))
  {
    TrimKeeps(s, '\n');
  }

  lemma PrefixIsSingleLine(prefix: string, hash: string, message: string, types: seq<string>)
    requires OneLine(prefix) && OneLine(hash) && OneLine(message)
    ensures var p := ParsePrefix(prefix, hash, message, types); p.Entry? ==> SingleLine(p.entry)
  {
    var breaking := prefix != "" && prefix[|prefix| - 1] == '!';
    var head := if breaking then prefix[..|prefix| - 1] else prefix;
    match Find(head, "(") {
      case None =>
      case Some(start) =>
        match Find(head, ")") {
          case None =>
          case Some(end) =>
            if start < end {
              assert head[start + 1..end] == prefix[start + 1..end];
              Within(prefix, start + 1, end);
            }
        }
    }
  }

  /** An entry parsed from one line has only single-line fields. */
  lemma ParsedIsSingleLine(line: string, types: seq<string>)
    requires OneLine(line)
    ensures ParseLine(line, types).Entry? ==> SingleLine(ParseLine(line, types).entry)
  {
    var t := Trim(line);
    TrimmedOneLine(line);
    match Find(t, " ") {
      case None =>
      case Some(i) =>
        var rest := Trim(t[i + 1..]);
        TrimmedOneLine(t[i + 1..]);
        match Find(rest, ": ") {
          case None =>
          case Some(colon) =>
            TrimmedOneLine(rest[colon + 2..]);
            PrefixIsSingleLine(rest[..colon], t[..i], Trim(rest[colon + 2..]), types);
        }
    }
  }

  lemma {:induction false} SingleLineBy(parse: string -> Parsed, ls: seq<string>)
    requires forall i :: 0 <= i < |ls| ==> parse(ls[i]).Entry? ==> SingleLine(parse(ls[i]).entry)
    ensures EntriesBy(parse, ls).Some? ==> forall e :: e in EntriesBy(parse, ls).value ==> SingleLine(e)
  {
    if ls != [] {
      SingleLineBy(parse, ls[..|ls| - 1]);
    }
  }

  lemma EntriesAreSingleLine(ls: seq<string>)
    requires forall i :: 0 <= i < |ls| ==> OneLine(ls[i])
    ensures match Entries(ls) case Some(es) => (forall e :: e in es ==> SingleLine(e)) case None => true
  {
    forall i | 0 <= i < |ls|
      ensures ParseCommit(ls[i]).Entry? ==> SingleLine(ParseCommit(ls[i]).entry)
    {
      ParsedIsSingleLine(ls[i], COMMIT_TYPES);
    }
    SingleLineBy(ParseCommit, ls);
  }

  predicate NoPanicBy(parse: string -> Parsed, ls: seq<string>) {
    forall i :: 0 <= i < |ls| ==> !parse(ls[i]).Panic?
  }

  predicate NoPanic(ls: seq<string>) {
    NoPanicBy(ParseCommit, ls)
  }

  lemma {:induction false} EntriesExactlyWhen(parse: string -> Parsed, ls: seq<string>)
    ensures EntriesBy(parse, ls).Some? <==> NoPanicBy(parse, ls)
  {
    if ls != [] {
      var init, last := ls[..|ls| - 1], ls[|ls| - 1];
      EntriesExactlyWhen(parse, init);
      assert NoPanicBy(parse, ls) <==> NoPanicBy(parse, init) && !parse(last).Panic? by {
        assert forall i :: 0 <= i < |ls| ==> ls[i] == if i < |init| then init[i] else last;
      }
    }
  }

  /** Whatever git logs, unless some line panics, the entries read from it make a sound step of either
      command. */
  lemma LoggedIsSound(stdout: string, version: string, date: string)
    requires OneLine(version) && OneLine(date)
    ensures ReadGitLog(stdout).Some? <==> NoPanic(Lines(stdout))
    ensures ReadGitLog(stdout).Some? ==>
      && SoundStep(Write(ReadGitLog(stdout).value))
      && SoundStep(Release(version, date, ReadGitLog(stdout).value))
  {
    EntriesExactlyWhen(ParseCommit, Lines(stdout));
    LinesAreOneLine(stdout);
    EntriesAreSingleLine(Lines(stdout));
  }

  // ---- What is parsed is what was written ----

  function ScopeText(scope: Option<string>): string {
    match scope case Some(s) => "(" + s + ")" case None => ""
  }

  function PrefixText(e: ChangelogEntry): string {
    e.commitType + ScopeText(e.scope) + if e.breaking then "!" else ""
  }

  /** `<hash> <type>[(<scope>)][!]: <message>` */
  function CommitText(e: ChangelogEntry): string {
    e.hash + " " + (PrefixText(e) + ": " + e.message)
  }

  ghost predicate Conventional(e: ChangelogEntry) {
    Written(e, COMMIT_TYPES)
  }

  ghost predicate Written(e: ChangelogEntry, types: seq<string>) {
    && e.commitType in types
    && e.hash != "" && !IsWhitespace(e.hash[0]) && ' ' !in e.hash
    && Inked(e.message)
    && (e.scope.Some? ==> ')' !in e.scope.value && forall j: nat :: !At(e.scope.value, j, ": "))
  }

  lemma FindChar(a: string, c: char, b: string)
    requires c !in a
    ensures Find(a + [c] + b, [c]) == Some(|a|)
  {
    var s := a + [c] + b;
    assert At(s, |a|, [c]);
    forall j: nat | j < |a|
      ensures !At(s, j, [c])
    {
      assert s[j..j + 1][0] == a[j];
    }
    FoundAt(s, [c], |a|);
  }

  lemma NoChar(s: string, c: char)
    requires c !in s
    ensures Find(s, [c]) == None
  {
    forall j: nat
      ensures !At(s, j, [c])
    {
      assert j + 1 <= |s| ==> s[j..j + 1][0] == s[j];
    }
    NotFound(s, [c]);
  }

  predicate Letters(t: string) {
    t != "" && forall i :: 0 <= i < |t| ==> 'a' <= t[i] <= 'z'
  }

  lemma TypesAreLetters()
    ensures forall t :: t in COMMIT_TYPES ==> Letters(t)
  {
  }

  predicate NoColonSpace(p: string) {
    forall j :: 0 <= j < |p| && p[j] == ':' ==> j + 1 < |p| && p[j + 1] != ' '
  }

  lemma FindColon(p: string, m: string)
    requires forall j: nat :: !At(p, j, ": ")
    ensures Find(p + ": " + m, ": ") == Some(|p|)
  {
    var s := p + ": " + m;
    forall j: nat | j < |p|
      ensures !At(s, j, ": ")
    {
      assert !At(p, j, ": ");
      if j + 2 <= |p| {
        assert s[j..j + 2] == p[j..j + 2];
      } else {
        assert s[j..j + 2][1] == ':' && ": "[1] == ' ';
      }
    }
    assert s[|p|..|p| + 2] == ": ";
    FoundAt(s, ": ", |p|);
  }

  lemma NoColonAt(p: string)
    requires NoColonSpace(p)
    ensures forall j: nat :: !At(p, j, ": ")
  {
    forall j: nat
      ensures !At(p, j, ": ")
    {
      if j + 2 <= |p| {
        assert p[j..j + 2][0] == p[j] && p[j..j + 2][1] == p[j + 1];
        assert ": "[0] == ':' && ": "[1] == ' ';
      }
    }
  }

  lemma NoColonInScope(scope: string)
    requires forall j: nat :: !At(scope, j, ": ")
    ensures NoColonSpace("(" + scope + ")")
  {
    var p := "(" + scope + ")";
    forall j | 0 <= j < |p| && p[j] == ':'
      ensures j + 1 < |p| && p[j + 1] != ' '
    {
      assert p[j] == scope[j - 1] && p[|scope| + 1] == ')';
      if j < |scope| {
        assert !At(scope, j - 1, ": ");
        assert scope[j - 1..j + 1] == [scope[j - 1], scope[j]];
        assert ": " == [':', ' '];
      }
    }
  }

  lemma PrefixHasNoColon(e: ChangelogEntry, types: seq<string>)
    requires Written(e, types) && Letters(e.commitType)
    ensures NoColonSpace(PrefixText(e))
  {
    if e.scope.Some? {
      NoColonInScope(e.scope.value);
    }
    var t, s, p := e.commitType, ScopeText(e.scope), PrefixText(e);
    assert forall i :: 0 <= i < |t| ==> p[i] == t[i];
    forall j | 0 <= j < |p| && p[j] == ':'
      ensures j + 1 < |p| && p[j + 1] != ' '
    {
      assert |t| <= j < |t| + |s|;
      assert p[j] == s[j - |t|];
      assert p[j + 1] == s[j + 1 - |t|];
    }
  }

  lemma PrefixReadsBack(e: ChangelogEntry, types: seq<string>)
    requires Written(e, types) && Letters(e.commitType)
    ensures ParsePrefix(PrefixText(e), e.hash, e.message, types) == Entry(e)
  {
    var t, p := e.commitType, PrefixText(e);
    var head := t + ScopeText(e.scope);
    if e.breaking {
      assert p[|p| - 1] == '!' && p[..|p| - 1] == head;
    } else {
      assert p == head && p[|p| - 1] != '!';
    }
    match e.scope {
      case None =>
        assert head == t;
        NoChar(head, '(');
      case Some(s) =>
        ScopeFound(t, s, head);
    }
  }

  lemma ScopeFound(t: string, s: string, head: string)
    requires '(' !in t && ')' !in t && ')' !in s && head == t + ("(" + s + ")")
    ensures Find(head, "(") == Some(|t|) && Find(head, ")") == Some(|t| + 1 + |s|)
    ensures head[..|t|] == t && head[|t| + 1..|t| + 1 + |s|] == s
  {
    FindChar(t, '(', s + ")");
    assert head == t + ['('] + (s + ")");
    FindChar(t + "(" + s, ')', "");
    assert head == (t + "(" + s) + [')'] + "";
  }

  lemma TrimOfInked(s: string)
    requires Inked(s)
    ensures Trim(s) == s
  {
    TrimIndented("", s);
    assert "" + s == s;
  }

  lemma HashFound(hash: string, rest: string)
    requires hash != "" && !IsWhitespace(hash[0]) && ' ' !in hash && Inked(rest)
    ensures var line := hash + " " + rest;
      && Trim(line) == line && Find(line, " ") == Some(|hash|)
      && line[..|hash|] == hash && line[|hash| + 1..] == rest
  {
    var line := hash + " " + rest;
    assert line[0] == hash[0] && line[|line| - 1] == rest[|rest| - 1];
    TrimOfInked(line);
    FindChar(hash, ' ', rest);
    assert line == hash + [' '] + rest;
  }

  lemma MessageFound(p: string, message: string)
    requires p != "" && !IsWhitespace(p[0]) && NoColonSpace(p) && Inked(message)
    ensures var rest := p + ": " + message;
      && Inked(rest) && Find(rest, ": ") == Some(|p|)
      && rest[..|p|] == p && rest[|p| + 2..] == message
  {
    var rest := p + ": " + message;
    assert rest[0] == p[0] && rest[|rest| - 1] == message[|message| - 1];
    NoColonAt(p);
    FindColon(p, message);
  }

  lemma WrittenReadsBack(e: ChangelogEntry, types: seq<string>)
    requires Written(e, types) && Letters(e.commitType)
    ensures ParseLine(CommitText(e), types) == Entry(e)
  {
    var p := PrefixText(e);
    assert p[0] == e.commitType[0];
    PrefixHasNoColon(e, types);
    MessageFound(p, e.message);
    HashFound(e.hash, p + ": " + e.message);
    TrimOfInked(p + ": " + e.message);
    TrimOfInked(e.message);
    PrefixReadsBack(e, types);
  }

  lemma {:induction false} TrimEndIsInked(s: string)
    requires s != "" && !IsWhitespace(s[0])
    ensures Inked(TrimEnd(s))
  {
    if IsWhitespace(s[|s| - 1]) {
      TrimEndIsInked(s[..|s| - 1]);
    }
  }

  lemma {:induction false} TrimIsInked(s: string)
    ensures Trim(s) == "" || Inked(Trim(s))
  {
    if s != "" && IsWhitespace(s[0]) {
      TrimIsInked(s[1..]);
    } else if s != "" {
      TrimEndIsInked(s);
    }
  }

  lemma FoundFirst(s: string, c: char)
    ensures match Find(s, [c]) case Some(i) => c !in s[..i] case None => c !in s
  {
    FindIsFirst(s, [c]);
    forall j | 0 <= j < |s| && s[j] == c
      ensures At(s, j, [c])
    {
      assert s[j..j + 1] == [c];
    }
  }

  lemma PrefixIsWritten(prefix: string, hash: string, message: string, types: seq<string>)
    requires hash != "" && !IsWhitespace(hash[0]) && ' ' !in hash && Inked(message)
    requires forall j: nat :: !At(prefix, j, ": ")
    ensures var p := ParsePrefix(prefix, hash, message, types); p.Entry? ==> Written(p.entry, types)
  {
    var breaking := prefix != "" && prefix[|prefix| - 1] == '!';
    var head := if breaking then prefix[..|prefix| - 1] else prefix;
    FoundFirst(head, ')');
    match Find(head, "(") {
      case None =>
      case Some(start) =>
        match Find(head, ")") {
          case None =>
          case Some(end) =>
            if start < end {
              PartIsPlain(prefix, head, start + 1, end);
            }
        }
    }
  }

  lemma SliceOfSlice(s: string, lo: nat, hi: nat, i: nat, j: nat)
    requires lo <= hi <= |s| && i <= j <= hi - lo
    ensures s[lo..hi][i..j] == s[lo + i..lo + j]
  {
    var a, b := s[lo..hi][i..j], s[lo + i..lo + j];
    assert |a| == |b| && forall k :: 0 <= k < |a| ==> a[k] == s[lo + i + k] == b[k];
  }

  lemma PartIsPlain(prefix: string, head: string, lo: nat, hi: nat)
    requires head <= prefix && lo <= hi <= |head| && ')' !in head[..hi]
    requires forall j: nat :: !At(prefix, j, ": ")
    ensures ')' !in head[lo..hi] && forall j: nat :: !At(head[lo..hi], j, ": ")
  {
    var scope := head[lo..hi];
    assert scope == prefix[lo..hi];
    forall j: nat
      ensures !At(scope, j, ": ")
    {
      assert !At(prefix, lo + j, ": ");
      if j + 2 <= |scope| {
        SliceOfSlice(prefix, lo, hi, j, j + 2);
      }
    }
    assert forall j :: 0 <= j < |scope| ==> scope[j] == head[..hi][lo + j];
  }

  lemma ParsedIsWritten(line: string, types: seq<string>)
    ensures ParseLine(line, types).Entry? ==> Written(ParseLine(line, types).entry, types)
  {
    var t := Trim(line);
    TrimIsInked(line);
    FoundFirst(t, ' ');
    match Find(t, " ") {
      case None =>
      case Some(i) =>
        FoundIsChar(t, ' ');
        var rest := Trim(t[i + 1..]);
        FindIsFirst(rest, ": ");
        match Find(rest, ": ") {
          case None =>
          case Some(colon) =>
            TrimIsInked(rest[colon + 2..]);
            NoColonBefore(rest, colon);
            if Trim(rest[colon + 2..]) != "" {
              PrefixIsWritten(rest[..colon], t[..i], Trim(rest[colon + 2..]), types);
            }
        }
    }
  }

  lemma NoColonBefore(rest: string, colon: nat)
    requires Find(rest, ": ") == Some(colon)
    ensures forall j: nat :: !At(rest[..colon], j, ": ")
  {
    FindIsFirst(rest, ": ");
    forall j: nat
      ensures !At(rest[..colon], j, ": ")
    {
      assert j < colon ==> !At(rest, j, ": ");
      assert j + 2 <= colon ==> rest[..colon][j..j + 2] == rest[j..j + 2];
    }
  }

  /** A closing parenthesis stands before the first opening one. */
  predicate Misplaced(prefix: string) {
    exists i | 0 <= i < |prefix| :: prefix[i] == ')' && '(' !in prefix[..i] && '(' in prefix[i..]
  }

  lemma FoundIsChar(s: string, c: char)
    ensures match Find(s, [c])
      case Some(i) => i < |s| && s[i] == c
      case None => true
  {
    FindIsFirst(s, [c]);
    match Find(s, [c])
    case Some(i) => assert s[i..i + 1][0] == c;
    case None =>
  }

  lemma NotBefore(s: string, c: char, n: nat, i: nat)
    requires n <= |s| && c !in s[..n] && i < |s| && s[i] == c
    ensures n <= i
  {
    assert forall j :: 0 <= j < n ==> s[..n][j] == s[j];
  }

  lemma MisplacedIs(head: string)
    ensures Misplaced(head) <==>
      && Find(head, "(").Some? && Find(head, ")").Some? && Find(head, ")").value < Find(head, "(").value
  {
    FoundFirst(head, '(');
    FoundFirst(head, ')');
    FoundIsChar(head, '(');
    FoundIsChar(head, ')');
    match (Find(head, "("), Find(head, ")")) {
      case (Some(start), Some(end)) =>
        if end < start {
          assert head[end..][start - end] == '(';
          assert forall j :: 0 <= j < end ==> head[..end][j] == head[..start][j];
        }
        if i: nat :| i < |head| && head[i] == ')' && '(' !in head[..i] && '(' in head[i..] {
          NotBefore(head, ')', end, i);
          NotBefore(head, '(', i, start);
          assert start != i;
        }
      case _ =>
    }
  }

  /** A prefix without the mark of a breaking change. */
  function Unmarked(prefix: string): string {
    if prefix != "" && prefix[|prefix| - 1] == '!' then prefix[..|prefix| - 1] else prefix
  }

  lemma PrefixPanicsExactlyWhen(prefix: string, hash: string, message: string, types: seq<string>)
    ensures ParsePrefix(prefix, hash, message, types) == Panic <==> Misplaced(Unmarked(prefix))
  {
    MisplacedIs(Unmarked(prefix));
    FoundIsChar(Unmarked(prefix), '(');
    FoundIsChar(Unmarked(prefix), ')');
  }

  /** What stands between the first blank and the first ": " after it, if there is a message too. */
  function PrefixOf(line: string): Option<string> {
    match Find(Trim(line), " ")
    case None => None
    case Some(i) =>
      var rest := Trim(Trim(line)[i + 1..]);
      match Find(rest, ": ")
      case None => None
      case Some(colon) => if Trim(rest[colon + 2..]) == "" then None else Some(rest[..colon])
  }

  lemma LinePanicsExactlyWhen(line: string, types: seq<string>)
    ensures ParseLine(line, types) == Panic <==>
      PrefixOf(line).Some? && Misplaced(Unmarked(PrefixOf(line).value))
  {
    var t := Trim(line);
    match Find(t, " ") {
      case None =>
      case Some(i) =>
        var rest := Trim(t[i + 1..]);
        match Find(rest, ": ") {
          case None =>
          case Some(colon) =>
            PrefixPanicsExactlyWhen(rest[..colon], t[..i], Trim(rest[colon + 2..]), types);
        }
    }
  }

  /** A line panics exactly on a misplaced parenthesis before its message, whatever its type is. */
  lemma PanicsExactlyWhen(line: string)
    ensures ParseCommit(line) == Panic <==>
      PrefixOf(line).Some? && Misplaced(Unmarked(PrefixOf(line).value))
  {
    LinePanicsExactlyWhen(line, COMMIT_TYPES);
  }

  /** Lines that do. */
  lemma PanickingLine(hash: string, message: string)
    requires hash != "" && !IsWhitespace(hash[0]) && ' ' !in hash && Inked(message)
    ensures ParseCommit(hash + " " + (")(" + ": " + message)) == Panic
  {
    var p, line := ")(", hash + " " + (")(" + ": " + message);
    MessageFound(p, message);
    HashFound(hash, p + ": " + message);
    TrimOfInked(p + ": " + message);
    TrimOfInked(message);
    assert PrefixOf(line) == Some(p);
    assert p[0] == ')' && p[..0] == "" && p[0..][1] == '(';
    PanicsExactlyWhen(line);
  }

  /** Whatever is parsed from a line is a conventional entry. */
  lemma ParsedIsConventional(line: string)
    ensures ParseCommit(line).Entry? ==> Conventional(ParseCommit(line).entry)
  {
    ParsedIsWritten(line, COMMIT_TYPES);
  }

  /** An entry reads back from its text exactly when it is conventional. */
  lemma ReadsBackExactlyWhen(e: ChangelogEntry)
    ensures ParseCommit(CommitText(e)) == Entry(e) <==> Conventional(e)
  {
    ParsedIsConventional(CommitText(e));
    TypesAreLetters();
    if Conventional(e) {
      WrittenReadsBack(e, COMMIT_TYPES);
    }
  }
}
