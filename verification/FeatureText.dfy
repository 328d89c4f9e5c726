/** What the lines of a feature file mean, as text. */
module FeatureText {
  import opened Text
  import opened Lists
  import opened Gherkin

  // ---- Words of a line ----

  predicate IsWord(s: string) {
    s != "" && forall i :: 0 <= i < |s| ==> !IsWhitespace(s[i])
  }

  /** The words with the gaps before, between and after them. */
  function Spaced(gaps: seq<string>, words: seq<string>): string
    requires |gaps| == |words| + 1
  {
    if words == [] then gaps[0] else gaps[0] + (words[0] + Spaced(gaps[1..], words[1..]))
  }

  /** Gaps are blank, and there is one between any two words. */
  predicate Separates(gaps: seq<string>, words: seq<string>) {
    && |gaps| == |words| + 1
    && (forall i :: 0 <= i < |gaps| ==> Blank(gaps[i]))
    && (forall i :: 0 < i < |words| ==> gaps[i] != "")
    && (forall i :: 0 <= i < |words| ==> IsWord(words[i]))
  }

  lemma {:induction false} WordEnds(word: string, rest: string)
    requires (forall i :: 0 <= i < |word| ==> !IsWhitespace(word[i])) && (rest == "" || IsWhitespace(rest[0]))
    ensures WordLength(word + rest) == |word|
  {
    if word == "" {
      assert word + rest == rest;
    } else {
      assert (word + rest)[1..] == word[1..] + rest;
      WordEnds(word[1..], rest);
    }
  }

  lemma SpacedStarts(gaps: seq<string>, words: seq<string>)
    requires Separates(gaps, words)
    ensures var s := Spaced(gaps, words);
      && (gaps[0] != "" || words == [] ==> s == "" || IsWhitespace(s[0]))
      && (words != [] ==> Separates(gaps[1..], words[1..]))
  {
  }

  /** A line splits into exactly its words, whatever blanks are around them. */
  lemma {:induction false} WordsOfSpaced(gaps: seq<string>, words: seq<string>)
    requires Separates(gaps, words)
    ensures Words(Spaced(gaps, words)) == words
  {
    SpacedStarts(gaps, words);
    if words == [] {
      TrimBlankStart(gaps[0], "");
      assert gaps[0] + "" == gaps[0];
    } else {
      var word, rest := words[0], Spaced(gaps[1..], words[1..]);
      SpacedStarts(gaps[1..], words[1..]);
      TrimBlankStart(gaps[0], word + rest);
      WordEnds(word, rest);
      assert (word + rest)[..|word|] == word && (word + rest)[|word|..] == rest;
      WordsOfSpaced(gaps[1..], words[1..]);
    }
  }

  // ---- Tags of a line ----

  /** A word of a tag line: at signs and a name, or a word that does not start with one. */
  datatype Word = Tag(signs: nat, name: string) | Other(text: string) {
    predicate Valid() {
      match this
      case Tag(signs, name) => signs > 0 && !("@" <= name)
      case Other(text) => !("@" <= text)
    }

    function Text(): string {
      match this
      case Tag(signs, name) => Signs(signs) + name
      case Other(text) => text
    }
  }

  function Signs(n: nat): string {
    if n == 0 then "" else "@" + Signs(n - 1)
  }

  function Texts(words: seq<Word>): (ts: seq<string>)
    ensures |ts| == |words| && forall i :: 0 <= i < |ts| ==> ts[i] == words[i].Text()
  {
    seq(|words|, i requires 0 <= i < |words| => words[i].Text())
  }

  function Names(words: seq<Word>): seq<string> {
    if words == [] then []
    else (if words[0].Tag? then [words[0].name] else []) + Names(words[1..])
  }

  lemma {:induction false} SignsTrimmed(n: nat, name: string)
    requires !("@" <= name)
    ensures TrimStartMatches(Signs(n) + name, "@") == name
    ensures n > 0 ==> "@" <= Signs(n) + name
  {
    if n == 0 {
      assert Signs(n) + name == name;
    } else {
      assert (Signs(n) + name)[1..] == Signs(n - 1) + name;
      assert (Signs(n) + name)[..1] == "@";
      SignsTrimmed(n - 1, name);
    }
  }

  lemma {:induction false} TagsAreNames(words: seq<Word>)
    requires forall i :: 0 <= i < |words| ==> words[i].Valid()
    ensures ParseTags(Texts(words)) == Names(words)
  {
    if words != [] {
      TagsAreNames(words[1..]);
      assert Texts(words)[1..] == Texts(words[1..]);
      match words[0]
      case Tag(signs, name) => SignsTrimmed(signs, name);
      case Other(text) =>
    }
  }

  /** The tags of a line are the names of its words with at signs, in order, without the signs. */
  lemma TagsOfLine(gaps: seq<string>, words: seq<Word>)
    requires Separates(gaps, Texts(words)) && forall i :: 0 <= i < |words| ==> words[i].Valid()
    ensures ParseTagsFromLine(Spaced(gaps, Texts(words))) == Names(words)
  {
    WordsOfSpaced(gaps, Texts(words));
    TagsAreNames(words);
  }

  lemma {:induction false} LeadingBlank(s: string) returns (gap: string)
    ensures Blank(gap) && s == gap + TrimStart(s)
  {
    if s != "" && IsWhitespace(s[0]) {
      gap := LeadingBlank(s[1..]);
      gap := [s[0]] + gap;
      assert s == [s[0]] + s[1..];
    } else {
      gap := "";
      assert s == "" + s;
    }
  }

  lemma {:induction false} LeadingWord(s: string)
    ensures forall i :: 0 <= i < WordLength(s) ==> !IsWhitespace(s[i])
    ensures WordLength(s) < |s| ==> IsWhitespace(s[WordLength(s)])
  {
    if s != "" && !IsWhitespace(s[0]) {
      LeadingWord(s[1..]);
    }
  }

  /** Every line is its words with gaps. */
  lemma {:induction false} LineIsSpaced(line: string) returns (gaps: seq<string>)
    ensures Separates(gaps, Words(line)) && Spaced(gaps, Words(line)) == line
    decreases |line|
  {
    var gap := LeadingBlank(line);
    if TrimStart(line) == "" {
      gaps := [gap];
      assert gap + "" == gap;
    } else {
      var word, rest := FirstWord(line);
      var more := LineIsSpaced(rest);
      gaps := [gap] + more;
      GapFollows(more, Words(rest), rest);
      SpacedCons(gap, more, word, Words(rest));
    }
  }

  lemma FirstWord(line: string) returns (word: string, rest: string)
    requires TrimStart(line) != ""
    ensures IsWord(word) && (rest == "" || IsWhitespace(rest[0])) && |rest| < |line|
    ensures TrimStart(line) == word + rest && Words(line) == [word] + Words(rest)
  {
    var t := TrimStart(line);
    TrimStartShortens(line);
    LeadingWord(t);
    word, rest := t[..WordLength(t)], t[WordLength(t)..];
  }

  lemma SpacedCons(gap: string, gaps: seq<string>, word: string, words: seq<string>)
    requires Blank(gap) && IsWord(word) && Separates(gaps, words) && (words != [] ==> gaps[0] != "")
    ensures Separates([gap] + gaps, [word] + words)
    ensures Spaced([gap] + gaps, [word] + words) == gap + (word + Spaced(gaps, words))
  {
    assert ([gap] + gaps)[1..] == gaps && ([word] + words)[1..] == words;
  }

  lemma GapFollows(gaps: seq<string>, words: seq<string>, s: string)
    requires Separates(gaps, words) && Spaced(gaps, words) == s && (s == "" || IsWhitespace(s[0]))
    ensures words != [] ==> gaps[0] != ""
  {
    if words != [] {
      assert !IsWhitespace(words[0][0]) && s[|gaps[0]|] == words[0][0];
    }
  }

  lemma {:induction false} SignsOf(s: string) returns (n: nat, name: string)
    ensures s == Signs(n) + name && !("@" <= name) && ("@" <= s ==> n > 0)
  {
    if "@" <= s {
      n, name := SignsOf(s[1..]);
      assert s == "@" + s[1..];
      ConcatAssociates("@", Signs(n), name);
      n := n + 1;
    } else {
      n, name := 0, s;
      assert "" + s == s;
    }
  }

  lemma {:induction false} WordsAreTexts(ws: seq<string>) returns (words: seq<Word>)
    ensures Texts(words) == ws && forall i :: 0 <= i < |words| ==> words[i].Valid()
  {
    if ws == [] {
      words := [];
    } else {
      var rest := WordsAreTexts(ws[1..]);
      var n, name := SignsOf(ws[0]);
      var first := if "@" <= ws[0] then Tag(n, name) else Other(ws[0]);
      words := [first] + rest;
      assert first.Text() == ws[0] && ws == [ws[0]] + ws[1..];
      assert forall i :: 0 < i < |words| ==> words[i] == rest[i - 1] && Texts(rest)[i - 1] == ws[1..][i - 1];
    }
  }

  /** Every line is of this form, so `TagsOfLine` gives the tags of any. */
  lemma EveryLine(line: string) returns (gaps: seq<string>, words: seq<Word>)
    ensures Separates(gaps, Texts(words)) && forall i :: 0 <= i < |words| ==> words[i].Valid()
    ensures line == Spaced(gaps, Texts(words)) && ParseTagsFromLine(line) == Names(words)
  {
    gaps := LineIsSpaced(line);
    words := WordsAreTexts(Words(line));
    TagsOfLine(gaps, words);
  }

  // ---- Kinds of lines ----

  predicate IsTagText(t: string) {
    "@" <= t
  }

  predicate IsFeatureText(t: string) {
    "Feature:" <= t
  }

  predicate IsScenarioText(t: string) {
    "Scenario:" <= t || "Scenario Outline:" <= t
  }

  predicate IsStepText(t: string) {
    || "Given" <= t || "When" <= t || "Then" <= t || "And" <= t || "But" <= t
    || "Examples:" <= t || "|" <= t
  }

  predicate IsOtherText(t: string) {
    && t != "" && !("#" <= t)
    && !IsTagText(t) && !IsFeatureText(t) && !IsScenarioText(t) && !IsStepText(t)
  }

  function Times(word: string, n: nat): string {
    if n == 0 then "" else word + Times(word, n - 1)
  }

  /** The name is what follows the keyword, which may come more than once, without blanks at its ends. */
  ghost predicate IsNamed(t: string, name: string) {
    exists n: nat, rest: string ::
      && n > 0 && name == Trim(rest)
      && ((t == Times("Scenario:", n) + rest && !("Scenario:" <= rest))
          || (t == Times("Scenario Outline:", n) + rest && !("Scenario Outline:" <= rest)))
  }

  lemma {:induction false} PrefixTimes(s: string, word: string) returns (n: nat, rest: string)
    requires word != ""
    ensures s == Times(word, n) + rest && !(word <= rest) && TrimStartMatches(s, word) == rest
    ensures word <= s ==> n > 0
    decreases |s|
  {
    if word <= s {
      n, rest := PrefixTimes(s[|word|..], word);
      assert s == word + s[|word|..];
      ConcatAssociates(word, Times(word, n), rest);
      n := n + 1;
    } else {
      n, rest := 0, s;
      assert "" + s == s;
    }
  }

  lemma FirstLetters(t: string)
    ensures "@" <= t ==> t[0] == '@'
    ensures "Feature:" <= t ==> t[0] == 'F'
    ensures "Scenario:" <= t ==> t[0] == 'S' && t[8] == ':'
    ensures "Scenario Outline:" <= t ==> t[0] == 'S' && t[8] == ' '
  {
    assert "@"[0] == '@' && "Feature:"[0] == 'F' && "Scenario:"[0] == 'S' && "Scenario Outline:"[0] == 'S';
    assert "Scenario:"[8] == ':' && "Scenario Outline:"[8] == ' ';
  }

  lemma {:induction false} StartsWithSome(t: string, ws: seq<string>)
    ensures StartsWithAny(t, ws) <==> exists i :: 0 <= i < |ws| && ws[i] <= t
  {
    if ws != [] {
      StartsWithSome(t, ws[1..]);
      assert forall i :: 0 < i < |ws| ==> ws[i] == ws[1..][i - 1];
    }
  }

  lemma StepWords(t: string)
    ensures StartsWithAny(t, STEP_WORDS) <==> IsStepText(t)
  {
    var w := STEP_WORDS;
    StartsWithSome(t, w);
    assert |w| == 7 && w[0] == "Given" && w[1] == "When" && w[2] == "Then" && w[3] == "And";
    assert w[4] == "But" && w[5] == "Examples:" && w[6] == "|";
  }

  lemma ScenarioIsNamed(t: string)
    requires IsScenarioText(t)
    ensures IsNamed(t, Trim(TrimStartMatches(t, if "Scenario:" <= t then "Scenario:" else "Scenario Outline:")))
  {
    if "Scenario:" <= t {
      var n, rest := PrefixTimes(t, "Scenario:");
    } else {
      var n, rest := PrefixTimes(t, "Scenario Outline:");
    }
  }

  /** What a trimmed line is. */
  lemma ClassifiedExactly(t: string)
    ensures Classify(t).TagLine? <==> IsTagText(t)
    ensures Classify(t).FeatureLine? <==> IsFeatureText(t)
    ensures Classify(t).ScenarioLine? <==> IsScenarioText(t)
    ensures Classify(t).ClearingLine? <==> IsOtherText(t)
    ensures IsTagText(t) ==> Classify(t).tags == ParseTagsFromLine(t)
    ensures IsScenarioText(t) ==> IsNamed(t, Classify(t).name)
  {
    FirstLetters(t);
    StepWords(t);
    if IsScenarioText(t) {
      ScenarioIsNamed(t);
    }
  }

  // ---- A whole file ----

  /** The tags of a raw line: none, unless it is a tag line. */
  function LineTags(line: string): seq<string> {
    if IsTagText(Trim(line)) then ParseTagsFromLine(Trim(line)) else []
  }

  /** A scenario has begun before line `i` and after the last feature line. */
  predicate Begun(ls: seq<string>, i: nat)
    requires i <= |ls|
  {
    exists j | 0 <= j < i :: IsScenarioText(Trim(ls[j])) && Featureless(ls, j, i)
  }

  predicate Featureless(ls: seq<string>, j: int, i: nat)
    requires i <= |ls|
  {
    forall k :: j < k < i && k >= 0 ==> !IsFeatureText(Trim(ls[k]))
  }

  /** Tags before this line do not count after it. */
  predicate Stops(ls: seq<string>, j: nat)
    requires j < |ls|
  {
    var t := Trim(ls[j]);
    IsScenarioText(t) || IsFeatureText(t) || (IsOtherText(t) && !Begun(ls, j))
  }

  /** The tags that reach line `i`: those of the lines since the last one that stops them. */
  ghost predicate Reach(ls: seq<string>, i: nat, tags: seq<string>)
    requires i <= |ls|
  {
    exists lo: nat ::
      && lo <= i && (lo > 0 ==> Stops(ls, lo - 1)) && (forall j: nat :: lo <= j < i ==> !Stops(ls, j))
      && tags == Collect(LineTags, ls[lo..i])
  }

  /** The tags of the feature of line `i`: those that reach the last feature line before it. */
  ghost predicate FeatureReach(ls: seq<string>, i: nat, tags: seq<string>)
    requires i <= |ls|
  {
    || (Featureless(ls, -1, i) && tags == [])
    || (exists f: nat :: f < i && IsFeatureText(Trim(ls[f])) && Featureless(ls, f, i) && Reach(ls, f, tags))
  }

  /** Line `i` is a scenario of the file, with the tags of its feature and then its own. */
  ghost predicate Stands(path: string, ls: seq<string>, i: nat, s: Scenario)
    requires i < |ls|
  {
    && s.filePath == path && s.lineNumber == i + 1 && IsNamed(Trim(ls[i]), s.name)
    && exists feature: seq<string>, own: seq<string> ::
         s.tags == feature + own && FeatureReach(ls, i, feature) && Reach(ls, i, own)
  }

  /** The lines of scenarios up to line `n`. */
  ghost predicate AreScenarioLines(ls: seq<string>, at: seq<nat>) {
    && (forall k :: 0 <= k < |at| ==> at[k] < |ls|)
    && (forall a, b :: 0 <= a < b < |at| ==> at[a] < at[b])
    && (forall i: nat :: i in at <==> i < |ls| && IsScenarioText(Trim(ls[i])))
  }

  ghost predicate AllStand(path: string, ls: seq<string>, at: seq<nat>, found: seq<Scenario>) {
    && AreScenarioLines(ls, at) && |found| == |at|
    && forall k :: 0 <= k < |at| ==> Stands(path, ls, at[k], found[k])
  }

  lemma LineOf(content: string, i: nat)
    requires i < |Lines(content)|
    ensures var c, t := ClassifyAll(content)[i], Trim(Lines(content)[i]);
      && (c.TagLine? <==> IsTagText(t)) && (c.FeatureLine? <==> IsFeatureText(t))
      && (c.ScenarioLine? <==> IsScenarioText(t)) && (c.ClearingLine? <==> IsOtherText(t))
      && (c.ScenarioLine? ==> IsNamed(t, c.name))
      && LineTags(Lines(content)[i]) == if c.TagLine? then c.tags else []
  {
    ClassifiedExactly(Trim(Lines(content)[i]));
  }

  lemma SameStops(content: string, j: nat)
    requires j < |Lines(content)|
    ensures Stops(Lines(content), j) <==> IsBoundary(ClassifyAll(content), j)
  {
    var ls, cs := Lines(content), ClassifyAll(content);
    forall i: nat | i < |ls|
      ensures cs[i].FeatureLine? <==> IsFeatureText(Trim(ls[i]))
      ensures cs[i].ScenarioLine? <==> IsScenarioText(Trim(ls[i]))
      ensures cs[i].ClearingLine? <==> IsOtherText(Trim(ls[i]))
    {
      LineOf(content, i);
    }
    assert forall k: nat | k < j :: Featureless(ls, k, j) <==> NoFeature(cs, k, j);
    assert Begun(ls, j) <==> InScenario(cs, j);
  }

  lemma CollectMore<S, T>(f: S -> seq<T>, init: seq<S>, last: S)
    ensures Collect(f, init + [last]) == Collect(f, init) + f(last)
  {
    assert (init + [last])[..|init|] == init;
  }

  lemma {:induction false} SameTags(tags: string -> seq<string>, ls: seq<string>, cs: seq<Line>,
                                    lo: nat, hi: nat)
    requires lo <= hi <= |ls| == |cs|
    requires forall i :: 0 <= i < |ls| ==> tags(ls[i]) == if cs[i].TagLine? then cs[i].tags else []
    ensures TagsBetween(cs, lo, hi) == Collect(tags, ls[lo..hi])
  {
    if lo < hi {
      SameTags(tags, ls, cs, lo, hi - 1);
      assert ls[lo..hi] == ls[lo..hi - 1] + [ls[hi - 1]];
      CollectMore(tags, ls[lo..hi - 1], ls[hi - 1]);
    }
  }

  lemma PendingReaches(content: string, i: nat)
    requires i <= |Lines(content)|
    ensures Reach(Lines(content), i, Pending(ClassifyAll(content), i))
  {
    var ls, cs := Lines(content), ClassifyAll(content);
    var lo := LastBoundary(cs, i) + 1;
    forall j: nat | j < i
      ensures Stops(ls, j) <==> IsBoundary(cs, j)
    {
      SameStops(content, j);
    }
    forall j | 0 <= j < |ls|
      ensures LineTags(ls[j]) == if cs[j].TagLine? then cs[j].tags else []
    {
      LineOf(content, j);
    }
    SameTags(LineTags, ls, cs, lo, i);
  }

  lemma FeaturesReach(content: string, i: nat)
    requires i <= |Lines(content)|
    ensures FeatureReach(Lines(content), i, FeatureTags(ClassifyAll(content), i))
  {
    var ls, cs := Lines(content), ClassifyAll(content);
    var f := LastFeature(cs, i);
    forall j: nat | j < i
      ensures cs[j].FeatureLine? <==> IsFeatureText(Trim(ls[j]))
    {
      LineOf(content, j);
    }
    if f >= 0 {
      PendingReaches(content, f);
      assert Featureless(ls, f, i);
    } else {
      assert Featureless(ls, -1, i);
    }
  }

  lemma ScenarioStands(path: string, content: string, i: nat)
    requires i < |Lines(content)| && ClassifyAll(content)[i].ScenarioLine?
    ensures Stands(path, Lines(content), i, ScenarioAt(path, ClassifyAll(content), i))
  {
    LineOf(content, i);
    FeaturesReach(content, i);
    PendingReaches(content, i);
  }

  /** The scenarios found in a file are those of its scenario lines, in order, each with its line, its
      name, and the tags that reach its feature and then those that reach itself. */
  lemma FileIsScanned(path: string, content: string) returns (at: seq<nat>)
    ensures var ls := ClassifyAll(content);
      AllStand(path, Lines(content), at, Scanned(path, ls, |ls|))
  {
    var ls, cs := Lines(content), ClassifyAll(content);
    at := ScenarioLines(cs, |cs|);
    ScanIsScope(path, cs, |cs|);
    ScenarioPerLine(path, cs, |cs|);
    forall i: nat | i < |ls|
      ensures cs[i].ScenarioLine? <==> IsScenarioText(Trim(ls[i]))
    {
      LineOf(content, i);
    }
    forall k | 0 <= k < |at|
      ensures Stands(path, ls, at[k], Scanned(path, cs, |cs|)[k])
    {
      ScenarioStands(path, content, at[k]);
    }
  }

  /** The method, on a file as text. */
  method ParseFile(path: string, content: string) returns (found: seq<Scenario>)
    ensures exists at: seq<nat> :: AllStand(path, Lines(content), at, found)
  {
    found := ParseFeatureFile(path, content);
    ghost var at := FileIsScanned(path, content);
  }
}
