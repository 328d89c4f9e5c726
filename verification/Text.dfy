/** The string operations of the Rust library that the tools use. */
module Text {
  import opened Wrappers

  /** `pat` occurs in `s` at `i`. */
  predicate At(s: string, i: nat, pat: string) {
    i + |pat| <= |s| && s[i..i + |pat|] == pat
  }

  function FindFrom(s: string, pat: string, i: nat): (r: Option<nat>)
    requires i <= |s|
    ensures r.Some? ==> r.value + |pat| <= |s|
    decreases |s| - i
  {
    if At(s, i, pat) then Some(i)
    else if i == |s| then None
    else FindFrom(s, pat, i + 1)
  }

  /** `str::find` */
  function Find(s: string, pat: string): (r: Option<nat>)
    ensures r.Some? ==> r.value + |pat| <= |s|
  {
    FindFrom(s, pat, 0)
  }

  predicate Contains(s: string, pat: string) {
    Find(s, pat).Some?
  }

  lemma {:induction false} FindFromIsFirst(s: string, pat: string, i: nat)
    requires i <= |s|
    ensures match FindFrom(s, pat, i)
      case Some(k) => i <= k && At(s, k, pat) && forall j: nat :: i <= j < k ==> !At(s, j, pat)
      case None => forall j: nat :: i <= j ==> !At(s, j, pat)
    decreases |s| - i
  {
    if !At(s, i, pat) && i < |s| {
      FindFromIsFirst(s, pat, i + 1);
    }
  }

  /** `Find` finds the first occurrence, if there is one. */
  lemma FindIsFirst(s: string, pat: string)
    ensures match Find(s, pat)
      case Some(k) => At(s, k, pat) && forall j: nat :: j < k ==> !At(s, j, pat)
      case None => forall j: nat :: !At(s, j, pat)
  {
    FindFromIsFirst(s, pat, 0);
  }

  lemma FoundAt(s: string, pat: string, i: nat)
    requires At(s, i, pat) && forall j: nat :: j < i ==> !At(s, j, pat)
    ensures Find(s, pat) == Some(i)
  {
    FindIsFirst(s, pat);
    var r := Find(s, pat);
    assert r.Some?;
    assert !(r.value < i) && !(i < r.value);
  }

  lemma NotFound(s: string, pat: string)
    requires forall j: nat :: !At(s, j, pat)
    ensures Find(s, pat) == None
  {
    FindIsFirst(s, pat);
  }

  /** `char::is_whitespace` */
  predicate IsWhitespace(c: char) {
    var n := c as int;
    || 0x9 <= n <= 0xD || n == 0x20 || n == 0x85 || n == 0xA0 || n == 0x1680
    || 0x2000 <= n <= 0x200A || n == 0x2028 || n == 0x2029 || n == 0x202F || n == 0x205F || n == 0x3000
  }

  function TrimEnd(s: string): string {
    if s != "" && IsWhitespace(s[|s| - 1]) then TrimEnd(s[..|s| - 1]) else s
  }

  function TrimStart(s: string): string {
    if s != "" && IsWhitespace(s[0]) then TrimStart(s[1..]) else s
  }

  function Trim(s: string): string {
    TrimEnd(TrimStart(s))
  }

  predicate Inked(s: string) {
    s != "" && !IsWhitespace(s[0]) && !IsWhitespace(s[|s| - 1])
  }

  /** Trimming takes away exactly the indentation of a line that has neither end blank. */
  lemma {:induction false} TrimIndented(indent: string, s: string)
    requires Inked(s) && forall i :: 0 <= i < |indent| ==> indent[i] == ' '
    ensures Trim(indent + s) == s
  {
    if indent == "" {
      assert indent + s == s;
    } else {
      assert (indent + s)[1..] == indent[1..] + s;
      TrimIndented(indent[1..], s);
    }
  }

  predicate Blank(s: string) {
    forall i :: 0 <= i < |s| ==> IsWhitespace(s[i])
  }

  lemma {:induction false} TrimBlankStart(gap: string, s: string)
    requires Blank(gap) && (s == "" || !IsWhitespace(s[0]))
    ensures TrimStart(gap + s) == s
  {
    if gap == "" {
      assert gap + s == s;
    } else {
      assert (gap + s)[1..] == gap[1..] + s;
      TrimBlankStart(gap[1..], s);
    }
  }

  lemma {:induction false} TrimBlankEnd(s: string, gap: string)
    requires Blank(gap) && (s == "" || !IsWhitespace(s[|s| - 1]))
    ensures TrimEnd(s + gap) == s
  {
    if gap == "" {
      assert s + gap == s;
    } else {
      assert (s + gap)[..|s + gap| - 1] == s + gap[..|gap| - 1];
      TrimBlankEnd(s, gap[..|gap| - 1]);
    }
  }

  /** Trimming takes away exactly the blanks at both ends. */
  lemma TrimExactly(before: string, s: string, after: string)
    requires Blank(before) && Blank(after) && (s == "" || Inked(s))
    ensures Trim(before + s + after) == s
  {
    if s == "" {
      var gap := before + after;
      assert before + s + after == gap && gap + "" == gap && "" + "" == "";
      TrimBlankStart(gap, "");
    } else {
      ConcatIsAfter(before, s, after);
      TrimBlankStart(before, s + after);
      TrimBlankEnd(s, after);
    }
  }

  lemma ConcatIsAfter(a: string, b: string, c: string)
    ensures a + b + c == a + (b + c)
  {
  }

  /** `str::trim_start_matches`, which removes the prefix as often as it comes. */
  function TrimStartMatches(s: string, pat: string): string
    requires pat != ""
  {
    if pat <= s then TrimStartMatches(s[|pat|..], pat) else s
  }

  lemma {:induction false} TrimKeeps(s: string, c: char)
    ensures c in Trim(s) ==> c in s
  {
    TrimStartKeeps(s, c);
    TrimEndKeeps(TrimStart(s), c);
  }

  lemma {:induction false} TrimStartKeeps(s: string, c: char)
    ensures c in TrimStart(s) ==> c in s
  {
    if s != "" && IsWhitespace(s[0]) {
      TrimStartKeeps(s[1..], c);
    }
  }

  lemma {:induction false} TrimEndKeeps(s: string, c: char)
    ensures c in TrimEnd(s) ==> c in s
  {
    if s != "" && IsWhitespace(s[|s| - 1]) {
      TrimEndKeeps(s[..|s| - 1], c);
    }
  }

  // ---- Lines ----

  predicate OneLine(s: string) {
    '\n' !in s
  }

  function StripCr(s: string): string {
    if s != "" && s[|s| - 1] == '\r' then s[..|s| - 1] else s
  }

  /** `str::lines` */
  function Lines(s: string): seq<string> {
    if s == "" then []
    else
      match Find(s, "\n")
      case None => [s]
      case Some(i) => [StripCr(s[..i])] + Lines(s[i + 1..])
  }

  /** A line that `Lines` returns as it was written. */
  predicate PlainLine(s: string) {
    OneLine(s) && (s != "" ==> s[|s| - 1] != '\r')
  }

  function Unlines(ls: seq<string>): string {
    if ls == [] then "" else ls[0] + "\n" + Unlines(ls[1..])
  }

  lemma {:induction false} UnlinesAppend(a: seq<string>, b: seq<string>)
    ensures Unlines(a + b) == Unlines(a) + Unlines(b)
  {
    if a == [] {
      assert a + b == b;
    } else {
      assert (a + b)[1..] == a[1..] + b;
      UnlinesAppend(a[1..], b);
    }
  }

  lemma LinesCons(l: string, rest: string)
    requires PlainLine(l)
    ensures Lines(l + "\n" + rest) == [l] + Lines(rest)
  {
    FirstLineEnds(l, rest);
  }

  /** A carriage return before the line end is not part of the line. */
  lemma LinesOfCrLf(l: string, rest: string)
    requires OneLine(l)
    ensures Lines(l + "\r\n" + rest) == [l] + Lines(rest)
  {
    var line := l + "\r";
    FirstLineEnds(line, rest);
    assert l + "\r\n" == line + "\n" && line[|line| - 1] == '\r' && line[..|line| - 1] == l;
  }

  lemma FirstLineEnds(l: string, rest: string)
    requires OneLine(l)
    ensures Lines(l + "\n" + rest) == [StripCr(l)] + Lines(rest)
  {
    var s := l + "\n" + rest;
    assert At(s, |l|, "\n");
    forall j: nat | j < |l|
      ensures !At(s, j, "\n")
    {
      assert s[j] == l[j];
      assert j + 1 <= |s| ==> s[j..j + 1][0] == l[j];
    }
    FoundAt(s, "\n", |l|);
    assert s[..|l|] == l && s[|l| + 1..] == rest;
  }

  /** Splitting gives back the lines that were joined, with a last one that is not ended. */
  lemma {:induction false} LinesOfUnlines(ls: seq<string>, last: string)
    requires forall l :: l in ls ==> PlainLine(l)
    requires OneLine(last)
    ensures Lines(Unlines(ls) + last) == ls + if last == "" then [] else [last]
  {
    if ls == [] {
      assert Unlines(ls) + last == last;
      if last != "" {
        forall j: nat
          ensures !At(last, j, "\n")
        {
          if j < |last| { assert last[j..j + 1][0] == last[j]; }
        }
        NotFound(last, "\n");
      }
    } else {
      assert Unlines(ls) + last == ls[0] + "\n" + (Unlines(ls[1..]) + last);
      LinesCons(ls[0], Unlines(ls[1..]) + last);
      LinesOfUnlines(ls[1..], last);
      assert ls == [ls[0]] + ls[1..];
    }
  }

  lemma {:induction false} LinesAreOneLine(s: string)
    ensures forall i :: 0 <= i < |Lines(s)| ==> OneLine(Lines(s)[i])
    decreases |s|
  {
    if s != "" {
      FindIsFirst(s, "\n");
      match Find(s, "\n") {
        case None =>
          forall j | 0 <= j < |s|
            ensures s[j] != '\n'
          {
            assert !At(s, j, "\n");
            assert s[j..j + 1] == [s[j]];
          }
        case Some(k) =>
          forall j | 0 <= j < k
            ensures s[..k][j] != '\n'
          {
            assert !At(s, j, "\n");
            assert s[j..j + 1] == [s[j]];
          }
          LinesAreOneLine(s[k + 1..]);
      }
    }
  }

  // ---- Decimal numbers ----

  const U64_MAX := 0xFFFF_FFFF_FFFF_FFFF

  predicate IsAsciiDigit(c: char) {
    '0' <= c <= '9'
  }

  predicate AllDigits(s: string) {
    s != "" && forall i :: 0 <= i < |s| ==> IsAsciiDigit(s[i])
  }

  function Digit(n: nat): (c: char)
    requires n < 10
    ensures IsAsciiDigit(c)
  {
    '0' + n as char
  }

  /** `{}` of an unsigned number. */
  function Print(n: nat): (s: string)
    ensures AllDigits(s)
  {
    if n < 10 then [Digit(n)] else Print(n / 10) + [Digit(n % 10)]
  }

  /** The number that a string of digits denotes. */
  function Value(s: string): nat
    requires forall i :: 0 <= i < |s| ==> IsAsciiDigit(s[i])
  {
    if s == "" then 0
    else
      assert IsAsciiDigit(s[|s| - 1]);
      10 * Value(s[..|s| - 1]) + (s[|s| - 1] as int - '0' as int)
  }

  lemma {:induction false} ValueOfPrint(n: nat)
    ensures Value(Print(n)) == n
  {
    if n < 10 {
      assert Print(n)[..0] == "";
    } else {
      ValueOfPrint(n / 10);
      assert Print(n)[..|Print(n)| - 1] == Print(n / 10);
    }
  }

  /** `str::parse::<u64>`, which accepts a plus sign and refuses what does not fit. */
  function ParseU64(s: string): Option<nat> {
    var digits := if "+" <= s then s[1..] else s;
    if AllDigits(digits) && Value(digits) <= U64_MAX then Some(Value(digits)) else None
  }

  lemma ParseOfPrint(n: nat)
    requires n <= U64_MAX
    ensures ParseU64(Print(n)) == Some(n)
  {
    ValueOfPrint(n);
    assert IsAsciiDigit(Print(n)[0]);
  }
}
