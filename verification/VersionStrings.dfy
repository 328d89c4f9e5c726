/** Which strings can be bumped at all, and what the result is. */
module VersionStrings {
  import opened Wrappers
  import opened Lists
  import opened Text
  import opened VersionBump

  /** A number that fits, in ASCII digits, with or without a plus sign. */
  ghost predicate Writes(part: string, n: nat) {
    n <= U64_MAX && exists sign: string, digits: string ::
      part == sign + digits && sign in {"", "+"} && AllDigits(digits) && Value(digits) == n
  }

  /** The three numbers between dots, after at most one `v`; what follows is nothing or begins with
      a hyphen. */
  ghost predicate Denotes(s: string, major: nat, minor: nat, patch: nat) {
    exists v: string, a: string, b: string, c: string, rest: string ::
      && s == v + (Join3(a, b, c) + rest)
      && v in {"", "v"} && (rest == "" || rest[0] == '-')
      && Writes(a, major) && Writes(b, minor) && Writes(c, patch)
  }

  lemma ParsedExactlyWhen(part: string, n: nat)
    ensures ParseU64(part) == Some(n) <==> Writes(part, n)
  {
    if Writes(part, n) {
      WrittenIsParsed(part, n);
    }
    if ParseU64(part) == Some(n) {
      if "+" <= part {
        assert part == "+" + part[1..];
      } else {
        assert part == "" + part;
      }
    }
  }

  lemma WrittenIsParsed(part: string, n: nat)
    requires Writes(part, n)
    ensures ParseU64(part) == Some(n)
  {
    var sign, digits :| part == sign + digits && sign in {"", "+"} && AllDigits(digits) && Value(digits) == n;
    if sign == "" {
      assert part == digits && IsAsciiDigit(part[0]);
    } else {
      assert part[1..] == digits;
    }
  }

  lemma WrittenIsPlain(part: string, n: nat)
    requires Writes(part, n)
    ensures part != "" && part[0] != 'v' && '.' !in part && '-' !in part
  {
  }

  lemma {:induction false} JoinedFromThree(s: string)
    requires |Split(s, '.')| == 3
    ensures var parts := Split(s, '.'); s == Join3(parts[0], parts[1], parts[2])
  {
    var rest := FirstPart(s);
    var last := FirstPart(rest);
    assert Split(last, '.') == [last] by {
      assert IndexOf(last, '.') == |last|;
    }
    ConcatAssociates(Split(rest, '.')[0], ".", last);
    ConcatAssociates(Split(s, '.')[0], ".", rest);
  }

  lemma FirstPart(s: string) returns (rest: string)
    requires |Split(s, '.')| > 1
    ensures s == Split(s, '.')[0] + "." + rest && Split(rest, '.') == Split(s, '.')[1..]
  {
    rest := s[IndexOf(s, '.') + 1..];
  }

  /** What comes before the first hyphen, after at most one `v`. */
  function Base(s: string): string {
    var current := Unprefixed(s);
    current[..IndexOf(current, '-')]
  }

  lemma BaseOf(s: string, v: string, base: string, rest: string)
    requires s == v + (base + rest) && v in {"", "v"} && (rest == "" || rest[0] == '-')
    requires base != "" && base[0] != 'v' && '-' !in base
    ensures Base(s) == base
  {
    assert (base + rest)[0] == base[0];
    WithoutV(v, base + rest);
    EndOfBase(base, rest);
  }

  lemma JoinIsPlain(a: string, b: string, c: string, major: nat, minor: nat, patch: nat)
    requires Writes(a, major) && Writes(b, minor) && Writes(c, patch)
    ensures var base := Join3(a, b, c);
      && base != "" && base[0] != 'v' && '-' !in base && Split(base, '.') == [a, b, c]
  {
    WrittenIsPlain(a, major);
    WrittenIsPlain(b, minor);
    WrittenIsPlain(c, patch);
    SplitJoin3(a, b, c);
  }

  lemma DenotedIsParsed(s: string, major: nat, minor: nat, patch: nat, bump: BumpType)
    requires Denotes(s, major, minor, patch)
    ensures BumpVersion(s, bump) == BumpParsed(major, minor, patch, bump)
  {
    var v, a, b, c, rest :|
      && s == v + (Join3(a, b, c) + rest)
      && v in {"", "v"} && (rest == "" || rest[0] == '-')
      && Writes(a, major) && Writes(b, minor) && Writes(c, patch);
    JoinIsPlain(a, b, c, major, minor, patch);
    BaseOf(s, v, Join3(a, b, c), rest);
    WrittenIsParsed(a, major);
    WrittenIsParsed(b, minor);
    WrittenIsParsed(c, patch);
    BumpOfParts(s, a, b, c, bump);
  }

  lemma BumpOfParts(s: string, a: string, b: string, c: string, bump: BumpType)
    requires Split(Base(s), '.') == [a, b, c]
    requires ParseU64(a).Some? && ParseU64(b).Some? && ParseU64(c).Some?
    ensures BumpVersion(s, bump) == BumpParsed(ParseU64(a).value, ParseU64(b).value, ParseU64(c).value, bump)
  {
  }

  lemma WithoutV(v: string, s: string)
    requires v in {"", "v"} && !("v" <= s)
    ensures Unprefixed(v + s) == s
  {
    if v == "" {
      assert v + s == s;
    } else {
      assert (v + s)[1..] == s;
    }
  }

  lemma EndOfBase(base: string, rest: string)
    requires '-' !in base && (rest == "" || rest[0] == '-')
    ensures (base + rest)[..IndexOf(base + rest, '-')] == base
  {
    if rest == "" {
      IndexNone(base, '-');
      assert base + rest == base;
    } else {
      IndexAfter(base, '-', rest[1..]);
      assert base + rest == base + ['-'] + rest[1..];
    }
  }

  lemma Prefixed(s: string)
    ensures s == (if "v" <= s then "v" else "") + Unprefixed(s)
  {
  }

  lemma DenotesThese(s: string, v: string, a: string, b: string, c: string, rest: string,
                     major: nat, minor: nat, patch: nat)
    requires s == v + (Join3(a, b, c) + rest) && v in {"", "v"} && (rest == "" || rest[0] == '-')
    requires Writes(a, major) && Writes(b, minor) && Writes(c, patch)
    ensures Denotes(s, major, minor, patch)
  {
  }

  lemma BaseFirst(s: string) returns (v: string, rest: string)
    ensures s == v + (Base(s) + rest) && v in {"", "v"} && (rest == "" || rest[0] == '-')
  {
    var current := Unprefixed(s);
    v, rest := if "v" <= s then "v" else "", current[IndexOf(current, '-')..];
    Prefixed(s);
    assert current == Base(s) + rest;
  }

  lemma PartsParse(s: string, bump: BumpType) returns (major: nat, minor: nat, patch: nat)
    requires BumpVersion(s, bump) != Invalid
    ensures var parts := Split(Base(s), '.');
      && |parts| == 3 && ParseU64(parts[0]) == Some(major)
      && ParseU64(parts[1]) == Some(minor) && ParseU64(parts[2]) == Some(patch)
  {
    var parts := Split(Base(s), '.');
    major, minor, patch := ParseU64(parts[0]).value, ParseU64(parts[1]).value, ParseU64(parts[2]).value;
  }

  lemma ParsedIsDenoted(s: string, bump: BumpType) returns (major: nat, minor: nat, patch: nat)
    requires BumpVersion(s, bump) != Invalid
    ensures Denotes(s, major, minor, patch)
  {
    major, minor, patch := PartsParse(s, bump);
    var v, rest := BaseFirst(s);
    var parts := Split(Base(s), '.');
    JoinedFromThree(Base(s));
    ParsedExactlyWhen(parts[0], major);
    ParsedExactlyWhen(parts[1], minor);
    ParsedExactlyWhen(parts[2], patch);
    DenotesThese(s, v, parts[0], parts[1], parts[2], rest, major, minor, patch);
  }

  /** The printed successor of three numbers. */
  function Successor(a: nat, b: nat, c: nat, bump: BumpType): BumpResult {
    match bump
    case Major => if a < U64_MAX then Bumped(Print(a + 1) + ".0.0") else Overflow
    case Minor => if b < U64_MAX then Bumped(Print(a) + "." + Print(b + 1) + ".0") else Overflow
    case Patch => if c < U64_MAX then Bumped(Print(a) + "." + Print(b) + "." + Print(c + 1)) else Overflow
    case Pre(tag) => Bumped(Print(a) + "." + Print(b) + "." + Print(c) + "-" + tag)
  }

  lemma JoinedAtOnce(a: string, b: string, c: string)
    ensures Join3(a, b, c) == a + "." + b + "." + c
  {
  }

  lemma SuccessorParsed(a: nat, b: nat, c: nat, bump: BumpType)
    requires a <= U64_MAX && b <= U64_MAX && c <= U64_MAX
    ensures BumpParsed(a, b, c, bump) == Successor(a, b, c, bump)
  {
    JoinedAtOnce(Print(a + 1), "0", "0");
    JoinedAtOnce(Print(a), Print(b + 1), "0");
    JoinedAtOnce(Print(a), Print(b), Print(c + 1));
    JoinedAtOnce(Print(a), Print(b), Print(c));
    assert "." + "0" + "." + "0" == ".0.0" && "." + "0" == ".0";
  }

  /** Any string is refused exactly when it does not denote three numbers, and otherwise bumped by
      what it denotes. */
  lemma BumpOfAny(s: string, bump: BumpType)
    ensures BumpVersion(s, bump) != Invalid
       <==> exists a: nat, b: nat, c: nat :: Denotes(s, a, b, c)
    ensures forall a: nat, b: nat, c: nat :: Denotes(s, a, b, c) ==>
      BumpVersion(s, bump) == Successor(a, b, c, bump)
  {
    if BumpVersion(s, bump) != Invalid {
      var major, minor, patch := ParsedIsDenoted(s, bump);
    }
    forall a: nat, b: nat, c: nat | Denotes(s, a, b, c)
      ensures BumpVersion(s, bump) == Successor(a, b, c, bump)
    {
      DenotedIsParsed(s, a, b, c, bump);
      SuccessorParsed(a, b, c, bump);
    }
  }

  // ---- Strings that validate ----

  /** Three numbers between dots, and a hyphen with a label or nothing. */
  predicate IsVersion(s: string, a: string, b: string, c: string, rest: string, other: char -> bool) {
    && s == Join3(a, b, c) + rest
    && IsNumber(a, other) && IsNumber(b, other) && IsNumber(c, other)
    && (rest == "" || (rest[0] == '-' && IsLabel(rest[1..])))
  }

  lemma NumbersArePlain(a: string, b: string, c: string, other: char -> bool)
    requires IsNumber(a, other) && IsNumber(b, other) && IsNumber(c, other)
    ensures '-' !in Join3(a, b, c) && Split(Join3(a, b, c), '.') == [a, b, c]
  {
    SplitJoin3(a, b, c);
  }

  lemma VersionIsValid(s: string, a: string, b: string, c: string, rest: string, other: char -> bool)
    requires IsVersion(s, a, b, c, rest, other)
    ensures IsValid(s, other)
  {
    NumbersArePlain(a, b, c, other);
    EndOfBase(Join3(a, b, c), rest);
    assert IndexOf(s, '-') < |s| ==> s[IndexOf(s, '-') + 1..] == rest[1..];
  }

  /** Exactly these strings validate. */
  lemma ValidExactlyWhen(s: string, other: char -> bool)
    ensures IsValid(s, other)
       <==> exists a: string, b: string, c: string, rest: string :: IsVersion(s, a, b, c, rest, other)
  {
    if a, b, c, rest :| IsVersion(s, a, b, c, rest, other) {
      VersionIsValid(s, a, b, c, rest, other);
    }
    if IsValid(s, other) {
      var a, b, c, rest := ValidParts(s, other);
    }
  }

  lemma ValidParts(s: string, other: char -> bool) returns (a: string, b: string, c: string, rest: string)
    requires IsValid(s, other)
    ensures IsVersion(s, a, b, c, rest, other)
  {
    var i := IndexOf(s, '-');
    var parts := Split(s[..i], '.');
    JoinedFromThree(s[..i]);
    a, b, c, rest := parts[0], parts[1], parts[2], s[i..];
    assert s == s[..i] + rest && (i < |s| ==> rest[1..] == s[i + 1..]);
  }
}
