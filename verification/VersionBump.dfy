/** Bumping a version string, and the precedence of versions. */
module VersionBump {
  import opened Wrappers
  import opened Text

  datatype BumpType = Major | Minor | Patch | Pre(tag: string)

  /** `Overflow` stands for the arithmetic overflow of a component. */
  datatype BumpResult = Bumped(version: string) | Invalid | Overflow

  function IndexOf(s: string, c: char): (i: nat)
    ensures i <= |s| && (i < |s| ==> s[i] == c)
    ensures forall j :: 0 <= j < i ==> s[j] != c
  {
    if s == "" || s[0] == c then 0 else 1 + IndexOf(s[1..], c)
  }

  /** `str::split` */
  function Split(s: string, c: char): (parts: seq<string>)
    ensures parts != []
    decreases |s|
  {
    var i := IndexOf(s, c);
    if i == |s| then [s] else [s[..i]] + Split(s[i + 1..], c)
  }

  function Join3(a: string, b: string, c: string): string {
    a + "." + (b + "." + c)
  }

  function BumpParsed(major: nat, minor: nat, patch: nat, bump: BumpType): BumpResult {
    match bump
    case Major =>
      if major == U64_MAX then Overflow else Bumped(Join3(Print(major + 1), "0", "0"))
    case Minor =>
      if minor == U64_MAX then Overflow else Bumped(Join3(Print(major), Print(minor + 1), "0"))
    case Patch =>
      if patch == U64_MAX then Overflow
      else Bumped(Join3(Print(major), Print(minor), Print(patch + 1)))
    case Pre(tag) =>
      Bumped(Join3(Print(major), Print(minor), Print(patch)) + "-" + tag)
  }

  /** `strip_prefix('v')` */
  function Unprefixed(s: string): string {
    if "v" <= s then s[1..] else s
  }

  function BumpVersion(current: string, bump: BumpType): BumpResult {
    var current := Unprefixed(current);
    var base := current[..IndexOf(current, '-')];
    var parts := Split(base, '.');
    if |parts| != 3 then Invalid
    else
      match (ParseU64(parts[0]), ParseU64(parts[1]), ParseU64(parts[2]))
      case (Some(major), Some(minor), Some(patch)) => BumpParsed(major, minor, patch, bump)
      case _ => Invalid
  }

  function ParseBumpType(s: string): Option<BumpType> {
    if s == "major" then Some(Major)
    else if s == "minor" then Some(Minor)
    else if s == "patch" then Some(Patch)
    else if "pre:" <= s && |s| > 4 then Some(Pre(s[4..]))
    else None
  }

  /** How a bump is asked for. */
  function BumpName(bump: BumpType): string {
    match bump
    case Major => "major"
    case Minor => "minor"
    case Patch => "patch"
    case Pre(tag) => "pre:" + tag
  }

  /** Each bump has one name, and no other text names one; a label may not be empty. */
  lemma BumpTypeExactlyWhen(s: string, bump: BumpType)
    ensures ParseBumpType(s) == Some(bump) <==> s == BumpName(bump) && bump != Pre("")
  {
    assert "pre:" <= s ==> s == "pre:" + s[4..];
    assert bump.Pre? ==> BumpName(bump)[4..] == bump.tag && "pre:" <= BumpName(bump);
    assert "major"[0] != 'p' && "minor"[0] != 'p' && "patch"[1] != 'r' && "pre:"[0] == 'p' && "pre:"[1] == 'r';
  }

  // ---- Valid versions ----

  /** `\d` also matches the decimal digits of other scripts, which `other` stands for. */
  predicate IsDigit(c: char, other: char -> bool) {
    IsAsciiDigit(c) || (c as int >= 128 && other(c))
  }

  predicate IsNumber(s: string, other: char -> bool) {
    s != "" && forall i :: 0 <= i < |s| ==> IsDigit(s[i], other)
  }

  predicate IsLabel(s: string) {
    s != "" && forall i :: 0 <= i < |s| ==>
      'a' <= s[i] <= 'z' || 'A' <= s[i] <= 'Z' || '0' <= s[i] <= '9' || s[i] == '.'
  }

  /** `validate_version`: three numbers, and a label after a hyphen if there is one. */
  predicate IsValid(s: string, other: char -> bool) {
    var i := IndexOf(s, '-');
    var parts := Split(s[..i], '.');
    && |parts| == 3
    && IsNumber(parts[0], other) && IsNumber(parts[1], other) && IsNumber(parts[2], other)
    && (i < |s| ==> IsLabel(s[i + 1..]))
  }

  // ---- Precedence (section 11 of Semantic Versioning 2.0.0) ----

  datatype Version = Version(major: nat, minor: nat, patch: nat, pre: Option<string>)

  /** The version that a string denotes, of any size. */
  function Read(s: string): Option<Version> {
    var i := IndexOf(s, '-');
    var parts := Split(s[..i], '.');
    if |parts| == 3 && AllDigits(parts[0]) && AllDigits(parts[1]) && AllDigits(parts[2]) then
      Some(Version(Value(parts[0]), Value(parts[1]), Value(parts[2]),
                   if i < |s| then Some(s[i + 1..]) else None))
    else None
  }

  predicate Lexically(a: string, b: string) {
    b != "" && (a == "" || a[0] < b[0] || (a[0] == b[0] && Lexically(a[1..], b[1..])))
  }

  predicate IdentifierBelow(a: string, b: string) {
    if AllDigits(a) && AllDigits(b) then Value(a) < Value(b)
    else if AllDigits(a) then true
    else if AllDigits(b) then false
    else Lexically(a, b)
  }

  predicate SameIdentifier(a: string, b: string) {
    if AllDigits(a) && AllDigits(b) then Value(a) == Value(b) else a == b
  }

  predicate IdentifiersBelow(a: seq<string>, b: seq<string>) {
    && b != []
    && (|| a == [] || IdentifierBelow(a[0], b[0])
        || (SameIdentifier(a[0], b[0]) && IdentifiersBelow(a[1..], b[1..])))
  }

  predicate PreBelow(a: Option<string>, b: Option<string>) {
    a.Some? && (b.Some? ==> IdentifiersBelow(Split(a.value, '.'), Split(b.value, '.')))
  }

  predicate Below(v: Version, w: Version) {
    || v.major < w.major
    || (v.major == w.major && v.minor < w.minor)
    || (v.major == w.major && v.minor == w.minor && v.patch < w.patch)
    || (v.major == w.major && v.minor == w.minor && v.patch == w.patch && PreBelow(v.pre, w.pre))
  }

  // ---- Printing and splitting ----

  lemma IndexAfter(a: string, c: char, rest: string)
    requires c !in a
    ensures IndexOf(a + [c] + rest, c) == |a|
  {
    var s := a + [c] + rest;
    var i := IndexOf(s, c);
    assert s[|a|] == c;
    assert forall j :: 0 <= j < |a| ==> s[j] == a[j] && a[j] in a;
  }

  lemma IndexNone(a: string, c: char)
    requires c !in a
    ensures IndexOf(a, c) == |a|
  {
    var i := IndexOf(a, c);
    assert forall j :: 0 <= j < |a| ==> a[j] in a;
  }

  lemma SplitJoin3(a: string, b: string, c: string)
    requires '.' !in a && '.' !in b && '.' !in c
    ensures Split(Join3(a, b, c), '.') == [a, b, c]
  {
    SplitCons(a, b + "." + c);
    SplitCons(b, c);
    IndexNone(c, '.');
  }

  lemma SplitCons(a: string, rest: string)
    requires '.' !in a
    ensures Split(a + "." + rest, '.') == [a] + Split(rest, '.')
  {
    var s := a + "." + rest;
    IndexAfter(a, '.', rest);
    assert s[..|a|] == a && s[|a| + 1..] == rest;
  }

  lemma DigitsOnly(s: string)
    requires AllDigits(s)
    ensures '.' !in s && '-' !in s
  {
  }

  lemma PrintedParts(a: nat, b: nat, c: nat)
    ensures Split(Join3(Print(a), Print(b), Print(c)), '.') == [Print(a), Print(b), Print(c)]
    ensures '-' !in Join3(Print(a), Print(b), Print(c))
  {
    DigitsOnly(Print(a));
    DigitsOnly(Print(b));
    DigitsOnly(Print(c));
    SplitJoin3(Print(a), Print(b), Print(c));
  }

  lemma HeadOf(base: string, tag: Option<string>)
    requires '-' !in base
    ensures var s := if tag.Some? then base + "-" + tag.value else base;
      && IndexOf(s, '-') == |base| && s[..|base|] == base
      && (tag.Some? ==> |base| < |s| && s[|base| + 1..] == tag.value)
  {
    if tag.Some? {
      IndexAfter(base, '-', tag.value);
    } else {
      IndexNone(base, '-');
    }
  }

  /** Three printed numbers and a label read as what they say. */
  lemma ReadJoined(a: nat, b: nat, c: nat, tag: Option<string>)
    ensures var base := Join3(Print(a), Print(b), Print(c));
      var s := if tag.Some? then base + "-" + tag.value else base;
      && Read(s) == Some(Version(a, b, c, tag))
      && forall other: char -> bool :: IsValid(s, other) <==> (tag.Some? ==> IsLabel(tag.value))
  {
    PrintedParts(a, b, c);
    HeadOf(Join3(Print(a), Print(b), Print(c)), tag);
    ValueOfPrint(a);
    ValueOfPrint(b);
    ValueOfPrint(c);
  }

  // ---- Bumping ----

  /** A component that `u64` can hold, in ASCII digits. */
  predicate Fits(part: string) {
    AllDigits(part) && Value(part) <= U64_MAX
  }

  lemma ParseOfNumber(part: string, other: char -> bool)
    requires IsNumber(part, other)
    ensures ParseU64(part) == if Fits(part) then Some(Value(part)) else None
  {
    assert part[0] != '+';
  }

  /** What a bump does to a version. */
  function Next(v: Version, bump: BumpType): Version {
    match bump
    case Major => Version(v.major + 1, 0, 0, None)
    case Minor => Version(v.major, v.minor + 1, 0, None)
    case Patch => Version(v.major, v.minor, v.patch + 1, None)
    case Pre(tag) => Version(v.major, v.minor, v.patch, Some(tag))
  }

  predicate InU64(v: Version) {
    v.major <= U64_MAX && v.minor <= U64_MAX && v.patch <= U64_MAX
  }

  lemma BumpOfValid(s: string, bump: BumpType, other: char -> bool)
    requires IsValid(s, other)
    ensures BumpVersion(s, bump) ==
      match Read(s)
      case Some(v) => if InU64(v) then BumpParsed(v.major, v.minor, v.patch, bump) else Invalid
      case None => Invalid
  {
    var parts := Split(s[..IndexOf(s, '-')], '.');
    NoLeadingV(s, other);
    ParseOfNumber(parts[0], other);
    ParseOfNumber(parts[1], other);
    ParseOfNumber(parts[2], other);
  }

  lemma BumpParsedIsNext(v: Version, bump: BumpType)
    requires InU64(v)
    ensures var r := BumpParsed(v.major, v.minor, v.patch, bump);
      && (r.Bumped? <==> InU64(Next(v, bump)))
      && (r.Bumped? ==> Read(r.version) == Some(Next(v, bump)))
      && (r.Bumped? ==> forall other: char -> bool ::
            IsValid(r.version, other) <==> (bump.Pre? ==> IsLabel(bump.tag)))
  {
    var w := Next(v, bump);
    PrintZero();
    ReadJoined(w.major, w.minor, w.patch, w.pre);
    assert bump.Pre? <==> w.pre.Some?;
  }

  /** On a valid version a bump succeeds exactly when the version is in ASCII digits and neither it
      nor its successor overflows, and then it prints the successor. */
  lemma BumpExactlyWhen(s: string, bump: BumpType, other: char -> bool)
    requires IsValid(s, other)
    ensures BumpVersion(s, bump).Bumped? <==>
      Read(s).Some? && InU64(Read(s).value) && InU64(Next(Read(s).value, bump))
    ensures BumpVersion(s, bump).Bumped? ==>
      && Read(BumpVersion(s, bump).version) == Some(Next(Read(s).value, bump))
      && (IsValid(BumpVersion(s, bump).version, other) <==> (bump.Pre? ==> IsLabel(bump.tag)))
  {
    BumpOfValid(s, bump, other);
    if Read(s).Some? && InU64(Read(s).value) {
      BumpParsedIsNext(Read(s).value, bump);
    }
  }

  lemma PrintZero()
    ensures Print(0) == "0"
  {
  }

  lemma NoLeadingV(s: string, other: char -> bool)
    requires IsValid(s, other)
    ensures !("v" <= s)
  {
    var i := IndexOf(s, '-');
    var k := IndexOf(s[..i], '.');
    assert IsDigit(Split(s[..i], '.')[0][0], other);
    assert s[0] == Split(s[..i], '.')[0][0];
  }

  /** `r` is valid, without a label, and above `s` in precedence. */
  predicate Higher(s: string, r: string, other: char -> bool) {
    && IsValid(r, other) && Read(s).Some? && Read(r).Some?
    && Read(r).value.pre.None? && Below(Read(s).value, Read(r).value)
  }

  /** A version in plain digits. */
  function Plain(major: nat, minor: nat, patch: nat): string {
    Join3(Print(major), Print(minor), Print(patch))
  }

  lemma PlainIsValid(major: nat, minor: nat, patch: nat, other: char -> bool)
    ensures IsValid(Plain(major, minor, patch), other)
    ensures Read(Plain(major, minor, patch)) == Some(Version(major, minor, patch, None))
  {
    ReadJoined(major, minor, patch, None);
  }

  /** What a bump also takes, signs and a leading `v` included, it takes for a version in plain
      digits, which validates. */
  lemma BumpNormalises(s: string, bump: BumpType, other: char -> bool)
    ensures BumpVersion(s, bump) != Invalid ==>
      exists a: nat, b: nat, c: nat ::
        && IsValid(Plain(a, b, c), other)
        && BumpVersion(Plain(a, b, c), bump) == BumpVersion(s, bump)
  {
    var current := Unprefixed(s);
    var parts := Split(current[..IndexOf(current, '-')], '.');
    if BumpVersion(s, bump) != Invalid {
      var a, b, c := ParseU64(parts[0]).value, ParseU64(parts[1]).value, ParseU64(parts[2]).value;
      PlainIsValid(a, b, c, other);
      BumpOfValid(Plain(a, b, c), bump, other);
    }
  }

  /** A leading `v` makes no difference. */
  lemma BumpIgnoresV(s: string, bump: BumpType)
    requires !("v" <= s)
    ensures BumpVersion("v" + s, bump) == BumpVersion(s, bump)
  {
    assert ("v" + s)[1..] == s;
  }

  /** A major, minor or patch bump is valid and strictly higher in precedence, also over a
      pre-release. */
  lemma BumpIsHigher(s: string, bump: BumpType, other: char -> bool)
    requires IsValid(s, other) && !bump.Pre?
    ensures BumpVersion(s, bump).Bumped? ==> Higher(s, BumpVersion(s, bump).version, other)
  {
    BumpExactlyWhen(s, bump, other);
  }

  /** A pre-release bump is higher only than a pre-release with a lower label; on a release it is
      a step down. */
  lemma PreBumpExactlyWhen(s: string, tag: string, other: char -> bool)
    requires IsValid(s, other)
    ensures BumpVersion(s, Pre(tag)).Bumped? ==>
      var v, w := Read(s), Read(BumpVersion(s, Pre(tag)).version);
      && v.Some? && w.Some?
      && (Below(v.value, w.value) <==> PreBelow(v.value.pre, Some(tag)))
      && (v.value.pre.None? ==> Below(w.value, v.value))
  {
    BumpExactlyWhen(s, Pre(tag), other);
  }

  /** The versions of a run of bumps, as long as they succeed. */
  function RunBumps(s: string, bumps: seq<BumpType>): BumpResult {
    if bumps == [] then Bumped(s)
    else
      match RunBumps(s, bumps[..|bumps| - 1])
      case Bumped(r) => BumpVersion(r, bumps[|bumps| - 1])
      case failure => failure
  }

  lemma BumpAgain(s: string, r: string, bump: BumpType, other: char -> bool)
    requires IsValid(r, other) && (r == s || Higher(s, r, other)) && !bump.Pre?
    ensures BumpVersion(r, bump).Bumped? ==> Higher(s, BumpVersion(r, bump).version, other)
  {
    BumpIsHigher(r, bump, other);
  }

  /** Any number of bumps gives a valid version above the one they started from. */
  lemma {:induction false} BumpsIncrease(s: string, bumps: seq<BumpType>, other: char -> bool)
    requires IsValid(s, other) && bumps != []
    requires forall i :: 0 <= i < |bumps| ==> !bumps[i].Pre?
    ensures RunBumps(s, bumps).Bumped? ==> Higher(s, RunBumps(s, bumps).version, other)
  {
    var init := bumps[..|bumps| - 1];
    if RunBumps(s, init).Bumped? {
      if init != [] {
        BumpsIncrease(s, init, other);
      }
      BumpAgain(s, RunBumps(s, init).version, bumps[|bumps| - 1], other);
    }
  }
}
