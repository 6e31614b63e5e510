/** Version numbers, after `Version` of scripts/release.py. */
module SemVer {
  import opened Decimal
  import opened Lexicographic
  import opened Wrappers

  datatype Version = Version(major: nat, minor: nat, patch: nat, prerelease: seq<string>) {
    function NextPatch(): Version { Version(major, minor, patch + 1, []) }

    function Core(): seq<nat> { [major, minor, patch] }

    function ToString(): string {
      var base := Show(major) + "." + Show(minor) + "." + Show(patch);
      if prerelease == [] then base else base + "-" + Join(prerelease, '.')
    }
  }

  // ---------------------------------------------------------------------------------------------------
  // Parsing

  /** What `str.strip` removes. */
  predicate IsSpace(c: char) {
    var n := c as int;
    9 <= n <= 13 || 28 <= n <= 32 || n == 0x85 || n == 0xA0 || n == 0x1680 || 0x2000 <= n <= 0x200A
    || n == 0x2028 || n == 0x2029 || n == 0x202F || n == 0x205F || n == 0x3000
  }

  function Strip(s: string): (stripped: string)
    ensures stripped != "" ==> !IsSpace(stripped[0]) && !IsSpace(stripped[|stripped| - 1])
  {
    if s == "" then s
    else if IsSpace(s[0]) then Strip(s[1..])
    else if IsSpace(s[|s| - 1]) then Strip(s[..|s| - 1])
    else s
  }

  function IndexOf(s: string, c: char): (i: nat)
    ensures i <= |s| && c !in s[..i] && (i < |s| ==> s[i] == c)
  {
    if s == "" || s[0] == c then 0
    else
      var i := 1 + IndexOf(s[1..], c);
      assert s[..i] == [s[0]] + s[1..][..i - 1];
      i
  }

  function Split(s: string, separator: char): (parts: seq<string>)
    ensures parts != []
  {
    var i := IndexOf(s, separator);
    if i == |s| then [s] else [s[..i]] + Split(s[i + 1..], separator)
  }

  function Join(parts: seq<string>, separator: char): string
    requires parts != []
  {
    if |parts| == 1 then parts[0] else parts[0] + [separator] + Join(parts[1..], separator)
  }

  predicate IsNumber(s: string) { IsNumeric(s) && !HasLeadingZero(s) }

  predicate IsIdentifierChar(c: char) { IsDigit(c) || 'A' <= c <= 'Z' || 'a' <= c <= 'z' || c == '-' }

  predicate IsIdentifier(s: string) { s != "" && forall c <- s :: IsIdentifierChar(c) }

  predicate IsValidIdentifier(s: string) { IsIdentifier(s) && !HasLeadingZero(s) }

  /** What the pattern and the check on its identifiers accept, with what they capture. No digit and no dot is a
      hyphen, so the first hyphen starts the prerelease. */
  function Match(s: string): Option<Version> {
    var hyphen := IndexOf(s, '-');
    Captured(Split(s[..hyphen], '.'), if hyphen == |s| then [] else Split(s[hyphen + 1..], '.'))
  }

  function Captured(numbers: seq<string>, identifiers: seq<string>): Option<Version> {
    if |numbers| == 3 && IsNumber(numbers[0]) && IsNumber(numbers[1]) && IsNumber(numbers[2])
        && AreValidIdentifiers(identifiers)
    then Some(Version(Number(numbers[0]), Number(numbers[1]), Number(numbers[2]), identifiers))
    else None
  }

  predicate AreValidIdentifiers(identifiers: seq<string>) {
    forall i :: 0 <= i < |identifiers| ==> IsValidIdentifier(identifiers[i])
  }

  function Parse(value: string): Option<Version> { Match(Strip(value)) }

  predicate IsValid(v: Version) { AreValidIdentifiers(v.prerelease) }

  lemma CutAt(s: string, i: nat)
    requires i < |s|
    ensures s == s[..i] + [s[i]] + s[i + 1..]
  {
  }

  lemma JoinOne(head: string, rest: seq<string>, c: char)
    ensures Join([head] + rest, c) == if rest == [] then head else head + [c] + Join(rest, c)
  {
    assert ([head] + rest)[1..] == rest;
  }

  lemma {:induction false} JoinSplit(s: string, c: char)
    ensures Join(Split(s, c), c) == s
  {
    var i := IndexOf(s, c);
    if i < |s| {
      JoinSplit(s[i + 1..], c);
      JoinOne(s[..i], Split(s[i + 1..], c), c);
      CutAt(s, i);
    }
  }

  lemma {:induction false} IndexAfter(a: string, b: string, c: char)
    requires c !in a
    ensures IndexOf(a + [c] + b, c) == |a|
  {
    assert (a + [c] + b)[|a|] == c;
    assert forall i :: 0 <= i < |a| ==> (a + [c] + b)[i] == a[i];
  }

  lemma IndexNowhere(a: string, c: char)
    requires c !in a
    ensures IndexOf(a, c) == |a|
  {
  }

  lemma {:induction false} SplitJoin(parts: seq<string>, c: char)
    requires parts != [] && forall i :: 0 <= i < |parts| ==> c !in parts[i]
    ensures Split(Join(parts, c), c) == parts
  {
    if |parts| == 1 {
      IndexNowhere(parts[0], c);
    } else {
      var rest := Join(parts[1..], c);
      IndexAfter(parts[0], rest, c);
      SplitJoin(parts[1..], c);
      assert (parts[0] + [c] + rest)[..|parts[0]|] == parts[0] && (parts[0] + [c] + rest)[|parts[0]| + 1..] == rest;
    }
  }

  lemma NumbersAreSeparable(s: string)
    requires IsNumeric(s)
    ensures '.' !in s && '-' !in s
  {
  }

  lemma JoinThree(a: string, b: string, c: string)
    ensures Join([a, b, c], '.') == a + "." + b + "." + c
  {
    assert [a, b, c][1..] == [b, c] && [b, c][1..] == [c];
    assert Join([b, c], '.') == b + ['.'] + c;
  }

  lemma CoreSplits(a: string, b: string, c: string)
    requires IsNumeric(a) && IsNumeric(b) && IsNumeric(c)
    ensures Split(a + "." + b + "." + c, '.') == [a, b, c]
    ensures '-' !in a + "." + b + "." + c
  {
    NumbersAreSeparable(a);
    NumbersAreSeparable(b);
    NumbersAreSeparable(c);
    JoinThree(a, b, c);
    SplitJoin([a, b, c], '.');
  }

  ghost predicate IsSpaceAround(s: string, i: int, j: int) {
    && 0 <= i <= j <= |s|
    && (forall k :: 0 <= k < i ==> IsSpace(s[k]))
    && (forall k :: j <= k < |s| ==> IsSpace(s[k]))
  }

  /** Stripping removes white space, at both ends, and nothing else. */
  lemma {:induction false} StripMeaning(s: string)
    ensures exists i, j :: IsSpaceAround(s, i, j) && Strip(s) == s[i..j]
    ensures Strip(s) != "" ==> !IsSpace(Strip(s)[0]) && !IsSpace(Strip(s)[|Strip(s)| - 1])
  {
    if s == "" {
      assert IsSpaceAround(s, 0, 0) && Strip(s) == s[0..0];
    } else if IsSpace(s[0]) {
      StripMeaning(s[1..]);
      var i, j :| IsSpaceAround(s[1..], i, j) && Strip(s[1..]) == s[1..][i..j];
      SpaceBefore(s, i, j);
    } else if IsSpace(s[|s| - 1]) {
      var front := s[..|s| - 1];
      StripMeaning(front);
      var i, j :| IsSpaceAround(front, i, j) && Strip(front) == front[i..j];
      SpaceAfter(s, i, j);
    } else {
      assert IsSpaceAround(s, 0, |s|) && s[0..|s|] == s;
    }
  }

  lemma SpaceBefore(s: string, i: int, j: int)
    requires s != "" && IsSpace(s[0]) && IsSpaceAround(s[1..], i, j)
    ensures IsSpaceAround(s, i + 1, j + 1) && s[1..][i..j] == s[i + 1..j + 1]
  {
    assert forall k :: 0 < k < |s| ==> s[k] == s[1..][k - 1];
  }

  lemma SpaceAfter(s: string, i: int, j: int)
    requires s != "" && IsSpace(s[|s| - 1]) && IsSpaceAround(s[..|s| - 1], i, j)
    ensures IsSpaceAround(s, i, j) && s[..|s| - 1][i..j] == s[i..j]
  {
    assert forall k :: 0 <= k < |s| - 1 ==> s[k] == s[..|s| - 1][k];
  }

  /** Strings that neither start nor end with white space are their own stripped form. */
  lemma StripKeeps(s: string)
    requires s != "" && !IsSpace(s[0]) && !IsSpace(s[|s| - 1])
    ensures Strip(s) == s
  {
  }

  lemma MatchRelease(base: string)
    requires '-' !in base
    ensures Match(base) == Captured(Split(base, '.'), [])
  {
    IndexNowhere(base, '-');
    assert base[..|base|] == base;
  }

  lemma MatchPrerelease(base: string, tail: string)
    requires '-' !in base
    ensures Match(base + "-" + tail) == Captured(Split(base, '.'), Split(tail, '.'))
  {
    var whole := base + ['-'] + tail;
    IndexAfter(base, tail, '-');
    assert whole == base + "-" + tail;
    assert whole[..|base|] == base && whole[|base| + 1..] == tail;
  }

  lemma IdentifiersAreSeparable(identifiers: seq<string>)
    requires AreValidIdentifiers(identifiers)
    ensures forall i :: 0 <= i < |identifiers| ==> '.' !in identifiers[i]
  {
  }

  lemma ToStringMatches(v: Version)
    requires IsValid(v)
    ensures Match(v.ToString()) == Some(v)
  {
    ShowIsExact(v.major);
    ShowIsExact(v.minor);
    ShowIsExact(v.patch);
    var base := Show(v.major) + "." + Show(v.minor) + "." + Show(v.patch);
    CoreSplits(Show(v.major), Show(v.minor), Show(v.patch));
    if v.prerelease == [] {
      MatchRelease(base);
    } else {
      MatchPrerelease(base, Join(v.prerelease, '.'));
      IdentifiersAreSeparable(v.prerelease);
      SplitJoin(v.prerelease, '.');
    }
  }

  lemma {:induction false} JoinEnds(parts: seq<string>, c: char)
    requires parts != [] && forall i :: 0 <= i < |parts| ==> parts[i] != ""
    ensures var s := Join(parts, c); s != "" && s[0] == parts[0][0]
                                     && s[|s| - 1] == parts[|parts| - 1][|parts[|parts| - 1]| - 1]
  {
    if |parts| > 1 {
      JoinEnds(parts[1..], c);
    }
  }

  lemma NoSpaceInside(s: string, i: nat)
    requires i < |s| && (IsNumeric(s) || IsIdentifier(s))
    ensures !IsSpace(s[i])
  {
    assert s[i] in s;
  }

  lemma ToStringHasNoMargins(v: Version)
    requires IsValid(v)
    ensures Strip(v.ToString()) == v.ToString()
  {
    var major, patch, s := Show(v.major), Show(v.patch), v.ToString();
    ShowIsExact(v.major);
    ShowIsExact(v.patch);
    assert s[0] == major[0];
    NoSpaceInside(major, 0);
    if v.prerelease == [] {
      assert s[|s| - 1] == patch[|patch| - 1];
      NoSpaceInside(patch, |patch| - 1);
    } else {
      JoinEnds(v.prerelease, '.');
      var last := v.prerelease[|v.prerelease| - 1];
      assert IsValidIdentifier(last);
      assert s[|s| - 1] == last[|last| - 1];
      NoSpaceInside(last, |last| - 1);
    }
    StripKeeps(s);
  }

  /** Writing a version and reading it back. */
  lemma ParseUndoesToString(v: Version)
    requires IsValid(v)
    ensures Parse(v.ToString()) == Some(v)
  {
    ToStringMatches(v);
    ToStringHasNoMargins(v);
  }

  /** Reading a version and writing it back; and only valid versions are ever read. */
  lemma ToStringUndoesParse(value: string)
    requires Parse(value).Some?
    ensures IsValid(Parse(value).value) && Parse(value).value.ToString() == Strip(value)
  {
    ToStringUndoesMatch(Strip(value));
  }

  lemma ToStringUndoesMatch(s: string)
    requires Match(s).Some?
    ensures IsValid(Match(s).value) && Match(s).value.ToString() == s
  {
    var hyphen := IndexOf(s, '-');
    if hyphen == |s| {
      assert s[..hyphen] == s;
      ReleaseUndone(s);
    } else {
      CutAt(s, hyphen);
      PrereleaseUndone(s[..hyphen], s[hyphen + 1..]);
    }
  }

  lemma ReleaseUndone(base: string)
    requires Captured(Split(base, '.'), []).Some?
    ensures Captured(Split(base, '.'), []).value.ToString() == base
  {
    CoreIsExact(Split(base, '.'));
    JoinSplit(base, '.');
  }

  lemma PrereleaseUndone(base: string, tail: string)
    requires Captured(Split(base, '.'), Split(tail, '.')).Some?
    ensures Captured(Split(base, '.'), Split(tail, '.')).value.ToString() == base + ['-'] + tail
  {
    CoreIsExact(Split(base, '.'));
    JoinSplit(base, '.');
    JoinSplit(tail, '.');
  }

  lemma CoreIsExact(numbers: seq<string>)
    requires |numbers| == 3 && IsNumber(numbers[0]) && IsNumber(numbers[1]) && IsNumber(numbers[2])
    ensures Show(Number(numbers[0])) + "." + Show(Number(numbers[1])) + "." + Show(Number(numbers[2]))
            == Join(numbers, '.')
  {
    NumberIsExact(numbers[0]);
    NumberIsExact(numbers[1]);
    NumberIsExact(numbers[2]);
    JoinThree(numbers[0], numbers[1], numbers[2]);
    assert numbers == [numbers[0], numbers[1], numbers[2]];
  }

  /** What is accepted: after stripping, exactly the texts of versions whose prerelease identifiers are nonempty, of
      letters, digits and hyphens in ASCII, and without leading zeroes where they are all digits. */
  lemma ParseMeaning(value: string, v: Version)
    ensures Parse(value) == Some(v) <==>
            && Strip(value) == v.ToString()
            && forall i :: 0 <= i < |v.prerelease| ==> IsPlainIdentifier(v.prerelease[i])
  {
    forall i | 0 <= i < |v.prerelease|
      ensures IsPlainIdentifier(v.prerelease[i]) <==> IsValidIdentifier(v.prerelease[i])
    {
      PlainIdentifiers(v.prerelease[i]);
    }
    if IsValid(v) {
      ToStringMatches(v);
    }
    if Parse(value).Some? {
      ToStringUndoesParse(value);
    }
  }

  ghost predicate IsPlainIdentifier(s: string) {
    && s != ""
    && (forall c <- s :: '0' <= c <= '9' || 'A' <= c <= 'Z' || 'a' <= c <= 'z' || c == '-')
    && ((forall c <- s :: '0' <= c <= '9') ==> s == "0" || s[0] != '0')
  }

  lemma PlainIdentifiers(s: string)
    ensures IsPlainIdentifier(s) <==> IsValidIdentifier(s)
  {
  }

  // ---------------------------------------------------------------------------------------------------
  // Precedence

  predicate NatLess(x: nat, y: nat) { x < y }

  predicate CharLess(x: char, y: char) { x < y }

  predicate IdentifierLess(left: string, right: string) {
    if IsNumeric(left) && IsNumeric(right) then Number(left) < Number(right)
    else if IsNumeric(left) != IsNumeric(right) then IsNumeric(left)
    else LexLess(CharLess, left, right)
  }

  predicate Less(a: Version, b: Version) {
    if a.Core() != b.Core() then LexLess(NatLess, a.Core(), b.Core())
    else if a.prerelease == [] then false
    else if b.prerelease == [] then true
    else LexLess(IdentifierLess, a.prerelease, b.prerelease)
  }

  /** Section 11.4 of SemVer 2.0.0, for two identifiers: numbers numerically, text in ASCII order, and a number
      below any text. */
  ghost predicate IdentifierPrecedes(left: string, right: string) {
    || (IsNumeric(left) && IsNumeric(right) && Number(left) < Number(right))
    || (IsNumeric(left) && !IsNumeric(right))
    || (!IsNumeric(left) && !IsNumeric(right)
        && exists k: nat :: k <= |left| && k < |right| && left[..k] == right[..k]
                            && (k == |left| || left[k] < right[k]))
  }

  ghost predicate SettledAt(left: seq<string>, right: seq<string>, k: nat) {
    && k <= |left| && k < |right| && left[..k] == right[..k]
    && (k == |left| || (left[k] != right[k] && IdentifierPrecedes(left[k], right[k])))
  }

  ghost predicate IdentifiersPrecede(left: seq<string>, right: seq<string>) {
    exists k: nat :: SettledAt(left, right, k)
  }

  /** Section 11 of SemVer 2.0.0: major, minor and patch first; a prerelease is below its release; prereleases go
      by their first different identifier, and a shorter one is below its extensions. */
  ghost predicate Precedes(a: Version, b: Version) {
    || a.major < b.major
    || (a.major == b.major && a.minor < b.minor)
    || (a.major == b.major && a.minor == b.minor && a.patch < b.patch)
    || (a.Core() == b.Core() && a.prerelease != [] && b.prerelease == [])
    || (a.Core() == b.Core() && a.prerelease != [] && b.prerelease != []
        && IdentifiersPrecede(a.prerelease, b.prerelease))
  }

  lemma IdentifierLessIsPrecedence(left: string, right: string)
    ensures left != right ==> (IdentifierLess(left, right) <==> IdentifierPrecedes(left, right))
  {
    if !IsNumeric(left) && !IsNumeric(right) {
      LexLessMeaning(CharLess, left, right);
      if LexLess(CharLess, left, right) {
        var k: nat :| DecidesAt(CharLess, left, right, k);
      }
      forall k: nat | k <= |left| && k < |right| && left[..k] == right[..k] && (k == |left| || left[k] < right[k])
        ensures DecidesAt(CharLess, left, right, k) {
      }
    }
  }

  lemma IdentifiersLessIsPrecedence(left: seq<string>, right: seq<string>)
    ensures LexLess(IdentifierLess, left, right) <==> IdentifiersPrecede(left, right)
  {
    LexLessMeaning(IdentifierLess, left, right);
    if LexLess(IdentifierLess, left, right) {
      var k: nat :| DecidesAt(IdentifierLess, left, right, k);
      if k < |left| {
        IdentifierLessIsPrecedence(left[k], right[k]);
      }
      assert SettledAt(left, right, k);
    }
    if IdentifiersPrecede(left, right) {
      var k: nat :| SettledAt(left, right, k);
      if k < |left| {
        IdentifierLessIsPrecedence(left[k], right[k]);
      }
      assert DecidesAt(IdentifierLess, left, right, k);
    }
  }

  lemma CoreLess(a: Version, b: Version)
    ensures LexLess(NatLess, a.Core(), b.Core()) <==>
              a.major < b.major || (a.major == b.major
                                    && (a.minor < b.minor || (a.minor == b.minor && a.patch < b.patch)))
  {
    FirstDecides(a.major, [a.minor, a.patch], b.major, [b.minor, b.patch]);
    FirstDecides(a.minor, [a.patch], b.minor, [b.patch]);
    FirstDecides(a.patch, [], b.patch, []);
    assert a.Core() == [a.major] + [a.minor, a.patch] && b.Core() == [b.major] + [b.minor, b.patch];
    assert [a.minor, a.patch] == [a.minor] + [a.patch] && [b.minor, b.patch] == [b.minor] + [b.patch];
    assert [a.patch] == [a.patch] + [] && [b.patch] == [b.patch] + [];
  }

  lemma FirstDecides(x: nat, xs: seq<nat>, y: nat, ys: seq<nat>)
    ensures LexLess(NatLess, [x] + xs, [y] + ys) <==> x < y || (x == y && LexLess(NatLess, xs, ys))
  {
    assert ([x] + xs)[1..] == xs && ([y] + ys)[1..] == ys;
  }

  /** `__lt__` is the precedence of the standard, for any two versions. */
  lemma LessIsPrecedence(a: Version, b: Version)
    ensures Less(a, b) <==> Precedes(a, b)
  {
    CoreLess(a, b);
    CoreEquality(a, b);
    IdentifiersLessIsPrecedence(a.prerelease, b.prerelease);
  }

  lemma CoreEquality(a: Version, b: Version)
    ensures a.Core() == b.Core() <==> a.major == b.major && a.minor == b.minor && a.patch == b.patch
  {
    assert a.Core()[0] == a.major && a.Core()[1] == a.minor && a.Core()[2] == a.patch;
    assert b.Core()[0] == b.major && b.Core()[1] == b.minor && b.Core()[2] == b.patch;
  }

  // ---------------------------------------------------------------------------------------------------
  // A strict total order, thanks to the check on leading zeroes

  lemma NumbersDiffer(left: string, right: string)
    requires IsNumber(left) && IsNumber(right) && left != right
    ensures Number(left) != Number(right)
  {
    NumberIsExact(left);
    NumberIsExact(right);
  }

  lemma CharsAreOrdered()
    ensures IsStrictTotalOrder(CharLess, (c: char) => true)
  {
  }

  lemma IdentifierTrichotomy(left: string, right: string)
    requires IsValidIdentifier(left) && IsValidIdentifier(right)
    ensures left == right || IdentifierLess(left, right) || IdentifierLess(right, left)
    ensures !IdentifierLess(left, left)
  {
    if IsNumeric(left) && IsNumeric(right) {
      if left != right {
        NumbersDiffer(left, right);
      }
    } else {
      CharsAreOrdered();
      LexTrichotomy(CharLess, (c: char) => true, left, right);
      LexTrichotomy(CharLess, (c: char) => true, left, left);
    }
  }

  lemma IdentifierTransitive(x: string, y: string, z: string)
    requires IdentifierLess(x, y) && IdentifierLess(y, z)
    ensures IdentifierLess(x, z)
  {
    if !IsNumeric(x) && !IsNumeric(y) && !IsNumeric(z) {
      CharsAreOrdered();
      LexTransitive(CharLess, (c: char) => true, x, y, z);
    }
  }

  lemma IdentifiersAreOrdered()
    ensures IsStrictTotalOrder(IdentifierLess, IsValidIdentifier)
  {
    forall x, y | IsValidIdentifier(x) && IsValidIdentifier(y)
      ensures !IdentifierLess(x, x) && (x == y || IdentifierLess(x, y) || IdentifierLess(y, x)) {
      IdentifierTrichotomy(x, y);
    }
    forall x, y, z | IsValidIdentifier(x) && IsValidIdentifier(y) && IsValidIdentifier(z) && IdentifierLess(x, y)
        && IdentifierLess(y, z)
      ensures IdentifierLess(x, z) {
      IdentifierTransitive(x, y, z);
    }
  }

  /** Exactly one of less, equal and greater. */
  lemma Trichotomy(a: Version, b: Version)
    requires IsValid(a) && IsValid(b)
    ensures !Less(a, a)
    ensures a == b || Less(a, b) || Less(b, a)
    ensures !(Less(a, b) && Less(b, a))
  {
    IdentifiersAreOrdered();
    CoreLess(a, b);
    CoreLess(b, a);
    CoreEquality(a, b);
    LexTrichotomy(IdentifierLess, IsValidIdentifier, a.prerelease, b.prerelease);
    LexTrichotomy(IdentifierLess, IsValidIdentifier, a.prerelease, a.prerelease);
  }

  lemma Transitive(a: Version, b: Version, c: Version)
    requires IsValid(a) && IsValid(b) && IsValid(c)
    requires Less(a, b) && Less(b, c)
    ensures Less(a, c)
  {
    CoreLess(a, b);
    CoreLess(b, c);
    CoreLess(a, c);
    CoreEquality(a, b);
    CoreEquality(b, c);
    CoreEquality(a, c);
    if a.prerelease != [] && b.prerelease != [] && c.prerelease != [] && a.Core() == b.Core() == c.Core() {
      IdentifiersAreOrdered();
      LexTransitive(IdentifierLess, IsValidIdentifier, a.prerelease, b.prerelease, c.prerelease);
    }
  }

  /** Both numeric, both the same number, and not the same text. */
  predicate SameNumber(left: string, right: string) {
    left != right && IsNumeric(left) && IsNumeric(right) && Number(left) == Number(right)
  }

  ghost predicate TiesAt(left: seq<string>, right: seq<string>, k: nat) {
    k < |left| && k < |right| && left[..k] == right[..k] && SameNumber(left[k], right[k])
  }

  /** Without that check the order is total except where the first different identifiers are one number in two
      spellings, and there it always fails. */
  lemma UnorderedExactlyAtTies(a: Version, b: Version)
    requires a != b
    ensures !Less(a, b) && !Less(b, a) <==>
            a.Core() == b.Core() && exists k: nat :: TiesAt(a.prerelease, b.prerelease, k)
  {
    CoreLess(a, b);
    CoreLess(b, a);
    CoreEquality(a, b);
    if a.prerelease != b.prerelease {
      IdentifiersUnordered(a.prerelease, b.prerelease);
    }
  }

  lemma {:induction false} IdentifiersUnordered(left: seq<string>, right: seq<string>)
    requires left != right
    ensures !LexLess(IdentifierLess, left, right) && !LexLess(IdentifierLess, right, left) <==>
            exists k: nat :: TiesAt(left, right, k)
  {
    if |left| > 0 && |right| > 0 {
      if left[0] == right[0] {
        assert left == [left[0]] + left[1..] && right == [right[0]] + right[1..];
        IdentifiersUnordered(left[1..], right[1..]);
        forall k: nat ensures TiesAt(left, right, k + 1) <==> TiesAt(left[1..], right[1..], k) {
          TieMoves(left, right, k);
        }
        assert !TiesAt(left, right, 0);
        forall k: nat | TiesAt(left, right, k) ensures TiesAt(left[1..], right[1..], k - 1) {
          TieMoves(left, right, k - 1);
        }
      } else {
        IdentifiersCompare(left[0], right[0]);
        if SameNumber(left[0], right[0]) {
          assert TiesAt(left, right, 0);
        }
        forall k: nat | TiesAt(left, right, k) ensures k == 0 {
          PrefixesShareHeads(left, right, k);
        }
      }
    }
  }

  lemma TieMoves(left: seq<string>, right: seq<string>, k: nat)
    requires |left| > 0 && |right| > 0 && left[0] == right[0]
    ensures TiesAt(left, right, k + 1) <==> TiesAt(left[1..], right[1..], k)
  {
    if k + 1 < |left| && k + 1 < |right| {
      assert left[..k + 1] == [left[0]] + left[1..][..k] && right[..k + 1] == [right[0]] + right[1..][..k];
      assert left[1..][..k] == left[..k + 1][1..] && right[1..][..k] == right[..k + 1][1..];
    }
  }

  lemma IdentifiersCompare(left: string, right: string)
    requires left != right
    ensures !IdentifierLess(left, right) && !IdentifierLess(right, left) <==> SameNumber(left, right)
  {
    if !IsNumeric(left) && !IsNumeric(right) {
      CharsAreOrdered();
      LexTrichotomy(CharLess, (c: char) => true, left, right);
    }
  }

  lemma LeadingZeroesBreakTotality(major: nat, minor: nat, patch: nat)
    ensures var a, b := Version(major, minor, patch, ["1"]), Version(major, minor, patch, ["01"]);
            a != b && !Less(a, b) && !Less(b, a) && !IsValid(b)
  {
    OneAndZeroOne();
    assert TiesAt(["1"], ["01"], 0);
    UnorderedExactlyAtTies(Version(major, minor, patch, ["1"]), Version(major, minor, patch, ["01"]));
    assert !IsValidIdentifier(["01"][0]);
  }

  lemma OneAndZeroOne()
    ensures SameNumber("1", "01") && HasLeadingZero("01")
  {
    assert FromText("1") == [1] && FromText("01") == [0, 1];
    assert [0, 1][..1] == [0];
    assert ValueOf([0]) == 0 && ValueOf([1]) == 1;
  }

  /** The next patch is later, and is never itself a prerelease. */
  lemma NextPatchIsLater(v: Version)
    ensures Less(v, v.NextPatch()) && IsValid(v.NextPatch())
  {
    CoreLess(v, v.NextPatch());
    CoreEquality(v, v.NextPatch());
  }

  /** And it is the next one: between a version and its next patch there are only versions of the same three numbers
      and prereleases of that patch. */
  lemma NextPatchIsNext(v: Version, w: Version)
    requires Less(v, w) && Less(w, v.NextPatch())
    ensures w.Core() == v.Core() || (w.Core() == v.NextPatch().Core() && w.prerelease != [])
  {
    CoreLess(v, w);
    CoreLess(w, v.NextPatch());
    CoreEquality(v, w);
    CoreEquality(w, v.NextPatch());
  }
}
