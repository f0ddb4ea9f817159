/** Which of two add-on versions is newer, and the update gate built on it
    (section 11 of Semantic Versioning 2.0.0). Build metadata is gone after parsing;
    the collation of identifiers is any total order. */
module AddonVersions {
  /** major.minor.patch, and the dot-separated prerelease identifiers. */
  datatype Version = Version(major: nat, minor: nat, patch: nat, prerelease: seq<string>)

  predicate Digit(c: char) { '0' <= c <= '9' }
  predicate Numeric(s: string) { s != [] && forall i :: 0 <= i < |s| ==> Digit(s[i]) }

  /** BigInt(text) for a text of digits. */
  function Value(s: string): nat
    requires forall i :: 0 <= i < |s| ==> Digit(s[i])
  {
    if s == [] then 0 else assert Digit(s[|s| - 1]); 10 * Value(s[..|s| - 1]) + (s[|s| - 1] as int - '0' as int)
  }

  type Collation = (string, string) -> int

  ghost predicate TotalOrder(le: Collation) {
    (forall a, b :: le(a, b) > 0 <==> le(b, a) < 0)
    && (forall a, b :: le(a, b) == 0 <==> a == b)
    && forall a, b, c :: le(a, b) < 0 && le(b, c) < 0 ==> le(a, c) < 0
  }

  function CompareCore(a: Version, b: Version): int {
    if a.major != b.major then if a.major > b.major then 1 else -1
    else if a.minor != b.minor then if a.minor > b.minor then 1 else -1
    else if a.patch != b.patch then if a.patch > b.patch then 1 else -1
    else 0
  }

  /** Two identifiers that differ. */
  function ComparePart(le: Collation, a: string, b: string): int {
    if Numeric(a) && Numeric(b) then if Value(a) > Value(b) then 1 else -1
    else if Numeric(a) != Numeric(b) then if Numeric(a) then -1 else 1
    else if le(a, b) > 0 then 1 else -1
  }

  function CompareParts(le: Collation, a: seq<string>, b: seq<string>): int {
    if a == [] && b == [] then 0
    else if a == [] then -1
    else if b == [] then 1
    else if a[0] == b[0] then CompareParts(le, a[1..], b[1..])
    else ComparePart(le, a[0], b[0])
  }

  function Compare(le: Collation, a: Version, b: Version): int {
    if CompareCore(a, b) != 0 then CompareCore(a, b)
    else if a.prerelease == [] && b.prerelease == [] then 0
    else if a.prerelease == [] then 1
    else if b.prerelease == [] then -1
    else CompareParts(le, a.prerelease, b.prerelease)
  }

  /** compareAddonVersions, with its two loops. */
  method CompareAddonVersions(le: Collation, left: Version, right: Version) returns (r: int)
    ensures r == Compare(le, left, right)
  {
    var a, b := [left.major, left.minor, left.patch], [right.major, right.minor, right.patch];
    assert a[0] == left.major && a[1] == left.minor && a[2] == left.patch;
    assert b[0] == right.major && b[1] == right.minor && b[2] == right.patch;
    for i := 0 to 3
      invariant forall k :: 0 <= k < i ==> a[k] == b[k]
    {
      assert i == 0 || i == 1 || i == 2;
      if a[i] > b[i] { return 1; }
      if a[i] < b[i] { return -1; }
    }
    assert a[0] == b[0] && a[1] == b[1] && a[2] == b[2];
    var p, q := left.prerelease, right.prerelease;
    if p == [] && q == [] { return 0; }
    if p == [] { return 1; }
    if q == [] { return -1; }
    var length := if |p| > |q| then |p| else |q|;
    for i := 0 to length
      invariant i <= |p| && i <= |q|
      invariant CompareParts(le, p, q) == CompareParts(le, p[i..], q[i..])
    {
      if i == |p| { return -1; }
      if i == |q| { return 1; }
      if p[i] == q[i] {
        assert p[i..][1..] == p[i + 1..] && q[i..][1..] == q[i + 1..];
        continue;
      }
      var leftNumeric, rightNumeric := Numeric(p[i]), Numeric(q[i]);
      if leftNumeric && rightNumeric { return if Value(p[i]) > Value(q[i]) then 1 else -1; }
      if leftNumeric != rightNumeric { return if leftNumeric then -1 else 1; }
      return if le(p[i], q[i]) > 0 then 1 else -1;
    }
    return 0;
  }

  // ---- which of two is older ----

  /** Of two identifiers that differ: numbers compare as numbers and come before
      words, words compare by the collation. */
  predicate Earlier(le: Collation, a: string, b: string) {
    if Numeric(a) && Numeric(b) then Value(a) <= Value(b)
    else if Numeric(a) || Numeric(b) then Numeric(a)
    else le(a, b) <= 0
  }

  /** The identifiers agree up to k and differ there. */
  predicate DifferFirst(a: seq<string>, b: seq<string>, k: int) {
    0 <= k < |a| && k < |b| && a[..k] == b[..k] && a[k] != b[k]
  }

  lemma PartExactly(le: Collation, a: string, b: string)
    ensures ComparePart(le, a, b) < 0 <==> Earlier(le, a, b)
  {
    hide Value, Numeric;
  }

  lemma DifferLater(a: seq<string>, b: seq<string>, k: int)
    requires a != [] && b != [] && a[0] == b[0] && k > 0
    ensures DifferFirst(a, b, k) <==> DifferFirst(a[1..], b[1..], k - 1)
  {
    if k <= |a| && k <= |b| {
      assert a[..k] == [a[0]] + a[1..][..k - 1] && b[..k] == [b[0]] + b[1..][..k - 1];
      assert a[1..][..k - 1] == a[..k][1..] && b[1..][..k - 1] == b[..k][1..];
    }
  }

  lemma DifferAtOnce(a: seq<string>, b: seq<string>, k: int)
    requires a != [] && b != [] && a[0] != b[0]
    ensures DifferFirst(a, b, k) <==> k == 0
  {
    if 0 < k <= |a| && k <= |b| {
      assert a[..k][0] != b[..k][0];
    }
  }

  lemma {:induction false} PartsExactly(le: Collation, a: seq<string>, b: seq<string>)
    ensures CompareParts(le, a, b) < 0 <==> a < b || exists k :: DifferFirst(a, b, k) && Earlier(le, a[k], b[k])
  {
    hide ComparePart, Earlier;
    if a != [] && b != [] {
      if a[0] == b[0] {
        PartsExactly(le, a[1..], b[1..]);
        assert a == [a[0]] + a[1..] && b == [b[0]] + b[1..];
        assert a < b <==> a[1..] < b[1..];
        if k :| DifferFirst(a[1..], b[1..], k) && Earlier(le, a[1..][k], b[1..][k]) {
          DifferLater(a, b, k + 1);
          assert DifferFirst(a, b, k + 1) && Earlier(le, a[k + 1], b[k + 1]);
        }
        if k :| DifferFirst(a, b, k) && Earlier(le, a[k], b[k]) {
          DifferLater(a, b, k);
          assert DifferFirst(a[1..], b[1..], k - 1) && Earlier(le, a[1..][k - 1], b[1..][k - 1]);
        }
      } else {
        PartExactly(le, a[0], b[0]);
        forall k ensures DifferFirst(a, b, k) <==> k == 0 { DifferAtOnce(a, b, k); }
      }
    }
  }

  /** The precedence of section 11: the core numbers in turn; of one core a
      prerelease before the release; of two prereleases the one whose identifiers
      run out first, or whose first differing identifier is the earlier one. */
  lemma OlderExactly(le: Collation, a: Version, b: Version)
    ensures Compare(le, a, b) < 0 <==>
            || a.major < b.major
            || (a.major == b.major && a.minor < b.minor)
            || (a.major == b.major && a.minor == b.minor && a.patch < b.patch)
            || (a.(prerelease := b.prerelease) == b && a.prerelease != [] &&
                (b.prerelease == [] || a.prerelease < b.prerelease ||
                 exists k :: DifferFirst(a.prerelease, b.prerelease, k) &&
                   Earlier(le, a.prerelease[k], b.prerelease[k])))
  {
    hide CompareParts, Earlier;
    PartsExactly(le, a.prerelease, b.prerelease);
  }

  lemma OlderAt(le: Collation, a: Version, b: Version, k: nat)
    requires a.(prerelease := b.prerelease) == b && DifferFirst(a.prerelease, b.prerelease, k)
    requires Earlier(le, a.prerelease[k], b.prerelease[k])
    ensures Compare(le, a, b) < 0
  {
    hide Compare, Earlier;
    OlderExactly(le, a, b);
  }

  /** The chain that section 11 gives as its example. */
  lemma SectionElevenChain(le: Collation)
    requires le("alpha", "beta") < 0 && le("beta", "rc") < 0
    ensures var a := Version(1, 0, 0, ["alpha"]);
            Compare(le, a, a.(prerelease := ["alpha", "1"])) < 0 &&
            Compare(le, a.(prerelease := ["alpha", "1"]), a.(prerelease := ["alpha", "beta"])) < 0 &&
            Compare(le, a.(prerelease := ["alpha", "beta"]), a.(prerelease := ["beta"])) < 0 &&
            Compare(le, a.(prerelease := ["beta"]), a.(prerelease := ["beta", "2"])) < 0 &&
            Compare(le, a.(prerelease := ["beta", "2"]), a.(prerelease := ["beta", "11"])) < 0 &&
            Compare(le, a.(prerelease := ["beta", "11"]), a.(prerelease := ["rc", "1"])) < 0 &&
            Compare(le, a.(prerelease := ["rc", "1"]), a.(prerelease := [])) < 0
  {
    hide Compare, Value;
    var a := Version(1, 0, 0, ["alpha"]);
    Words();
    Numbers();
    OlderExactly(le, a, a.(prerelease := ["alpha", "1"]));
    assert ["alpha", "1"][..1] == ["alpha", "beta"][..1];
    OlderAt(le, a.(prerelease := ["alpha", "1"]), a.(prerelease := ["alpha", "beta"]), 1);
    assert ["alpha", "beta"][..0] == ["beta"][..0];
    OlderAt(le, a.(prerelease := ["alpha", "beta"]), a.(prerelease := ["beta"]), 0);
    OlderExactly(le, a.(prerelease := ["beta"]), a.(prerelease := ["beta", "2"]));
    assert ["beta", "2"][..1] == ["beta", "11"][..1] && "2" != "11";
    OlderAt(le, a.(prerelease := ["beta", "2"]), a.(prerelease := ["beta", "11"]), 1);
    assert ["beta", "11"][..0] == ["rc", "1"][..0] && |"beta"| != |"rc"|;
    OlderAt(le, a.(prerelease := ["beta", "11"]), a.(prerelease := ["rc", "1"]), 0);
    OlderExactly(le, a.(prerelease := ["rc", "1"]), a.(prerelease := []));
  }

  lemma Words()
    ensures !Numeric("alpha") && !Numeric("beta") && !Numeric("rc")
    ensures "alpha" != "beta" && "1" != "beta"
  {
    assert !Digit("alpha"[0]) && !Digit("beta"[0]) && !Digit("rc"[0]);
    assert |"alpha"| != |"beta"| && |"1"| != |"beta"|;
  }

  lemma Numbers()
    ensures Numeric("1") && Numeric("2") && Numeric("11") && Value("2") == 2 && Value("11") == 11
  {
    assert "11"[..1] == "1" && "1"[..0] == "" && "2"[..0] == "";
    assert Value("1") == 1;
  }

  // ---- where it is an order ----

  predicate NoLeadingZero(s: string) { |s| > 1 && Numeric(s) ==> s[0] != '0' }

  predicate Conforming(v: Version) {
    forall i :: 0 <= i < |v.prerelease| ==> v.prerelease[i] != [] && NoLeadingZero(v.prerelease[i])
  }

  /** Two ways to write one number. */
  predicate SameNumber(a: string, b: string) { a != b && Numeric(a) && Numeric(b) && Value(a) == Value(b) }

  /** The first identifiers that differ are two ways to write one number. */
  predicate Clash(a: seq<string>, b: seq<string>) {
    a != [] && b != [] && (if a[0] == b[0] then Clash(a[1..], b[1..]) else SameNumber(a[0], b[0]))
  }

  /** Without leading zeros a number is written in one way. */
  lemma {:induction false} OneWay(a: string, b: string)
    requires Numeric(a) && Numeric(b) && NoLeadingZero(a) && NoLeadingZero(b) && Value(a) == Value(b)
    ensures a == b
    decreases |a| + |b|
  {
    var x, y := a[..|a| - 1], b[..|b| - 1];
    assert Value(x) == Value(y) && a[|a| - 1] == b[|b| - 1];
    if x == [] && y == [] {
    } else if x == [] {
      Positive(y);
    } else if y == [] {
      Positive(x);
    } else {
      OneWay(x, y);
    }
    assert a == x + [a[|a| - 1]] && b == y + [b[|b| - 1]];
  }

  lemma {:induction false} Positive(s: string)
    requires Numeric(s) && s[0] != '0'
    ensures Value(s) > 0
  {
    if |s| > 1 { Positive(s[..|s| - 1]); }
  }

  /** Zero means the same core and the same prerelease. */
  lemma {:induction false} ZeroParts(le: Collation, a: seq<string>, b: seq<string>)
    ensures CompareParts(le, a, b) == 0 <==> a == b
    ensures -1 <= CompareParts(le, a, b) <= 1
  {
    if a != [] && b != [] && a[0] == b[0] {
      ZeroParts(le, a[1..], b[1..]);
      assert a == [a[0]] + a[1..] && b == [b[0]] + b[1..];
    }
  }

  lemma CompareZero(le: Collation, a: Version, b: Version)
    ensures Compare(le, a, b) == 0 <==> a == b
  {
    ZeroParts(le, a.prerelease, b.prerelease);
  }

  lemma {:induction false} PartsFlip(le: Collation, a: seq<string>, b: seq<string>)
    requires TotalOrder(le)
    ensures CompareParts(le, a, b) == -CompareParts(le, b, a) <==> !Clash(a, b)
  {
    if a != [] && b != [] && a[0] == b[0] {
      PartsFlip(le, a[1..], b[1..]);
    }
  }

  /** Swapping the arguments flips the answer exactly when the versions do not
      differ first in two ways to write one number. */
  lemma CompareFlips(le: Collation, a: Version, b: Version)
    requires TotalOrder(le)
    ensures Compare(le, a, b) == -Compare(le, b, a)
      <==> !(CompareCore(a, b) == 0 && Clash(a.prerelease, b.prerelease))
  {
    PartsFlip(le, a.prerelease, b.prerelease);
  }

  lemma {:induction false} NoClash(a: seq<string>, b: seq<string>)
    requires forall i :: 0 <= i < |a| ==> NoLeadingZero(a[i])
    requires forall i :: 0 <= i < |b| ==> NoLeadingZero(b[i])
    ensures !Clash(a, b)
  {
    if a != [] && b != [] {
      if a[0] == b[0] {
        NoClash(a[1..], b[1..]);
      } else if SameNumber(a[0], b[0]) {
        OneWay(a[0], b[0]);
      }
    }
  }

  /** Conforming versions compare the same from both sides. */
  lemma ConformingFlip(le: Collation, a: Version, b: Version)
    requires TotalOrder(le) && Conforming(a) && Conforming(b)
    ensures Compare(le, a, b) == -Compare(le, b, a)
  {
    CompareFlips(le, a, b);
    NoClash(a.prerelease, b.prerelease);
  }

  /** With a leading zero each of two versions is the older one. */
  lemma LeadingZeroClash(le: Collation)
    ensures var a, b := Version(1, 0, 0, ["01"]), Version(1, 0, 0, ["1"]);
      Compare(le, a, b) == -1 && Compare(le, b, a) == -1
  {
    assert "01"[..1] == "0" && "0"[..0] == "" && "1"[..0] == "";
    assert |"01"| != |"1"|;
    assert Value("0") == 0 && Value("01") == 1 && Value("1") == 1;
  }

  lemma PartTransitive(le: Collation, a: string, b: string, c: string)
    requires TotalOrder(le) && NoLeadingZero(a) && NoLeadingZero(b) && NoLeadingZero(c)
    requires a != b && b != c && ComparePart(le, a, b) < 0 && ComparePart(le, b, c) < 0
    ensures a != c && ComparePart(le, a, c) < 0
  {
    hide Value, NoLeadingZero;
    if Numeric(a) && Numeric(b) {
      if Value(a) == Value(b) { OneWay(a, b); }
      if Numeric(c) && Value(b) == Value(c) { OneWay(b, c); }
    }
  }

  lemma {:induction false} PartsTransitive(le: Collation, a: seq<string>, b: seq<string>, c: seq<string>)
    requires TotalOrder(le) && CompareParts(le, a, b) < 0 && CompareParts(le, b, c) < 0
    requires forall i :: 0 <= i < |a| ==> NoLeadingZero(a[i])
    requires forall i :: 0 <= i < |b| ==> NoLeadingZero(b[i])
    requires forall i :: 0 <= i < |c| ==> NoLeadingZero(c[i])
    ensures CompareParts(le, a, c) < 0
  {
    hide NoLeadingZero, ComparePart, TotalOrder;
    if a != [] {
      if a[0] == b[0] == c[0] {
        PartsTransitive(le, a[1..], b[1..], c[1..]);
      } else if a[0] != b[0] && b[0] != c[0] {
        PartTransitive(le, a[0], b[0], c[0]);
      }
    }
  }

  lemma OlderTransitive(le: Collation, a: Version, b: Version, c: Version)
    requires TotalOrder(le) && Conforming(a) && Conforming(b) && Conforming(c)
    requires Compare(le, a, b) < 0 && Compare(le, b, c) < 0
    ensures Compare(le, a, c) < 0
  {
    hide TotalOrder, CompareParts;
    if a.prerelease != [] && b.prerelease != [] && c.prerelease != [] && CompareCore(a, b) == CompareCore(b, c) == 0 {
      PartsTransitive(le, a.prerelease, b.prerelease, c.prerelease);
    }
  }

  /** The gate of an update: the catalogue's version must be newer. */
  predicate Accepted(le: Collation, installed: Version, remote: Version) { Compare(le, remote, installed) > 0 }

  /** Of two conforming versions the catalogue's is accepted exactly when the
      installed one is older by the precedence of OlderExactly. */
  lemma NewerIsAccepted(le: Collation, installed: Version, remote: Version)
    requires TotalOrder(le) && Conforming(installed) && Conforming(remote)
    ensures Accepted(le, installed, remote) <==> Compare(le, installed, remote) < 0
  {
    hide TotalOrder, Compare, Conforming;
    ConformingFlip(le, remote, installed);
  }

  /** Any chain of accepted updates climbs: each version is newer than every
      earlier one, so none comes back. */
  lemma {:induction false} UpdatesClimb(le: Collation, chain: seq<Version>, i: nat, j: nat)
    requires TotalOrder(le) && i < j < |chain| && forall k :: 0 <= k < |chain| ==> Conforming(chain[k])
    requires forall k :: 0 < k < |chain| ==> Accepted(le, chain[k - 1], chain[k])
    ensures Compare(le, chain[j], chain[i]) > 0 && chain[j] != chain[i]
  {
    hide TotalOrder, Compare, Conforming;
    assert Accepted(le, chain[j - 1], chain[j]);
    ConformingFlip(le, chain[j], chain[j - 1]);
    if i < j - 1 {
      UpdatesClimb(le, chain, i, j - 1);
      ConformingFlip(le, chain[j - 1], chain[i]);
      OlderTransitive(le, chain[i], chain[j - 1], chain[j]);
      ConformingFlip(le, chain[j], chain[i]);
    }
    CompareZero(le, chain[j], chain[i]);
  }
}
