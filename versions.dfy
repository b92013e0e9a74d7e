/** compareVersions of app/components/BurgerMenu.tsx and game/menu.tsx (the two copies are identical):
    is the latest release version newer than the installed one? */
module Versions {

  /** latest.replace(/^v/, ""): drop one leading 'v'. */
  function StripV(s: string): (t: string)
    ensures |s| > 0 && s[0] == 'v' ==> s == "v" + t
    ensures !(|s| > 0 && s[0] == 'v') ==> t == s
  {
    if |s| > 0 && s[0] == 'v' then s[1..] else s
  }

  /** String.prototype.split("."): the maximal dot-free pieces, in order; the empty string gives one empty piece. */
  function Split(s: string): (parts: seq<string>)
    ensures |parts| >= 1
    ensures forall i :: 0 <= i < |parts| ==> '.' !in parts[i]
  {
    if s == [] then [""]
    else
      var rest := Split(s[1..]);
      if s[0] == '.' then [""] + rest
      else [[s[0]] + rest[0]] + rest[1..]
  }

  /** The pieces glued back together with dots, the inverse of Split. */
  function Join(parts: seq<string>): string
    requires |parts| >= 1
  {
    if |parts| == 1 then parts[0] else parts[0] + "." + Join(parts[1..])
  }

  /** Splitting and re-joining gives back the string. */
  lemma {:induction false} JoinSplit(s: string)
    ensures Join(Split(s)) == s
  {
    if s != [] {
      var rest := Split(s[1..]);
      JoinSplit(s[1..]);
      if s[0] == '.' {
        assert ([""] + rest)[1..] == rest;
      } else {
        var parts := [[s[0]] + rest[0]] + rest[1..];
        if |rest| == 1 {
          assert Join(parts) == [s[0]] + rest[0];
        } else {
          assert parts[1..] == rest[1..];
          assert Join(rest) == rest[0] + "." + Join(rest[1..]);
          assert Join(parts) == [s[0]] + rest[0] + "." + Join(rest[1..]);
        }
        assert s == [s[0]] + s[1..];
      }
    }
  }

  /** A dot-free prefix followed by a dot splits off as one piece. */
  lemma {:induction false} SplitAtDot(x: string, y: string)
    requires '.' !in x
    ensures Split(x + "." + y) == [x] + Split(y)
    ensures Split(x) == [x]
  {
    if x != [] {
      SplitAtDot(x[1..], y);
      assert (x + "." + y)[1..] == x[1..] + "." + y;
      assert [x[0]] + x[1..] == x;
    }
  }

  /** Joining dot-free pieces and splitting again gives back the pieces. */
  lemma {:induction false} SplitJoin(parts: seq<string>)
    requires |parts| >= 1
    requires forall i :: 0 <= i < |parts| ==> '.' !in parts[i]
    ensures Split(Join(parts)) == parts
  {
    if |parts| == 1 {
      SplitAtDot(parts[0], "");
    } else {
      SplitJoin(parts[1..]);
      SplitAtDot(parts[0], Join(parts[1..]));
    }
  }

  predicate IsDigit(c: char) {
    '0' <= c <= '9'
  }

  predicate AllDigits(s: string) {
    forall i :: 0 <= i < |s| ==> IsDigit(s[i])
  }

  /** The value of a string of decimal digits. */
  function DigitsValue(s: string): nat
    requires AllDigits(s)
  {
    if s == [] then 0 else DigitsValue(s[..|s| - 1]) * 10 + (s[|s| - 1] as int - '0' as int)
  }

  /** Number(part) || 0 for the parts this model reads: a non-empty digit string, optionally signed, is its value;
      anything else (NaN, the empty string, -0) counts as 0. */
  function ParsePart(s: string): (value: int)
    ensures |s| > 0 && AllDigits(s) ==> value == DigitsValue(s)
    ensures |s| > 1 && s[0] == '-' && AllDigits(s[1..]) ==> value == -(DigitsValue(s[1..]) as int)
    ensures |s| > 1 && s[0] == '+' && AllDigits(s[1..]) ==> value == DigitsValue(s[1..])
    ensures value < 0 ==> |s| > 1 && s[0] == '-'
    ensures !(|s| > 0 && AllDigits(s)) && !(|s| > 1 && (s[0] == '-' || s[0] == '+') && AllDigits(s[1..])) ==> value == 0
  {
    if |s| > 0 && AllDigits(s) then DigitsValue(s)
    else if |s| > 1 && s[0] == '-' && AllDigits(s[1..]) then -(DigitsValue(s[1..]) as int)
    else if |s| > 1 && s[0] == '+' && AllDigits(s[1..]) then DigitsValue(s[1..])
    else 0
  }

  /** The decimal rendering of a natural number. */
  function Decimal(n: nat): string
  {
    if n < 10 then [('0' as int + n) as char]
    else Decimal(n / 10) + [('0' as int + n % 10) as char]
  }

  /** Parsing the decimal rendering of n gives n, and of its negation gives -n. */
  lemma {:induction false} ParseDecimal(n: nat)
    ensures |Decimal(n)| > 0 && AllDigits(Decimal(n)) && DigitsValue(Decimal(n)) == n
    ensures ParsePart(Decimal(n)) == n
    ensures ParsePart("-" + Decimal(n)) == -(n as int)
  {
    var s := Decimal(n);
    if n >= 10 {
      ParseDecimal(n / 10);
      assert s[..|s| - 1] == Decimal(n / 10);
    }
    assert ("-" + s)[1..] == s;
    assert ("-" + s)[0] == '-' && !IsDigit(("-" + s)[0]);
  }

  /** The map(Number) step over the pieces, with || 0 folded into ParsePart. */
  function Components(parts: seq<string>): (values: seq<int>)
    ensures |values| == |parts|
    ensures forall i :: 0 <= i < |parts| ==> values[i] == ParsePart(parts[i])
  {
    if parts == [] then [] else [ParsePart(parts[0])] + Components(parts[1..])
  }

  /** The numeric components of a version string, as the map(Number) step yields them. */
  function Values(version: string): (values: seq<int>)
    ensures |values| >= 1
  {
    Components(Split(StripV(version)))
  }

  /** parts[i] || 0: a missing component counts as 0. */
  function PartAt(values: seq<int>, i: nat): int {
    if i < |values| then values[i] else 0
  }

  function Longer(a: seq<int>, b: seq<int>): nat {
    if |a| > |b| then |a| else |b|
  }

  /** The comparison loop from index i: the first differing component decides; running out of components means not newer. */
  function NewerFrom(a: seq<int>, b: seq<int>, i: nat): bool
    decreases Longer(a, b) - i
  {
    if i >= Longer(a, b) then false
    else if PartAt(a, i) > PartAt(b, i) then true
    else if PartAt(a, i) < PartAt(b, i) then false
    else NewerFrom(a, b, i + 1)
  }

  /** The latest version is newer than the current one. */
  function Newer(latest: string, current: string): bool {
    NewerFrom(Values(latest), Values(current), 0)
  }

  /** compareVersions: the loop over max(length) components with early returns. */
  method CompareVersions(latest: string, current: string) returns (newer: bool)
    ensures newer == Newer(latest, current)
  {
    var latestParts := Values(latest);
    var currentParts := Values(current);
    var n := if |latestParts| > |currentParts| then |latestParts| else |currentParts|;
    assert n == Longer(latestParts, currentParts);
    var i := 0;
    while i < n
      invariant 0 <= i <= n
      invariant NewerFrom(latestParts, currentParts, i) == NewerFrom(latestParts, currentParts, 0)
    {
      var latestPart := PartAt(latestParts, i);
      var currentPart := PartAt(currentParts, i);
      if latestPart > currentPart {
        return true;
      }
      if latestPart < currentPart {
        return false;
      }
      i := i + 1;
    }
    return false;
  }

  /** Beyond both lengths every component reads as 0. */
  lemma PastEnd(a: seq<int>, b: seq<int>, k: nat)
    requires k >= Longer(a, b)
    ensures PartAt(a, k) == 0 && PartAt(b, k) == 0
  {
  }

  /** The loop's verdict is the lexicographic order on zero-padded components:
      a is newer from i on iff some component k >= i is larger and all before it from i on are equal. */
  lemma {:induction false} NewerFromFirstDifference(a: seq<int>, b: seq<int>, i: nat)
    ensures NewerFrom(a, b, i) <==>
      exists k: nat :: i <= k && PartAt(a, k) > PartAt(b, k) && forall j: nat :: i <= j < k ==> PartAt(a, j) == PartAt(b, j)
    decreases Longer(a, b) - i
  {
    if i >= Longer(a, b) {
      if exists k: nat :: i <= k && PartAt(a, k) > PartAt(b, k) && forall j: nat :: i <= j < k ==> PartAt(a, j) == PartAt(b, j) {
        var k: nat :| i <= k && PartAt(a, k) > PartAt(b, k) && forall j: nat :: i <= j < k ==> PartAt(a, j) == PartAt(b, j);
        PastEnd(a, b, k);
      }
    } else if PartAt(a, i) > PartAt(b, i) {
      assert forall j: nat :: i <= j < i ==> PartAt(a, j) == PartAt(b, j);
    } else if PartAt(a, i) < PartAt(b, i) {
    } else {
      NewerFromFirstDifference(a, b, i + 1);
      if NewerFrom(a, b, i) {
        var k: nat :| i + 1 <= k && PartAt(a, k) > PartAt(b, k) && forall j: nat :: i + 1 <= j < k ==> PartAt(a, j) == PartAt(b, j);
        assert forall j: nat :: i <= j < k ==> PartAt(a, j) == PartAt(b, j);
      }
      if exists k: nat :: i <= k && PartAt(a, k) > PartAt(b, k) && forall j: nat :: i <= j < k ==> PartAt(a, j) == PartAt(b, j) {
        var k: nat :| i <= k && PartAt(a, k) > PartAt(b, k) && forall j: nat :: i <= j < k ==> PartAt(a, j) == PartAt(b, j);
        assert k != i;
        assert forall j: nat :: i + 1 <= j < k ==> PartAt(a, j) == PartAt(b, j);
      }
    }
  }

  /** Newer is decided by the first component at which the zero-padded versions differ. */
  lemma NewerFirstDifference(latest: string, current: string)
    ensures Newer(latest, current) <==>
      exists k: nat :: PartAt(Values(latest), k) > PartAt(Values(current), k) &&
        forall j: nat :: j < k ==> PartAt(Values(latest), j) == PartAt(Values(current), j)
  {
    NewerFromFirstDifference(Values(latest), Values(current), 0);
  }

  /** Component lists that read the same at every index (they differ only by trailing zeros) compare the same. */
  lemma SameComponents(a: seq<int>, a': seq<int>, b: seq<int>, b': seq<int>)
    requires forall k: nat :: PartAt(a, k) == PartAt(a', k)
    requires forall k: nat :: PartAt(b, k) == PartAt(b', k)
    ensures NewerFrom(a, b, 0) == NewerFrom(a', b', 0)
  {
    NewerFromFirstDifference(a, b, 0);
    NewerFromFirstDifference(a', b', 0);
  }

  /** Trailing zero components never matter. */
  lemma TrailingZeros(a: seq<int>, b: seq<int>)
    ensures NewerFrom(a + [0], b, 0) == NewerFrom(a, b, 0)
    ensures NewerFrom(a, b + [0], 0) == NewerFrom(a, b, 0)
  {
    assert forall k: nat :: PartAt(a + [0], k) == PartAt(a, k);
    assert forall k: nat :: PartAt(b + [0], k) == PartAt(b, k);
    SameComponents(a + [0], a, b, b);
    SameComponents(a, a, b + [0], b);
  }

  /** No version is newer than itself. */
  lemma {:induction false} NewerIrreflexive(a: seq<int>, i: nat)
    ensures !NewerFrom(a, a, i)
    decreases Longer(a, a) - i
  {
    if i < Longer(a, a) {
      NewerIrreflexive(a, i + 1);
    }
  }

  /** Of two versions at most one is newer than the other. */
  lemma {:induction false} NewerAsymmetric(a: seq<int>, b: seq<int>, i: nat)
    requires NewerFrom(a, b, i)
    ensures !NewerFrom(b, a, i)
    decreases Longer(a, b) - i
  {
    if i < Longer(a, b) && PartAt(a, i) == PartAt(b, i) {
      NewerAsymmetric(a, b, i + 1);
    }
  }

  /** Newer is transitive. */
  lemma {:induction false} NewerTransitive(a: seq<int>, b: seq<int>, c: seq<int>, i: nat)
    requires NewerFrom(a, b, i) && NewerFrom(b, c, i)
    ensures NewerFrom(a, c, i)
    decreases Longer(a, b) - i
  {
    if PartAt(a, i) == PartAt(b, i) && PartAt(b, i) == PartAt(c, i) {
      NewerTransitive(a, b, c, i + 1);
    }
  }

  /** The version-string level: irreflexive, asymmetric and transitive. */
  lemma NewerIsStrictOrder(x: string, y: string, z: string)
    ensures !Newer(x, x)
    ensures Newer(x, y) ==> !Newer(y, x)
    ensures Newer(x, y) && Newer(y, z) ==> Newer(x, z)
  {
    NewerIrreflexive(Values(x), 0);
    if Newer(x, y) {
      NewerAsymmetric(Values(x), Values(y), 0);
      if Newer(y, z) {
        NewerTransitive(Values(x), Values(y), Values(z), 0);
      }
    }
  }

  /** One leading 'v' is ignored: prefixing a 'v' to a version without one does not change its components. */
  lemma LeadingV(s: string)
    requires !(|s| > 0 && s[0] == 'v')
    ensures Values("v" + s) == Values(s)
  {
    assert ("v" + s)[0] == 'v' && ("v" + s)[1..] == s;
  }

  /** The decimal rendering of a number is a dot-free piece that does not start with 'v'. */
  lemma DecimalPiece(n: nat)
    ensures |Decimal(n)| > 0 && '.' !in Decimal(n) && Decimal(n)[0] != 'v'
    ensures ParsePart(Decimal(n)) == n
  {
    ParseDecimal(n);
    assert IsDigit(Decimal(n)[0]);
  }

  /** A version string of two dot-free pieces, the first not starting with 'v', has their values as components. */
  lemma TwoPieces(a: string, b: string)
    requires '.' !in a && '.' !in b && |a| > 0 && a[0] != 'v'
    ensures Values(a + "." + b) == [ParsePart(a), ParsePart(b)]
  {
    SplitAtDot(a, b);
    SplitAtDot(b, "");
    assert (a + "." + b)[0] == a[0];
  }

  /** The same for three pieces. */
  lemma ThreePieces(a: string, b: string, c: string)
    requires '.' !in a && '.' !in b && '.' !in c && |a| > 0 && a[0] != 'v'
    ensures Values(a + "." + b + "." + c) == [ParsePart(a), ParsePart(b), ParsePart(c)]
  {
    assert a + "." + b + "." + c == a + "." + (b + "." + c);
    SplitAtDot(a, b + "." + c);
    SplitAtDot(b, c);
    SplitAtDot(c, "");
    assert (a + "." + b + "." + c)[0] == a[0];
  }

  /** The version "a.b" written in decimal has components [a, b]. */
  lemma TwoNumbers(a: nat, b: nat)
    ensures Values(Decimal(a) + "." + Decimal(b)) == [a, b]
  {
    DecimalPiece(a);
    DecimalPiece(b);
    TwoPieces(Decimal(a), Decimal(b));
  }

  /** The version "a.b.c" written in decimal has components [a, b, c]. */
  lemma ThreeNumbers(a: nat, b: nat, c: nat)
    ensures Values(Decimal(a) + "." + Decimal(b) + "." + Decimal(c)) == [a, b, c]
  {
    DecimalPiece(a);
    DecimalPiece(b);
    DecimalPiece(c);
    ThreePieces(Decimal(a), Decimal(b), Decimal(c));
  }

  /** Components compare as numbers, not as text: 1.10 is newer than 1.9. */
  lemma NumericComponents(latest: string, current: string)
    requires latest == "1.10" && current == "1.9"
    ensures Newer(latest, current) && !Newer(current, latest)
  {
    TwoNumbers(1, 10);
    TwoNumbers(1, 9);
    assert latest == Decimal(1) + "." + Decimal(10) && current == Decimal(1) + "." + Decimal(9);
    assert NewerFrom([1, 10], [1, 9], 0) && !NewerFrom([1, 9], [1, 10], 0);
  }

  /** A leading 'v' is ignored: v1.2 is not newer than 1.2. */
  lemma LeadingVIgnored(latest: string, current: string)
    requires latest == "v1.2" && current == "1.2"
    ensures !Newer(latest, current)
  {
    assert latest == "v" + current;
    LeadingV(current);
    NewerIrreflexive(Values(current), 0);
  }

  /** A third component breaks a tie: v2.0.1 is newer than 2.0. */
  lemma ExtraComponentNewer(latest: string, current: string)
    requires latest == "v2.0.1" && current == "2.0"
    ensures Newer(latest, current)
  {
    var bare := Decimal(2) + "." + Decimal(0) + "." + Decimal(1);
    assert bare == "2.0.1" && latest == "v" + bare;
    LeadingV(bare);
    ThreeNumbers(2, 0, 1);
    TwoNumbers(2, 0);
    assert current == Decimal(2) + "." + Decimal(0);
    assert NewerFrom([2, 0, 1], [2, 0], 0);
  }

  /** Missing components count as zero: neither of 1.0 and 1.0.0 is newer than the other. */
  lemma MissingComponentsZero(shorter: string, longer: string)
    requires shorter == "1.0" && longer == "1.0.0"
    ensures !Newer(shorter, longer) && !Newer(longer, shorter)
  {
    ThreeNumbers(1, 0, 0);
    TwoNumbers(1, 0);
    assert shorter == Decimal(1) + "." + Decimal(0) && longer == Decimal(1) + "." + Decimal(0) + "." + Decimal(0);
    assert !NewerFrom([1, 0], [1, 0, 0], 0) && !NewerFrom([1, 0, 0], [1, 0], 0);
  }
}
