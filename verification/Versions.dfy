/** Release versions: which edition and era a version string names, how two of them compare, and
    which upgrades are offered. */
module Versions {
  import opened Text

  // ---------------------------------------------------------------- numeric parts

  predicate IsDigit(c: char) {
    '0' <= c <= '9'
  }

  function DigitValue(c: char): int
    requires IsDigit(c)
  {
    c as int - '0' as int
  }

  /** Go's `int` is a 64-bit word: arithmetic wraps around. */
  function Wrap(n: int): (r: int)
    ensures -0x8000_0000_0000_0000 <= r < 0x8000_0000_0000_0000
    ensures n == r + 0x1_0000_0000_0000_0000 * ((n + 0x8000_0000_0000_0000) / 0x1_0000_0000_0000_0000)
    ensures -0x8000_0000_0000_0000 <= n < 0x8000_0000_0000_0000 ==> r == n
  {
    (n + 0x8000_0000_0000_0000) % 0x1_0000_0000_0000_0000 - 0x8000_0000_0000_0000
  }

  /** The length of the run of digits a string starts with. */
  function DigitRun(s: string): (n: nat)
    ensures n <= |s|
    ensures forall i :: 0 <= i < n ==> IsDigit(s[i])
    ensures n < |s| ==> !IsDigit(s[n])
  {
    if s == [] || !IsDigit(s[0]) then 0 else 1 + DigitRun(s[1..])
  }

  /** The number digits spell, unbounded. */
  function Numeral(s: string): nat
    requires forall i :: 0 <= i < |s| ==> IsDigit(s[i])
  {
    if s == [] then 0 else 10 * Numeral(s[..|s| - 1]) + DigitValue(s[|s| - 1])
  }

  /** The maximal runs of digits in a string, as numbers reduced to a machine word. */
  function Parts(s: string): (ps: seq<int>)
    decreases |s|
  {
    if s == [] then []
    else if !IsDigit(s[0]) then Parts(s[1..])
    else [Wrap(Numeral(s[..DigitRun(s)]))] + Parts(s[DigitRun(s)..])
  }

  lemma WrapStep(a: int, d: int)
    ensures Wrap(Wrap(a) * 10 + d) == Wrap(a * 10 + d)
  {
    var m := 0x1_0000_0000_0000_0000;
    var q := (a + 0x8000_0000_0000_0000) / m;
    assert Wrap(a) * 10 + d == a * 10 + d - m * (10 * q);
    WrapShift(a * 10 + d, -10 * q);
  }

  lemma WrapShift(n: int, k: int)
    ensures Wrap(n + 0x1_0000_0000_0000_0000 * k) == Wrap(n)
  {
    var m := 0x1_0000_0000_0000_0000;
    var x := n + 0x8000_0000_0000_0000;
    var y := x + m * k;
    var q, q' := x / m, y / m;
    assert x == m * q + x % m && y == m * q' + y % m;
    assert x % m - y % m == m * (q' - q - k);
    assert -m < x % m - y % m < m;
    assert q' - q - k == 0;
  }

  /** Reads one run of digits in machine arithmetic. */
  method ScanNumber(version: string, start: nat) returns (value: int, index: nat)
    requires start < |version|
    ensures start <= index <= |version| && index - start == DigitRun(version[start..])
    ensures forall i :: start <= i < index ==> IsDigit(version[i])
    ensures value == Wrap(Numeral(version[start..index]))
  {
    hide Wrap, DigitRun;
    value, index := 0, start;
    WrapZero();
    while index < |version| && IsDigit(version[index])
      invariant start <= index <= |version|
      invariant forall i :: start <= i < index ==> IsDigit(version[i])
      invariant value == Wrap(Numeral(version[start..index]))
    {
      assert version[start..index + 1][..index - start] == version[start..index];
      WrapStep(Numeral(version[start..index]), DigitValue(version[index]));
      value := Wrap(value * 10 + DigitValue(version[index]));
      index := index + 1;
    }
    RunIs(version[start..], index - start);
  }

  lemma WrapZero()
    ensures Wrap(0) == 0
  {
  }

  /** The scanner skips to each run of digits in turn. */
  method NumericVersionParts(version: string) returns (parts: seq<int>)
    ensures parts == Parts(version)
  {
    hide Wrap, Numeral, DigitRun;
    parts := [];
    var index := 0;
    while index < |version|
      invariant 0 <= index <= |version|
      invariant Parts(version) == parts + Parts(version[index..])
    {
      ghost var rest := version[index..];
      if !IsDigit(version[index]) {
        assert rest[1..] == version[index + 1..];
        index := index + 1;
      } else {
        var value, next := ScanNumber(version, index);
        assert next > index by { FirstDigitRuns(rest); }
        assert rest[..DigitRun(rest)] == version[index..next] && rest[DigitRun(rest)..] == version[next..];
        assert Parts(rest) == [value] + Parts(version[next..]);
        parts, index := parts + [value], next;
      }
    }
  }

  lemma FirstDigitRuns(s: string)
    requires s != [] && IsDigit(s[0])
    ensures DigitRun(s) > 0
  {
  }

  lemma {:induction false} RunIs(s: string, n: nat)
    requires n <= |s| && (forall i :: 0 <= i < n ==> IsDigit(s[i])) && (n < |s| ==> !IsDigit(s[n]))
    ensures DigitRun(s) == n
  {
    if n > 0 { RunIs(s[1..], n - 1); }
  }

  // ---------------------------------------------------------------- identity

  datatype Edition = Community | Enterprise

  /** The edition and numbering era of a recognised version. */
  datatype Identity = Unknown | Known(edition: Edition, epoch: int)

  /** A decimal number without superfluous zeros: the pattern's `(0|[1-9][0-9]*)`. */
  predicate Canonical(s: string) {
    s == "0" || (s != [] && s[0] != '0' && forall i :: 0 <= i < |s| ==> IsDigit(s[i]))
  }

  /** The part of `editionReleaseVersionPattern` after the edition: three dotted decimal numbers. */
  predicate DottedTriple(s: string) {
    var i := IndexByte(s, '.');
    i >= 0 && Canonical(s[..i]) &&
    var t := s[i + 1..];
    var j := IndexByte(t, '.');
    j >= 0 && Canonical(t[..j]) && Canonical(t[j + 1..])
  }

  /** The `-ent.` marker of legacy enterprise builds. */
  const ENT := "-ent."

  function ReleaseIdentity(version: string): Identity {
    var v := TrimSpace(version);
    if HasPrefix(v, "ce-v") && DottedTriple(v[4..]) then Known(Community, 1)
    else if HasPrefix(v, "ee-v") && DottedTriple(v[4..]) then Known(Enterprise, 1)
    else
      var value := if HasPrefix(v, "v") then v[1..] else v;
      if value == [] || !IsDigit(value[0]) then Unknown
      else if Contains(value, ENT) then Known(Enterprise, 0)
      else Known(Community, 0)
  }

  // ---------------------------------------------------------------- comparison

  datatype Comparison = Incomparable | Comparable(sign: int)

  /** A part of a version, zero past the end. */
  function Part(ps: seq<int>, i: nat): int {
    if i < |ps| then ps[i] else 0
  }

  function Max(a: nat, b: nat): nat {
    if a < b then b else a
  }

  /** The sign of the first difference at or after `i`. */
  function CompareFrom(a: seq<int>, b: seq<int>, i: nat): (r: int)
    ensures r == -1 || r == 0 || r == 1
    decreases Max(|a|, |b|) - i
  {
    if i >= Max(|a|, |b|) then 0
    else if Part(a, i) < Part(b, i) then -1
    else if Part(a, i) > Part(b, i) then 1
    else CompareFrom(a, b, i + 1)
  }

  function Compare(left: string, right: string): Comparison {
    var l, r := ReleaseIdentity(left), ReleaseIdentity(right);
    if l.Known? && r.Known? && l.edition != r.edition then Incomparable
    else if l.Known? && r.Known? && l.epoch != r.epoch then Comparable(if l.epoch > r.epoch then 1 else -1)
    else if Parts(left) == [] || Parts(right) == [] then Incomparable
    else Comparable(CompareFrom(Parts(left), Parts(right), 0))
  }

  method CompareNumericVersions(left: string, right: string) returns (c: Comparison)
    ensures c == Compare(left, right)
  {
    hide ReleaseIdentity, Parts;
    var l, r := ReleaseIdentity(left), ReleaseIdentity(right);
    if l.Known? && r.Known? {
      if l.edition != r.edition {
        return Incomparable;
      }
      if l.epoch != r.epoch {
        return Comparable(if l.epoch > r.epoch then 1 else -1);
      }
    }
    var lp := NumericVersionParts(left);
    var rp := NumericVersionParts(right);
    if |lp| == 0 || |rp| == 0 {
      return Incomparable;
    }
    var length := Max(|lp|, |rp|);
    for i := 0 to length
      invariant CompareFrom(lp, rp, 0) == CompareFrom(lp, rp, i)
    {
      var leftPart, rightPart := Part(lp, i), Part(rp, i);
      if leftPart < rightPart {
        return Comparable(-1);
      }
      if leftPart > rightPart {
        return Comparable(1);
      }
    }
    c := Comparable(0);
  }

  // ---------------------------------------------------------------- the order

  /** `i` is the first place where two zero-padded versions differ. */
  ghost predicate FirstDifference(a: seq<int>, b: seq<int>, i: nat) {
    Part(a, i) != Part(b, i) && forall k :: 0 <= k < i ==> Part(a, k) == Part(b, k)
  }

  /** The sign is that of the first difference of the zero-padded parts, and zero if they agree. */
  lemma {:induction false} CompareFromMeans(a: seq<int>, b: seq<int>, i: nat)
    requires forall k :: 0 <= k < i ==> Part(a, k) == Part(b, k)
    ensures CompareFrom(a, b, i) == 0 <==> forall k: nat :: Part(a, k) == Part(b, k)
    ensures CompareFrom(a, b, i) != 0 ==>
              exists d :: FirstDifference(a, b, d) && CompareFrom(a, b, i) == if Part(a, d) < Part(b, d) then -1 else 1
    decreases Max(|a|, |b|) - i
  {
    if i < Max(|a|, |b|) {
      if Part(a, i) == Part(b, i) {
        CompareFromMeans(a, b, i + 1);
      } else {
        assert FirstDifference(a, b, i);
      }
    }
  }

  lemma CompareAt(a: seq<int>, b: seq<int>, d: nat)
    requires FirstDifference(a, b, d)
    ensures CompareFrom(a, b, 0) == if Part(a, d) < Part(b, d) then -1 else 1
  {
    CompareFromMeans(a, b, 0);
    var e: nat :| FirstDifference(a, b, e) && CompareFrom(a, b, 0) == if Part(a, e) < Part(b, e) then -1 else 1;
    assert e == d;
  }

  lemma CompareFromAntisymmetric(a: seq<int>, b: seq<int>)
    ensures CompareFrom(b, a, 0) == -CompareFrom(a, b, 0)
  {
    CompareFromMeans(a, b, 0);
    CompareFromMeans(b, a, 0);
    if CompareFrom(a, b, 0) != 0 {
      var d: nat :| FirstDifference(a, b, d);
      CompareAt(a, b, d);
      CompareAt(b, a, d);
    }
  }

  lemma CompareFromTransitive(a: seq<int>, b: seq<int>, c: seq<int>)
    requires CompareFrom(a, b, 0) >= 0 && CompareFrom(b, c, 0) >= 0
    ensures CompareFrom(a, c, 0) >= 0
    ensures CompareFrom(a, c, 0) == 0 ==> CompareFrom(a, b, 0) == 0 && CompareFrom(b, c, 0) == 0
  {
    CompareFromMeans(a, b, 0);
    CompareFromMeans(b, c, 0);
    CompareFromMeans(a, c, 0);
    if CompareFrom(a, b, 0) != 0 && CompareFrom(b, c, 0) != 0 {
      var d: nat :| FirstDifference(a, b, d) && CompareFrom(a, b, 0) == if Part(a, d) < Part(b, d) then -1 else 1;
      var e: nat :| FirstDifference(b, c, e) && CompareFrom(b, c, 0) == if Part(b, e) < Part(c, e) then -1 else 1;
      CompareAt(a, c, if d < e then d else e);
    } else if CompareFrom(a, b, 0) != 0 {
      var d: nat :| FirstDifference(a, b, d) && CompareFrom(a, b, 0) == if Part(a, d) < Part(b, d) then -1 else 1;
      CompareAt(a, c, d);
    } else if CompareFrom(b, c, 0) != 0 {
      var e: nat :| FirstDifference(b, c, e) && CompareFrom(b, c, 0) == if Part(b, e) < Part(c, e) then -1 else 1;
      CompareAt(a, c, e);
    }
  }

  /** A recognised release of an edition. */
  predicate Release(v: string, e: Edition) {
    ReleaseIdentity(v).Known? && ReleaseIdentity(v).edition == e
  }

  lemma {:induction false} PartsFound(s: string, i: nat)
    requires i < |s| && IsDigit(s[i])
    ensures Parts(s) != []
    decreases |s|
  {
    if !IsDigit(s[0]) { PartsFound(s[1..], i - 1); }
  }

  lemma DigitInTrimmed(v: string, i: nat)
    requires i < |TrimSpace(v)| && IsDigit(TrimSpace(v)[i])
    ensures Parts(v) != []
  {
    hide TrimSpace, Parts;
    var t := TrimSpace(v);
    var k := TrimSpacePart(v);
    assert v[k + i] == v[k..][i] == t[i];
    PartsFound(v, k + i);
  }

  /** Every recognised version holds a digit, so any two of one edition can be compared. */
  lemma ReleaseHasParts(v: string)
    requires ReleaseIdentity(v).Known?
    ensures Parts(v) != []
  {
    hide TrimSpace, Parts, DottedTriple, Contains;
    var t := TrimSpace(v);
    if (HasPrefix(t, "ce-v") || HasPrefix(t, "ee-v")) && DottedTriple(t[4..]) {
      TripleStartsWithDigit(t[4..]);
      DigitInTrimmed(v, 4);
    } else if HasPrefix(t, "v") {
      DigitInTrimmed(v, 1);
    } else {
      DigitInTrimmed(v, 0);
    }
  }

  lemma TripleStartsWithDigit(s: string)
    requires DottedTriple(s)
    ensures s != [] && IsDigit(s[0])
  {
  }

  /** Over the releases of one edition the comparison is total and antisymmetric, and the
      edition-prefixed era is above every legacy build. */
  lemma CompareTotal(e: Edition, a: string, b: string)
    requires Release(a, e) && Release(b, e)
    ensures Compare(a, b).Comparable? && Compare(b, a) == Comparable(-Compare(a, b).sign)
    ensures Compare(a, a) == Comparable(0)
    ensures ReleaseIdentity(a).epoch > ReleaseIdentity(b).epoch ==> Compare(a, b) == Comparable(1)
  {
    hide ReleaseIdentity, Parts;
    ReleaseHasParts(a);
    ReleaseHasParts(b);
    CompareFromAntisymmetric(Parts(a), Parts(b));
    CompareFromMeans(Parts(a), Parts(a), 0);
  }

  lemma CompareTransitive(e: Edition, a: string, b: string, c: string)
    requires Release(a, e) && Release(b, e) && Release(c, e)
    requires Compare(a, b).Comparable? && Compare(a, b).sign >= 0
    requires Compare(b, c).Comparable? && Compare(b, c).sign >= 0
    ensures Compare(a, c).Comparable? && Compare(a, c).sign >= 0
    ensures Compare(a, c).sign == 0 ==> Compare(a, b).sign == 0 && Compare(b, c).sign == 0
  {
    hide ReleaseIdentity, Parts;
    ReleaseHasParts(a);
    ReleaseHasParts(b);
    ReleaseHasParts(c);
    if ReleaseIdentity(a).epoch == ReleaseIdentity(b).epoch == ReleaseIdentity(c).epoch {
      CompareFromTransitive(Parts(a), Parts(b), Parts(c));
    }
  }

  // ---------------------------------------------------------------- offered upgrades

  function UpgradeTargetIsNewer(current: string, target: string, digestMismatch: bool): bool {
    var c, t := ReleaseIdentity(current), ReleaseIdentity(target);
    if c.Known? && t.Known? && c.edition != t.edition then false
    else
      match Compare(target, current)
      case Incomparable => digestMismatch
      case Comparable(sign) => sign > 0 || (sign == 0 && digestMismatch)
  }

  /** A chain of upgrades between recognised releases, each of them offered. */
  ghost predicate OfferedChain(vs: seq<string>, mismatch: seq<bool>) {
    && |vs| == |mismatch| + 1
    && (forall i :: 0 <= i < |vs| ==> ReleaseIdentity(vs[i]).Known?)
    && (forall i :: 0 <= i < |mismatch| ==> UpgradeTargetIsNewer(vs[i], vs[i + 1], mismatch[i]))
  }

  /** Any chain of offered upgrades keeps its edition and never goes down; if it ends level with
      where it began, every step of it was a rebuild of the same version with another image. */
  lemma {:induction false} ChainNeverDecreases(vs: seq<string>, mismatch: seq<bool>)
    requires OfferedChain(vs, mismatch)
    ensures var n := |mismatch|;
            && ReleaseIdentity(vs[n]).edition == ReleaseIdentity(vs[0]).edition
            && Compare(vs[n], vs[0]).Comparable? && Compare(vs[n], vs[0]).sign >= 0
            && (Compare(vs[n], vs[0]).sign == 0 ==>
                  forall i :: 0 <= i < n ==> mismatch[i] && Compare(vs[i + 1], vs[i]) == Comparable(0))
    decreases |mismatch|
  {
    hide ReleaseIdentity, Parts, Compare;
    var n := |mismatch|;
    var e := ReleaseIdentity(vs[0]).edition;
    if n == 0 {
      CompareTotal(e, vs[0], vs[0]);
    } else {
      var vs', mm' := vs[..n], mismatch[..n - 1];
      assert OfferedChain(vs', mm');
      ChainNeverDecreases(vs', mm');
      assert vs'[n - 1] == vs[n - 1] && vs'[0] == vs[0];
      assert UpgradeTargetIsNewer(vs[n - 1], vs[n], mismatch[n - 1]);
      CompareTotal(e, vs[n], vs[n - 1]);
      CompareTransitive(e, vs[n], vs[n - 1], vs[0]);
      if Compare(vs[n], vs[0]).sign == 0 {
        forall i | 0 <= i < n ensures mismatch[i] && Compare(vs[i + 1], vs[i]) == Comparable(0) {
          if i < n - 1 {
            assert vs'[i] == vs[i] && vs'[i + 1] == vs[i + 1] && mm'[i] == mismatch[i];
          }
        }
      }
    }
  }

  /** A chain of offered upgrades that returns to its start changed nothing but images. */
  lemma NoUpgradeCycle(vs: seq<string>, mismatch: seq<bool>, i: nat)
    requires OfferedChain(vs, mismatch) && i < |mismatch| && vs[|mismatch|] == vs[0]
    ensures mismatch[i]
  {
    hide ReleaseIdentity, Parts, Compare, UpgradeTargetIsNewer;
    ChainNeverDecreases(vs, mismatch);
    CompareTotal(ReleaseIdentity(vs[0]).edition, vs[0], vs[0]);
  }

  // ---------------------------------------------------------------- printed versions

  /** The decimal numeral of a number. */
  function Decimal(n: nat): (s: string)
    ensures s != []
  {
    var d := ['0' + (n % 10) as char];
    if n < 10 then d else Decimal(n / 10) + d
  }

  function EditionPrefix(e: Edition): (s: string)
    ensures |s| == 4
  {
    if e == Community then "ce-v" else "ee-v"
  }

  function Print(e: Edition, a: nat, b: nat, c: nat): string {
    EditionPrefix(e) + Decimal(a) + "." + Decimal(b) + "." + Decimal(c)
  }

  predicate AllDigits(s: string) {
    forall i :: 0 <= i < |s| ==> IsDigit(s[i])
  }

  lemma {:induction false} DecimalReads(n: nat)
    ensures AllDigits(Decimal(n)) && Numeral(Decimal(n)) == n
    ensures n > 0 ==> Decimal(n)[0] != '0'
  {
    var d := '0' + (n % 10) as char;
    assert IsDigit(d) && DigitValue(d) == n % 10;
    if n < 10 {
      assert Decimal(n) == [d] && [d][..0] == [];
      assert Numeral([d]) == 10 * Numeral([]) + DigitValue(d);
    } else {
      DecimalReads(n / 10);
      var s := Decimal(n / 10);
      assert (s + [d])[..|s|] == s;
    }
  }

  lemma DecimalCanonical(n: nat)
    ensures Canonical(Decimal(n)) && '.' !in Decimal(n)
  {
    DecimalReads(n);
    if n == 0 { assert Decimal(0) == "0"; }
  }

  lemma CutAtDot(x: string, t: string)
    requires '.' !in x
    ensures var s := x + "." + t; IndexByte(s, '.') == |x| && s[..|x|] == x && s[|x| + 1..] == t
  {
    var s := x + "." + t;
    assert s[..|x|] == x && s[|x|] == '.' && s[|x| + 1..] == t;
    FirstIndexIs(s, '.', |x|);
  }

  lemma TripleOf(x: string, y: string, z: string)
    requires Canonical(x) && Canonical(y) && Canonical(z) && '.' !in x && '.' !in y
    ensures DottedTriple(x + "." + (y + "." + z))
  {
    hide Canonical, IndexByte;
    CutAtDot(y, z);
    CutAtDot(x, y + "." + z);
  }

  lemma TriplePrinted(a: nat, b: nat, c: nat)
    ensures DottedTriple(Decimal(a) + "." + Decimal(b) + "." + Decimal(c))
  {
    hide Decimal, Canonical, DottedTriple;
    DecimalCanonical(a);
    DecimalCanonical(b);
    DecimalCanonical(c);
    TripleOf(Decimal(a), Decimal(b), Decimal(c));
    assert Decimal(a) + "." + Decimal(b) + "." + Decimal(c) == Decimal(a) + "." + (Decimal(b) + "." + Decimal(c));
  }

  /** A printed release is recognised with its edition, in the edition-prefixed era. */
  lemma PrintedRecognised(e: Edition, a: nat, b: nat, c: nat)
    ensures ReleaseIdentity(Print(e, a, b, c)) == Known(e, 1)
  {
    hide Decimal, DottedTriple, Contains;
    var v := Print(e, a, b, c);
    var triple := Decimal(a) + "." + Decimal(b) + "." + Decimal(c);
    assert v == EditionPrefix(e) + triple;
    TriplePrinted(a, b, c);
    assert v[4..] == triple && v[..4] == EditionPrefix(e);
    assert v[0] != ' ' && !IsSpace(v[0]);
    assert v[|v| - 1] == Decimal(c)[|Decimal(c)| - 1];
    DecimalReads(c);
    TrimSpaceKeeps(v);
    assert "ce-v"[0] != "ee-v"[0];
  }

  /** A legacy build: an optional `v`, a dotted triple, and for enterprise builds a build number. */
  function PrintLegacy(prefixed: bool, a: nat, b: nat, c: nat, e: Edition, build: nat): string {
    (if prefixed then "v" else "") + LegacyValue(a, b, c, e, build)
  }

  function LegacyValue(a: nat, b: nat, c: nat, e: Edition, build: nat): string {
    Decimal(a) + "." + Decimal(b) + "." + Decimal(c) + if e.Enterprise? then ENT + Decimal(build) else ""
  }

  lemma NoDashNoEnt(s: string)
    requires '-' !in s
    ensures !Contains(s, ENT)
  {
    if i :| 0 <= i <= |s| && ENT <= s[i..] {
      assert s[i..][0] == ENT[0];
    }
  }

  lemma EntFound(s: string, t: string)
    ensures Contains(s + ENT + t, ENT)
  {
    var all := s + ENT + t;
    assert all[|s|..] == ENT + t;
    assert ENT <= all[|s|..];
  }

  lemma LegacyShape(a: nat, b: nat, c: nat, e: Edition, build: nat)
    ensures var value := LegacyValue(a, b, c, e, build);
            && value != [] && IsDigit(value[0]) && IsDigit(value[|value| - 1])
            && (Contains(value, ENT) <==> e.Enterprise?)
  {
    hide Decimal, Contains, Numeral;
    DecimalReads(a);
    DecimalReads(b);
    DecimalReads(c);
    DecimalReads(build);
    var value := LegacyValue(a, b, c, e, build);
    var triple := Decimal(a) + "." + Decimal(b) + "." + Decimal(c);
    assert value[0] == Decimal(a)[0];
    if e.Enterprise? {
      EntFound(triple, Decimal(build));
      assert value == triple + ENT + Decimal(build);
      assert value[|value| - 1] == Decimal(build)[|Decimal(build)| - 1];
    } else {
      assert value == triple;
      assert '-' !in Decimal(a) && '-' !in Decimal(b) && '-' !in Decimal(c);
      assert '-' !in triple;
      NoDashNoEnt(triple);
      assert value[|value| - 1] == Decimal(c)[|Decimal(c)| - 1];
    }
  }

  /** A legacy build is recognised with its edition, in the era before the edition prefixes. */
  lemma LegacyRecognised(prefixed: bool, a: nat, b: nat, c: nat, e: Edition, build: nat)
    ensures ReleaseIdentity(PrintLegacy(prefixed, a, b, c, e, build)) == Known(e, 0)
  {
    hide Decimal, DottedTriple, Contains, LegacyValue, TrimSpace;
    LegacyShape(a, b, c, e, build);
    var value := LegacyValue(a, b, c, e, build);
    var v := PrintLegacy(prefixed, a, b, c, e, build);
    if prefixed {
      assert v == "v" + value && v[1..] == value && v[0] == 'v';
    } else {
      assert v == value;
    }
    TrimSpaceKeeps(v);
  }

  /** Every edition-prefixed release is newer than every legacy build of its edition. */
  lemma PrefixedAboveLegacy(e: Edition, a: nat, b: nat, c: nat, prefixed: bool, a': nat, b': nat, c': nat, build: nat)
    ensures Compare(Print(e, a, b, c), PrintLegacy(prefixed, a', b', c', e, build)) == Comparable(1)
    ensures UpgradeTargetIsNewer(PrintLegacy(prefixed, a', b', c', e, build), Print(e, a, b, c), false)
    ensures !UpgradeTargetIsNewer(Print(e, a, b, c), PrintLegacy(prefixed, a', b', c', e, build), true)
  {
    hide Print, PrintLegacy, ReleaseIdentity, Parts, Compare;
    PrintedRecognised(e, a, b, c);
    LegacyRecognised(prefixed, a', b', c', e, build);
    CompareTotal(e, Print(e, a, b, c), PrintLegacy(prefixed, a', b', c', e, build));
  }

  lemma {:induction false} PartsSkip(s: string, t: string)
    requires forall i :: 0 <= i < |s| ==> !IsDigit(s[i])
    ensures Parts(s + t) == Parts(t)
  {
    if s == [] {
      assert s + t == t;
    } else {
      assert (s + t)[1..] == s[1..] + t;
      PartsSkip(s[1..], t);
    }
  }

  lemma PartsNumber(d: string, t: string)
    requires d != [] && AllDigits(d) && (t == [] || !IsDigit(t[0]))
    ensures Parts(d + t) == [Wrap(Numeral(d))] + Parts(t)
  {
    hide Wrap, Numeral, DigitRun;
    var s := d + t;
    RunIs(s, |d|);
    assert s[..|d|] == d && s[|d|..] == t;
  }

  /** Scanning a printed release gives its three numbers, each reduced to a machine word. */
  lemma PrintedParts(e: Edition, a: nat, b: nat, c: nat)
    ensures Parts(Print(e, a, b, c)) == [Wrap(a), Wrap(b), Wrap(c)]
  {
    hide Wrap, Numeral, Decimal, Parts, IsDigit;
    var da, db, dc := Decimal(a), Decimal(b), Decimal(c);
    DecimalReads(a);
    DecimalReads(b);
    DecimalReads(c);
    assert dc + [] == dc;
    PartsNumber(dc, []);
    NotDigits();
    PartsSkip(".", dc);
    PartsNumber(db, "." + dc);
    PartsSkip(".", db + ("." + dc));
    PartsNumber(da, "." + (db + ("." + dc)));
    PartsSkip(EditionPrefix(e), da + ("." + (db + ("." + dc))));
    assert Print(e, a, b, c) == EditionPrefix(e) + (da + ("." + (db + ("." + dc))));
    assert Parts([]) == [];
  }

  lemma NotDigits()
    ensures !IsDigit('.') && !IsDigit('c') && !IsDigit('e') && !IsDigit('-') && !IsDigit('v')
    ensures Parts([]) == []
  {
  }

  /** A printed release scans back to exactly its three numbers when, and only when, each fits in an int. */
  lemma PrintedScansBackIff(e: Edition, a: nat, b: nat, c: nat)
    ensures Parts(Print(e, a, b, c)) == [a, b, c] <==>
            a < 0x8000_0000_0000_0000 && b < 0x8000_0000_0000_0000 && c < 0x8000_0000_0000_0000
  {
    hide Print, Parts;
    PrintedParts(e, a, b, c);
    assert [Wrap(a), Wrap(b), Wrap(c)] == [a, b, c] <==> Wrap(a) == a && Wrap(b) == b && Wrap(c) == c;
  }

  /** The order of release triples. */
  function TripleSign(a: int, b: int, c: int, a': int, b': int, c': int): int {
    if a != a' then (if a < a' then -1 else 1)
    else if b != b' then (if b < b' then -1 else 1)
    else if c != c' then (if c < c' then -1 else 1)
    else 0
  }

  /** Printed releases of one edition compare as their triples do. */
  lemma PrintedOrder(e: Edition, a: nat, b: nat, c: nat, a': nat, b': nat, c': nat)
    requires a < 0x8000_0000_0000_0000 && b < 0x8000_0000_0000_0000 && c < 0x8000_0000_0000_0000
    requires a' < 0x8000_0000_0000_0000 && b' < 0x8000_0000_0000_0000 && c' < 0x8000_0000_0000_0000
    ensures Compare(Print(e, a, b, c), Print(e, a', b', c')) == Comparable(TripleSign(a, b, c, a', b', c'))
  {
    hide Print, Parts, ReleaseIdentity, CompareFrom;
    PrintedRecognised(e, a, b, c);
    PrintedRecognised(e, a', b', c');
    PrintedParts(e, a, b, c);
    PrintedParts(e, a', b', c');
    var x, y := [a as int, b, c], [a' as int, b', c'];
    CompareFromMeans(x, y, 0);
    if a != a' {
      CompareAt(x, y, 0);
    } else if b != b' {
      CompareAt(x, y, 1);
    } else if c != c' {
      CompareAt(x, y, 2);
    }
  }

  /** Which printed release is offered over which: a later triple, or the same one with another image. */
  lemma PrintedOfferedIff(e: Edition, a: nat, b: nat, c: nat, a': nat, b': nat, c': nat, mismatch: bool)
    requires a < 0x8000_0000_0000_0000 && b < 0x8000_0000_0000_0000 && c < 0x8000_0000_0000_0000
    requires a' < 0x8000_0000_0000_0000 && b' < 0x8000_0000_0000_0000 && c' < 0x8000_0000_0000_0000
    ensures UpgradeTargetIsNewer(Print(e, a, b, c), Print(e, a', b', c'), mismatch) <==>
            || a' > a || (a' == a && b' > b) || (a' == a && b' == b && c' > c)
            || (a' == a && b' == b && c' == c && mismatch)
  {
    hide Print, Compare, ReleaseIdentity;
    PrintedRecognised(e, a, b, c);
    PrintedRecognised(e, a', b', c');
    PrintedOrder(e, a', b', c', a, b, c);
  }

  /** No upgrade leads from one edition to the other; and where a version holds no number, only the images
      decide. */
  lemma OfferedBeyondNumbers(v: string, w: string, mismatch: bool)
    ensures ReleaseIdentity(v).Known? && ReleaseIdentity(w).Known? && ReleaseIdentity(v).edition != ReleaseIdentity(w).edition ==>
              !UpgradeTargetIsNewer(v, w, mismatch)
    ensures Parts(v) == [] || Parts(w) == [] ==> (UpgradeTargetIsNewer(v, w, mismatch) <==> mismatch)
  {
    hide ReleaseIdentity, Parts;
    if ReleaseIdentity(v).Known? { ReleaseHasParts(v); }
    if ReleaseIdentity(w).Known? { ReleaseHasParts(w); }
  }

  // ---------------------------------------------------------------- what is recognised

  /** A canonical numeral is the one its number is printed as. */
  lemma {:induction false} CanonicalPrints(s: string)
    requires Canonical(s)
    ensures AllDigits(s) && Decimal(Numeral(s)) == s
  {
    if |s| == 1 {
      DigitPrints(s[0]);
      assert s[..0] == [] && s == [s[0]];
      assert Numeral(s) == 10 * Numeral([]) + DigitValue(s[0]);
    } else {
      var init, d := s[..|s| - 1], s[|s| - 1];
      assert init[0] == s[0];
      CanonicalPrints(init);
      CanonicalPositive(init);
      DigitPrints(d);
      assert Numeral(s) == 10 * Numeral(init) + DigitValue(d);
      assert Numeral(s) / 10 == Numeral(init) && Numeral(s) % 10 == DigitValue(d);
      assert s == init + [d];
    }
  }

  lemma DigitPrints(c: char)
    requires IsDigit(c)
    ensures 0 <= DigitValue(c) < 10 && '0' + (DigitValue(c) % 10) as char == c
  {
  }

  lemma {:induction false} CanonicalPositive(s: string)
    requires s != [] && s[0] != '0' && AllDigits(s)
    ensures Numeral(s) > 0
  {
    if |s| > 1 {
      assert s[..|s| - 1][0] == s[0];
      CanonicalPositive(s[..|s| - 1]);
    } else {
      assert s[..0] == [] && Numeral(s) == 10 * Numeral([]) + DigitValue(s[0]);
    }
  }

  /** A version is recognised as a release of the prefixed era exactly when, without white space around it, it is
      the printed form of some triple: no leading zeros, no fourth number, no suffix. */
  lemma PrefixedIff(v: string, e: Edition)
    ensures ReleaseIdentity(v) == Known(e, 1) <==> exists a: nat, b: nat, c: nat :: TrimSpace(v) == Print(e, a, b, c)
  {
    hide TrimSpace, Contains, Print, DottedTriple;
    var t := TrimSpace(v);
    if ReleaseIdentity(v) == Known(e, 1) {
      assert HasPrefix(t, EditionPrefix(e)) && DottedTriple(t[4..]);
      var a, b, c := TripleParts(t[4..]);
      assert t == EditionPrefix(e) + t[4..];
      PrintIs(e, a, b, c);
    }
    if a: nat, b: nat, c: nat :| t == Print(e, a, b, c) {
      PrintedRecognised(e, a, b, c);
      IdentityOfTrimmed(v);
      TrimSpaceKeeps(t);
    }
  }

  lemma PrintIs(e: Edition, a: nat, b: nat, c: nat)
    ensures Print(e, a, b, c) == EditionPrefix(e) + (Decimal(a) + "." + Decimal(b) + "." + Decimal(c))
  {
    hide Decimal;
  }

  lemma IdentityOfTrimmed(v: string)
    ensures ReleaseIdentity(v) == ReleaseIdentity(TrimSpace(v))
  {
    hide TrimSpace, Contains, DottedTriple;
    TrimSpaceKeeps(TrimSpace(v));
  }

  lemma TripleParts(s: string) returns (a: nat, b: nat, c: nat)
    requires DottedTriple(s)
    ensures s == Decimal(a) + "." + Decimal(b) + "." + Decimal(c)
  {
    hide Canonical, Decimal, Numeral;
    var i := IndexByte(s, '.');
    var t := s[i + 1..];
    var j := IndexByte(t, '.');
    CanonicalPrints(s[..i]);
    CanonicalPrints(t[..j]);
    CanonicalPrints(t[j + 1..]);
    a, b, c := Numeral(s[..i]), Numeral(t[..j]), Numeral(t[j + 1..]);
    assert s == s[..i] + "." + t && t == t[..j] + "." + t[j + 1..];
  }

  // ---------------------------------------------------------------- when upgrades can go round in a circle

  /** The upgrade is offered without any image mismatch. */
  predicate Offered(v: string, w: string) {
    UpgradeTargetIsNewer(v, w, false)
  }

  /** The numbers of `v` come before those of `w`. */
  predicate Less(v: string, w: string) {
    CompareFrom(Parts(w), Parts(v), 0) > 0
  }

  /** From a legacy build to the prefixed era of the same edition. */
  predicate Lift(v: string, w: string) {
    ReleaseIdentity(v).Known? && ReleaseIdentity(w).Known? && ReleaseIdentity(v).epoch < ReleaseIdentity(w).epoch
  }

  ghost predicate Walk(ws: seq<string>) {
    ws != [] && forall i :: 0 <= i < |ws| - 1 ==> Offered(ws[i], ws[i + 1])
  }

  /** A way round through some of the versions. */
  ghost predicate Cycle(ws: seq<string>, versions: iset<string>) {
    Walk(ws) && |ws| > 1 && ws[0] == ws[|ws| - 1] && forall w <- ws :: w in versions
  }

  /** An unrecognised version lies between a prefixed release and a legacy build of one edition, whose
      numbers are higher. */
  ghost predicate Between(y: string, u: string, x: string, e: Edition) {
    && ReleaseIdentity(y) == Known(e, 1) && ReleaseIdentity(x) == Known(e, 0)
    && ReleaseIdentity(u).Unknown? && Parts(u) != [] && Less(y, u) && Less(u, x)
  }

  ghost predicate Straddled(versions: iset<string>) {
    exists e, y, u, x :: y in versions && u in versions && x in versions && Between(y, u, x, e)
  }

  /** There are two eras. */
  lemma Eras(v: string)
    requires ReleaseIdentity(v).Known?
    ensures ReleaseIdentity(v).epoch == 0 || ReleaseIdentity(v).epoch == 1
  {
  }

  /** Every offered step but the change of era strictly raises the numbers. */
  lemma StepRises(v: string, w: string)
    requires Offered(v, w) && !Lift(v, w)
    ensures Parts(v) != [] && Parts(w) != [] && Less(v, w)
  {
    hide ReleaseIdentity, Parts, CompareFrom;
  }

  lemma LessTransitive(u: string, v: string, w: string)
    requires Less(u, v) && Less(v, w)
    ensures Less(u, w)
  {
    hide Parts, CompareFrom;
    CompareFromTransitive(Parts(w), Parts(v), Parts(u));
  }

  lemma LessIrreflexive(v: string)
    ensures !Less(v, v)
  {
    hide Parts;
    CompareFromMeans(Parts(v), Parts(v), 0);
  }

  /** Without a change of era a walk only rises. */
  lemma {:induction false} WalkRises(ws: seq<string>, a: nat, b: nat)
    requires Walk(ws) && a < b < |ws| && forall i :: a <= i < b ==> !Lift(ws[i], ws[i + 1])
    ensures Parts(ws[b]) != [] && Less(ws[a], ws[b])
    decreases b
  {
    hide Offered, Lift, Less, Parts;
    StepRises(ws[b - 1], ws[b]);
    if a < b - 1 {
      WalkRises(ws, a, b - 1);
      LessTransitive(ws[a], ws[b - 1], ws[b]);
    }
  }

  /** From the prefixed era back to a legacy build, a walk passes an unrecognised version. */
  lemma {:induction false} PassesUnknown(ws: seq<string>, a: nat, b: nat) returns (k: nat)
    requires Walk(ws) && a < b < |ws| && ReleaseIdentity(ws[a]).Known? && ReleaseIdentity(ws[a]).epoch == 1
    requires ReleaseIdentity(ws[b]).Known? && ReleaseIdentity(ws[b]).epoch == 0
    ensures a < k < b && ReleaseIdentity(ws[k]).Unknown?
    decreases b - a
  {
    hide ReleaseIdentity, Parts, CompareFrom;
    assert Offered(ws[a], ws[a + 1]);
    if ReleaseIdentity(ws[a + 1]).Unknown? {
      k := a + 1;
    } else {
      Eras(ws[a + 1]);
      k := PassesUnknown(ws, a + 1, b);
    }
  }

  /** The first change of era after the one at `p`. */
  lemma {:induction false} NextLift(ws: seq<string>, p: nat, q: nat) returns (r: nat)
    requires p < q < |ws| - 1 && Lift(ws[q], ws[q + 1])
    ensures p < r <= q && Lift(ws[r], ws[r + 1]) && forall i :: p < i < r ==> !Lift(ws[i], ws[i + 1])
    decreases q
  {
    hide Lift;
    if k :| p < k < q && Lift(ws[k], ws[k + 1]) {
      r := NextLift(ws, p, k);
    } else {
      r := q;
    }
  }

  /** Between two changes of era: up from the prefixed release, through an unrecognised version, up to the
      next legacy build. */
  lemma Segment(ws: seq<string>, p: nat, q: nat) returns (k: nat)
    requires Walk(ws) && p < q < |ws| - 1 && Lift(ws[p], ws[p + 1]) && Lift(ws[q], ws[q + 1])
    requires forall i :: p < i < q ==> !Lift(ws[i], ws[i + 1])
    ensures p + 1 < k < q && ReleaseIdentity(ws[k]).Unknown? && Parts(ws[k]) != []
    ensures Less(ws[p + 1], ws[k]) && Less(ws[k], ws[q])
    ensures ReleaseIdentity(ws[p + 1]).Known? && ReleaseIdentity(ws[p + 1]).epoch == 1
    ensures ReleaseIdentity(ws[q]).Known? && ReleaseIdentity(ws[q]).epoch == 0
  {
    hide ReleaseIdentity, Parts, Less, Offered, Walk;
    LiftEras(ws[p], ws[p + 1]);
    LiftEras(ws[q], ws[q + 1]);
    k := PassesUnknown(ws, p + 1, q);
    WalkRises(ws, p + 1, k);
    WalkRises(ws, k, q);
  }

  lemma LiftEras(v: string, w: string)
    requires Lift(v, w)
    ensures ReleaseIdentity(v).Known? && ReleaseIdentity(v).epoch == 0 && ReleaseIdentity(w).Known? && ReleaseIdentity(w).epoch == 1
  {
    hide ReleaseIdentity;
    Eras(v);
    Eras(w);
  }

  /** A change of era stays within the edition. */
  lemma LiftKeepsEdition(v: string, w: string)
    requires Offered(v, w) && Lift(v, w)
    ensures ReleaseIdentity(v).edition == ReleaseIdentity(w).edition
  {
    hide ReleaseIdentity, Compare;
  }

  /** `w` is above everything the level or lower `v` is above. */
  lemma LessLevel(y: string, v: string, w: string)
    requires Less(y, v) && !Less(w, v)
    ensures Less(y, w)
  {
    hide Parts, CompareFrom;
    CompareFromAntisymmetric(Parts(v), Parts(w));
    CompareFromTransitive(Parts(w), Parts(v), Parts(y));
  }

  /** Three changes of era in a walk: two editions are too few to avoid a version that lies between. */
  lemma ThreeLifts(ws: seq<string>, p: nat, q: nat, r: nat, versions: iset<string>)
    requires Walk(ws) && (forall w <- ws :: w in versions) && p < q < r < |ws| - 1
    requires Lift(ws[p], ws[p + 1]) && Lift(ws[q], ws[q + 1]) && Lift(ws[r], ws[r + 1])
    requires (forall i :: p < i < q ==> !Lift(ws[i], ws[i + 1])) && (forall i :: q < i < r ==> !Lift(ws[i], ws[i + 1]))
    ensures Straddled(versions)
  {
    hide ReleaseIdentity, Parts, Less, Offered, Lift;
    var u := Segment(ws, p, q);
    var v := Segment(ws, q, r);
    LiftKeepsEdition(ws[q], ws[q + 1]);
    var e, f, g := ReleaseIdentity(ws[p + 1]).edition, ReleaseIdentity(ws[q]).edition, ReleaseIdentity(ws[r]).edition;
    if e == f {
      assert Between(ws[p + 1], ws[u], ws[q], e);
    } else if f == g {
      assert Between(ws[q + 1], ws[v], ws[r], f);
    } else if Less(ws[v], ws[u]) {
      LessTransitive(ws[v], ws[u], ws[q]);
      assert Between(ws[q + 1], ws[v], ws[q], f);
    } else {
      LessLevel(ws[p + 1], ws[u], ws[v]);
      assert e == g;
      assert Between(ws[p + 1], ws[v], ws[r], e);
    }
  }

  lemma JoinWalks(a: seq<string>, b: seq<string>)
    requires Walk(a) && Walk(b) && a[|a| - 1] == b[0]
    ensures Walk(a[..|a| - 1] + b)
  {
    hide Offered;
    var c := a[..|a| - 1] + b;
    forall i | 0 <= i < |c| - 1 ensures Offered(c[i], c[i + 1]) {
      if i < |a| - 1 {
        assert c[i] == a[i] && c[i + 1] == a[i + 1];
      } else {
        assert c[i] == b[i - (|a| - 1)] && c[i + 1] == b[i + 1 - (|a| - 1)];
      }
    }
  }

  /** A way round changes the era somewhere. */
  lemma CycleLifts(ws: seq<string>, versions: iset<string>) returns (l: nat)
    requires Cycle(ws, versions)
    ensures l < |ws| - 1 && Lift(ws[l], ws[l + 1])
  {
    hide Offered, Lift, Less;
    if k :| 0 <= k < |ws| - 1 && Lift(ws[k], ws[k + 1]) {
      l := k;
    } else {
      WalkRises(ws, 0, |ws| - 1);
      LessIrreflexive(ws[0]);
      assert false;
    }
  }

  /** Going round three times. */
  lemma CycleStraddled(ws: seq<string>, versions: iset<string>)
    requires Cycle(ws, versions)
    ensures Straddled(versions)
  {
    hide Offered, Lift, Straddled;
    var l := CycleLifts(ws, versions);
    var n := |ws| - 1;
    var twice := ws[..n] + ws;
    JoinWalks(ws, ws);
    JoinWalks(ws, twice);
    var thrice := ws[..n] + twice;
    assert thrice[l] == ws[l] && thrice[l + 1] == ws[l + 1];
    assert thrice[l + n] == ws[l] && thrice[l + n + 1] == ws[l + 1];
    assert thrice[l + 2 * n] == ws[l] && thrice[l + 2 * n + 1] == ws[l + 1];
    var q := NextLift(thrice, l, l + n);
    var r := NextLift(thrice, q, l + 2 * n);
    ThreeLifts(thrice, l, q, r, versions);
  }

  /** From the legacy build to the prefixed release, on to the unrecognised version, and back. */
  lemma BetweenCycles(y: string, u: string, x: string, e: Edition)
    requires Between(y, u, x, e)
    ensures Offered(x, y) && Offered(y, u) && Offered(u, x)
  {
    hide ReleaseIdentity, Parts, CompareFrom;
    ReleaseHasParts(x);
    ReleaseHasParts(y);
  }

  /** Upgrades offered without an image mismatch can go round in a circle through given versions if and only
      if one of them is unrecognised and its numbers lie between those of a prefixed release and of a legacy
      build of one edition. */
  lemma CycleIff(versions: iset<string>)
    ensures (exists ws :: Cycle(ws, versions)) <==> Straddled(versions)
  {
    hide Walk, Between, Straddled, Cycle;
    if ws :| Cycle(ws, versions) {
      CycleStraddled(ws, versions);
    }
    if Straddled(versions) {
      var ws := StraddledCycles(versions);
    }
  }

  lemma StraddledCycles(versions: iset<string>) returns (ws: seq<string>)
    requires Straddled(versions)
    ensures Cycle(ws, versions)
  {
    hide Offered, Between;
    var e, y, u, x :| y in versions && u in versions && x in versions && Between(y, u, x, e);
    BetweenCycles(y, u, x, e);
    ws := [x, y, u, x];
  }

  /** Such versions exist: the legacy build 3, the release 1.0.0 of the same edition, and between them one
      that names no edition. */
  lemma UnrecognisedCycle()
    ensures Between(Print(Community, 1, 0, 0), "x2", "3", Community)
    ensures Cycle(["3", Print(Community, 1, 0, 0), "x2", "3"], iset{"3", Print(Community, 1, 0, 0), "x2"})
  {
    hide Print, Parts, CompareFrom, ReleaseIdentity;
    PrintedRecognised(Community, 1, 0, 0);
    PrintedParts(Community, 1, 0, 0);
    SmallIdentities();
    SmallParts();
    CompareAt([2], [1, 0, 0], 0);
    CompareAt([3], [2], 0);
    BetweenCycles(Print(Community, 1, 0, 0), "x2", "3", Community);
  }

  lemma SmallIdentities()
    ensures ReleaseIdentity("3") == Known(Community, 0) && ReleaseIdentity("x2") == Unknown
  {
    hide TrimSpace, DottedTriple;
    TrimSpaceKeeps("3");
    TrimSpaceKeeps("x2");
    assert !Contains("3", ENT);
  }

  lemma SmallParts()
    ensures Parts("3") == [3] && Parts("x2") == [2]
  {
    hide Parts, Numeral;
    DecimalReads(3);
    DecimalReads(2);
    assert Decimal(3) == "3" && Decimal(2) == "2";
    PartsNumber("3", []);
    PartsNumber("2", []);
    PartsSkip("x", "2");
    assert "3" + [] == "3" && "2" + [] == "2" && "x" + "2" == "x2";
    NotDigits();
  }
}
