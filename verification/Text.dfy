/** The string helpers of Go's standard library that the modelled code calls, each with the
    contract the callers rely on, and the order used by `sort.Strings`. */
module Text {

  // ---------------------------------------------------------------- searching

  /** `strings.IndexByte`: the first position of `c`, or -1. */
  function IndexByte(s: string, c: char): (i: int)
    ensures -1 <= i < |s|
    ensures i >= 0 ==> s[i] == c && c !in s[..i]
    ensures i < 0 ==> c !in s
  {
    if s == [] then -1
    else if s[0] == c then 0
    else
      var r := IndexByte(s[1..], c);
      assert s == [s[0]] + s[1..];
      if r < 0 then -1 else assert s[..r + 1] == [s[0]] + s[1..][..r]; r + 1
  }

  /** `strings.LastIndexByte`: the last position of `c`, or -1. */
  function LastIndexByte(s: string, c: char): (i: int)
    ensures -1 <= i < |s|
    ensures i >= 0 ==> s[i] == c && c !in s[i + 1..]
    ensures i < 0 ==> c !in s
  {
    if s == [] then -1
    else if s[|s| - 1] == c then |s| - 1
    else
      var n := |s| - 1;
      var r := LastIndexByte(s[..n], c);
      assert s == s[..n] + [s[n]];
      if r < 0 then -1 else assert s[r + 1..] == s[..n][r + 1..] + [s[n]]; r
  }

  /** `strings.HasPrefix`. */
  predicate HasPrefix(s: string, p: string) {
    p <= s
  }

  /** `strings.Contains`. */
  predicate Contains(s: string, needle: string) {
    exists i :: 0 <= i <= |s| && needle <= s[i..]
  }

  /** The first position of a character is the only one with nothing of it before. */
  lemma FirstIndexIs(s: string, c: char, i: nat)
    requires i < |s| && s[i] == c && c !in s[..i]
    ensures IndexByte(s, c) == i
  {
  }

  /** The last position of a character is the only one with nothing of it after. */
  lemma LastIndexIs(s: string, c: char, i: nat)
    requires i < |s| && s[i] == c && c !in s[i + 1..]
    ensures LastIndexByte(s, c) == i
  {
  }

  // ---------------------------------------------------------------- white space

  /** `unicode.IsSpace`. */
  predicate IsSpace(c: char) {
    || '\t' <= c <= '\r' || c == ' ' || c == '\U{0085}' || c == '\U{00A0}' || c == '\U{1680}'
    || '\U{2000}' <= c <= '\U{200a}' || c == '\U{2028}' || c == '\U{2029}' || c == '\U{202f}'
    || c == '\U{205f}' || c == '\U{3000}'
  }

  /** Neither end is white space: what `strings.TrimSpace` leaves alone. */
  predicate Trimmed(s: string) {
    s == [] || (!IsSpace(s[0]) && !IsSpace(s[|s| - 1]))
  }

  function TrimLeft(s: string): (r: string)
    ensures r == [] || !IsSpace(r[0])
  {
    if s != [] && IsSpace(s[0]) then TrimLeft(s[1..]) else s
  }

  function TrimRight(s: string): (r: string)
    ensures r <= s
    ensures r == [] || !IsSpace(r[|r| - 1])
  {
    if s == [] then s
    else if IsSpace(s[|s| - 1]) then TrimRight(s[..|s| - 1])
    else s
  }

  /** `strings.TrimSpace`. */
  function TrimSpace(s: string): (r: string)
    ensures Trimmed(r)
  {
    TrimRight(TrimLeft(s))
  }

  lemma {:induction false} TrimLeftPart(s: string) returns (k: nat)
    ensures k <= |s| && TrimLeft(s) == s[k..]
  {
    if s != [] && IsSpace(s[0]) {
      k := TrimLeftPart(s[1..]);
      k := k + 1;
    } else {
      k := 0;
    }
  }

  /** What is left is a stretch of the original. */
  lemma TrimSpacePart(s: string) returns (k: nat)
    ensures k <= |s| && TrimSpace(s) <= s[k..]
  {
    k := TrimLeftPart(s);
  }

  predicate AllSpace(s: string) {
    forall i :: 0 <= i < |s| ==> IsSpace(s[i])
  }

  lemma {:induction false} TrimLeftOf(a: string, s: string)
    requires AllSpace(a) && (s == [] || !IsSpace(s[0]))
    ensures TrimLeft(a + s) == s
  {
    if a == [] {
      assert a + s == s;
    } else {
      assert (a + s)[1..] == a[1..] + s;
      TrimLeftOf(a[1..], s);
    }
  }

  lemma {:induction false} TrimRightOf(s: string, b: string)
    requires AllSpace(b) && (s == [] || !IsSpace(s[|s| - 1]))
    ensures TrimRight(s + b) == s
  {
    if b == [] {
      assert s + b == s;
    } else {
      assert (s + b)[..|s + b| - 1] == s + b[..|b| - 1];
      TrimRightOf(s, b[..|b| - 1]);
    }
  }

  /** Trimming takes away exactly the white space around: the one stretch with none at its ends and nothing but
      white space before and after it. */
  lemma TrimSpaceOf(a: string, s: string, b: string)
    requires AllSpace(a) && AllSpace(b) && Trimmed(s)
    ensures TrimSpace(a + s + b) == s
  {
    if s == [] {
      assert AllSpace(a + b) && a + s + b == (a + b) + [];
      TrimLeftOf(a + b, []);
    } else {
      assert a + s + b == a + (s + b);
      TrimLeftOf(a, s + b);
      TrimRightOf(s, b);
    }
  }

  lemma TrimSpaceKeeps(s: string)
    requires Trimmed(s)
    ensures TrimSpace(s) == s
  {
  }

  // ---------------------------------------------------------------- lines

  /** The complete lines of a text. */
  function Lines(text: string): (ls: seq<string>)
    ensures forall l <- ls :: '\n' !in l
    decreases |text|
  {
    var i := IndexByte(text, '\n');
    if i < 0 then [] else [text[..i]] + Lines(text[i + 1..])
  }

  /** What follows the last newline. */
  function Rest(text: string): (r: string)
    ensures '\n' !in r
    decreases |text|
  {
    var i := IndexByte(text, '\n');
    if i < 0 then text else Rest(text[i + 1..])
  }

  /** Every line with its newline put back. */
  function Unlines(ls: seq<string>): string {
    if ls == [] then "" else ls[0] + "\n" + Unlines(ls[1..])
  }

  lemma NoNewline(text: string)
    requires '\n' !in text
    ensures Lines(text) == [] && Rest(text) == text
  {
  }

  /** A text with a newline, taken apart at the first one. */
  lemma CutFirst(line: string, tail: string)
    requires '\n' !in line
    ensures Lines(line + "\n" + tail) == [line] + Lines(tail)
    ensures Rest(line + "\n" + tail) == Rest(tail)
  {
    var text := line + "\n" + tail;
    assert text[..|line|] == line && text[|line| + 1..] == tail;
    FirstIndexIs(text, '\n', |line|);
  }

  lemma FirstCut(text: string) returns (line: string, tail: string)
    requires '\n' in text
    ensures '\n' !in line && text == line + "\n" + tail
  {
    var i := IndexByte(text, '\n');
    line, tail := text[..i], text[i + 1..];
    assert text == text[..i] + [text[i]] + text[i + 1..];
  }

  lemma {:induction false} SplitLosesNothing(text: string)
    ensures Unlines(Lines(text)) + Rest(text) == text
    decreases |text|
  {
    hide Lines, Rest, IndexByte;
    if '\n' in text {
      var line, tail := FirstCut(text);
      CutFirst(line, tail);
      SplitLosesNothing(tail);
      assert ([line] + Lines(tail))[1..] == Lines(tail);
      assert Unlines([line] + Lines(tail)) == line + "\n" + Unlines(Lines(tail));
      assert line + "\n" + Unlines(Lines(tail)) + Rest(tail) == line + "\n" + (Unlines(Lines(tail)) + Rest(tail));
    } else {
      NoNewline(text);
      assert Unlines([]) + text == text;
    }
  }

  /** The split is the only one: newline-free lines and a newline-free rest that spell the text. */
  lemma {:induction false} SplitUnique(ls: seq<string>, rest: string)
    requires '\n' !in rest && forall l <- ls :: '\n' !in l
    ensures Lines(Unlines(ls) + rest) == ls && Rest(Unlines(ls) + rest) == rest
  {
    hide Lines, Rest, IndexByte;
    if ls == [] {
      NoNewline(rest);
      assert Unlines(ls) + rest == rest;
    } else {
      var tail := Unlines(ls[1..]) + rest;
      assert Unlines(ls) + rest == ls[0] + "\n" + tail;
      CutFirst(ls[0], tail);
      SplitUnique(ls[1..], rest);
    }
  }

  /** A text cut in two: the second part is split with the first part's fragment in front of it. */
  lemma {:induction false} SplitAppend(a: string, b: string)
    ensures Lines(a + b) == Lines(a) + Lines(Rest(a) + b)
    ensures Rest(a + b) == Rest(Rest(a) + b)
    decreases |a|
  {
    hide Lines, Rest, IndexByte;
    if '\n' in a {
      var line, tail := FirstCut(a);
      CutFirst(line, tail);
      assert a + b == line + "\n" + (tail + b);
      CutFirst(line, tail + b);
      SplitAppend(tail, b);
    } else {
      NoNewline(a);
    }
  }

  // ---------------------------------------------------------------- the order of sort.Strings

  /** Lexicographic order on the characters of a string. */
  predicate AtMost(a: string, b: string) {
    a == [] || (b != [] && (a[0] < b[0] || (a[0] == b[0] && AtMost(a[1..], b[1..]))))
  }

  /** The order is that of a dictionary: at the first difference the smaller character comes first, and a string
      comes before those it begins. */
  lemma {:induction false} AtMostIff(a: string, b: string)
    ensures AtMost(a, b) <==> a <= b || exists d :: 0 <= d < |a| && d < |b| && a[..d] == b[..d] && a[d] < b[d]
  {
    if a != [] && b != [] {
      AtMostIff(a[1..], b[1..]);
      if a[0] == b[0] {
        if d :| 0 <= d < |a[1..]| && d < |b[1..]| && a[1..][..d] == b[1..][..d] && a[1..][d] < b[1..][d] {
          assert a[..d + 1] == [a[0]] + a[1..][..d] && b[..d + 1] == [b[0]] + b[1..][..d];
          assert a[d + 1] < b[d + 1];
        }
        if d :| 0 <= d < |a| && d < |b| && a[..d] == b[..d] && a[d] < b[d] {
          assert a[1..][..d - 1] == a[..d][1..] && b[1..][..d - 1] == b[..d][1..];
          assert a[1..][d - 1] < b[1..][d - 1];
        }
        assert a <= b <==> a[1..] <= b[1..] by { PrefixTail(a, b); }
      } else {
        if a[0] < b[0] { assert a[..0] == b[..0]; }
      }
    }
  }

  lemma PrefixTail(a: string, b: string)
    requires a != [] && b != [] && a[0] == b[0]
    ensures a <= b <==> a[1..] <= b[1..]
  {
    if a[1..] <= b[1..] {
      assert a == [a[0]] + a[1..] && b[..|a|] == [b[0]] + b[1..][..|a| - 1];
    }
    if a <= b {
      assert a[1..] == b[..|a|][1..];
    }
  }

  lemma {:induction false} AtMostTotal(a: string, b: string)
    ensures AtMost(a, b) || AtMost(b, a)
  {
    if a != [] && b != [] && a[0] == b[0] {
      AtMostTotal(a[1..], b[1..]);
    }
  }

  lemma {:induction false} AtMostAntisymmetric(a: string, b: string)
    requires AtMost(a, b) && AtMost(b, a)
    ensures a == b
  {
    if a != [] && b != [] {
      AtMostAntisymmetric(a[1..], b[1..]);
      assert a == [a[0]] + a[1..] && b == [b[0]] + b[1..];
    }
  }

  lemma {:induction false} AtMostTransitive(a: string, b: string, c: string)
    requires AtMost(a, b) && AtMost(b, c)
    ensures AtMost(a, c)
  {
    if a != [] && a[0] == b[0] && b[0] == c[0] {
      AtMostTransitive(a[1..], b[1..], c[1..]);
    }
  }

  predicate Sorted(s: seq<string>) {
    forall i, j :: 0 <= i < j < |s| ==> AtMost(s[i], s[j])
  }

  lemma ConsSorted(x: string, r: seq<string>)
    requires Sorted(r) && (r == [] || AtMost(x, r[0]))
    ensures Sorted([x] + r)
  {
    hide AtMost;
    forall j | 0 <= j < |r| ensures AtMost(x, r[j]) { if j > 0 { AtMostTransitive(x, r[0], r[j]); } }
  }

  /** Puts `x` into a sorted sequence. */
  function Insert(x: string, s: seq<string>): (r: seq<string>)
    requires Sorted(s)
    ensures Sorted(r)
    ensures multiset(r) == multiset(s) + multiset{x}
    ensures r != [] && (r[0] == x || (s != [] && r[0] == s[0]))
  {
    if s == [] then [x]
    else if AtMost(x, s[0]) then
      ConsSorted(x, s);
      [x] + s
    else
      AtMostTotal(x, s[0]);
      var r := Insert(x, s[1..]);
      assert s == [s[0]] + s[1..];
      ConsSorted(s[0], r);
      [s[0]] + r
  }

  /** `sort.Strings`: sorted, and nothing added or lost. */
  function SortStrings(s: seq<string>): (r: seq<string>)
    ensures Sorted(r)
    ensures multiset(r) == multiset(s)
    ensures |r| == |s|
  {
    if s == [] then []
    else
      assert s == [s[0]] + s[1..];
      var r := Insert(s[0], SortStrings(s[1..]));
      assert |multiset(r)| == |r| && |multiset(s)| == |s|;
      r
  }

  lemma LeastFirst(a: seq<string>, x: string)
    requires Sorted(a) && x in multiset(a)
    ensures AtMost(a[0], x)
  {
    var i :| 0 <= i < |a| && a[i] == x;
    if i == 0 { AtMostTotal(x, x); }
  }

  lemma Tail(a: seq<string>)
    requires Sorted(a) && a != []
    ensures Sorted(a[1..]) && multiset(a[1..]) == multiset(a) - multiset{a[0]} && a == [a[0]] + a[1..]
  {
    hide AtMost;
    assert a == [a[0]] + a[1..];
  }

  /** A sorted sequence is determined by its elements, so sorting forgets the order it was given. */
  lemma {:induction false} SortedUnique(a: seq<string>, b: seq<string>)
    requires Sorted(a) && Sorted(b) && multiset(a) == multiset(b)
    ensures a == b
  {
    hide AtMost, Sorted;
    assert |a| == |multiset(a)| == |multiset(b)| == |b|;
    if a != [] {
      assert a[0] in multiset(a) && b[0] in multiset(b);
      LeastFirst(a, b[0]);
      LeastFirst(b, a[0]);
      AtMostAntisymmetric(a[0], b[0]);
      Tail(a);
      Tail(b);
      SortedUnique(a[1..], b[1..]);
    }
  }
}
