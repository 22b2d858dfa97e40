/** The deployment's `.env` file: the upgrader's reader and writer, and when writing and reading
    again gives the same map. A text is a sequence of Unicode scalar values. */
module EnvFile {
  import opened Text

  /** `TooLong`: the scanner met a line that does not fit its buffer. */
  datatype Result<T> = Ok(value: T) | TooLong

  type Values = map<string, string>

  // ---------------------------------------------------------------- reading

  /** The longest token bufio.Scanner returns has fewer bytes than this. */
  const SCAN_LIMIT := 65536

  /** The number of UTF-8 bytes. */
  function ByteLen(s: string): (n: nat)
    ensures n >= |s|
  {
    if s == [] then 0
    else
      var c := s[0] as int;
      (if c < 0x80 then 1 else if c < 0x800 then 2 else if c < 0x1_0000 then 3 else 4) + ByteLen(s[1..])
  }

  lemma {:induction false} ByteLenConcat(a: string, b: string)
    ensures ByteLen(a + b) == ByteLen(a) + ByteLen(b)
  {
    if a == [] {
      assert a + b == b;
    } else {
      assert (a + b)[1..] == a[1..] + b;
      ByteLenConcat(a[1..], b);
    }
  }

  lemma ByteLenPart(s: string, k: nat, r: string)
    requires k <= |s| && r <= s[k..]
    ensures ByteLen(r) <= ByteLen(s)
  {
    assert s == s[..k] + s[k..] && s[k..] == r + s[k..][|r|..];
    ByteLenConcat(s[..k], s[k..]);
    ByteLenConcat(r, s[k..][|r|..]);
  }

  /** The lines bufio.ScanLines cuts: a last line needs no newline unless it is empty. */
  function RawLines(text: string): seq<string> {
    Lines(text) + if Rest(text) == "" then [] else [Rest(text)]
  }

  /** bufio.ScanLines drops one carriage return before the newline. */
  function DropCR(line: string): string {
    if line != [] && line[|line| - 1] == '\r' then line[..|line| - 1] else line
  }

  datatype Entry = Skip | Entry(key: string, value: string)

  /** What one line says: nothing if it is blank, a comment or has no `=`. */
  function EntryOf(raw: string): Entry {
    var line := TrimSpace(DropCR(raw));
    if line == "" || HasPrefix(line, "#") then Skip
    else
      var i := IndexByte(line, '=');
      if i < 0 then Skip else Entry(line[..i], line[i + 1..])
  }

  function Entries(lines: seq<string>): (es: seq<Entry>)
    ensures |es| == |lines| && forall i :: 0 <= i < |lines| ==> es[i] == EntryOf(lines[i])
  {
    seq(|lines|, i requires 0 <= i < |lines| => EntryOf(lines[i]))
  }

  /** Binds the entries one after the other. */
  function PutAll(es: seq<Entry>): Values {
    if es == [] then map[]
    else
      var n := |es| - 1;
      if es[n].Skip? then PutAll(es[..n]) else PutAll(es[..n])[es[n].key := es[n].value]
  }

  predicate Fits(lines: seq<string>) {
    forall l <- lines :: ByteLen(l) < SCAN_LIMIT
  }

  function Parse(text: string): Result<Values> {
    if Fits(RawLines(text)) then Ok(PutAll(Entries(RawLines(text)))) else TooLong
  }

  method ReadLine(raw: string) returns (e: Entry)
    ensures e == EntryOf(raw)
  {
    var line := TrimSpace(DropCR(raw));
    if line == "" || HasPrefix(line, "#") {
      return Skip;
    }
    var i := IndexByte(line, '=');
    e := if i < 0 then Skip else Entry(line[..i], line[i + 1..]);
  }

  method ReadEnv(text: string) returns (r: Result<Values>)
    ensures r == Parse(text)
  {
    hide EntryOf, ByteLen, RawLines;
    var values: Values := map[];
    var lines := RawLines(text);
    ghost var es := Entries(lines);
    var i := 0;
    while i < |lines|
      invariant 0 <= i <= |lines|
      invariant forall j :: 0 <= j < i ==> ByteLen(lines[j]) < SCAN_LIMIT
      invariant values == PutAll(es[..i])
    {
      if ByteLen(lines[i]) >= SCAN_LIMIT {
        return TooLong;
      }
      var entry := ReadLine(lines[i]);
      assert es[..i + 1][..i] == es[..i];
      i := i + 1;
      if entry.Entry? {
        values := values[entry.key := entry.value];
      }
    }
    assert es[..|lines|] == es;
    r := Ok(values);
  }

  predicate Binds(e: Entry, k: string) {
    e.Entry? && e.key == k
  }

  /** A line says that a key has a value exactly when, without the white space around it, it is the key, an
      equals sign and the value, the key has no equals sign in it, and the line is no comment. */
  lemma EntryIff(raw: string, k: string, v: string)
    ensures EntryOf(raw) == Entry(k, v) <==>
            TrimSpace(DropCR(raw)) == k + "=" + v && '=' !in k && (k != "" ==> k[0] != '#')
  {
    hide TrimSpace;
    var line := TrimSpace(DropCR(raw));
    if line == k + "=" + v && '=' !in k {
      assert line[|k|] == '=' && line[..|k|] == k && line[|k| + 1..] == v;
      FirstIndexIs(line, '=', |k|);
      assert k != "" ==> line[0] == k[0];
    }
    if EntryOf(raw) == Entry(k, v) {
      var i := IndexByte(line, '=');
      assert line == line[..i] + "=" + line[i + 1..];
      assert k != "" ==> line[0] == k[0];
    }
  }

  /** The carriage return of a line that ends the DOS way is not part of what it says. */
  lemma CarriageReturnIgnored(line: string)
    ensures EntryOf(line + "\r") == EntryOf(line) || (line != [] && line[|line| - 1] == '\r')
  {
    assert DropCR(line + "\r") == line;
  }

  /** The lines of a text are read whether or not the last one ends with a newline. */
  lemma FinalNewlineOptional(lines: seq<string>, last: string)
    requires (forall l <- lines :: '\n' !in l) && '\n' !in last && last != ""
    ensures RawLines(Unlines(lines) + last) == lines + [last]
    ensures RawLines(Unlines(lines + [last])) == lines + [last]
    ensures Parse(Unlines(lines) + last) == Parse(Unlines(lines + [last]))
  {
    hide Unlines, Lines, Rest;
    SplitUnique(lines, last);
    SplitUnique(lines + [last], "");
    assert Unlines(lines + [last]) + "" == Unlines(lines + [last]);
  }

  /** Reading fails exactly when some line has 65536 bytes or more in UTF-8. */
  lemma TooLongIff(text: string)
    ensures Parse(text).TooLong? <==> exists l <- RawLines(text) :: ByteLen(l) >= 65536
    ensures forall c: char :: ByteLen([c]) == if c as int < 0x80 then 1 else if c as int < 0x800 then 2 else if c as int < 0x1_0000 then 3 else 4
  {
    hide RawLines;
  }

  /** A key is bound exactly when some entry binds it, and the last such entry gives its value. */
  lemma {:induction false} LastEntryWins(es: seq<Entry>, k: string)
    ensures k in PutAll(es) <==> exists i :: 0 <= i < |es| && Binds(es[i], k)
    ensures forall i :: 0 <= i < |es| && Binds(es[i], k) && (forall j :: i < j < |es| ==> !Binds(es[j], k)) ==>
              k in PutAll(es) && PutAll(es)[k] == es[i].value
  {
    if es != [] {
      var n := |es| - 1;
      LastEntryWins(es[..n], k);
      assert forall i :: 0 <= i < n ==> es[..n][i] == es[i];
      if Binds(es[n], k) {
        assert es[n].key == k;
      }
    }
  }

  // ---------------------------------------------------------------- writing

  function EntryLine(k: string, v: string): string {
    k + "=" + v
  }

  /** The line a key and value are written as says exactly that key and value when read. */
  predicate Printable(k: string, v: string) {
    var line := EntryLine(k, v);
    '=' !in k && '\n' !in line && line[0] != '#' && Trimmed(line) && ByteLen(line) < SCAN_LIMIT
  }

  ghost predicate AllPrintable(m: Values) {
    forall k :: k in m ==> Printable(k, m[k])
  }

  /** The elements of a set in some order. */
  ghost function AnyOrder(s: set<string>): (r: seq<string>)
    ensures multiset(r) == multiset(s)
  {
    if s == {} then []
    else
      var x :| x in s;
      assert s == (s - {x}) + {x};
      [x] + AnyOrder(s - {x})
  }

  ghost function SortedKeys(m: Values): (r: seq<string>)
    ensures Sorted(r) && multiset(r) == multiset(m.Keys)
  {
    assert Sorted(SortStrings(AnyOrder(m.Keys)));
    var r :| Sorted(r) && multiset(r) == multiset(m.Keys);
    r
  }

  function EntryLines(keys: seq<string>, m: Values): (r: seq<string>)
    requires forall k <- keys :: k in m
    ensures |r| == |keys| && forall i :: 0 <= i < |keys| ==> r[i] == EntryLine(keys[i], m[keys[i]])
  {
    if keys == [] then [] else [EntryLine(keys[0], m[keys[0]])] + EntryLines(keys[1..], m)
  }

  lemma KeysBound(m: Values)
    ensures forall k <- SortedKeys(m) :: k in m
    ensures forall k :: k in m ==> k in SortedKeys(m)
  {
    forall k <- SortedKeys(m) ensures k in m { assert k in multiset(SortedKeys(m)); }
    forall k | k in m ensures k in SortedKeys(m) { assert k in multiset(m.Keys); }
  }

  ghost function PrintedLines(m: Values): seq<string> {
    KeysBound(m);
    EntryLines(SortedKeys(m), m)
  }

  /** The file writeEnv means to write. */
  ghost function Printed(m: Values): string {
    Unlines(PrintedLines(m))
  }

  /** The keys of a map, in an order of the iteration's choosing, sorted: always the same sequence. */
  method CollectKeys(m: Values) returns (keys: seq<string>)
    ensures keys == SortedKeys(m)
  {
    keys := [];
    var left := m.Keys;
    while left != {}
      invariant left <= m.Keys && multiset(keys) == multiset(m.Keys - left)
      decreases left
    {
      var k :| k in left;
      assert m.Keys - (left - {k}) == (m.Keys - left) + {k};
      keys, left := keys + [k], left - {k};
    }
    assert m.Keys - {} == m.Keys;
    keys := SortStrings(keys);
    SortedUnique(keys, SortedKeys(m));
  }

  /** The lines writeEnv emits. */
  method EmitLines(m: Values) returns (lines: seq<string>)
    ensures lines == PrintedLines(m)
  {
    KeysBound(m);
    var keys := CollectKeys(m);
    lines := [];
    for i := 0 to |keys|
      invariant |lines| == i && forall j :: 0 <= j < i ==> lines[j] == EntryLine(keys[j], m[keys[j]])
    {
      if keys[i] in m {
        lines := lines + [EntryLine(keys[i], m[keys[i]])];
      }
    }
  }

  // ---------------------------------------------------------------- reading back

  lemma PrintableReadsBack(k: string, v: string)
    requires Printable(k, v)
    ensures EntryOf(EntryLine(k, v)) == Entry(k, v)
  {
    var line := EntryLine(k, v);
    assert line[|k|] == '=' && line[..|k|] == k && line[|k| + 1..] == v;
    TrimSpaceKeeps(line);
    FirstIndexIs(line, '=', |k|);
  }

  lemma TokenPart(raw: string) returns (k: nat)
    ensures k <= |raw| && TrimSpace(DropCR(raw)) <= raw[k..]
  {
    var d := DropCR(raw);
    k := TrimSpacePart(d);
    assert d[k..] <= raw[k..];
  }

  lemma SplitPrintable(line: string, i: nat)
    requires i < |line| && line[i] == '=' && '=' !in line[..i]
    requires '\n' !in line && line[0] != '#' && Trimmed(line) && ByteLen(line) < SCAN_LIMIT
    ensures Printable(line[..i], line[i + 1..])
  {
    assert line == EntryLine(line[..i], line[i + 1..]);
  }

  lemma ReadIsPrintable(raw: string)
    requires EntryOf(raw).Entry? && '\n' !in raw && ByteLen(raw) < SCAN_LIMIT
    ensures Printable(EntryOf(raw).key, EntryOf(raw).value)
  {
    var k := TokenPart(raw);
    var line := TrimSpace(DropCR(raw));
    ByteLenPart(raw, k, line);
    assert '\n' !in line by {
      forall j | 0 <= j < |line| ensures line[j] != '\n' { assert line[j] == raw[k..][j] == raw[k + j]; }
    }
    SplitPrintable(line, IndexByte(line, '='));
  }

  lemma {:induction false} PutAllPrintable(es: seq<Entry>)
    requires forall e <- es :: e.Entry? ==> Printable(e.key, e.value)
    ensures AllPrintable(PutAll(es))
  {
    if es != [] {
      PutAllPrintable(es[..|es| - 1]);
    }
  }

  /** Every map readEnv accepts can be written and read again. */
  lemma ParsePrintable(text: string)
    requires Parse(text).Ok?
    ensures AllPrintable(Parse(text).value)
  {
    var lines := RawLines(text);
    var es := Entries(lines);
    forall e <- es ensures e.Entry? ==> Printable(e.key, e.value) {
      var i :| 0 <= i < |es| && es[i] == e;
      assert lines[i] in lines;
      if e.Entry? { ReadIsPrintable(lines[i]); }
    }
    PutAllPrintable(es);
  }

  /** Entries that all agree with a map build that map, cut down to their keys. */
  lemma {:induction false} PutAllOf(es: seq<Entry>, m: Values)
    requires forall e <- es :: e.Entry? && e.key in m && e.value == m[e.key]
    ensures PutAll(es) == map k | k in m && (exists e <- es :: e.key == k) :: m[k]
  {
    if es == [] {
    } else {
      var n := |es| - 1;
      PutAllOf(es[..n], m);
      assert es == es[..n] + [es[n]];
    }
  }

  lemma PrintedEntry(m: Values, i: nat)
    requires AllPrintable(m) && i < |PrintedLines(m)|
    ensures |PrintedLines(m)| == |SortedKeys(m)| && SortedKeys(m)[i] in m
    ensures EntryOf(PrintedLines(m)[i]) == Entry(SortedKeys(m)[i], m[SortedKeys(m)[i]])
    ensures '\n' !in PrintedLines(m)[i] && ByteLen(PrintedLines(m)[i]) < SCAN_LIMIT
  {
    hide EntryOf, ByteLen, SortedKeys;
    KeysBound(m);
    assert SortedKeys(m)[i] in SortedKeys(m);
    PrintableReadsBack(SortedKeys(m)[i], m[SortedKeys(m)[i]]);
  }

  lemma PrintedEntries(m: Values)
    requires AllPrintable(m)
    ensures forall l <- PrintedLines(m) :: '\n' !in l && ByteLen(l) < SCAN_LIMIT
    ensures var es := Entries(PrintedLines(m));
            && (forall e <- es :: e.Entry? && e.key in m && e.value == m[e.key])
            && (forall k :: k in m ==> exists e <- es :: e.key == k)
  {
    hide EntryOf, ByteLen, SortedKeys, PrintedLines, AllPrintable;
    var keys, lines := SortedKeys(m), PrintedLines(m);
    var es := Entries(lines);
    PrintedCount(m);
    forall i | 0 <= i < |lines|
      ensures keys[i] in m && es[i] == Entry(keys[i], m[keys[i]]) && '\n' !in lines[i] && ByteLen(lines[i]) < SCAN_LIMIT
    {
      PrintedEntry(m, i);
    }
    forall k | k in m ensures exists e <- es :: e.key == k {
      KeysBound(m);
      var i :| 0 <= i < |keys| && keys[i] == k;
      assert es[i] in es;
    }
  }

  lemma PrintedCount(m: Values)
    ensures |PrintedLines(m)| == |SortedKeys(m)|
  {
  }

  lemma PrintedRawLines(m: Values)
    requires AllPrintable(m)
    ensures RawLines(Printed(m)) == PrintedLines(m)
  {
    PrintedEntries(m);
    SplitUnique(PrintedLines(m), "");
    assert Unlines(PrintedLines(m)) + "" == Unlines(PrintedLines(m));
  }

  lemma PrintedParses(m: Values)
    requires AllPrintable(m)
    ensures Parse(Printed(m)) == Ok(m)
  {
    hide EntryOf, ByteLen, SortedKeys, PrintedLines, PutAll, RawLines;
    PrintedRawLines(m);
    PrintedEntries(m);
    var es := Entries(PrintedLines(m));
    PutAllOf(es, m);
    assert (map k | k in m && (exists e <- es :: e.key == k) :: m[k]) == m;
    assert Fits(PrintedLines(m));
  }

  /** Writing a map and reading it back gives the map exactly when every entry is printable. */
  lemma RoundTripIff(m: Values)
    ensures Parse(Printed(m)) == Ok(m) <==> AllPrintable(m)
  {
    if AllPrintable(m) {
      PrintedParses(m);
    } else if Parse(Printed(m)) == Ok(m) {
      ParsePrintable(Printed(m));
    }
  }

  /** Read, write with sorted keys, read again: the same map, whatever the accepted text was. */
  lemma ReadWriteRead(text: string)
    requires Parse(text).Ok?
    ensures Parse(Printed(Parse(text).value)) == Parse(text)
  {
    ParsePrintable(text);
    PrintedParses(Parse(text).value);
  }
}
