/** Container image references: pinning one to a digest, and splitting one into registry,
    repository and reference. */
module Images {
  import opened Text

  // ---------------------------------------------------------------- the code

  const SHA256 := "sha256:"

  predicate ValidDigest(value: string) {
    && HasPrefix(value, SHA256) && |value| == |SHA256| + 64
    && forall i :: |SHA256| <= i < |value| ==> '0' <= value[i] <= '9' || 'a' <= value[i] <= 'f'
  }

  /** Cuts at the first `@`. */
  function CutDigest(image: string): string {
    var at := IndexByte(image, '@');
    if at >= 0 then image[..at] else image
  }

  /** Cuts at the last `:` if it comes after the last `/`, so that a port is kept. */
  function CutTag(image: string): string {
    var colon := LastIndexByte(image, ':');
    if colon > LastIndexByte(image, '/') then image[..colon] else image
  }

  /** `immutableImageReference`. */
  function Pin(image: string, digest: string): string {
    var i, d := TrimSpace(image), TrimSpace(digest);
    if i == "" || !ValidDigest(d) then i else CutTag(CutDigest(i)) + "@" + d
  }

  datatype Split = Refused | Parts(registry: string, repository: string, reference: string)

  /** What follows the registry: a digest, or else a tag, or else `latest`. */
  function SplitRemainder(remainder: string): (string, string) {
    var at := LastIndexByte(remainder, '@');
    if at >= 0 then (remainder[..at], remainder[at + 1..])
    else
      var colon := LastIndexByte(remainder, ':');
      if colon >= 0 && colon > LastIndexByte(remainder, '/') then (remainder[..colon], remainder[colon + 1..])
      else (remainder, "latest")
  }

  /** `splitContainerImage`. */
  function SplitImage(image: string): Split {
    var i := TrimSpace(image);
    if i == "" || HasPrefix(i, "http://") || HasPrefix(i, "https://") then Refused
    else
      var slash := IndexByte(i, '/');
      if slash <= 0 || slash == |i| - 1 then Refused
      else
        var (repository, reference) := SplitRemainder(i[slash + 1..]);
        if repository == "" || reference == "" then Refused else Parts(i[..slash], repository, reference)
  }

  // ---------------------------------------------------------------- well-formed references

  /** A reference by its parts; an absent tag or digest is empty. */
  datatype Reference = Reference(registry: string, repository: string, tag: string, digest: string)

  function Suffix(sep: string, part: string): string {
    if part == "" then "" else sep + part
  }

  /** The text of a reference. */
  function Render(r: Reference): string {
    r.registry + "/" + r.repository + Suffix(":", r.tag) + Suffix("@", r.digest)
  }

  predicate Lacks(s: string, c: char) {
    c !in s
  }

  /** A registry (a port allowed), a repository path, and optionally a tag and a digest. */
  predicate WellFormed(r: Reference) {
    && r.registry != "" && Lacks(r.registry, '/') && Lacks(r.registry, '@') && Trimmed(r.registry)
    && r.repository != "" && Lacks(r.repository, '@') && Lacks(r.repository, ':') && Trimmed(r.repository) && r.repository[0] != '/'
    && Lacks(r.tag, '/') && Lacks(r.tag, '@') && Lacks(r.tag, ':') && Trimmed(r.tag)
    && Lacks(r.digest, '@') && Lacks(r.digest, '/') && Trimmed(r.digest)
  }

  /** The reference without tag and digest. */
  function Name(r: Reference): string {
    r.registry + "/" + r.repository
  }

  lemma DigestShape(d: string)
    requires ValidDigest(d)
    ensures d != "" && Trimmed(d) && Lacks(d, '@') && Lacks(d, '/')
  {
    assert d[..7] == SHA256 == "sha256:";
    forall i | 0 <= i < |d| ensures d[i] != '@' && d[i] != '/' && !IsSpace(d[i]) {
      if i < 7 { assert d[i] == d[..7][i] == "sha256:"[i]; }
    }
  }

  lemma CutDigestOf(base: string, digest: string)
    requires Lacks(base, '@')
    ensures CutDigest(base + Suffix("@", digest)) == base
  {
    hide IndexByte;
    var s := base + Suffix("@", digest);
    if digest == "" {
      assert s == base;
    } else {
      assert s[|base|] == '@' && s[..|base|] == base;
      FirstIndexIs(s, '@', |base|);
    }
  }

  /** A tag has no slash, so the colon before it is the last one and follows the last slash. */
  lemma TagColon(name: string, tag: string)
    requires tag != "" && Lacks(tag, '/') && Lacks(tag, ':')
    ensures var s := name + ":" + tag;
            LastIndexByte(s, ':') == |name| && LastIndexByte(s, '/') < |name| && s[..|name|] == name && s[|name| + 1..] == tag
  {
    hide LastIndexByte;
    var s := name + ":" + tag;
    assert s[|name|] == ':' && s[..|name|] == name && s[|name| + 1..] == tag;
    LastIndexIs(s, ':', |name|);
  }

  /** A name whose last colon, if any, is a port is left alone. */
  lemma CutTagKeepsPort(prefix: string, last: string)
    requires Lacks(last, ':')
    ensures CutTag(prefix + "/" + last) == prefix + "/" + last
  {
    hide LastIndexByte;
    var s := prefix + "/" + last;
    assert s[|prefix|] == '/';
  }

  lemma CutTagCuts(name: string, tag: string)
    requires tag != "" && Lacks(tag, '/') && Lacks(tag, ':')
    ensures CutTag(name + ":" + tag) == name
  {
    hide LastIndexByte;
    TagColon(name, tag);
  }

  lemma CutTagOf(r: Reference)
    requires WellFormed(r)
    ensures CutTag(Name(r) + Suffix(":", r.tag)) == Name(r)
  {
    hide CutTag, Trimmed;
    if r.tag == "" {
      assert Name(r) + "" == Name(r);
      CutTagKeepsPort(r.registry, r.repository);
    } else {
      CutTagCuts(Name(r), r.tag);
      assert Name(r) + (":" + r.tag) == Name(r) + ":" + r.tag;
    }
  }

  lemma RenderTrimmed(r: Reference)
    requires WellFormed(r)
    ensures Trimmed(Render(r)) && Render(r) != "" && TrimSpace(Render(r)) == Render(r)
  {
    hide TrimSpace, IsSpace;
    var s := Render(r);
    assert s[0] == r.registry[0];
    if r.digest != "" {
      assert s[|s| - 1] == r.digest[|r.digest| - 1];
    } else if r.tag != "" {
      assert s == r.registry + "/" + r.repository + (":" + r.tag);
      assert s[|s| - 1] == r.tag[|r.tag| - 1];
    } else {
      assert s == r.registry + "/" + r.repository;
      assert s[|s| - 1] == r.repository[|r.repository| - 1];
    }
    TrimSpaceKeeps(s);
  }

  /** Pinning replaces tag and digest by the new digest and touches nothing else. */
  lemma PinRenders(r: Reference, d: string)
    requires WellFormed(r) && ValidDigest(d)
    ensures Pin(Render(r), d) == Render(Reference(r.registry, r.repository, "", d))
    ensures WellFormed(Reference(r.registry, r.repository, "", d))
  {
    hide TrimSpace, ValidDigest, CutTag, CutDigest, IsSpace;
    RenderTrimmed(r);
    DigestShape(d);
    TrimSpaceKeeps(d);
    var tagged := Name(r) + Suffix(":", r.tag);
    assert Render(r) == tagged + Suffix("@", r.digest);
    assert Lacks(tagged, '@');
    CutDigestOf(tagged, r.digest);
    CutTagOf(r);
    var p := Reference(r.registry, r.repository, "", d);
    assert Render(p) == Name(r) + "" + ("@" + d);
    assert Name(r) + "" == Name(r) && Name(r) + ("@" + d) == Name(r) + "@" + d;
  }

  // ---------------------------------------------------------------- splitting

  lemma AtCut(name: string, digest: string)
    requires Lacks(digest, '@')
    ensures var s := name + "@" + digest; LastIndexByte(s, '@') == |name| && s[..|name|] == name && s[|name| + 1..] == digest
  {
    var s := name + "@" + digest;
    assert s[|name|] == '@' && s[..|name|] == name && s[|name| + 1..] == digest;
    LastIndexIs(s, '@', |name|);
  }

  /** What the remainder after the registry says. With both a tag and a digest the tag stays in the
      repository; otherwise each part is itself, and a reference with neither means `latest`. */
  function Remainder(r: Reference): (string, string) {
    if r.digest != "" then (r.repository + Suffix(":", r.tag), r.digest)
    else if r.tag != "" then (r.repository, r.tag)
    else (r.repository, "latest")
  }

  lemma DigestSplits(base: string, digest: string)
    requires Lacks(digest, '@')
    ensures SplitRemainder(base + "@" + digest) == (base, digest)
  {
    hide LastIndexByte;
    AtCut(base, digest);
  }

  lemma TagSplits(repository: string, tag: string)
    requires Lacks(repository, '@') && tag != "" && Lacks(tag, '@') && Lacks(tag, '/') && Lacks(tag, ':')
    ensures SplitRemainder(repository + ":" + tag) == (repository, tag)
  {
    hide LastIndexByte;
    TagColon(repository, tag);
    assert Lacks(repository + ":" + tag, '@');
  }

  lemma PlainSplits(repository: string)
    requires Lacks(repository, '@') && Lacks(repository, ':')
    ensures SplitRemainder(repository) == (repository, "latest")
  {
    hide LastIndexByte;
  }

  lemma RemainderSplits(r: Reference)
    requires WellFormed(r)
    ensures SplitRemainder(r.repository + Suffix(":", r.tag) + Suffix("@", r.digest)) == Remainder(r)
  {
    hide SplitRemainder, Trimmed;
    var base := r.repository + Suffix(":", r.tag);
    if r.digest != "" {
      DigestSplits(base, r.digest);
      assert base + Suffix("@", r.digest) == base + "@" + r.digest;
    } else if r.tag != "" {
      TagSplits(r.repository, r.tag);
      assert base + "" == r.repository + ":" + r.tag;
    } else {
      PlainSplits(r.repository);
      assert base + "" == r.repository;
    }
  }

  /** The first slash of a URL is followed by another. */
  lemma UrlSlashes(s: string)
    ensures HasPrefix(s, "http://") ==> IndexByte(s, '/') == 5 && s[6] == '/'
    ensures HasPrefix(s, "https://") ==> IndexByte(s, '/') == 6 && s[7] == '/'
  {
    hide IndexByte;
    if HasPrefix(s, "http://") {
      assert s[..7] == "http://" && s[..5] == "http:";
      FirstIndexIs(s, '/', 5);
    }
    if HasPrefix(s, "https://") {
      assert s[..8] == "https://" && s[..6] == "https:";
      FirstIndexIs(s, '/', 6);
    }
  }

  lemma NotUrl(r: Reference)
    requires WellFormed(r)
    ensures !HasPrefix(Render(r), "http://") && !HasPrefix(Render(r), "https://")
    ensures IndexByte(Render(r), '/') == |r.registry|
  {
    hide IndexByte, Trimmed;
    var s := Render(r);
    var n := |r.registry|;
    assert s[n] == '/' && s[..n] == r.registry;
    FirstIndexIs(s, '/', n);
    assert s[n + 1] == r.repository[0];
    UrlSlashes(s);
  }

  lemma SplitAtSlash(s: string, registry: string, rest: string)
    requires TrimSpace(s) == s && !HasPrefix(s, "http://") && !HasPrefix(s, "https://")
    requires s == registry + "/" + rest && IndexByte(s, '/') == |registry| && registry != "" && rest != ""
    requires SplitRemainder(rest).0 != "" && SplitRemainder(rest).1 != ""
    ensures SplitImage(s) == Parts(registry, SplitRemainder(rest).0, SplitRemainder(rest).1)
  {
    hide TrimSpace, IndexByte, SplitRemainder, HasPrefix;
    assert s[..|registry|] == registry && s[|registry| + 1..] == rest;
  }

  lemma SplitRenders(r: Reference)
    requires WellFormed(r)
    ensures SplitImage(Render(r)) == Parts(r.registry, Remainder(r).0, Remainder(r).1)
  {
    hide TrimSpace, IndexByte, SplitRemainder, WellFormed, SplitImage, HasPrefix, Remainder, Render, Suffix;
    RenderTrimmed(r);
    NotUrl(r);
    Nonempty(r);
    RemainderSplits(r);
    var rest := r.repository + Suffix(":", r.tag) + Suffix("@", r.digest);
    RenderIs(r);
    SplitAtSlash(Render(r), r.registry, rest);
  }

  lemma RenderIs(r: Reference)
    ensures Render(r) == r.registry + "/" + (r.repository + Suffix(":", r.tag) + Suffix("@", r.digest))
  {
    hide Suffix;
  }

  lemma Nonempty(r: Reference)
    requires WellFormed(r)
    ensures r.registry != "" && r.repository != "" && Remainder(r).0 != "" && Remainder(r).1 != ""
  {
  }

  // ---------------------------------------------------------------- the promises

  /** Pin, then split: the original registry, port included, the original repository, and the digest. */
  lemma PinThenSplit(r: Reference, d: string)
    requires WellFormed(r) && ValidDigest(d)
    ensures SplitImage(Pin(Render(r), d)) == Parts(r.registry, r.repository, d)
  {
    hide SplitImage, Pin, Render, WellFormed, ValidDigest;
    PinRenders(r, d);
    DigestShape(d);
    SplitRenders(Reference(r.registry, r.repository, "", d));
    assert r.repository + "" == r.repository;
  }

  /** Only the last pin counts. */
  lemma RepinForgets(r: Reference, d: string, d': string)
    requires WellFormed(r) && ValidDigest(d) && ValidDigest(d')
    ensures Pin(Pin(Render(r), d), d') == Pin(Render(r), d')
  {
    hide Pin, Render, WellFormed, ValidDigest;
    PinRenders(r, d);
    PinRenders(r, d');
    PinRenders(Reference(r.registry, r.repository, "", d), d');
  }

  /** An invalid digest pins nothing. */
  lemma InvalidDigestPinsNothing(image: string, d: string)
    requires !ValidDigest(TrimSpace(d))
    ensures Pin(image, d) == TrimSpace(image)
  {
  }

  // ---------------------------------------------------------------- any text

  /** A digest is `sha256:` and sixty-four lower-case hexadecimal digits. */
  lemma ValidDigestIff(value: string)
    ensures ValidDigest(value) <==>
            exists hex: string :: |hex| == 64 && value == "sha256:" + hex && forall i :: 0 <= i < 64 ==> hex[i] in "0123456789abcdef"
  {
    if ValidDigest(value) {
      var hex := value[7..];
      assert value == "sha256:" + hex;
      forall i | 0 <= i < 64 ensures hex[i] in "0123456789abcdef" {
        assert hex[i] == value[7 + i];
        HexDigit(hex[i]);
      }
    }
    if hex: string :| |hex| == 64 && value == "sha256:" + hex && forall i :: 0 <= i < 64 ==> hex[i] in "0123456789abcdef" {
      forall i | 7 <= i < |value| ensures '0' <= value[i] <= '9' || 'a' <= value[i] <= 'f' {
        HexDigit(hex[i - 7]);
      }
    }
  }

  lemma HexDigit(c: char)
    ensures c in "0123456789abcdef" <==> '0' <= c <= '9' || 'a' <= c <= 'f'
  {
    var hex := "0123456789abcdef";
    if '0' <= c <= '9' { assert hex[c as int - '0' as int] == c; }
    if 'a' <= c <= 'f' { assert hex[10 + (c as int - 'a' as int)] == c; }
  }

  /** A slash follows every colon: none of them begins a tag. */
  ghost predicate NoTag(s: string) {
    forall k :: 0 <= k < |s| && s[k] == ':' ==> '/' in s[k + 1..]
  }

  /** How what follows the registry is read: up to the last `@` and the digest after it; without one, up to the
      colon of the tag; and as a whole, meaning `latest`, without either. */
  ghost predicate Reads(remainder: string, repository: string, reference: string) {
    || (remainder == repository + "@" + reference && '@' !in reference)
    || ('@' !in remainder && remainder == repository + ":" + reference && ':' !in reference && '/' !in reference)
    || ('@' !in remainder && NoTag(remainder) && remainder == repository && reference == "latest")
  }

  lemma RemainderIff(remainder: string, repository: string, reference: string)
    ensures SplitRemainder(remainder) == (repository, reference) <==> Reads(remainder, repository, reference)
  {
    var at, colon := LastIndexByte(remainder, '@'), LastIndexByte(remainder, ':');
    if at >= 0 {
      assert remainder == remainder[..at] + "@" + remainder[at + 1..];
      if remainder == repository + "@" + reference && '@' !in reference { AtCut(repository, reference); }
    } else {
      TagIff(remainder, repository, reference);
    }
  }

  lemma TagIff(remainder: string, repository: string, reference: string)
    requires '@' !in remainder
    ensures SplitRemainder(remainder) == (repository, reference) <==> Reads(remainder, repository, reference)
  {
    hide NoTag;
    NoAt(repository, reference);
    NoTagIff(remainder);
    if LastIndexByte(remainder, ':') > LastIndexByte(remainder, '/') {
      TaggedIff(remainder, repository, reference);
    } else if remainder == repository + ":" + reference && ':' !in reference && '/' !in reference {
      TagSplit(repository, reference);
    }
  }

  lemma NoAt(repository: string, reference: string)
    ensures '@' in repository + "@" + reference
  {
    assert (repository + "@" + reference)[|repository|] == '@';
  }

  lemma TaggedIff(s: string, repository: string, reference: string)
    requires LastIndexByte(s, ':') > LastIndexByte(s, '/')
    ensures var colon := LastIndexByte(s, ':');
            (s[..colon], s[colon + 1..]) == (repository, reference) <==> s == repository + ":" + reference && ':' !in reference && '/' !in reference
  {
    var colon := LastIndexByte(s, ':');
    assert s == s[..colon] + ":" + s[colon + 1..];
    AfterLast(s, colon, LastIndexByte(s, '/'));
    if s == repository + ":" + reference && ':' !in reference && '/' !in reference {
      TagSplit(repository, reference);
    }
  }

  lemma LastIsLast(s: string, c: char, k: nat)
    requires k < |s| && s[k] == c
    ensures k <= LastIndexByte(s, c)
  {
  }

  lemma AfterLast(s: string, colon: nat, slash: int)
    requires slash < colon < |s| && slash == LastIndexByte(s, '/') && colon == LastIndexByte(s, ':')
    ensures '/' !in s[colon + 1..] && ':' !in s[colon + 1..]
  {
    if slash >= 0 { assert s[colon + 1..] == s[slash + 1..][colon - slash..]; }
  }

  lemma NoTagIff(s: string)
    ensures NoTag(s) <==> LastIndexByte(s, ':') <= LastIndexByte(s, '/')
  {
    var colon, slash := LastIndexByte(s, ':'), LastIndexByte(s, '/');
    if colon > slash {
      AfterLast(s, colon, slash);
    } else {
      forall k | 0 <= k < |s| && s[k] == ':' ensures '/' in s[k + 1..] {
        LastIsLast(s, ':', k);
        assert k != slash && s[k + 1..][slash - k - 1] == '/';
      }
    }
  }

  lemma TagSplit(repository: string, reference: string)
    requires ':' !in reference && '/' !in reference
    ensures var s := repository + ":" + reference;
            LastIndexByte(s, ':') == |repository| && LastIndexByte(s, '/') < |repository| && s[..|repository|] == repository && s[|repository| + 1..] == reference
  {
    var s := repository + ":" + reference;
    assert s[|repository|] == ':' && s[|repository| + 1..] == reference;
    LastIndexIs(s, ':', |repository|);
  }

  /** Splitting succeeds with a registry, a repository and a reference exactly when the trimmed image is that
      registry, up to the first slash, and a remainder that reads as the other two, none of them empty, and is
      no URL. */
  lemma SplitIff(image: string, registry: string, repository: string, reference: string)
    ensures SplitImage(image) == Parts(registry, repository, reference) <==>
            && registry != "" && repository != "" && reference != "" && '/' !in registry
            && !HasPrefix(TrimSpace(image), "http://") && !HasPrefix(TrimSpace(image), "https://")
            && exists rest :: rest != "" && TrimSpace(image) == registry + "/" + rest && Reads(rest, repository, reference)
  {
    hide TrimSpace, SplitRemainder, Reads;
    var i := TrimSpace(image);
    var slash := IndexByte(i, '/');
    if SplitImage(image) == Parts(registry, repository, reference) {
      var rest := i[slash + 1..];
      RemainderIff(rest, repository, reference);
      assert i == registry + "/" + rest;
    }
    if rest: string :| rest != "" && i == registry + "/" + rest && Reads(rest, repository, reference) {
      RemainderIff(rest, repository, reference);
      if '/' !in registry {
        assert i[|registry|] == '/' && i[..|registry|] == registry && i[|registry| + 1..] == rest;
        FirstIndexIs(i, '/', |registry|);
      }
    }
  }
}
