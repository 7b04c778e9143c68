/**
 Package names and versions from Nix store paths: `<hash>-<name>-<version>[-<output>]`, where names and
 versions may contain dashes themselves.
 */
module NixPackages {
  import opened Wrappers
  import opened Sequences

  datatype Package = Package(name: string, version: string)

  predicate IsDigit(c: char) {
    '0' <= c <= '9'
  }

  /** [a-z0-9] */
  predicate IsHashChar(c: char) {
    'a' <= c <= 'z' || IsDigit(c)
  }

  /** [a-zA-Z0-9.+_~-] */
  predicate IsVersionChar(c: char) {
    'a' <= c <= 'z' || 'A' <= c <= 'Z' || IsDigit(c) || c == '.' || c == '+' || c == '_' || c == '~' || c == '-'
  }

  predicate AllVersionChars(s: string) {
    forall i :: 0 <= i < |s| ==> IsVersionChar(s[i])
  }

  /** unicode.IsSpace. */
  predicate IsSpace(c: char) {
    var n := c as int;
    9 <= n <= 13 || n == 32 || n == 0x85 || n == 0xA0 || n == 0x1680 || 0x2000 <= n <= 0x200A
    || n == 0x2028 || n == 0x2029 || n == 0x202F || n == 0x205F || n == 0x3000
  }

  function TrimSpace(s: string): string {
    if s == [] then s
    else if IsSpace(s[0]) then TrimSpace(s[1..])
    else if IsSpace(s[|s| - 1]) then TrimSpace(s[..|s| - 1])
    else s
  }

  /** The ASCII codes of hashes and versions, and the white space of Unicode. */
  lemma Alphabets(c: char)
    ensures IsHashChar(c) <==> 48 <= c as int <= 57 || 97 <= c as int <= 122
    ensures IsVersionChar(c)
            <==> IsHashChar(c) || 65 <= c as int <= 90 || c as int == 43 || c as int == 45 || c as int == 46
                 || c as int == 95 || c as int == 126
    ensures IsSpace(c)
            <==> || c in {'\t', '\n', '\U{B}', '\U{C}', '\r', ' ', '\U{85}', '\U{A0}', '\U{1680}', '\U{2000}'}
                 || c in {'\U{2001}', '\U{2002}', '\U{2003}', '\U{2004}', '\U{2005}', '\U{2006}', '\U{2007}'}
                 || c in {'\U{2008}', '\U{2009}', '\U{200A}', '\U{2028}', '\U{2029}', '\U{202F}', '\U{205F}'}
                 || c == '\U{3000}'
  {
  }

  lemma {:induction false} TrimRight(s: string, right: string)
    requires s != "" && !IsSpace(s[0]) && !IsSpace(s[|s| - 1]) && forall i :: 0 <= i < |right| ==> IsSpace(right[i])
    ensures TrimSpace(s + right) == s
  {
    if right == "" {
      assert s + right == s;
    } else {
      TrimRight(s, right[..|right| - 1]);
      assert (s + right)[..|s + right| - 1] == s + right[..|right| - 1];
    }
  }

  /** White space around a text that has none at its ends does not matter. */
  lemma {:induction false} TrimIs(left: string, s: string, right: string)
    requires s != "" && !IsSpace(s[0]) && !IsSpace(s[|s| - 1])
    requires forall i :: 0 <= i < |left| ==> IsSpace(left[i])
    requires forall i :: 0 <= i < |right| ==> IsSpace(right[i])
    ensures TrimSpace(left + s + right) == s
  {
    if left == "" {
      assert left + s + right == s + right;
      TrimRight(s, right);
    } else {
      TrimIs(left[1..], s, right);
      assert (left + s + right)[1..] == left[1..] + s + right;
    }
  }

  /** What follows the last '/'. */
  function Basename(s: string): (b: string)
    ensures |b| <= |s| && b == s[|s| - |b|..] && '/' !in b
    ensures |b| < |s| ==> s[|s| - |b| - 1] == '/'
  {
    if s == [] then []
    else if s[|s| - 1] == '/' then []
    else Basename(s[..|s| - 1]) + [s[|s| - 1]]
  }

  const HASH_LENGTH := 32

  /** ^[a-z0-9]{32}-(.+)$ : what follows the hash. */
  function AfterHash(base: string): Option<string> {
    if |base| > HASH_LENGTH + 1
       && (forall i :: 0 <= i < HASH_LENGTH ==> IsHashChar(base[i]))
       && base[HASH_LENGTH] == '-'
       && '\n' !in base[HASH_LENGTH + 1..]
    then Some(base[HASH_LENGTH + 1..])
    else None
  }

  /** ^(.+?)-([0-9][...]*)$ can split at dash `i`. */
  predicate SplitsAt(s: string, i: nat) {
    0 < i && i + 1 < |s| && s[i] == '-' && IsDigit(s[i + 1]) && AllVersionChars(s[i + 1..])
  }

  /** The lazy name takes the first possible split. */
  function FirstSplit(s: string, from: nat): (r: Option<nat>)
    ensures r.Some? ==> from <= r.value && SplitsAt(s, r.value) && forall k :: from <= k < r.value ==> !SplitsAt(s, k)
    ensures r.None? ==> forall k :: from <= k ==> !SplitsAt(s, k)
    decreases |s| - from
  {
    if from >= |s| then None
    else if SplitsAt(s, from) then Some(from)
    else FirstSplit(s, from + 1)
  }

  const OUTPUTS: set<string> := {"bin", "man", "dev", "devdoc", "doc", "info", "lib", "out", "static", "debug"}

  /** What follows the last dash, and where it is. */
  function LastDash(s: string): (r: Option<nat>)
    ensures r.Some? ==> r.value < |s| && s[r.value] == '-' && '-' !in s[r.value + 1..]
    ensures r.None? ==> '-' !in s
  {
    if s == [] then None
    else if s[|s| - 1] == '-' then Some(|s| - 1)
    else LastDash(s[..|s| - 1])
  }

  /** The trailing output name removed, once. */
  function StripOutput(v: string): string {
    var d := LastDash(v);
    if d.Some? && v[d.value + 1..] in OUTPUTS then v[..d.value] else v
  }

  /** Name and version of what follows the hash. */
  function SplitPackage(s: string): Package {
    var i := FirstSplit(s, 0);
    if i.Some? then Package(s[..i.value], StripOutput(s[i.value + 1..])) else Package(s, "")
  }

  function ParseLine(line: string): Option<Package> {
    var rest := AfterHash(Basename(TrimSpace(line)));
    if rest.Some? then Some(SplitPackage(rest.value)) else None
  }

  /** The packages of the lines that hold one, in order. */
  function ParseLines(lines: seq<string>): seq<Package> {
    Somes(ParseLine, lines)
  }

  /** The packages are those of the lines that hold one, each once and in order. */
  lemma PackagesArePicked(lines: seq<string>) returns (picks: seq<nat>)
    ensures IsPick(picks, |lines|) && |picks| == |ParseLines(lines)|
    ensures forall n :: 0 <= n < |lines| ==> (n in picks <==> ParseLine(lines[n]).Some?)
    ensures forall k :: 0 <= k < |picks| ==> ParseLine(lines[picks[k]]) == Some(ParseLines(lines)[k])
  {
    picks := SomesArePicked(ParseLine, lines);
  }

  /** A line is a store path exactly when the name after its last '/' is a hash of 32 lower-case letters and
      digits, a dash, and something more without a line break. */
  lemma StorePathIff(dir: string, base: string)
    requires dir != "" && dir[0] == '/' && dir[|dir| - 1] == '/'
    requires base != "" && '/' !in base && !IsSpace(base[|base| - 1])
    ensures ParseLine(dir + base).Some?
            <==> && |base| > 33 && base[32] == '-' && '\n' !in base[33..]
                 && forall i :: 0 <= i < 32 ==> 'a' <= base[i] <= 'z' || '0' <= base[i] <= '9'
  {
    var line := dir + base;
    assert line[0] == '/' && line[|line| - 1] == base[|base| - 1];
    TrimmedAlready(line);
    BasenameOf(dir, base);
  }

  // ---- The dedup key ----

  function Key(p: Package): string {
    p.name + "\0" + p.version
  }

  /** Versions hold no NUL, so the key names one package. */
  lemma KeyIsInjective(p: Package, q: Package)
    requires Key(p) == Key(q) && '\0' !in p.version && '\0' !in q.version
    ensures p == q
  {
    NameIsNotLonger(p, q);
    NameIsNotLonger(q, p);
    var n := |p.name|;
    assert p.name == Key(p)[..n] && q.name == Key(q)[..n];
    assert p.version == Key(p)[n + 1..] && q.version == Key(q)[n + 1..];
  }

  lemma NameIsNotLonger(p: Package, q: Package)
    requires Key(p) == Key(q) && '\0' !in q.version
    ensures |p.name| <= |q.name|
  {
    var n, m := |p.name|, |q.name|;
    assert Key(q)[n] == '\0';
    assert forall k :: m < k < |Key(q)| ==> Key(q)[k] == q.version[k - m - 1];
  }

  lemma VersionHasNoNul(s: string)
    ensures '\0' !in SplitPackage(s).version
  {
    var i := FirstSplit(s, 0);
    if i.Some? {
      assert AllVersionChars(s[i.value + 1..]);
    }
  }

  lemma ParsedVersionsHaveNoNul(lines: seq<string>, p: Package)
    requires p in ParseLines(lines)
    ensures '\0' !in p.version
  {
    if lines != [] {
      var last := lines[|lines| - 1];
      var rest := AfterHash(Basename(TrimSpace(last)));
      if rest.Some? {
        VersionHasNoNul(rest.value);
      }
      if p in ParseLines(lines[..|lines| - 1]) {
        ParsedVersionsHaveNoNul(lines[..|lines| - 1], p);
      }
    }
  }

  function Keys(ps: seq<Package>): set<string> {
    set p | p in ps :: Key(p)
  }

  lemma NextLine(lines: seq<string>, i: nat)
    requires i < |lines|
    ensures ParseLines(lines[..i + 1])
            == match ParseLine(lines[i])
               case Some(p) => ParseLines(lines[..i]) + [p]
               case None => ParseLines(lines[..i])
  {
    assert lines[..i + 1][..i] == lines[..i];
  }

  /** Seeing the key again means seeing the package again. */
  lemma SeenIffKnown(lines: seq<string>, p: Package)
    requires '\0' !in p.version
    ensures Key(p) in Keys(Distinct(ParseLines(lines))) <==> p in Distinct(ParseLines(lines))
  {
    var known := Distinct(ParseLines(lines));
    if q :| q in known && Key(q) == Key(p) {
      ParsedVersionsHaveNoNul(lines, q);
      KeyIsInjective(p, q);
    }
  }

  lemma BlankLineIsNoPath(line: string)
    requires TrimSpace(line) == ""
    ensures ParseLine(line) == None
  {
    assert Basename("") == "";
  }

  /** What the list becomes with the package of line `i`. */
  lemma NextEntry(lines: seq<string>, i: nat, p: Package)
    requires i < |lines| && ParseLine(lines[i]) == Some(p)
    ensures var sw := Distinct(ParseLines(lines[..i]));
            && Distinct(ParseLines(lines[..i + 1])) == (if Key(p) in Keys(sw) then sw else sw + [p])
            && Keys(sw + [p]) == Keys(sw) + {Key(p)}
  {
    NextLine(lines, i);
    VersionHasNoNul(AfterHash(Basename(TrimSpace(lines[i]))).value);
    DistinctAppendOne(ParseLines(lines[..i]), p);
    SeenIffKnown(lines[..i], p);
    KeysAppendOne(Distinct(ParseLines(lines[..i])), p);
  }

  lemma KeysAppendOne(ps: seq<Package>, p: Package)
    ensures Keys(ps + [p]) == Keys(ps) + {Key(p)}
  {
    assert (ps + [p])[|ps|] == p;
    forall k | k in Keys(ps) + {Key(p)}
      ensures k in Keys(ps + [p])
    {
      if k != Key(p) {
        var q :| q in ps && Key(q) == k;
        assert q in ps + [p];
      }
    }
  }

  /** The line loop: skips what is no store path and what was seen before. */
  method ParseNixStorePackages(lines: seq<string>) returns (sw: seq<Package>)
    ensures sw == Distinct(ParseLines(lines))
  {
    sw := [];
    var seen: set<string> := {};
    for i := 0 to |lines|
      invariant sw == Distinct(ParseLines(lines[..i]))
      invariant seen == Keys(sw)
    {
      var line := TrimSpace(lines[i]);
      if line == "" {
        BlankLineIsNoPath(lines[i]);
        NextLine(lines, i);
        continue;
      }
      var rest := AfterHash(Basename(line));
      if rest.None? {
        NextLine(lines, i);
        continue;
      }
      var p := SplitPackage(rest.value);
      NextEntry(lines, i, p);
      if Key(p) in seen {
        continue;
      }
      seen := seen + {Key(p)};
      sw := sw + [p];
    }
    assert lines[..|lines|] == lines;
  }

  // ---- Round trips ----

  predicate ValidHash(h: string) {
    |h| == HASH_LENGTH && forall i :: 0 <= i < |h| ==> IsHashChar(h[i])
  }

  predicate ValidName(n: string) {
    n != "" && '/' !in n && '\n' !in n
  }

  predicate ValidVersion(v: string) {
    v != "" && IsDigit(v[0]) && AllVersionChars(v)
  }

  function Print(hash: string, name: string, version: string): string {
    STORE + (hash + "-" + (name + "-" + version))
  }

  function PrintOutput(hash: string, name: string, version: string, output: string): string {
    Print(hash, name, version + "-" + output)
  }

  /** No dash inside the name starts something that reads as a version up to its end. */
  predicate NoEarlierSplit(name: string) {
    forall i :: 0 < i < |name| - 1 && name[i] == '-' && IsDigit(name[i + 1]) ==> !AllVersionChars(name[i + 1..])
  }

  lemma TrimmedAlready(s: string)
    requires s != "" && !IsSpace(s[0]) && !IsSpace(s[|s| - 1])
    ensures TrimSpace(s) == s
  {
  }

  lemma {:induction false} BasenameOf(prefix: string, base: string)
    requires prefix != "" && prefix[|prefix| - 1] == '/' && '/' !in base
    ensures Basename(prefix + base) == base
  {
    if base == [] {
      assert prefix + base == prefix;
    } else {
      var init := base[..|base| - 1];
      BasenameOf(prefix, init);
      assert (prefix + base)[..|prefix + base| - 1] == prefix + init;
    }
  }

  lemma AfterHashOf(hash: string, rest: string)
    requires ValidHash(hash) && rest != "" && '\n' !in rest
    ensures AfterHash(hash + "-" + rest) == Some(rest)
  {
    var base := hash + "-" + rest;
    assert forall i :: 0 <= i < HASH_LENGTH ==> base[i] == hash[i];
    assert base[HASH_LENGTH] == '-' && base[HASH_LENGTH + 1..] == rest;
  }

  const STORE := "/nix/store/"

  /** A path ends in its base, so there is nothing to trim. */
  lemma PathIsTrimmed(base: string)
    requires base != "" && !IsSpace(base[|base| - 1])
    ensures TrimSpace(STORE + base) == STORE + base
  {
    var line := STORE + base;
    assert line[0] == '/' && line[|line| - 1] == base[|base| - 1];
    TrimmedAlready(line);
  }

  /** A hashed name has no '/' and ends as the name does. */
  lemma HashedIsPlain(hash: string, rest: string)
    requires ValidHash(hash) && rest != "" && '/' !in rest
    ensures '/' !in hash + "-" + rest && (hash + "-" + rest)[|hash + "-" + rest| - 1] == rest[|rest| - 1]
  {
    assert '/' !in hash;
    var base := hash + "-" + rest;
    assert base[|base| - 1] == rest[|rest| - 1];
  }

  lemma BasenameOfPath(hash: string, rest: string)
    requires ValidHash(hash) && rest != "" && '/' !in rest && !IsSpace(rest[|rest| - 1])
    ensures Basename(TrimSpace(STORE + (hash + "-" + rest))) == hash + "-" + rest
  {
    var base := hash + "-" + rest;
    HashedIsPlain(hash, rest);
    PathIsTrimmed(base);
    BasenameOf(STORE, base);
  }

  /** A printed path leads to its name-version part. */
  lemma PrintedRest(hash: string, name: string, version: string)
    requires ValidHash(hash) && ValidName(name) && ValidVersion(version)
    ensures ParseLine(Print(hash, name, version)) == Some(SplitPackage(name + "-" + version))
  {
    var rest := name + "-" + version;
    assert IsVersionChar(version[|version| - 1]);
    assert rest[|rest| - 1] == version[|version| - 1];
    VersionIsPlain(version);
    BasenameOfPath(hash, rest);
    AfterHashOf(hash, rest);
  }

  lemma VersionIsPlain(version: string)
    requires AllVersionChars(version)
    ensures '/' !in version && '\n' !in version
  {
  }

  lemma AllVersionCharsConcat(a: string, b: string)
    ensures AllVersionChars(a + b) <==> AllVersionChars(a) && AllVersionChars(b)
  {
    if AllVersionChars(a + b) {
      assert forall i :: 0 <= i < |a| ==> (a + b)[i] == a[i];
      assert forall i :: 0 <= i < |b| ==> (a + b)[|a| + i] == b[i];
    }
  }

  /** A dash inside the name splits exactly when the name alone allows it. */
  lemma SplitInsideName(name: string, version: string, i: nat)
    requires ValidVersion(version) && i < |name|
    ensures SplitsAt(name + "-" + version, i) <==>
            0 < i < |name| - 1 && name[i] == '-' && IsDigit(name[i + 1]) && AllVersionChars(name[i + 1..])
  {
    var s := name + "-" + version;
    assert s[i] == name[i];
    if i < |name| - 1 {
      assert s[i + 1] == name[i + 1];
      assert s[i + 1..] == name[i + 1..] + ("-" + version);
      AllVersionCharsConcat("-", version);
      AllVersionCharsConcat(name[i + 1..], "-" + version);
    } else {
      assert s[i + 1] == '-';
    }
  }

  /** The name comes back exactly when no earlier split exists, and then so does the version less its output. */
  lemma SplitIff(name: string, version: string)
    requires ValidName(name) && ValidVersion(version)
    ensures SplitPackage(name + "-" + version).name == name <==> NoEarlierSplit(name)
    ensures NoEarlierSplit(name) ==> SplitPackage(name + "-" + version).version == StripOutput(version)
  {
    var s := name + "-" + version;
    assert s[|name|] == '-' && s[|name| + 1..] == version && s[|name| + 1] == version[0];
    assert SplitsAt(s, |name|);
    assert s[..|name|] == name;
    var r := FirstSplit(s, 0).value;
    forall i: nat | i < |name|
      ensures SplitsAt(s, i) <==>
              0 < i < |name| - 1 && name[i] == '-' && IsDigit(name[i + 1]) && AllVersionChars(name[i + 1..])
    {
      SplitInsideName(name, version, i);
    }
    if r < |name| {
      assert SplitsAt(s, r);
      assert |s[..r]| < |name|;
    } else {
      assert r == |name|;
    }
  }

  /** A last character that is no dash does not matter. */
  lemma LastDashBefore(s: string, c: char)
    requires c != '-'
    ensures LastDash(s + [c]) == LastDash(s)
  {
    assert (s + [c])[..|s|] == s;
  }

  lemma {:induction false} LastDashOf(v: string, output: string)
    requires '-' !in output
    ensures LastDash(v + "-" + output) == Some(|v|)
  {
    if output == [] {
      assert v + "-" + output == v + "-";
    } else {
      var init, c := output[..|output| - 1], output[|output| - 1];
      LastDashOf(v, init);
      LastDashBefore(v + "-" + init, c);
      LastApart(v + "-", output);
    }
  }

  lemma LastApart(s: string, t: string)
    requires t != []
    ensures s + t == (s + t[..|t| - 1]) + [t[|t| - 1]]
  {
  }

  lemma OutputsAreWords(output: string)
    requires output in OUTPUTS
    ensures '-' !in output && AllVersionChars(output) && output != ""
  {
  }

  lemma StripPrintedOutput(v: string, output: string)
    requires output in OUTPUTS
    ensures StripOutput(v + "-" + output) == v
  {
    OutputsAreWords(output);
    LastDashOf(v, output);
    var s := v + "-" + output;
    assert s[|v| + 1..] == output && s[..|v|] == v;
  }

  /** A version that reads as another one with an output name behind it. */
  ghost predicate EndsInOutput(v: string) {
    exists output :: output in OUTPUTS && EndsIn(v, "-" + output)
  }

  predicate EndsIn(s: string, tail: string) {
    |s| >= |tail| && s[|s| - |tail|..] == tail
  }

  lemma OutputIsStripped(v: string, output: string)
    requires output in OUTPUTS && EndsIn(v, "-" + output)
    ensures StripOutput(v) != v
  {
    var init := v[..|v| - |output| - 1];
    assert v == init + ("-" + output) == init + "-" + output;
    StripPrintedOutput(init, output);
  }

  lemma TailAfterDash(v: string, d: nat)
    requires d < |v| && v[d] == '-'
    ensures EndsIn(v, "-" + v[d + 1..])
  {
  }

  /** An output name is removed exactly from the versions that end in one. */
  lemma StripOutputIff(v: string)
    ensures StripOutput(v) != v <==> EndsInOutput(v)
  {
    if EndsInOutput(v) {
      var output :| output in OUTPUTS && EndsIn(v, "-" + output);
      OutputIsStripped(v, output);
    } else if StripOutput(v) != v {
      TailAfterDash(v, LastDash(v).value);
    }
  }

  /** Printing and parsing a store path gives the package back exactly when the name allows no earlier
      split and the version does not itself end in an output name. */
  lemma RoundTripIff(hash: string, name: string, version: string)
    requires ValidHash(hash) && ValidName(name) && ValidVersion(version)
    ensures ParseLine(Print(hash, name, version)) == Some(Package(name, version))
            <==> NoEarlierSplit(name) && !EndsInOutput(version)
  {
    PrintedRest(hash, name, version);
    SplitIff(name, version);
    StripOutputIff(version);
  }

  lemma VersionlessSplit(name: string)
    requires ValidName(name)
    ensures SplitPackage(name) == Package(name, "") <==> NoEarlierSplit(name)
  {
    var r := FirstSplit(name, 0);
    if r.Some? {
      assert |name[..r.value]| < |name|;
    } else {
      forall i | 0 < i < |name| - 1 && name[i] == '-' && IsDigit(name[i + 1])
        ensures !AllVersionChars(name[i + 1..])
      {
        assert !SplitsAt(name, i);
      }
    }
  }

  /** A store path without a version gives its name back, and the empty version, under the same condition. */
  lemma VersionlessRoundTripIff(hash: string, name: string)
    requires ValidHash(hash) && ValidName(name) && !IsSpace(name[|name| - 1])
    ensures ParseLine(STORE + (hash + "-" + name)) == Some(Package(name, "")) <==> NoEarlierSplit(name)
  {
    BasenameOfPath(hash, name);
    AfterHashOf(hash, name);
    VersionlessSplit(name);
  }

  /** The output names are these ten. */
  lemma OutputNames(v: string, output: string)
    requires '-' !in output
    ensures StripOutput(v + "-" + output) == v
            <==> || output == "bin" || output == "man" || output == "dev" || output == "devdoc" || output == "doc"
                 || output == "info" || output == "lib" || output == "out" || output == "static" || output == "debug"
  {
    LastDashOf(v, output);
    var s := v + "-" + output;
    assert s[|v| + 1..] == output && s[..|v|] == v && |s| > |v|;
  }

  /** With an output name the version may be anything valid. */
  lemma RoundTripWithOutputIff(hash: string, name: string, version: string, output: string)
    requires ValidHash(hash) && ValidName(name) && ValidVersion(version) && output in OUTPUTS
    ensures ParseLine(PrintOutput(hash, name, version, output)) == Some(Package(name, version)) <==>
            NoEarlierSplit(name)
  {
    OutputsAreWords(output);
    AllVersionCharsConcat(version, "-");
    AllVersionCharsConcat(version + "-", output);
    var full := version + "-" + output;
    assert full[0] == version[0];
    PrintedRest(hash, name, full);
    SplitIff(name, full);
    StripPrintedOutput(version, output);
  }

  /** A name without a dash directly before a digit is always safe. */
  lemma PlainNamesAreSafe(name: string)
    requires forall i :: 0 <= i < |name| - 1 && name[i] == '-' ==> !IsDigit(name[i + 1])
    ensures NoEarlierSplit(name)
  {
  }

  const SOME_HASH := "0123456789abcdfghijklmnpqrsvwxyz"

  /** What a printed path brings back has the printed name exactly when no earlier split exists. */
  lemma NameComesBackIff(hash: string, name: string, version: string)
    requires ValidHash(hash) && ValidName(name) && ValidVersion(version)
    ensures var p := ParseLine(Print(hash, name, version));
            p.Some? && (p.value.name == name <==> NoEarlierSplit(name))
  {
    PrintedRest(hash, name, version);
    SplitIff(name, version);
  }

  lemma Gtk3SplitsEarly()
    ensures ValidName("gtk-3") && !NoEarlierSplit("gtk-3") && ValidVersion("1.2")
  {
    assert "gtk-3"[3] == '-' && "gtk-3"[4..] == "3";
  }

  lemma SomeHashIsValid()
    ensures ValidHash(SOME_HASH)
  {
  }

  /** A name that itself reads as a name and a version is cut short: this path of gtk-3 in version 1.2
      comes back as some other package. */
  lemma AmbiguousNameExample()
    ensures var p := ParseLine(Print(SOME_HASH, "gtk-3", "1.2"));
            p.Some? && p.value.name != "gtk-3"
  {
    SomeHashIsValid();
    Gtk3SplitsEarly();
    NameComesBackIff(SOME_HASH, "gtk-3", "1.2");
  }

  /** A version may end in an output name by itself: this path of curl in version 1.0-bin comes back as some
      other package. */
  lemma OutputLikeVersionExample()
    ensures ParseLine(Print(SOME_HASH, "curl", "1.0-bin")) != Some(Package("curl", "1.0-bin"))
  {
    SomeHashIsValid();
    TailAfterDash("1.0-bin", 3);
    assert "1.0-bin"[4..] == "bin";
    RoundTripIff(SOME_HASH, "curl", "1.0-bin");
  }

  /** A store path of the package: its main output, or any named one, under any hash. */
  ghost predicate IsPathOf(line: string, name: string, version: string) {
    (exists hash :: ValidHash(hash) && line == Print(hash, name, version) && !EndsInOutput(version))
    || (exists hash, output :: ValidHash(hash) && output in OUTPUTS && line == PrintOutput(hash, name, version, output))
  }

  lemma {:induction false} SamePackageCollapses(lines: seq<string>, p: Package)
    requires lines != [] && forall line :: line in lines ==> ParseLine(line) == Some(p)
    ensures Distinct(ParseLines(lines)) == [p]
    decreases |lines|
  {
    var init := lines[..|lines| - 1];
    DistinctAppendOne(ParseLines(init), p);
    assert lines[|lines| - 1] in lines;
    if init != [] {
      SamePackageCollapses(init, p);
    }
  }

  /** The paths of one package's outputs, in any number and order, collapse to one entry. */
  lemma OutputsCollapse(lines: seq<string>, name: string, version: string)
    requires ValidName(name) && ValidVersion(version) && NoEarlierSplit(name)
    requires lines != [] && forall line :: line in lines ==> IsPathOf(line, name, version)
    ensures Distinct(ParseLines(lines)) == [Package(name, version)]
  {
    forall line | line in lines
      ensures ParseLine(line) == Some(Package(name, version))
    {
      if hash :| ValidHash(hash) && line == Print(hash, name, version) && !EndsInOutput(version) {
        RoundTripIff(hash, name, version);
      } else {
        var hash, output :| ValidHash(hash) && output in OUTPUTS && line == PrintOutput(hash, name, version, output);
        RoundTripWithOutputIff(hash, name, version, output);
      }
    }
    SamePackageCollapses(lines, Package(name, version));
  }
}
