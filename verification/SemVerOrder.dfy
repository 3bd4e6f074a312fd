/** Which of two releases is newer. */
module SemVerOrder {
  import opened Prelude
  import opened Decimal
  import opened Text
  import opened SemVer

  datatype Version = Version(core: seq<nat>, pre: Option<seq<string>>)

  // ----- precedence, section 11 of Semantic Versioning 2.0.0 -----

  /** Numbers compare as numbers and below everything else; everything else compares as ASCII text. */
  predicate IdentifierBelow(x: string, y: string) {
    if IsNumeric(x) then (IsNumeric(y) ==> Value(x) < Value(y)) else !IsNumeric(y) && Less(x, y)
  }

  /** The first difference decides; otherwise more fields take precedence. */
  predicate ListBelow(a: seq<string>, b: seq<string>) {
    if a == [] then b != []
    else if b == [] then false
    else if a[0] == b[0] then ListBelow(a[1..], b[1..])
    else IdentifierBelow(a[0], b[0])
  }

  /** A prerelease precedes its release. */
  predicate PreBelow(a: Option<seq<string>>, b: Option<seq<string>>) {
    a.Some? && (b.Some? ==> ListBelow(a.value, b.value))
  }

  predicate CoreBelow(a: seq<nat>, b: seq<nat>)
    requires |a| == |b|
  {
    a != [] && (a[0] < b[0] || (a[0] == b[0] && CoreBelow(a[1..], b[1..])))
  }

  predicate Below(v: Version, w: Version)
    requires |v.core| == |w.core|
  {
    CoreBelow(v.core, w.core) || (v.core == w.core && PreBelow(v.pre, w.pre))
  }

  lemma TwoIsBelowEleven()
    ensures Value("2") == 2 && Value("11") == 11
  {
    assert "2"[..0] == [] && "11"[..1] == "1" && "1"[..0] == [];
  }

  lemma IdentifierOrderExamples()
    ensures IdentifierBelow("1", "beta") && IdentifierBelow("alpha", "beta") && IdentifierBelow("beta", "rc")
    ensures IdentifierBelow("2", "11") && !IdentifierBelow("beta", "11")
  {
    TwoIsBelowEleven();
    assert "1"[0] == '1' && "2"[0] == '2' && "11"[0] == '1' && "11"[1] == '1';
    assert "alpha"[0] == 'a' && "beta"[0] == 'b' && "rc"[0] == 'r';
  }

  /** A version 1.0.0 with this prerelease. */
  function Pre(ids: seq<string>): Version {
    Version([1, 0, 0], Some(ids))
  }

  lemma ListExamples()
    ensures ListBelow(["alpha"], ["alpha", "1"]) && ListBelow(["alpha", "1"], ["alpha", "beta"])
    ensures ListBelow(["alpha", "beta"], ["beta"]) && ListBelow(["beta"], ["beta", "2"])
    ensures ListBelow(["beta", "2"], ["beta", "11"]) && ListBelow(["beta", "11"], ["rc", "1"])
  {
    IdentifierOrderExamples();
    assert ["alpha", "1"][1..] == ["1"] && ["alpha"][1..] == [] && ["alpha", "beta"][1..] == ["beta"];
    assert ["beta", "2"][1..] == ["2"] && ["beta"][1..] == [] && ["beta", "11"][1..] == ["11"];
    assert "alpha"[0] == 'a' && "beta"[0] == 'b' && "rc"[0] == 'r' && "1"[0] == '1' && "2"[0] == '2' && "11"[0] == '1';
  }

  /** The examples of section 11: 1.0.0-alpha up to 1.0.0, and 1.0.0 < 2.0.0 < 2.1.0 < 2.1.1. */
  lemma SectionElevenExamples()
    ensures Below(Pre(["alpha"]), Pre(["alpha", "1"])) && Below(Pre(["alpha", "1"]), Pre(["alpha", "beta"]))
    ensures Below(Pre(["alpha", "beta"]), Pre(["beta"])) && Below(Pre(["beta"]), Pre(["beta", "2"]))
    ensures Below(Pre(["beta", "2"]), Pre(["beta", "11"])) && Below(Pre(["beta", "11"]), Pre(["rc", "1"]))
    ensures Below(Pre(["rc", "1"]), Version([1, 0, 0], None)) && Below(Version([1, 0, 0], None), Version([2, 0, 0], None))
    ensures Below(Version([2, 0, 0], None), Version([2, 1, 0], None))
    ensures Below(Version([2, 1, 0], None), Version([2, 1, 1], None))
  {
    ListExamples();
    assert [2, 0, 0][1..] == [0, 0] && [2, 1, 0][1..] == [1, 0] && [2, 1, 1][1..] == [1, 1];
    assert [1, 0][1..] == [0] && [1, 1][1..] == [1];
  }

  // ----- reading a version -----

  /** Takes a normalized version apart again. */
  function ParseNormal(normalized: string): Option<Version> {
    var withoutBuild := Before(normalized, '+');
    var core := Split(Before(withoutBuild, '-'), '.');
    if |core| == 3 && forall s | s in core :: AllDigits(s) then
      Some(Version([Value(core[0]), Value(core[1]), Value(core[2])], Behind(withoutBuild, '-')))
    else None
  }

  function Parse(value: string): Option<Version> {
    var normalized := NormalizeReleaseVersion(value);
    if normalized.None? then None else ParseNormal(normalized.value)
  }

  function VersionOf(tag: Tag): Version
    requires WellFormed(tag)
  {
    Version([Value(tag.major), Value(tag.minor), Value(tag.patch)], tag.pre)
  }

  lemma RenderedParses(tag: Tag)
    requires WellFormed(tag)
    ensures ParseNormal(Render(tag)) == Some(VersionOf(tag))
  {
    RenderedParts(tag);
    SplitCore(tag);
  }

  lemma ParseReadsTag(value: string)
    ensures Parse(value).Some? <==> ReadTag(value).Some?
    ensures ReadTag(value).Some? ==>
              WellFormed(ReadTag(value).value) && Parse(value) == Some(VersionOf(ReadTag(value).value))
  {
    if ReadTag(value).Some? {
      NormalFormIsNoLonger(value);
      RenderedParses(ReadTag(value).value);
    }
  }

  /** What reading a tag guarantees of its version. */
  predicate Proper(v: Version) {
    |v.core| == 3 && ExactNumbers(v.pre)
  }

  lemma ParsedIsProper(value: string)
    requires Parse(value).Some?
    ensures Proper(Parse(value).value)
  {
    ParseReadsTag(value);
  }

  // ----- the program -----

  /** Compares one pair of different identifiers as the loop does. */
  predicate IdentifierNewer(latestId: string, currentId: string) {
    var latestNumeric, currentNumeric := IsNumeric(latestId), IsNumeric(currentId);
    if latestNumeric && currentNumeric then
      if |latestId| != |currentId| then |latestId| > |currentId| else Less(currentId, latestId)
    else if latestNumeric != currentNumeric then !latestNumeric
    else Less(currentId, latestId)
  }

  lemma NewerIsBelow(latestId: string, currentId: string)
    requires IsNumeric(latestId) ==> Canonical(latestId)
    requires IsNumeric(currentId) ==> Canonical(currentId)
    ensures IdentifierNewer(latestId, currentId) <==> IdentifierBelow(currentId, latestId)
  {
    if IsNumeric(latestId) && IsNumeric(currentId) {
      ShorterIsSmaller(currentId, latestId);
    }
  }

  lemma {:induction false} SharedFront(a: seq<string>, b: seq<string>, n: nat)
    requires n <= |a| && n <= |b| && a[..n] == b[..n]
    ensures ListBelow(a, b) <==> ListBelow(a[n..], b[n..])
    decreases n
  {
    if n > 0 {
      assert a[0] == a[..n][0] == b[..n][0] == b[0];
      assert a[1..][..n - 1] == a[..n][1..] && b[1..][..n - 1] == b[..n][1..];
      SharedFront(a[1..], b[1..], n - 1);
      assert a[1..][n - 1..] == a[n..] && b[1..][n - 1..] == b[n..];
    } else {
      assert a[0..] == a && b[0..] == b;
    }
  }

  method IdentifiersNewer(latestIds: seq<string>, currentIds: seq<string>) returns (newer: bool)
    requires ExactNumbers(Some(latestIds)) && ExactNumbers(Some(currentIds))
    ensures newer <==> ListBelow(currentIds, latestIds)
  {
    var length := if |latestIds| < |currentIds| then |latestIds| else |currentIds|;
    var index := 0;
    while index < length
      invariant 0 <= index <= length
      invariant latestIds[..index] == currentIds[..index]
    {
      var latestId, currentId := latestIds[index], currentIds[index];
      if latestId != currentId {
        SharedFront(currentIds, latestIds, index);
        NewerIsBelow(latestId, currentId);
        return IdentifierNewer(latestId, currentId);
      }
      index := index + 1;
    }
    SharedFront(currentIds, latestIds, length);
    return |latestIds| > |currentIds|;
  }

  lemma {:induction false} SharedCore(a: seq<nat>, b: seq<nat>, n: nat)
    requires n <= |a| == |b| && a[..n] == b[..n]
    ensures CoreBelow(a, b) <==> CoreBelow(a[n..], b[n..])
    decreases n
  {
    if n > 0 {
      assert a[0] == a[..n][0] == b[..n][0] == b[0];
      assert a[1..][..n - 1] == a[..n][1..] && b[1..][..n - 1] == b[..n][1..];
      SharedCore(a[1..], b[1..], n - 1);
      assert a[1..][n - 1..] == a[n..] && b[1..][n - 1..] == b[n..];
    } else {
      assert a[0..] == a && b[0..] == b;
    }
  }

  method VersionNewer(latest: Version, current: Version) returns (newer: bool)
    requires Proper(latest) && Proper(current)
    ensures newer <==> Below(current, latest)
  {
    var index := 0;
    while index < 3
      invariant 0 <= index <= 3
      invariant latest.core[..index] == current.core[..index]
    {
      if latest.core[index] != current.core[index] {
        SharedCore(current.core, latest.core, index);
        return latest.core[index] > current.core[index];
      }
      index := index + 1;
    }
    SharedCore(current.core, latest.core, 3);
    assert latest.core == latest.core[..3] == current.core[..3] == current.core;
    if latest.pre.None? {
      return current.pre.Some?;
    }
    if current.pre.None? {
      return false;
    }
    newer := IdentifiersNewer(latest.pre.value, current.pre.value);
  }

  predicate Newer(latest: string, current: string) {
    && Parse(latest).Some? && Parse(current).Some?
    && Below(Parse(current).value, Parse(latest).value)
  }

  method IsNewerVersion(latest: string, current: string) returns (newer: bool)
    ensures newer <==> Newer(latest, current)
  {
    var latestVersion, currentVersion := Parse(latest), Parse(current);
    if latestVersion.None? || currentVersion.None? {
      return false;
    }
    ParsedIsProper(latest);
    ParsedIsProper(current);
    newer := VersionNewer(latestVersion.value, currentVersion.value);
  }

  // ----- precedence is a strict total order -----

  predicate ExactNumber(x: string) {
    IsNumeric(x) ==> Canonical(x)
  }

  lemma IdentifiersAreOrdered(x: string, y: string)
    requires ExactNumber(x) && ExactNumber(y)
    ensures !(IdentifierBelow(x, y) && IdentifierBelow(y, x)) && !IdentifierBelow(x, x)
    ensures x == y || IdentifierBelow(x, y) || IdentifierBelow(y, x)
  {
    LessIsStrict(x, y);
    LessIsStrict(x, x);
    if IsNumeric(x) && IsNumeric(y) {
      ShorterIsSmaller(x, y);
    }
  }

  lemma IdentifiersTransitive(x: string, y: string, z: string)
    requires IdentifierBelow(x, y) && IdentifierBelow(y, z)
    ensures IdentifierBelow(x, z)
  {
    if !IsNumeric(x) {
      LessTransitive(x, y, z);
    }
  }

  predicate ExactList(a: seq<string>) {
    forall s | s in a :: ExactNumber(s)
  }

  lemma {:induction false} ListsAreOrdered(a: seq<string>, b: seq<string>)
    requires ExactList(a) && ExactList(b)
    ensures !(ListBelow(a, b) && ListBelow(b, a)) && !ListBelow(a, a)
    ensures a == b || ListBelow(a, b) || ListBelow(b, a)
    decreases |a|
  {
    if a != [] {
      ListsAreOrdered(a[1..], a[1..]);
      if b != [] {
        IdentifiersAreOrdered(a[0], b[0]);
        ListsAreOrdered(a[1..], b[1..]);
        assert a == [a[0]] + a[1..] && b == [b[0]] + b[1..];
      }
    }
  }

  lemma {:induction false} ListsTransitive(a: seq<string>, b: seq<string>, c: seq<string>)
    requires ExactList(a) && ExactList(b) && ExactList(c) && ListBelow(a, b) && ListBelow(b, c)
    ensures ListBelow(a, c)
    decreases |a|
  {
    if a != [] {
      if a[0] == b[0] == c[0] {
        ListsTransitive(a[1..], b[1..], c[1..]);
      } else if a[0] != b[0] && b[0] != c[0] {
        IdentifiersTransitive(a[0], b[0], c[0]);
        IdentifiersAreOrdered(a[0], b[0]);
      }
    }
  }

  lemma {:induction false} CoresAreOrdered(a: seq<nat>, b: seq<nat>)
    requires |a| == |b|
    ensures !(CoreBelow(a, b) && CoreBelow(b, a)) && !CoreBelow(a, a)
    ensures a == b || CoreBelow(a, b) || CoreBelow(b, a)
    decreases |a|
  {
    if a != [] {
      CoresAreOrdered(a[1..], b[1..]);
      CoresAreOrdered(a[1..], a[1..]);
      assert a == [a[0]] + a[1..] && b == [b[0]] + b[1..];
    }
  }

  lemma {:induction false} CoresTransitive(a: seq<nat>, b: seq<nat>, c: seq<nat>)
    requires |a| == |b| == |c| && CoreBelow(a, b) && CoreBelow(b, c)
    ensures CoreBelow(a, c)
    decreases |a|
  {
    if a[0] == b[0] == c[0] {
      CoresTransitive(a[1..], b[1..], c[1..]);
    }
  }

  lemma VersionsAreOrdered(v: Version, w: Version)
    requires Proper(v) && Proper(w)
    ensures !(Below(v, w) && Below(w, v)) && !Below(v, v)
    ensures v == w || Below(v, w) || Below(w, v)
  {
    CoresAreOrdered(v.core, w.core);
    CoresAreOrdered(v.core, v.core);
    if v.pre.Some? {
      ListsAreOrdered(v.pre.value, v.pre.value);
      if w.pre.Some? {
        ListsAreOrdered(v.pre.value, w.pre.value);
      }
    }
  }

  lemma VersionsTransitive(u: Version, v: Version, w: Version)
    requires Proper(u) && Proper(v) && Proper(w) && Below(u, v) && Below(v, w)
    ensures Below(u, w)
  {
    if CoreBelow(u.core, v.core) && CoreBelow(v.core, w.core) {
      CoresTransitive(u.core, v.core, w.core);
    } else if u.core == v.core == w.core && v.pre.Some? && w.pre.Some? {
      ListsTransitive(u.pre.value, v.pre.value, w.pre.value);
    }
  }

  /** The normal forms agree in front of the build metadata. */
  predicate SameUpToBuild(a: string, b: string) {
    && ReadTag(a).Some? && ReadTag(b).Some?
    && ReadTag(a).value.(build := None) == ReadTag(b).value.(build := None)
  }

  lemma SameVersionIsSameTag(a: string, b: string)
    requires ReadTag(a).Some? && ReadTag(b).Some?
    ensures Parse(a) == Parse(b) <==> SameUpToBuild(a, b)
  {
    ParseReadsTag(a);
    ParseReadsTag(b);
    var s, t := ReadTag(a).value, ReadTag(b).value;
    ShorterIsSmaller(s.major, t.major);
    ShorterIsSmaller(s.minor, t.minor);
    ShorterIsSmaller(s.patch, t.patch);
    if Parse(a) == Parse(b) {
      assert VersionOf(s).core[0] == VersionOf(t).core[0] && VersionOf(s).core[1] == VersionOf(t).core[1];
      assert VersionOf(s).core[2] == VersionOf(t).core[2];
    }
  }

  /** Of two accepted versions exactly one is newer, unless they are the same up to build metadata. */
  lemma ExactlyOneIsNewer(a: string, b: string)
    requires NormalizeReleaseVersion(a).Some? && NormalizeReleaseVersion(b).Some?
    ensures Newer(a, b) || Newer(b, a) || SameUpToBuild(a, b)
    ensures !(Newer(a, b) && Newer(b, a))
    ensures !(Newer(a, b) && SameUpToBuild(a, b)) && !(Newer(b, a) && SameUpToBuild(a, b))
  {
    ParseReadsTag(a);
    ParseReadsTag(b);
    ParsedIsProper(a);
    ParsedIsProper(b);
    VersionsAreOrdered(Parse(a).value, Parse(b).value);
    SameVersionIsSameTag(a, b);
  }

  lemma NewerIsTransitive(a: string, b: string, c: string)
    requires Newer(a, b) && Newer(b, c)
    ensures Newer(a, c)
  {
    ParsedIsProper(a);
    ParsedIsProper(b);
    ParsedIsProper(c);
    VersionsTransitive(Parse(c).value, Parse(b).value, Parse(a).value);
  }

  lemma ParseReadsNormalForm(a: string)
    requires NormalizeReleaseVersion(a).Some?
    ensures Parse(NormalizeReleaseVersion(a).value) == Parse(a)
  {
    NormalizationIsIdempotent(a);
  }

  /** How a tag is written does not matter, and neither does the build it names. */
  lemma NewerReadsNormalForms(a: string, b: string, c: string)
    requires NormalizeReleaseVersion(a).Some? && NormalizeReleaseVersion(b).Some?
    ensures Newer(a, b) <==> Newer(NormalizeReleaseVersion(a).value, NormalizeReleaseVersion(b).value)
    ensures SameUpToBuild(a, c) ==> (Newer(a, b) <==> Newer(c, b)) && (Newer(b, a) <==> Newer(b, c))
  {
    ParseReadsNormalForm(a);
    ParseReadsNormalForm(b);
    if SameUpToBuild(a, c) {
      SameVersionIsSameTag(a, c);
    }
  }
}
