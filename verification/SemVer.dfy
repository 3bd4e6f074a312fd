/** Release versions: which tags are accepted, and which version is newer. */
module SemVer {
  import opened Prelude
  import opened Decimal
  import opened Text

  const MAX_RELEASE_VERSION_LENGTH: nat := 128
  const MAX_SAFE_INTEGER: nat := 0x1f_ffff_ffff_ffff
  const LEGACY_RELEASE_TAG_PREFIX: string := "napcat-plugin-qq-guardianv"

  /** The captured groups of the tag expression, the dotted ones taken apart. */
  datatype Tag = Tag(major: string, minor: string, patch: string, pre: Option<seq<string>>, build: Option<seq<string>>)

  predicate IsIdentifierChar(c: char) {
    '0' <= c <= '9' || 'A' <= c <= 'Z' || 'a' <= c <= 'z' || c == '-'
  }

  predicate IsIdentifier(s: string) {
    s != "" && forall i | 0 <= i < |s| :: IsIdentifierChar(s[i])
  }

  predicate Identifiers(list: Option<seq<string>>) {
    list.Some? ==> list.value != [] && forall s | s in list.value :: IsIdentifier(s)
  }

  predicate WellFormed(tag: Tag) {
    Canonical(tag.major) && Canonical(tag.minor) && Canonical(tag.patch) && Identifiers(tag.pre) && Identifiers(tag.build)
  }

  function Core(tag: Tag): string {
    tag.major + "." + (tag.minor + "." + tag.patch)
  }

  function Suffix(mark: char, list: Option<seq<string>>): string
    requires Identifiers(list)
  {
    if list.Some? then [mark] + Join(list.value, '.') else ""
  }

  function Render(tag: Tag): string
    requires WellFormed(tag)
  {
    Core(tag) + Suffix('-', tag.pre) + Suffix('+', tag.build)
  }

  /** The part behind a mark, taken apart at dots. */
  function Behind(s: string, mark: char): Option<seq<string>> {
    var i := IndexOf(s, mark);
    if i < |s| then Some(Split(s[i + 1..], '.')) else None
  }

  function Before(s: string, mark: char): string {
    s[..IndexOf(s, mark)]
  }

  function MatchBody(body: string): Option<Tag> {
    var left := Before(body, '+');
    var core := Split(Before(left, '-'), '.');
    if |core| != 3 then None
    else
      var tag := Tag(core[0], core[1], core[2], Behind(left, '-'), Behind(body, '+'));
      if WellFormed(tag) then Some(tag) else None
  }

  /** Matching the tag expression. */
  function MatchTag(s: string): Option<Tag> {
    MatchBody(if s != "" && s[0] == 'v' then s[1..] else s)
  }

  predicate IsNumeric(s: string) {
    s != "" && AllDigits(s)
  }

  predicate SafeCore(tag: Tag)
    requires WellFormed(tag)
  {
    Value(tag.major) <= MAX_SAFE_INTEGER && Value(tag.minor) <= MAX_SAFE_INTEGER && Value(tag.patch) <= MAX_SAFE_INTEGER
  }

  /** No numeric prerelease identifier has a leading zero. */
  predicate ExactNumbers(pre: Option<seq<string>>) {
    pre.Some? ==> forall s | s in pre.value :: IsNumeric(s) ==> Canonical(s)
  }

  function Candidate(value: string): string {
    if LEGACY_RELEASE_TAG_PREFIX <= value then "v" + value[|LEGACY_RELEASE_TAG_PREFIX|..] else value
  }

  function ReadTag(value: string): Option<Tag> {
    if value == "" || |value| > MAX_RELEASE_VERSION_LENGTH then None
    else
      var tag := MatchTag(Candidate(value));
      if tag.Some? && SafeCore(tag.value) && ExactNumbers(tag.value.pre) then tag else None
  }

  function NormalizeReleaseVersion(value: string): Option<string> {
    var tag := ReadTag(value);
    if tag.Some? then Some(Render(tag.value)) else None
  }

  lemma IdentifierExamples()
    ensures IsIdentifier("rc") && IsIdentifier("1") && IsIdentifier("0b7") && !IsIdentifier("") && !IsIdentifier("a_b")
    ensures !ExactNumbers(Some(["01"])) && ExactNumbers(Some(["0"])) && ExactNumbers(Some(["0b7"]))
  {
    assert "a_b"[1] == '_' && "0b7"[1] == 'b';
    assert "01" in Some(["01"]).value;
  }

  lemma NumberExamples()
    ensures Canonical("1") && Canonical("20") && Canonical("3") && !Canonical("01") && !Canonical("") && !Canonical("1a")
    ensures Value("1") == 1 && Value("20") == 20 && Value("3") == 3
  {
    assert "1a"[1] == 'a' && "01"[0] == '0';
    assert "1"[..0] == [] && "20"[..1] == "2" && "2"[..0] == [] && "3"[..0] == [];
  }

  /** A tag as it is written, with a prerelease and a build. */
  lemma TagExample()
    ensures var tag := Tag("1", "20", "3", Some(["rc", "1"]), Some(["0b7"]));
            WellFormed(tag) && SafeCore(tag) && ExactNumbers(tag.pre) && Render(tag) == "1.20.3-rc.1+0b7"
  {
    IdentifierExamples();
    NumberExamples();
    assert "rc"[0] == 'r';
    assert ["rc", "1"][1..] == ["1"] && Join(["rc", "1"], '.') == "rc.1";
  }

  // ----- matching -----

  lemma SuffixesLackPlus(pre: Option<seq<string>>)
    requires Identifiers(pre)
    ensures '+' !in Suffix('-', pre)
  {
    if pre.Some? {
      JoinLacks(pre.value, '.', '+');
    }
  }

  lemma CoreLacks(tag: Tag, mark: char)
    requires WellFormed(tag) && (mark == '+' || mark == '-')
    ensures mark !in Core(tag)
  {
  }

  lemma CoreIsJoined(tag: Tag)
    ensures Join([tag.major, tag.minor, tag.patch], '.') == Core(tag)
  {
    JoinFirst(tag.minor, [tag.patch], '.');
    assert [tag.minor] + [tag.patch] == [tag.minor, tag.patch];
    JoinFirst(tag.major, [tag.minor, tag.patch], '.');
    assert [tag.major] + [tag.minor, tag.patch] == [tag.major, tag.minor, tag.patch];
  }

  lemma SplitCore(tag: Tag)
    requires WellFormed(tag)
    ensures Split(Core(tag), '.') == [tag.major, tag.minor, tag.patch]
  {
    CoreIsJoined(tag);
    SplitJoin([tag.major, tag.minor, tag.patch], '.');
  }

  /** A mark that does not occur in front of a suffix is found at the suffix. */
  lemma SuffixFound(front: string, mark: char, list: Option<seq<string>>)
    requires mark !in front && Identifiers(list)
    ensures Before(front + Suffix(mark, list), mark) == front
    ensures Behind(front + Suffix(mark, list), mark) == list
  {
    var s := front + Suffix(mark, list);
    assert s[..|front|] == front;
    IndexIsFirst(s, mark, |front|);
    if list.Some? {
      assert s[|front| + 1..] == Join(list.value, '.');
      SplitJoin(list.value, '.');
    }
  }

  /** The marks of a rendered tag take it apart again. */
  lemma RenderedParts(tag: Tag)
    requires WellFormed(tag)
    ensures var front := Core(tag) + Suffix('-', tag.pre);
            && Before(Render(tag), '+') == front && Behind(Render(tag), '+') == tag.build
            && Before(front, '-') == Core(tag) && Behind(front, '-') == tag.pre
  {
    CoreLacks(tag, '+');
    CoreLacks(tag, '-');
    SuffixesLackPlus(tag.pre);
    SuffixFound(Core(tag) + Suffix('-', tag.pre), '+', tag.build);
    SuffixFound(Core(tag), '-', tag.pre);
  }

  lemma RenderedBodyMatches(tag: Tag)
    requires WellFormed(tag)
    ensures MatchBody(Render(tag)) == Some(tag)
  {
    RenderedParts(tag);
    SplitCore(tag);
  }

  lemma RenderedStartsWithDigit(tag: Tag)
    requires WellFormed(tag)
    ensures Render(tag) != "" && IsDigit(Render(tag)[0])
  {
    assert Render(tag)[0] == tag.major[0];
  }

  lemma RenderedMatches(tag: Tag, s: string)
    requires WellFormed(tag) && (s == Render(tag) || s == "v" + Render(tag))
    ensures MatchTag(s) == Some(tag)
  {
    RenderedBodyMatches(tag);
    RenderedStartsWithDigit(tag);
    assert s == "v" + Render(tag) ==> s[1..] == Render(tag);
  }

  lemma BehindIsSuffix(s: string, mark: char)
    requires Identifiers(Behind(s, mark))
    ensures s == Before(s, mark) + Suffix(mark, Behind(s, mark))
  {
    var i := IndexOf(s, mark);
    if i < |s| {
      JoinSplit(s[i + 1..], '.');
      assert s == s[..i] + [mark] + s[i + 1..];
    }
  }

  lemma MatchedBodyIsRendered(body: string)
    requires MatchBody(body).Some?
    ensures WellFormed(MatchBody(body).value) && body == Render(MatchBody(body).value)
  {
    var left := Before(body, '+');
    var tag := MatchBody(body).value;
    BehindIsSuffix(body, '+');
    BehindIsSuffix(left, '-');
    JoinSplit(Before(left, '-'), '.');
    assert Split(Before(left, '-'), '.') == [tag.major, tag.minor, tag.patch];
    CoreIsJoined(tag);
  }

  lemma MatchedIsRendered(s: string)
    requires MatchTag(s).Some?
    ensures WellFormed(MatchTag(s).value)
    ensures s == Render(MatchTag(s).value) || s == "v" + Render(MatchTag(s).value)
  {
    var body := if s != "" && s[0] == 'v' then s[1..] else s;
    MatchedBodyIsRendered(body);
    assert s != body ==> s == "v" + body;
  }

  /** The tag expression matches exactly the rendered tags, with or without the letter in front, each in one way. */
  lemma MatchesAreRenderedTags(s: string, tag: Tag)
    ensures MatchTag(s) == Some(tag) <==> WellFormed(tag) && (s == Render(tag) || s == "v" + Render(tag))
  {
    if MatchTag(s) == Some(tag) {
      MatchedIsRendered(s);
    }
    if WellFormed(tag) && (s == Render(tag) || s == "v" + Render(tag)) {
      RenderedMatches(tag, s);
    }
  }

  lemma CandidateOfRendered(tag: Tag)
    requires WellFormed(tag)
    ensures Candidate(Render(tag)) == Render(tag)
  {
    RenderedStartsWithDigit(tag);
    assert LEGACY_RELEASE_TAG_PREFIX[0] == 'n';
  }

  lemma NormalFormIsNoLonger(value: string)
    requires ReadTag(value).Some?
    ensures WellFormed(ReadTag(value).value) && |Render(ReadTag(value).value)| <= |value|
  {
    MatchedIsRendered(Candidate(value));
    assert |LEGACY_RELEASE_TAG_PREFIX| >= 1;
  }

  /** A normal form is its own normal form, and both denote the same tag. */
  lemma NormalizationIsIdempotent(value: string)
    requires NormalizeReleaseVersion(value).Some?
    ensures ReadTag(NormalizeReleaseVersion(value).value) == ReadTag(value)
    ensures NormalizeReleaseVersion(NormalizeReleaseVersion(value).value) == NormalizeReleaseVersion(value)
  {
    var tag := ReadTag(value).value;
    NormalFormIsNoLonger(value);
    RenderedStartsWithDigit(tag);
    RenderedMatches(tag, Render(tag));
    CandidateOfRendered(tag);
  }
}
