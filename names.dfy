/** A simplified stand-in for the image-reference grammar of go-containerregistry's `name`
    package (`ParseReference`, `NewTag`, `NewDigest`), which the core calls but does not define.

    Simplifications: a repository is any non-empty text without '@'; a tag is non-empty text
    without '/', ':' or '@' (an empty tag after ':' means the default tag, as without strict
    validation); a digest is "sha256:" followed by 64 lower-case hex digits; the
    registry host is not normalised (no default registry, no "library/" prefix). */
module Names {
  import opened Failures
  import opened Texts

  /** The tag a reference without an explicit tag gets. */
  const DefaultTag := "latest"

  /** A parsed reference: `name.Tag` or `name.Digest`. `repo` is `Context().Name()`. */
  datatype Ref = TagRef(repo: string, tag: string) | DigestRef(repo: string, digest: string)

  predicate IsHexDigit(c: char) { '0' <= c <= '9' || 'a' <= c <= 'f' }

  predicate IsDigest(d: string) {
    |d| == 71 && d[..7] == "sha256:" && forall i | 7 <= i < 71 :: IsHexDigit(d[i])
  }

  predicate IsRepository(r: string) { r != [] && '@' !in r }

  predicate IsTag(t: string) { t != [] && '/' !in t && ':' !in t && '@' !in t }

  /** The base and the tag of a tag reference: the text after the last ':' is the tag unless it
      holds a '/' (then the ':' belongs to a registry port); without one, or when that text is
      empty, the tag is "latest" (an empty tag is not checked without strict validation). */
  function SplitTag(s: string): (string, string) {
    match LastIndexOf(s, ':')
    case Some(i) =>
      if '/' in s[i + 1..] then (s, DefaultTag)
      else if i + 1 == |s| then (s[..i], DefaultTag)
      else (s[..i], s[i + 1..])
    case None => (s, DefaultTag)
  }

  /** `name.NewTag`. */
  function NewTag(s: string): (r: Option<Ref>)
    ensures r.Some? ==> r.value.TagRef? && IsRepository(r.value.repo) && IsTag(r.value.tag)
    ensures r.Some? ==> '@' !in s
  {
    var (base, tag) := SplitTag(s);
    SplitTagRebuilds(s);
    if IsRepository(base) && IsTag(tag) then Some(TagRef(base, tag)) else None
  }

  lemma SplitTagRebuilds(s: string)
    ensures s == SplitTag(s).0 || s == SplitTag(s).0 + [':'] || s == SplitTag(s).0 + [':'] + SplitTag(s).1
  {
    match LastIndexOf(s, ':')
    case Some(i) => assert s == s[..i] + [':'] + s[i + 1..];
    case None =>
  }

  /** `name.NewDigest`: exactly one '@', a valid digest after it, and a repository (possibly
      followed by a tag, which is dropped) before it. */
  function NewDigest(s: string): (r: Option<Ref>)
    ensures r.Some? ==> r.value.DigestRef? && IsRepository(r.value.repo) && IsDigest(r.value.digest)
    ensures r.Some? ==> Count(s, '@') == 1 && r.value.digest == Split(s, '@')[1]
  {
    var parts := Split(s, '@');
    if |parts| != 2 || !IsDigest(parts[1]) then None
    else
      var repo := match NewTag(parts[0]) case Some(t) => t.repo case None => parts[0];
      if IsRepository(repo) then Some(DigestRef(repo, parts[1])) else None
  }

  /** `name.ParseReference`: a tag reference if the text is one, otherwise a digest reference. */
  function ParseReference(s: string): Option<Ref> {
    match NewTag(s)
    case Some(t) => Some(t)
    case None => NewDigest(s)
  }

  /** Whether `name.NewDigest` accepts `s`: the "digest form" every lock entry must have. */
  predicate IsDigestForm(s: string) {
    NewDigest(s).Some?
  }

  /** `Name()`: the text of a parsed reference. */
  function RefText(r: Ref): string {
    match r
    case TagRef(repo, tag) => repo + ":" + tag
    case DigestRef(repo, digest) => repo + "@" + digest
  }

  /** The error the reference parser reports. */
  function ParseError(s: string): Error {
    Foreign("could not parse reference: " + s)
  }

  /** A repository without a tag part. */
  predicate IsBareRepository(r: string) {
    IsRepository(r) && SplitTag(r).0 == r
  }

  lemma DigestHasNoSeparator(d: string)
    requires IsDigest(d)
    ensures '@' !in d
  {
    assert forall i | 0 <= i < 7 :: d[i] == "sha256:"[i];
  }

  /** A digest-form text is parsed as a digest reference. */
  lemma ParseDigestForm(s: string)
    requires IsDigestForm(s)
    ensures ParseReference(s) == NewDigest(s)
  {
    CountZero(s, '@');
  }

  /** Writing a bare repository and a digest around '@' gives a digest reference that parses
      back to exactly that repository and digest. */
  lemma {:induction false} ComposeDigestRef(repo: string, d: string)
    requires IsBareRepository(repo) && IsDigest(d)
    ensures NewDigest(repo + "@" + d) == Some(DigestRef(repo, d))
    ensures ParseReference(repo + "@" + d) == Some(DigestRef(repo, d))
  {
    DigestHasNoSeparator(d);
    SplitAroundSeparator(repo, d, '@');
    assert repo + "@" + d == repo + ['@'] + d;
    var colon := LastIndexOf(repo, ':');
    if colon.Some? {
      assert |repo[..colon.value]| < |repo|;
    }
    assert NewTag(repo) == Some(TagRef(repo, DefaultTag));
    ParseDigestForm(repo + "@" + d);
  }

  /** Whatever `repo@digest` parses to carries exactly that digest. */
  lemma DigestTextParses(repo: string, digest: string)
    ensures IsBareRepository(repo) && IsDigest(digest) ==>
              NewDigest(repo + "@" + digest) == Some(DigestRef(repo, digest))
    ensures NewDigest(repo + "@" + digest).Some? ==> NewDigest(repo + "@" + digest).value.digest == digest
  {
    var text := repo + "@" + digest;
    assert text == repo + ['@'] + digest == repo + (['@'] + digest);
    if IsBareRepository(repo) && IsDigest(digest) {
      ComposeDigestRef(repo, digest);
    }
    if NewDigest(text).Some? {
      CountAppend(repo, ['@'] + digest, '@');
      CountAppend(['@'], digest, '@');
      CountZero(repo, '@');
      CountZero(digest, '@');
      SplitAroundSeparator(repo, digest, '@');
    }
  }

  /** `repo:tag` parses back to that repository and tag. */
  lemma ExplicitTagParses(repo: string, tag: string)
    requires IsRepository(repo) && IsTag(tag)
    ensures NewTag(repo + ":" + tag) == Some(TagRef(repo, tag))
    ensures ParseReference(repo + ":" + tag) == Some(TagRef(repo, tag))
  {
    var text := repo + ":" + tag;
    LastIndexOfAppended(repo, tag, ':');
    assert text == repo + [':'] + tag;
    assert text[..|repo|] == repo && text[|repo| + 1..] == tag;
  }

  /** A repository written without a tag parses with the default tag. */
  lemma ImplicitTagParses(repo: string)
    requires IsRepository(repo) && ':' !in repo
    ensures NewTag(repo) == Some(TagRef(repo, DefaultTag))
    ensures ParseReference(repo) == Some(TagRef(repo, DefaultTag))
  {
  }

  /** A repository followed by ':' and nothing else parses with the default tag: without
      strict validation an empty tag is not checked and is replaced by "latest". */
  lemma EmptyTagDefaults(repo: string)
    requires IsRepository(repo)
    ensures NewTag(repo + ":") == Some(TagRef(repo, DefaultTag))
  {
    LastIndexOfAppended(repo, "", ':');
    assert repo + ":" == repo + [':'] + "";
    assert (repo + ":")[..|repo|] == repo;
  }
}
