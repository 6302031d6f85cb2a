/** The blog host classifier of the post view (`extractBlogClassName`):
    a post URL is mapped to one of four CSS class names by a raw suffix
    test on its hostname. Parsing the URL is a library call; it is given
    here as its outcome, `Some(hostname)` or `None` when the parse threw. */
module BlogClass {
  import opened Wrappers
  import opened Strings

  /** The four presentation tags a post can carry. */
  datatype BlogClass = Medium | DevTo | Blogspot | Generic

  const MediumSuffix := "medium.com"
  const DevToSuffix := "dev.to"
  const BlogspotSuffix := "blogspot.com"

  /** Every class name the classifier can produce. */
  const ClassNames: set<string> := {"is-medium", "is-devto", "is-blogspot", "is-generic"}

  /** The hostname suffix that selects each tag other than Generic. */
  function SuffixOf(c: BlogClass): (s: string)
    requires c != Generic
  {
    match c
    case Medium => MediumSuffix
    case DevTo => DevToSuffix
    case Blogspot => BlogspotSuffix
  }

  /** The CSS class name attached to the post content for each tag. */
  function ClassName(c: BlogClass): (name: string)
    ensures name in ClassNames
  {
    match c
    case Medium => "is-medium"
    case DevTo => "is-devto"
    case Blogspot => "is-blogspot"
    case Generic => "is-generic"
  }

  /** The if-chain on the hostname: medium.com, then dev.to, then
      blogspot.com, else generic; a URL that failed to parse is generic. */
  function Classify(host: Option<string>): (c: BlogClass)
    ensures host.None? ==> c == Generic
    ensures host.Some? && EndsWith(host.value, MediumSuffix) ==> c == Medium
    ensures c == DevTo ==>
      host.Some? && !EndsWith(host.value, MediumSuffix) && EndsWith(host.value, DevToSuffix)
    ensures c == Blogspot ==>
      host.Some? && !EndsWith(host.value, MediumSuffix) && !EndsWith(host.value, DevToSuffix)
      && EndsWith(host.value, BlogspotSuffix)
    ensures c == Generic <==>
      host.None? || (!EndsWith(host.value, MediumSuffix) && !EndsWith(host.value, DevToSuffix)
                     && !EndsWith(host.value, BlogspotSuffix))
  {
    match host
    case None => Generic
    case Some(h) =>
      if EndsWith(h, MediumSuffix) then Medium
      else if EndsWith(h, DevToSuffix) then DevTo
      else if EndsWith(h, BlogspotSuffix) then Blogspot
      else Generic
  }

  /** `extractBlogClassName(url)`, with the hostname parser passed in. It
      never fails: every outcome is one of the four class names, and a
      URL the parser rejects gives "is-generic". */
  function ExtractBlogClassName(url: string, hostOf: string -> Option<string>): (name: string)
    ensures name in ClassNames
    ensures hostOf(url).None? ==> name == "is-generic"
    ensures name == "is-medium" <==> hostOf(url).Some? && EndsWith(hostOf(url).value, MediumSuffix)
    ensures name == "is-devto" <==>
      hostOf(url).Some? && !EndsWith(hostOf(url).value, MediumSuffix)
      && EndsWith(hostOf(url).value, DevToSuffix)
    ensures name == "is-blogspot" <==>
      hostOf(url).Some? && !EndsWith(hostOf(url).value, MediumSuffix)
      && !EndsWith(hostOf(url).value, DevToSuffix) && EndsWith(hostOf(url).value, BlogspotSuffix)
    ensures name == "is-generic" <==>
      hostOf(url).None? || (!EndsWith(hostOf(url).value, MediumSuffix)
                            && !EndsWith(hostOf(url).value, DevToSuffix)
                            && !EndsWith(hostOf(url).value, BlogspotSuffix))
  {
    ClassName(Classify(hostOf(url)))
  }

  /** Distinct tags have distinct class names, and every class name is
      reached, so the classifier picks exactly one of the four. */
  lemma ClassNameBijective()
    ensures forall a, b :: ClassName(a) == ClassName(b) ==> a == b
    ensures forall name :: name in ClassNames ==> exists c :: ClassName(c) == name
  {
    assert ClassName(Medium) == "is-medium";
    assert ClassName(DevTo) == "is-devto";
    assert ClassName(Blogspot) == "is-blogspot";
    assert ClassName(Generic) == "is-generic";
  }

  /** No hostname ends with two of the three suffixes. */
  lemma SuffixesExclusive(h: string)
    ensures !(EndsWith(h, MediumSuffix) && EndsWith(h, DevToSuffix))
    ensures !(EndsWith(h, MediumSuffix) && EndsWith(h, BlogspotSuffix))
    ensures !(EndsWith(h, DevToSuffix) && EndsWith(h, BlogspotSuffix))
  {
    assert !EndsWith(MediumSuffix, DevToSuffix) by { assert MediumSuffix[4] != DevToSuffix[0]; }
    assert !EndsWith(BlogspotSuffix, MediumSuffix) by { assert BlogspotSuffix[2] != MediumSuffix[0]; }
    assert !EndsWith(BlogspotSuffix, DevToSuffix) by { assert BlogspotSuffix[6] != DevToSuffix[0]; }
    if EndsWith(h, MediumSuffix) && EndsWith(h, DevToSuffix) {
      EndsWithBoth(h, MediumSuffix, DevToSuffix);
    }
    if EndsWith(h, MediumSuffix) && EndsWith(h, BlogspotSuffix) {
      EndsWithBoth(h, BlogspotSuffix, MediumSuffix);
    }
    if EndsWith(h, DevToSuffix) && EndsWith(h, BlogspotSuffix) {
      EndsWithBoth(h, BlogspotSuffix, DevToSuffix);
    }
  }

  /** Because the suffixes are exclusive, the priority order never decides
      anything: a hostname gets a platform tag exactly when it ends with
      that platform's suffix, whatever the other tests say. */
  lemma ClassifyBySuffix(h: string, c: BlogClass)
    requires c != Generic
    ensures Classify(Some(h)) == c <==> EndsWith(h, SuffixOf(c))
  {
    SuffixesExclusive(h);
  }

  /** The test is on raw characters, not on domain labels: any hostname
      whose last characters spell a suffix gets that suffix's tag
      ("xdev.to" is tagged dev.to just as "sub.dev.to" is). */
  lemma RawSuffixMatch(p: string, c: BlogClass)
    requires c != Generic
    ensures Classify(Some(p + SuffixOf(c))) == c
  {
    EndsWithAppend(p, SuffixOf(c));
    ClassifyBySuffix(p + SuffixOf(c), c);
  }

  /** Sample hostnames: the platform hosts and a look-alike. */
  lemma SamplePlatformHosts()
    ensures Classify(Some("medium.com")) == Medium
    ensures Classify(Some("sub.dev.to")) == DevTo
    ensures Classify(Some("xdev.to")) == DevTo
    ensures Classify(Some("myblog.blogspot.com")) == Blogspot
  {
    RawSuffixMatch("", Medium);
    assert "" + MediumSuffix == "medium.com";
    RawSuffixMatch("sub.", DevTo);
    assert "sub." + DevToSuffix == "sub.dev.to";
    RawSuffixMatch("x", DevTo);
    assert "x" + DevToSuffix == "xdev.to";
    RawSuffixMatch("myblog.", Blogspot);
    assert "myblog." + BlogspotSuffix == "myblog.blogspot.com";
  }

  /** Sample hostnames that get the generic tag: an unrelated host and a
      URL that did not parse. */
  lemma SampleGenericHosts()
    ensures Classify(Some("example.org")) == Generic
    ensures Classify(None) == Generic
  {
    var h := "example.org";
    assert !EndsWith(h, MediumSuffix) by { assert h[|h| - 1] != MediumSuffix[|MediumSuffix| - 1]; }
    assert !EndsWith(h, DevToSuffix) by { assert h[|h| - 1] != DevToSuffix[|DevToSuffix| - 1]; }
    assert !EndsWith(h, BlogspotSuffix) by { assert |h| < |BlogspotSuffix|; }
  }
}
