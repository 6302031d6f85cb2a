/** GitHub link extraction (`extractGitHubUrlsFromPost`): of the anchor
    hrefs of a post body, in document order, keep those that start with
    "https://github.com", then drop repeats by a left fold that appends an
    href only when the accumulator does not already contain it. Parsing
    the HTML and querying its anchors are browser calls; they are given
    here as their outcome, the sequence of hrefs. */
module GitHubLinks {
  import opened Strings

  const GitHubPrefix := "https://github.com"

  /** No element occurs twice. */
  predicate NoDuplicates<T(==)>(s: seq<T>) {
    forall i, j :: 0 <= i < j < |s| ==> s[i] != s[j]
  }

  /** a is obtained from b by deleting elements (compared from the end). */
  predicate IsSubsequence<T(==)>(a: seq<T>, b: seq<T>)
    decreases |b|
  {
    if b == [] then a == []
    else (a != [] && a[|a| - 1] == b[|b| - 1] && IsSubsequence(a[..|a| - 1], b[..|b| - 1]))
         || IsSubsequence(a, b[..|b| - 1])
  }

  /** The anchor selector `a[href^='https://github.com']`: the hrefs with
      the GitHub prefix, in document order. */
  function FilterGitHub(hrefs: seq<string>): (r: seq<string>)
    ensures forall x :: x in r <==> x in hrefs && StartsWith(x, GitHubPrefix)
    ensures IsSubsequence(r, hrefs)
  {
    if hrefs == [] then []
    else
      var init, last := hrefs[..|hrefs| - 1], hrefs[|hrefs| - 1];
      assert hrefs == init + [last];
      var kept := FilterGitHub(init);
      if StartsWith(last, GitHubPrefix) then
        assert (kept + [last])[..|kept|] == kept;
        kept + [last]
      else
        assert kept + [] == kept;
        kept
  }

  /** The selector keeps every occurrence of a prefixed href and no other
      href. */
  lemma {:induction false} FilterGitHubCounts(hrefs: seq<string>, x: string)
    ensures multiset(FilterGitHub(hrefs))[x] == if StartsWith(x, GitHubPrefix) then multiset(hrefs)[x] else 0
  {
    if hrefs != [] {
      var init, last := hrefs[..|hrefs| - 1], hrefs[|hrefs| - 1];
      assert hrefs == init + [last];
      FilterGitHubCounts(init, x);
    }
  }

  /** The `reduce` at the heart of the extractor: starting from acc, each
      element is appended unless acc already includes it. */
  function DedupFold(acc: seq<string>, xs: seq<string>): (r: seq<string>)
    decreases |xs|
    ensures NoDuplicates(acc) ==> NoDuplicates(r)
    ensures forall x :: x in r <==> x in acc || x in xs
    ensures |acc| <= |r| && r[..|acc|] == acc
  {
    if xs == [] then acc
    else DedupFold(if xs[0] in acc then acc else acc + [xs[0]], xs[1..])
  }

  /** The fold started, as in the source, from the empty list. */
  function Dedup(xs: seq<string>): (r: seq<string>)
    ensures NoDuplicates(r)
    ensures forall x :: x in r <==> x in xs
  {
    DedupFold([], xs)
  }

  /** `extractGitHubUrlsFromPost`, given the hrefs of the document's anchors. */
  function ExtractGitHubUrls(hrefs: seq<string>): (r: seq<string>)
    ensures forall i :: 0 <= i < |r| ==> StartsWith(r[i], GitHubPrefix)
    ensures forall x :: x in r <==> x in hrefs && StartsWith(x, GitHubPrefix)
    ensures NoDuplicates(r)
  {
    Dedup(FilterGitHub(hrefs))
  }

  /** Reference definition of "first occurrences": position i of xs is kept
      exactly when xs[i] does not occur in xs[..i]. */
  function FirstOccurrences(xs: seq<string>): (r: seq<string>)
    ensures forall x :: x in r <==> x in xs
    ensures IsSubsequence(r, xs)
  {
    if xs == [] then []
    else
      var init, last := xs[..|xs| - 1], xs[|xs| - 1];
      assert xs == init + [last];
      var kept := FirstOccurrences(init);
      if last in init then
        kept
      else
        assert (kept + [last])[..|kept|] == kept;
        kept + [last]
  }

  /** The fold keeps exactly the first occurrences, in their input order. */
  lemma {:induction false} DedupIsFirstOccurrences(xs: seq<string>)
    ensures Dedup(xs) == FirstOccurrences(xs)
  {
    assert xs[..0] == [];
    DedupFoldFrom(xs, 0);
    assert xs[0..] == xs;
  }

  /** Unfolding the reference definition at a last element. */
  lemma FirstOccurrencesSnoc(init: seq<string>, x: string)
    ensures FirstOccurrences(init + [x]) == FirstOccurrences(init) + (if x in init then [] else [x])
  {
    var xs := init + [x];
    assert xs[..|xs| - 1] == init && xs[|xs| - 1] == x;
  }

  /** Having folded the first n elements, the accumulator holds the first
      occurrences among them, and folding the rest finishes the job. */
  lemma {:induction false} DedupFoldFrom(xs: seq<string>, n: nat)
    requires n <= |xs|
    ensures DedupFold(FirstOccurrences(xs[..n]), xs[n..]) == FirstOccurrences(xs)
    decreases |xs| - n
  {
    if n == |xs| {
      assert xs[..n] == xs;
      assert xs[n..] == [];
    } else {
      var acc := FirstOccurrences(xs[..n]);
      assert xs[..n + 1] == xs[..n] + [xs[n]];
      FirstOccurrencesSnoc(xs[..n], xs[n]);
      assert xs[n] in acc <==> xs[n] in xs[..n];
      var rest := xs[n..];
      assert rest != [] && rest[0] == xs[n] && rest[1..] == xs[n + 1..];
      assert DedupFold(acc, rest) == DedupFold(if xs[n] in acc then acc else acc + [xs[n]], xs[n + 1..]);
      DedupFoldFrom(xs, n + 1);
    }
  }

  /** The extractor returns the selected links in the order of their
      first appearance in the document. */
  lemma ExtractIsFirstOccurrences(hrefs: seq<string>)
    ensures ExtractGitHubUrls(hrefs) == FirstOccurrences(FilterGitHub(hrefs))
  {
    DedupIsFirstOccurrences(FilterGitHub(hrefs));
  }

  /** The result of the fold is a subsequence of its input. */
  lemma DedupIsSubsequence(xs: seq<string>)
    ensures IsSubsequence(Dedup(xs), xs)
  {
    DedupIsFirstOccurrences(xs);
  }

  /** Subsequence is transitive. */
  lemma {:induction false} SubsequenceTransitive(a: seq<string>, b: seq<string>, c: seq<string>)
    requires IsSubsequence(a, b) && IsSubsequence(b, c)
    ensures IsSubsequence(a, c)
    decreases |c|
  {
    if c == [] {
    } else if b != [] && b[|b| - 1] == c[|c| - 1] && IsSubsequence(b[..|b| - 1], c[..|c| - 1]) {
      if a != [] && a[|a| - 1] == b[|b| - 1] && IsSubsequence(a[..|a| - 1], b[..|b| - 1]) {
        SubsequenceTransitive(a[..|a| - 1], b[..|b| - 1], c[..|c| - 1]);
      } else {
        SubsequenceTransitive(a, b[..|b| - 1], c[..|c| - 1]);
      }
    } else {
      SubsequenceTransitive(a, b, c[..|c| - 1]);
    }
  }

  /** The extracted links appear in the document in the same order. */
  lemma ExtractIsSubsequence(hrefs: seq<string>)
    ensures IsSubsequence(ExtractGitHubUrls(hrefs), hrefs)
  {
    DedupIsSubsequence(FilterGitHub(hrefs));
    SubsequenceTransitive(ExtractGitHubUrls(hrefs), FilterGitHub(hrefs), hrefs);
  }

  /** A list without repeats passes the fold unchanged. */
  lemma {:induction false} DedupFoldDistinct(acc: seq<string>, xs: seq<string>)
    requires NoDuplicates(acc + xs)
    ensures DedupFold(acc, xs) == acc + xs
    decreases |xs|
  {
    if xs != [] {
      forall k | 0 <= k < |acc|
        ensures acc[k] != xs[0]
      {
        assert (acc + xs)[k] == acc[k] && (acc + xs)[|acc|] == xs[0];
      }
      assert acc + [xs[0]] + xs[1..] == acc + xs;
      DedupFoldDistinct(acc + [xs[0]], xs[1..]);
    }
  }

  /** Removing repeats twice is the same as once. */
  lemma DedupIdempotent(xs: seq<string>)
    ensures Dedup(Dedup(xs)) == Dedup(xs)
  {
    assert [] + Dedup(xs) == Dedup(xs);
    DedupFoldDistinct([], Dedup(xs));
  }

  /** Hrefs that all carry the GitHub prefix pass the selector unchanged. */
  lemma {:induction false} FilterGitHubKeepsLinks(hrefs: seq<string>)
    requires forall i :: 0 <= i < |hrefs| ==> StartsWith(hrefs[i], GitHubPrefix)
    ensures FilterGitHub(hrefs) == hrefs
  {
    if hrefs != [] {
      var init := hrefs[..|hrefs| - 1];
      assert forall i :: 0 <= i < |init| ==> init[i] == hrefs[i];
      FilterGitHubKeepsLinks(init);
      assert hrefs == init + [hrefs[|hrefs| - 1]];
    }
  }

  /** Extracting links from the extractor's own output changes nothing. */
  lemma ExtractIdempotent(hrefs: seq<string>)
    ensures ExtractGitHubUrls(ExtractGitHubUrls(hrefs)) == ExtractGitHubUrls(hrefs)
  {
    var r := ExtractGitHubUrls(hrefs);
    FilterGitHubKeepsLinks(r);
    DedupIdempotent(FilterGitHub(hrefs));
  }

  /** Folding a concatenation is folding the second part onto the result
      of the first. */
  lemma {:induction false} DedupFoldAppend(acc: seq<string>, a: seq<string>, b: seq<string>)
    ensures DedupFold(acc, a + b) == DedupFold(DedupFold(acc, a), b)
    decreases |a|
  {
    if a == [] {
      assert a + b == b;
    } else {
      assert (a + b)[0] == a[0] && (a + b)[1..] == a[1..] + b;
      DedupFoldAppend(if a[0] in acc then acc else acc + [a[0]], a[1..], b);
    }
  }

  /** An element kept from position i sits in the output right after the
      links kept from the positions before i: a link seen several times
      stays once, at its first position. */
  lemma KeptAtFirstPosition(xs: seq<string>, i: nat)
    requires i < |xs| && xs[i] !in xs[..i]
    ensures |Dedup(xs[..i])| < |Dedup(xs)|
    ensures Dedup(xs)[..|Dedup(xs[..i])|] == Dedup(xs[..i])
    ensures Dedup(xs)[|Dedup(xs[..i])|] == xs[i]
  {
    var p := Dedup(xs[..i]);
    assert xs == xs[..i] + [xs[i]] + xs[i + 1..];
    assert xs[..i] + ([xs[i]] + xs[i + 1..]) == xs;
    DedupFoldAppend([], xs[..i], [xs[i]] + xs[i + 1..]);
    assert ([xs[i]] + xs[i + 1..])[0] == xs[i] && ([xs[i]] + xs[i + 1..])[1..] == xs[i + 1..];
    assert xs[i] !in p;
    var r := DedupFold(p + [xs[i]], xs[i + 1..]);
    assert Dedup(xs) == r;
    assert r[..|p| + 1] == p + [xs[i]];
    assert r[|p|] == (p + [xs[i]])[|p|];
  }

  /** In a list without repeats each element occurs once. */
  lemma {:induction false} DistinctCount(s: seq<string>, x: string)
    requires NoDuplicates(s)
    ensures multiset(s)[x] == if x in s then 1 else 0
  {
    if s != [] {
      var init := s[..|s| - 1];
      assert s == init + [s[|s| - 1]];
      assert NoDuplicates(init);
      assert s[|s| - 1] !in init;
      DistinctCount(init, x);
    }
  }

  /** Every input element occurs in the fold's output exactly once, and
      nothing else does. */
  lemma DedupCount(xs: seq<string>, x: string)
    ensures multiset(Dedup(xs))[x] == if x in xs then 1 else 0
  {
    DistinctCount(Dedup(xs), x);
  }

  /** A post body with the same GitHub link twice and one other link. */
  lemma SampleExtraction()
    ensures ExtractGitHubUrls(["https://github.com/a", "https://github.com/a", "https://x.com"])
            == ["https://github.com/a"]
    ensures ExtractGitHubUrls([]) == []
  {
    var a := "https://github.com/a";
    var hrefs := [a, a, "https://x.com"];
    assert StartsWith(a, GitHubPrefix) by { assert a[..|GitHubPrefix|] == GitHubPrefix; }
    assert !StartsWith("https://x.com", GitHubPrefix);
    assert hrefs[..2][..1] == [a];
    assert hrefs[..2] == [a, a];
    assert hrefs[..1] == [a];
    assert FilterGitHub([a]) == [a];
    assert FilterGitHub([a, a]) == [a, a];
    assert FilterGitHub(hrefs) == [a, a];
    assert [a, a][1..] == [a];
    assert DedupFold([a], [a]) == [a];
  }
}
