/** The branch of the post component (`PostComponent`) that picks what to
    render, and the derived values the loaded view shows. The fetch hook
    is given as its current `(data, error)` pair; the HTML parser and the
    URL parser as functions from text to their outcomes. */
module PostView {
  import opened Wrappers
  import opened Strings
  import opened BlogClass
  import opened GitHubLinks

  /** Attribution metadata of the blog a post comes from. */
  datatype Feed = Feed(author: string, link: string)

  /** A post as the backend returns it. */
  datatype Post = Post(id: string, title: string, url: string, html: string,
                       updated: string, feed: Feed)

  /** The three views: the failure notice, the spinner, and the post with
      the GitHub links found in its body and the class of its blog host. */
  datatype View =
    | Errored
    | Loading
    | Loaded(post: Post, gitHubUrls: seq<string>, blogClassName: string)

  /** `post?.html ? extractGitHubUrlsFromPost(post.html) : []`: the
      extractor runs only on a present, non-empty body (the empty string is
      falsy); anchorsOf stands for parsing the body and listing the hrefs
      of its anchors in document order. */
  function ExtractedGitHubUrls(post: Option<Post>, anchorsOf: string -> seq<string>): (r: seq<string>)
    ensures post.None? || post.value.html == "" ==> r == []
    ensures NoDuplicates(r)
    ensures forall i :: 0 <= i < |r| ==> StartsWith(r[i], GitHubPrefix)
    ensures post.Some? && post.value.html != "" ==>
      forall x :: x in r <==> x in anchorsOf(post.value.html) && StartsWith(x, GitHubPrefix)
  {
    if post.Some? && post.value.html != "" then ExtractGitHubUrls(anchorsOf(post.value.html)) else []
  }

  /** The early returns of the component: an error wins over everything,
      then a missing post means loading, and only a post with no error is
      shown. */
  function SelectView<E>(data: Option<Post>, error: Option<E>,
                         anchorsOf: string -> seq<string>,
                         hostOf: string -> Option<string>): (v: View)
    ensures error.Some? ==> v == Errored
    ensures v == Loading <==> error.None? && data.None?
    ensures v.Loaded? <==> error.None? && data.Some?
    ensures v.Loaded? ==> v.post == data.value
    ensures v.Loaded? ==> v.gitHubUrls == ExtractedGitHubUrls(data, anchorsOf)
    ensures v.Loaded? ==> v.blogClassName == ExtractBlogClassName(data.value.url, hostOf)
    ensures v.Loaded? ==> v.blogClassName in ClassNames
    ensures v.Loaded? ==> NoDuplicates(v.gitHubUrls)
    ensures v.Loaded? ==> forall i :: 0 <= i < |v.gitHubUrls| ==> StartsWith(v.gitHubUrls[i], GitHubPrefix)
    ensures v.Loaded? && data.value.html == "" ==> v.gitHubUrls == []
    ensures v.Loaded? && hostOf(data.value.url).None? ==> v.blogClassName == "is-generic"
  {
    if error.Some? then Errored
    else if data.None? then Loading
    else Loaded(data.value, ExtractedGitHubUrls(data, anchorsOf),
                ExtractBlogClassName(data.value.url, hostOf))
  }

  /** The loaded view's links are the ones found in the body, in the order
      of their first appearance in the document. */
  lemma LoadedLinksInDocumentOrder<E>(data: Option<Post>, error: Option<E>,
                                      anchorsOf: string -> seq<string>,
                                      hostOf: string -> Option<string>)
    requires error.None? && data.Some? && data.value.html != ""
    ensures IsSubsequence(SelectView(data, error, anchorsOf, hostOf).gitHubUrls,
                          anchorsOf(data.value.html))
    ensures SelectView(data, error, anchorsOf, hostOf).gitHubUrls
            == FirstOccurrences(FilterGitHub(anchorsOf(data.value.html)))
  {
    ExtractIsSubsequence(anchorsOf(data.value.html));
    ExtractIsFirstOccurrences(anchorsOf(data.value.html));
  }
}
