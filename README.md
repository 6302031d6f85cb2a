# Post view logic of Telescope's web front end

Telescope's web front end shows each blog post with `PostComponent`
(`src/web/src/components/Posts/Post.tsx`). Almost all of that file is
presentation. This project models the three pieces of real logic in it
and proves properties about them.

- **Blog host classifier** (`extractBlogClassName`), module `BlogClass`.
  It maps the hostname of a post URL to `is-medium`, `is-devto`,
  `is-blogspot` or `is-generic` by raw suffix tests, in that order. A URL
  that does not parse gives `is-generic`. The URL parser is given as its
  outcome: `Some(hostname)`, or `None` when the `URL` constructor throws.
- **GitHub link extraction** (`extractGitHubUrlsFromPost`), module
  `GitHubLinks`. The anchor hrefs of the post body, in document order,
  are kept when they start with `https://github.com`. Repeats are then
  dropped by the source's left fold, which appends an href only if the
  accumulator does not already hold it. The HTML parse and the anchor
  query are given as their outcome, the sequence of hrefs.
- **Render-branch choice** in `PostComponent`, module `PostView`. From
  the fetched `(data, error)` pair the component shows the error view,
  else the loading view, else the post. The loaded view carries the
  extracted GitHub links and the blog class name.

`Wrappers` holds the `Option` type. `Strings` holds JavaScript's
`startsWith` and `endsWith` on `seq<char>`.

Two structural facts come out of the proofs.
- No hostname can end with two of the three suffixes. So the priority
  order of the if-chain never changes the result (`ClassifyBySuffix`).
- The fold keeps exactly the positions whose element has not occurred
  earlier (`DedupIsFirstOccurrences`). The order of the extracted links
  and their being a subsequence of the document follow from that. That
  each element occurs once, and that the fold is idempotent, follow from
  its contract saying it introduces no repeats (`DedupCount`,
  `DedupIdempotent`).

Three facts about the component shape the model.
- An error takes precedence even when data is also present: line 268 is
  tested before line 287.
- The loading/error/loaded choice has no transitions inside the
  component: it maps the current `(data, error)` pair to a view, and that
  is all `SelectView` models.
- The extractor is never called on a falsy body (line 264).
  `ExtractedGitHubUrls` models that guard.

## Model

| member | source | states |
|---|---|---|
| BlogClass.Classify | src/web/src/components/Posts/Post.tsx:218-233 | a failed parse is Generic; a host ending in medium.com is Medium whatever else holds; DevTo only when not medium.com and ending in dev.to; Blogspot only when neither of those and ending in blogspot.com; Generic exactly when no suffix matches or the parse failed |
| BlogClass.ClassName | src/web/src/components/Posts/Post.tsx:221-232 | every tag maps to one of the four class names |
| BlogClass.ExtractBlogClassName | src/web/src/components/Posts/Post.tsx:218-234 | never fails: the result is always one of the four class names; is-medium exactly when the parsed host ends in medium.com, is-devto exactly when it ends in dev.to but not medium.com, is-blogspot exactly when it ends in blogspot.com and neither of the others, is-generic exactly when the parse failed or no suffix matches |
| BlogClass.ClassNameBijective | src/web/src/components/Posts/Post.tsx:221-232 | distinct tags give distinct class names and every class name is reached, so exactly one of the four is chosen |
| BlogClass.SuffixesExclusive | src/web/src/components/Posts/Post.tsx:221-229 | no hostname ends with two of medium.com, dev.to, blogspot.com |
| BlogClass.ClassifyBySuffix | src/web/src/components/Posts/Post.tsx:221-230 | a host gets a platform tag if and only if it ends with that platform's suffix, so the tag does not depend on the test order |
| BlogClass.RawSuffixMatch | src/web/src/components/Posts/Post.tsx:224-229 | the match is a raw character suffix, not a domain-label boundary: any string followed by a platform suffix gets that platform's tag |
| BlogClass.SamplePlatformHosts | src/web/src/components/Posts/Post.tsx:221-229 | medium.com, sub.dev.to, xdev.to and myblog.blogspot.com get Medium, DevTo, DevTo and Blogspot |
| BlogClass.SampleGenericHosts | src/web/src/components/Posts/Post.tsx:230-233 | example.org and a failed parse get Generic |
| GitHubLinks.FilterGitHub | src/web/src/components/Posts/Post.tsx:240-244 | an href is kept if and only if it occurs in the input and starts with https://github.com; the kept hrefs are a subsequence of the input |
| GitHubLinks.FilterGitHubCounts | src/web/src/components/Posts/Post.tsx:240-244 | every occurrence of a prefixed href is kept (same count) and no occurrence of any other href |
| GitHubLinks.DedupFold | src/web/src/components/Posts/Post.tsx:247-250 | the accumulator stays a prefix of the result; the result's elements are those of the accumulator and the input; no repeats are introduced |
| GitHubLinks.Dedup | src/web/src/components/Posts/Post.tsx:247-250 | the result has no repeats and has exactly the input's elements |
| GitHubLinks.ExtractGitHubUrls | src/web/src/components/Posts/Post.tsx:236-251 | every extracted link starts with https://github.com; every input href with that prefix is extracted and nothing else; no link twice |
| GitHubLinks.FirstOccurrences | src/web/src/components/Posts/Post.tsx:247-250 | reference definition (keep position i when its element does not occur earlier): same elements as the input, and a subsequence of it |
| GitHubLinks.DedupIsFirstOccurrences | src/web/src/components/Posts/Post.tsx:247-250 | the source's fold equals the reference definition of first occurrences |
| GitHubLinks.DedupIsSubsequence | src/web/src/components/Posts/Post.tsx:247-250 | the fold's result is a subsequence of its input |
| GitHubLinks.ExtractIsFirstOccurrences | src/web/src/components/Posts/Post.tsx:240-250 | the extracted links are the first occurrences of the selected hrefs, in document order |
| GitHubLinks.ExtractIsSubsequence | src/web/src/components/Posts/Post.tsx:240-250 | the extracted links appear in the document in the same order |
| GitHubLinks.KeptAtFirstPosition | src/web/src/components/Posts/Post.tsx:247-250 | an element first seen at position i sits in the output right after what the fold keeps from the positions before i |
| GitHubLinks.DedupCount | src/web/src/components/Posts/Post.tsx:247-250 | each input element occurs exactly once in the output, and no other element occurs |
| GitHubLinks.DedupFoldDistinct | src/web/src/components/Posts/Post.tsx:247-250 | a list without repeats passes the fold unchanged |
| GitHubLinks.DedupIdempotent | src/web/src/components/Posts/Post.tsx:247-250 | applying the fold twice gives the same result as once |
| GitHubLinks.FilterGitHubKeepsLinks | src/web/src/components/Posts/Post.tsx:242 | hrefs that all carry the prefix pass the selector unchanged |
| GitHubLinks.ExtractIdempotent | src/web/src/components/Posts/Post.tsx:236-251 | extracting from the extracted links gives them back unchanged |
| GitHubLinks.SampleExtraction | src/web/src/components/Posts/Post.tsx:236-251 | the same GitHub link twice plus https://x.com gives that link once; no anchors give no links |
| PostView.ExtractedGitHubUrls | src/web/src/components/Posts/Post.tsx:263-266 | an absent post or an empty body gives no links; otherwise the links are the prefixed hrefs of the body, each once |
| PostView.SelectView | src/web/src/components/Posts/Post.tsx:263-380 | an error always gives the error view, even with data; no error and no data gives loading; only data without error gives the loaded view, which shows that post, the links extracted from its body (line 372; distinct, prefixed, empty for an empty body) and the class name of its url (line 378; one of the four) |
| PostView.LoadedLinksInDocumentOrder | src/web/src/components/Posts/Post.tsx:263-266 | the loaded view's links are a subsequence of the body's anchor hrefs, and are exactly the first occurrences of its GitHub hrefs in document order |

## Left out

- `formatPublishedDate` (lines 209-216): it is a wrapper over `Date` and `Intl.DateTimeFormat` locale formatting, library code whose behaviour cannot be stated here.
- The `URL` constructor and `.hostname` (line 220): this is library parsing, so it is a parameter `hostOf: string -> Option<string>`. `None` stands for the throw caught at line 231.
- `DOMParser`, `querySelectorAll` and `.href` (lines 237-243): these are browser calls, so they are a parameter `anchorsOf: string -> seq<string>`. The model takes the resolved `.href` property to equal the `href` attribute the selector tests; browser URL normalisation is not modelled.
- `useSWR` fetching and `console.error` (lines 260, 269): this is network and cache I/O, so only the current `(data, error)` pair is an input. The error is an `Option`, so a falsy error value is not distinguished from no error.
- `useMemo` memoisation, `useState`/`useRef` and `dangerouslySetInnerHTML` (lines 258-266, 329-330, 379): these are React runtime and UI state; the memoised value is computed directly.
- Styles, JSX layout, the desktop/mobile split, the post-count chip and whether `GitHubInfo` is shown (lines 29-207, 306-383): presentation only.
- The fetch life cycle (a new `postUrl` restarting at loading): it belongs to the fetch library; the component only maps the current pair to a view.
