# gqrss in Dafny

gqrss searches GitHub's GraphQL API for open issues that match a keyword and
writes the matches as two feeds: an Atom file and an RSS file. This project
models the program's own logic and proves its properties:

- **Query builder.** A fixed GraphQL template has one `%s` slot. `fmt.Sprintf`
  fills it with the keyword, giving the filter `state:open <keyword>`.
- **Feed mapper** (`makeRSS`). It walks the search edges in order and skips
  every node whose title is empty. Each remaining node becomes one feed item
  titled `<repository name>: <issue title>`. The item copies the node's URL,
  its creation time, its HTML body (verbatim, unescaped) and its author's login.
  The feed's own title and description come from the keyword. Its link, author
  and copyright are constants.
- **Output names.** The feed goes to `<prefix>atom.xml` and `<prefix>rss.xml`.

Files:

- `fmt.dfy`, module `Fmt`: the part of Go's `fmt.Sprintf` that the program
  uses. It renders `%s`, `%%`, a trailing `%` (`%!(NOVERB)`), a missing
  argument (`%!s(MISSING)`) and surplus arguments
  (`%!(EXTRA string=…, …)`). The lemmas show that filling a template whose
  literal text has no `%` is plain concatenation.
- `github.dfy`, modules `Time`, `Pointers` and `GitHub`: the decoded response
  (`Repository`, `Author`, `Node`, `Edge`, `PageInfo`, `Search`, `Data`,
  `Response`), the request body `GQLQuery`, an opaque `time.Time`, and a
  nil-able pointer `Ptr`.
- `feeds.dfy`, module `Feeds`: the `gorilla/feeds` records, reduced to the
  fields the program sets (`Link`, `Author`, `Item`, `Feed`).
- `gqrss.dfy`, module `Gqrss`: the query template and `BuildQuery`, the
  mapping (`ItemOf`, `ItemsOf`, `FeedHeader`), the imperative `MakeRSS` loop,
  the output names and `Run` (the body of `main`).

`MakeRSS` is a method with a loop, like `makeRSS`. Its loop invariant says the
feed built so far is `FeedHeader(search)` whose items are `ItemsOf` of the
edges visited so far. `ItemsOf` is the pure filter-then-map specification, and
the lemmas about it give the count, exclusion, order and field properties.

The response pointer `*GHResp` is modelled as `Ptr<Response>`. `makeRSS`
dereferences it without a check. `main` calls `makeRSS` even after `getData`
fails, and `getData` returns nil on failure. It also returns nil with no error
when the body is the JSON `null`. So `MakeRSS` and `Run` *require* a non-nil
response. That requirement is the crash path of the source, made explicit.

## Model

| member | source | states |
|---|---|---|
| `Fmt.FillOne` | main.go:195 | filling the single `%s` of a template whose literal parts contain no `%` inserts the argument verbatim between them |
| `Fmt.FillTwo` | main.go:158 | filling two `%s` slots inserts the two arguments, in order, between the literal parts |
| `Gqrss.HeadIsLiteral` | main.go:80 | the template text before the slot contains no formatting directive |
| `Gqrss.TailIsLiteral` | main.go:80-106 | the template text after the slot contains no formatting directive |
| `Gqrss.BuildQuery` | main.go:194-195 | the request's query is the template head, then the keyword unchanged, then the template tail |
| `Gqrss.QueryFiltersOpenIssues` | main.go:80 | the built query contains `state:open ` immediately followed by the keyword, at the position of the search filter |
| `Gqrss.QueryHasNoMarker` | main.go:195 | every `%` in the built query lies inside the inserted keyword; a keyword without `%` gives a query without `%` |
| `Gqrss.FeedTitle` | main.go:145 | the feed title is the keyword followed by ` GitHub Issues` |
| `Gqrss.FeedDescription` | main.go:147 | the feed description is `Open GitHub issues relating to ` followed by the keyword |
| `Gqrss.FeedHeader` | main.go:144-150 | the initial feed has the derived title and description, the fixed link, author and copyright, and no items |
| `Gqrss.HeaderIndependentOfKeyword` | main.go:144-150 | link, author and copyright are the same for every keyword; two keywords give the same title exactly when they are equal |
| `Gqrss.ItemOf` | main.go:157-165 | an item's title is the repository name, `": "`, then the issue title; its link, creation time, description and author name are the node's URL, `createdAt`, `bodyHTML` and author login, copied unchanged |
| `Gqrss.ItemsOfAppend` | main.go:152-168 | the items of concatenated edge sequences are the concatenation of their items, so each edge's contribution is independent of the others |
| `Gqrss.UntitledEdgeDropped` | main.go:153-155 | an edge whose node title is empty contributes no item, wherever it stands |
| `Gqrss.TitledEdgeKept` | main.go:157-167 | an edge whose node has a title contributes exactly its own item, between the items of the edges before and after it |
| `Gqrss.ItemCount` | main.go:152-168 | the number of items equals the number of edges whose node title is non-empty |
| `Gqrss.KeptPositionsOrdered` | main.go:152-155 | the kept positions are exactly the positions of the edges whose node has a title, listed in strictly increasing order |
| `Gqrss.ItemsAtKeptPositions` | main.go:152-167 | there is one item per kept position, and item k is the item of the edge at the k-th kept position, so items keep the order of their edges |
| `Gqrss.NoTitledEdgeNoItem` | main.go:152-168 | a search with no titled edge, in particular an empty one, yields no items |
| `Gqrss.AtomPath` | main.go:170 | the Atom file name is the prefix followed by `atom.xml` |
| `Gqrss.RssPath` | main.go:175 | the RSS file name is the prefix followed by `rss.xml` |
| `Gqrss.OutputPathsDistinct` | main.go:170-175 | no prefix's Atom name equals any prefix's RSS name; each name determines its prefix |
| `Gqrss.MakeRSS` | main.go:143-175 | for a non-nil response, the feed is the header for the keyword with `ItemsOf` the edges as its items; the item count is the number of titled edges; the two file names are prefix + `atom.xml` and prefix + `rss.xml`, and they differ |
| `Gqrss.Run` | main.go:194-202 | the feed depends only on the response fetched for the built query, not on the fetch error; the run needs that response to be non-nil |

## Left out

- `getData` (main.go:109-141): JSON encoding, the HTTP POST, the
  `GH_AUTH_TOKEN` environment variable and JSON decoding are I/O. `Run`
  takes the fetch as a function parameter.
- Printing the fetch error (main.go:198-200) is output only and has no effect
  on the run, so it is not modelled.
- Creating the two files and `log.Fatal` (main.go:170-178) are file-system
  side effects and process exit. The model computes the two names only. The
  Atom file is created first, so a failure to create the RSS file leaves the
  Atom file behind.
- `feed.WriteAtom` and `feed.WriteRss` (main.go:180-181): the Atom and RSS
  serialisation happens inside `gorilla/feeds`, which is not part of this
  model.
- `protect.Unveil`, `protect.Pledge` and `protect.UnveilBlock`
  (main.go:188-192) are OpenBSD system calls.
- Flag parsing (main.go:185-187) is left out. `search` and `prefix` are plain
  parameters, and their defaults (`OpenBSD` and the empty string) are not
  modelled.
- `time.Time` is opaque and only copied.
- Go strings are byte sequences. Here they are sequences of characters.
  Nothing in the mapping inspects or splits characters, so the two agree.
- `Fmt.Sprintf`: verbs other than `%s` and `%%` are copied literally rather
  than formatted, and width, flag and precision modifiers are not
  interpreted. No format string in main.go uses them.
- `PageInfo`, `IssueCount` and `StargazerCount` (main.go:31-35, 41, 61-62) are
  decoded but never used. They are fields of the datatypes and nothing more.
- `gorilla/feeds` pointers (`*Link`, `*Author`) are held by value, because the
  program never leaves them nil. Fields of `feeds.Feed` and `feeds.Item` that
  the program does not set are omitted.
