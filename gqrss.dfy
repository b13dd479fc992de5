/**
 gqrss: search GitHub for open issues matching a keyword and turn the
 matches into a feed. This module holds the program's own logic: the query
 it sends, the mapping from search results to feed items, and the names of
 the two files the feed is written to.
 */
module Gqrss {
  import Fmt
  import Pointers
  import GitHub
  import Feeds

  // ---------------------------------------------------------------------------
  // The search query

  /** The concatenation of a sequence of text fragments. */
  function Concat(parts: seq<string>): string
    decreases |parts|
  {
    if parts == [] then "" else parts[0] + Concat(parts[1..])
  }

  /** Fragments free of `%` concatenate to text free of `%`. */
  lemma {:induction false} ConcatLiteral(parts: seq<string>)
    requires forall k :: 0 <= k < |parts| ==> '%' !in parts[k]
    ensures '%' !in Concat(parts)
    decreases |parts|
  {
    if parts != [] {
      ConcatLiteral(parts[1..]);
    }
  }

  /** The query text up to the search filter's opening quote. */
  const SearchCall: string := Concat(["\n", "{\n", "  search(first: 100, ", "type: ISSUE, query: \""])

  /** Everything in the query template before its `%s` slot. */
  const QueryHead: string := SearchCall + "state:open "

  /** The lines of the query template after its `%s` slot. */
  const QueryTailLines: seq<string> := [
    "\") {\n",
    "    issueCount\n",
    "    pageInfo {\n",
    "      hasNextPage\n",
    "      endCursor\n",
    "    }\n",
    "    edges {\n",
    "      node {\n",
    "        ... on Issue {\n",
    "          repository {\n",
    "            name\n",
    "            url\n",
    "            stargazerCount\n",
    "          }\n",
    "          createdAt\n",
    "          title\n",
    "          url\n",
    "\t  bodyHTML\n",
    "\t  author {\n",
    "            login\n",
    "            url\n",
    "\t  }\n",
    "        }\n",
    "      }\n",
    "    }\n",
    "  }\n",
    "}\n"]

  /** Everything in the query template after its `%s` slot. */
  const QueryTail: string := Concat(QueryTailLines)

  /** The GraphQL query template, with one `%s` slot for the search keyword. */
  const GhQuery: string := QueryHead + "%s" + QueryTail

  /** The template's text before the slot holds no formatting directive. */
  lemma HeadIsLiteral()
    ensures '%' !in QueryHead
  {
    ConcatLiteral(["\n", "{\n", "  search(first: 100, ", "type: ISSUE, query: \""]);
    assert '%' !in "state:open ";
    assert forall c :: c in QueryHead ==> c in SearchCall || c in "state:open ";
  }

  /** The template's text after the slot holds no formatting directive. */
  lemma TailIsLiteral()
    ensures '%' !in QueryTail
  {
    ConcatLiteral(QueryTailLines);
  }

  /**
   The request body for a keyword: the template with its slot filled. The
   keyword is inserted verbatim, without escaping.
   */
  function BuildQuery(search: string): (q: GitHub.GQLQuery)
    ensures q.query == QueryHead + search + QueryTail
  {
    HeadIsLiteral();
    TailIsLiteral();
    Fmt.FillOne(QueryHead, QueryTail, search);
    GitHub.GQLQuery(Fmt.Sprintf(GhQuery, [search]))
  }

  /** The text after a prefix of a four-part concatenation starts with the next two parts. */
  lemma MiddleAt(a: string, b: string, c: string, d: string)
    ensures |a| + |b + c| <= |a + b + c + d| && (a + b + c + d)[|a|..|a| + |b + c|] == b + c
  {
    assert a + b + c + d == a + (b + c) + d;
  }

  /** With `%` in neither outer part, every `%` of a three-part concatenation lies in the middle. */
  lemma PercentInMiddle(a: string, b: string, c: string)
    requires '%' !in a && '%' !in c
    ensures forall i :: 0 <= i < |a + b + c| && (a + b + c)[i] == '%' ==>
      |a| <= i < |a| + |b| && b[i - |a|] == '%'
    ensures '%' !in b ==> '%' !in a + b + c
  {
    var s := a + b + c;
    forall i | 0 <= i < |a| ensures s[i] != '%' {
      assert s[i] == a[i] && a[i] in a;
    }
    forall i | |a| + |b| <= i < |s| ensures s[i] != '%' {
      assert s[i] == c[i - |a| - |b|] && c[i - |a| - |b|] in c;
    }
    forall i | |a| <= i < |a| + |b| ensures s[i] == b[i - |a|] {
    }
  }

  /** The query filters on `state:open ` followed by the keyword. */
  lemma QueryFiltersOpenIssues(search: string)
    ensures var q := BuildQuery(search).query;
      var at := |SearchCall|;
      at + |"state:open " + search| <= |q| &&
      q[at..at + |"state:open " + search|] == "state:open " + search
  {
    MiddleAt(SearchCall, "state:open ", search, QueryTail);
  }

  /**
   No formatting directive survives in the query: every `%` in it lies
   inside the inserted keyword, so a keyword without `%` yields a query
   without `%`.
   */
  lemma QueryHasNoMarker(search: string)
    ensures var q := BuildQuery(search).query;
      forall i :: 0 <= i < |q| && q[i] == '%' ==>
        |QueryHead| <= i < |QueryHead| + |search| && search[i - |QueryHead|] == '%'
    ensures '%' !in search ==> '%' !in BuildQuery(search).query
  {
    var q := BuildQuery(search).query;
    HeadIsLiteral();
    TailIsLiteral();
    PercentInMiddle(QueryHead, search, QueryTail);
  }

  // ---------------------------------------------------------------------------
  // From search results to feed items

  const ProjectLink: string := "https://github.com/qbit/gqrss"
  const AuthorName: string := "Aaron Bieber"
  const AuthorEmail: string := "aaron@bolddaemon.com"
  const Copyright: string := "This work is copyright \U{A9} Aaron Bieber"

  /** The feed's title for a keyword. */
  function FeedTitle(search: string): (t: string)
    ensures t == search + " GitHub Issues"
  {
    assert '%' !in " GitHub Issues";
    assert [search] == [search] + [];
    assert "%s" + " GitHub Issues" == "%s GitHub Issues";
    Fmt.FillFirst(" GitHub Issues", search, []);
    Fmt.LiteralOnly(" GitHub Issues");
    Fmt.Sprintf("%s GitHub Issues", [search])
  }

  /** The feed's description for a keyword. */
  function FeedDescription(search: string): (d: string)
    ensures d == "Open GitHub issues relating to " + search
  {
    assert '%' !in "Open GitHub issues relating to ";
    assert "Open GitHub issues relating to " + "%s" + "" == "Open GitHub issues relating to %s";
    Fmt.FillOne("Open GitHub issues relating to ", "", search);
    Fmt.Sprintf("Open GitHub issues relating to %s", [search])
  }

  /** The feed for a keyword before any item is added. */
  function FeedHeader(search: string): (f: Feeds.Feed)
    ensures f.title == search + " GitHub Issues"
    ensures f.description == "Open GitHub issues relating to " + search
    ensures f.link == Feeds.Link(ProjectLink)
    ensures f.author == Feeds.Author(AuthorName, AuthorEmail)
    ensures f.copyright == Copyright
    ensures f.items == []
  {
    Feeds.Feed(
      title := FeedTitle(search),
      link := Feeds.Link(ProjectLink),
      description := FeedDescription(search),
      author := Feeds.Author(AuthorName, AuthorEmail),
      copyright := Copyright,
      items := [])
  }

  /** The feed-level fields do not depend on the results, and only title and description on the keyword. */
  lemma HeaderIndependentOfKeyword(s1: string, s2: string)
    ensures FeedHeader(s1).link == FeedHeader(s2).link
    ensures FeedHeader(s1).author == FeedHeader(s2).author
    ensures FeedHeader(s1).copyright == FeedHeader(s2).copyright
    ensures FeedHeader(s1).title == FeedHeader(s2).title <==> s1 == s2
  {
    var t1, t2 := FeedHeader(s1).title, FeedHeader(s2).title;
    if t1 == t2 {
      assert |s1| == |s2|;
      assert s1 == t1[..|s1|] == t2[..|s2|] == s2;
    }
  }

  /** An edge yields an item exactly when its node has a title. */
  predicate Kept(e: GitHub.Edge) {
    e.node.title != ""
  }

  /** The item a node with a title becomes. */
  function ItemOf(n: GitHub.Node): (it: Feeds.Item)
    ensures it.title == n.repository.name + ": " + n.title
    ensures it.link == Feeds.Link(n.url)
    ensures it.created == n.createdAt
    ensures it.description == n.bodyHTML
    ensures it.author == Feeds.Author(n.author.login, "")
  {
    Fmt.FillTwo("", ": ", "", n.repository.name, n.title);
    assert "" + "%s" + ": " + "%s" + "" == "%s: %s";
    Feeds.Item(
      title := Fmt.Sprintf("%s: %s", [n.repository.name, n.title]),
      link := Feeds.Link(n.url),
      created := n.createdAt,
      description := n.bodyHTML,
      author := Feeds.Author(n.author.login, ""))
  }

  /** The items a sequence of edges yields: drop the untitled, map the rest, keep the order. */
  function ItemsOf(edges: seq<GitHub.Edge>): seq<Feeds.Item>
    decreases |edges|
  {
    if edges == [] then []
    else
      var last := edges[|edges| - 1];
      ItemsOf(edges[..|edges| - 1]) + (if Kept(last) then [ItemOf(last.node)] else [])
  }

  /** The positions of the edges that yield an item, in increasing order. */
  function KeptPositions(edges: seq<GitHub.Edge>): seq<nat>
    decreases |edges|
  {
    if edges == [] then []
    else
      var n := |edges| - 1;
      KeptPositions(edges[..n]) + (if Kept(edges[n]) then [n] else [])
  }

  /** The set of positions of edges whose node has a title. */
  ghost function KeptSet(edges: seq<GitHub.Edge>): set<nat> {
    set i: nat | i < |edges| && Kept(edges[i])
  }

  /** Mapping distributes over concatenation of the edge sequence. */
  lemma {:induction false} ItemsOfAppend(a: seq<GitHub.Edge>, b: seq<GitHub.Edge>)
    ensures ItemsOf(a + b) == ItemsOf(a) + ItemsOf(b)
    decreases |b|
  {
    if b == [] {
      assert a + b == a;
    } else {
      var n := |b| - 1;
      assert (a + b)[..|a + b| - 1] == a + b[..n];
      assert (a + b)[|a + b| - 1] == b[n];
      ItemsOfAppend(a, b[..n]);
    }
  }

  /** An edge whose node has an empty title contributes nothing, wherever it stands. */
  lemma UntitledEdgeDropped(before: seq<GitHub.Edge>, e: GitHub.Edge, after: seq<GitHub.Edge>)
    requires e.node.title == ""
    ensures ItemsOf(before + [e] + after) == ItemsOf(before + after)
  {
    ItemsOfAppend(before + [e], after);
    ItemsOfAppend(before, [e]);
    assert ItemsOf([e]) == [] by { assert [e][..0] == []; }
    ItemsOfAppend(before, after);
  }

  /** An edge whose node has a title contributes exactly its item, between those of its neighbours. */
  lemma TitledEdgeKept(before: seq<GitHub.Edge>, e: GitHub.Edge, after: seq<GitHub.Edge>)
    requires e.node.title != ""
    ensures ItemsOf(before + [e] + after) == ItemsOf(before) + [ItemOf(e.node)] + ItemsOf(after)
  {
    ItemsOfAppend(before + [e], after);
    ItemsOfAppend(before, [e]);
    assert ItemsOf([e]) == [ItemOf(e.node)] by { assert [e][..0] == []; }
  }

  /** The number of items is the number of edges whose node has a title. */
  lemma {:induction false} ItemCount(edges: seq<GitHub.Edge>)
    ensures |ItemsOf(edges)| == |KeptSet(edges)|
    decreases |edges|
  {
    if edges == [] {
      assert KeptSet(edges) == {};
    } else {
      var n := |edges| - 1;
      var init := edges[..n];
      ItemCount(init);
      if Kept(edges[n]) {
        assert KeptSet(edges) == KeptSet(init) + {n};
        assert n !in KeptSet(init);
      } else {
        assert KeptSet(edges) == KeptSet(init);
      }
    }
  }

  /**
   `ps` lists exactly the positions of the edges whose node has a title, in
   strictly increasing order.
   */
  ghost predicate TitledPositions(edges: seq<GitHub.Edge>, ps: seq<nat>) {
    && (forall k :: 0 <= k < |ps| ==> ps[k] < |edges| && Kept(edges[ps[k]]))
    && (forall k, l :: 0 <= k < l < |ps| ==> ps[k] < ps[l])
    && (forall i :: 0 <= i < |edges| && Kept(edges[i]) ==> i in ps)
  }

  /** Item k of `items` is the item of the edge at position `ps[k]`. */
  ghost predicate ItemsAt(edges: seq<GitHub.Edge>, items: seq<Feeds.Item>, ps: seq<nat>) {
    && |items| == |ps|
    && forall k :: 0 <= k < |ps| ==> ps[k] < |edges| && items[k] == ItemOf(edges[ps[k]].node)
  }

  /** The kept positions are those of the titled edges, in increasing order. */
  lemma {:induction false} KeptPositionsOrdered(edges: seq<GitHub.Edge>)
    ensures TitledPositions(edges, KeptPositions(edges))
    decreases |edges|
  {
    if edges != [] {
      var n := |edges| - 1;
      var init := edges[..n];
      KeptPositionsOrdered(init);
      var ps0, ps := KeptPositions(init), KeptPositions(edges);
      assert ps == ps0 + (if Kept(edges[n]) then [n] else []);
      forall k | 0 <= k < |ps| ensures ps[k] < |edges| && Kept(edges[ps[k]]) {
        if k < |ps0| {
          assert ps[k] == ps0[k] && edges[ps0[k]] == init[ps0[k]];
        }
      }
      forall k, l | 0 <= k < l < |ps| ensures ps[k] < ps[l] {
        if l == |ps0| {
          assert ps[k] == ps0[k] < n;
        }
      }
      forall i | 0 <= i < |edges| && Kept(edges[i]) ensures i in ps {
        if i < n {
          assert init[i] == edges[i];
          assert i in ps0;
        } else {
          assert ps[|ps| - 1] == n;
        }
      }
    }
  }

  /** Item k is the item of the edge at the k-th kept position. */
  lemma {:induction false} ItemsAtKeptPositions(edges: seq<GitHub.Edge>)
    ensures ItemsAt(edges, ItemsOf(edges), KeptPositions(edges))
    decreases |edges|
  {
    if edges != [] {
      var n := |edges| - 1;
      var init := edges[..n];
      ItemsAtKeptPositions(init);
      var items0, ps0 := ItemsOf(init), KeptPositions(init);
      var items, ps := ItemsOf(edges), KeptPositions(edges);
      assert ps == ps0 + (if Kept(edges[n]) then [n] else []);
      forall k | 0 <= k < |ps| ensures ps[k] < |edges| && items[k] == ItemOf(edges[ps[k]].node) {
        if k < |ps0| {
          assert ps[k] == ps0[k] && items[k] == items0[k];
          assert edges[ps0[k]] == init[ps0[k]];
        }
      }
    }
  }

  /** A search with no titled edge (in particular, no edge at all) yields no item. */
  lemma NoTitledEdgeNoItem(edges: seq<GitHub.Edge>)
    requires forall i :: 0 <= i < |edges| ==> !Kept(edges[i])
    ensures ItemsOf(edges) == []
  {
    ItemCount(edges);
    assert KeptSet(edges) == {};
  }

  // ---------------------------------------------------------------------------
  // Output files

  /** The name of the Atom output file. */
  function AtomPath(prefix: string): (p: string)
    ensures p == prefix + "atom.xml"
  {
    Fmt.FillOne("", "atom.xml", prefix);
    assert "" + "%s" + "atom.xml" == "%satom.xml";
    Fmt.Sprintf("%satom.xml", [prefix])
  }

  /** The name of the RSS output file. */
  function RssPath(prefix: string): (p: string)
    ensures p == prefix + "rss.xml"
  {
    Fmt.FillOne("", "rss.xml", prefix);
    assert "" + "%s" + "rss.xml" == "%srss.xml";
    Fmt.Sprintf("%srss.xml", [prefix])
  }

  /**
   The two outputs never share a name: no prefix's Atom name is any
   prefix's RSS name, and different prefixes give different names.
   */
  lemma OutputPathsDistinct(p1: string, p2: string)
    ensures AtomPath(p1) != RssPath(p2)
    ensures AtomPath(p1) == AtomPath(p2) <==> p1 == p2
    ensures RssPath(p1) == RssPath(p2) <==> p1 == p2
  {
    var a, r := AtomPath(p1), RssPath(p2);
    assert a[|a| - 7] == 't';
    assert r[|r| - 7] == 'r';
    if AtomPath(p1) == AtomPath(p2) {
      assert p1 == AtomPath(p1)[..|p1|] == AtomPath(p2)[..|p2|] == p2;
    }
    if RssPath(p1) == RssPath(p2) {
      assert p1 == RssPath(p1)[..|p1|] == RssPath(p2)[..|p2|] == p2;
    }
  }

  // ---------------------------------------------------------------------------
  // makeRSS

  /**
   Build the feed for a decoded response and name its two output files. The
   response must not be nil: the program dereferences it unchecked. Edges are
   visited in order; an edge whose node has no title is skipped, every other
   one appends its item to the feed.
   */
  method MakeRSS(q: Pointers.Ptr<GitHub.Response>, search: string, prefix: string)
    returns (feed: Feeds.Feed, atomPath: string, rssPath: string)
    requires q.Ref?
    ensures feed == FeedHeader(search).(items := ItemsOf(q.target.data.search.edges))
    ensures |feed.items| == |KeptSet(q.target.data.search.edges)|
    ensures atomPath == prefix + "atom.xml" && rssPath == prefix + "rss.xml"
    ensures atomPath != rssPath
  {
    feed := FeedHeader(search);
    var edges := q.target.data.search.edges;
    for i := 0 to |edges|
      invariant feed == FeedHeader(search).(items := ItemsOf(edges[..i]))
    {
      var e := edges[i];
      assert edges[..i + 1][..i] == edges[..i];
      if e.node.title == "" {
        continue;
      }
      var f := ItemOf(e.node);
      feed := feed.(items := feed.items + [f]);
    }
    assert edges[..|edges|] == edges;
    ItemCount(edges);
    atomPath := AtomPath(prefix);
    rssPath := RssPath(prefix);
    OutputPathsDistinct(prefix, prefix);
  }

  // ---------------------------------------------------------------------------
  // main

  /**
   One run of the program for the given flag values. Fetching is done by
   `getData`, outside this model. Its error is only reported, never acted on,
   so the feed depends on the response alone, and the response must not be
   nil for the run to get past `MakeRSS`.
   */
  method Run(search: string, prefix: string, getData: GitHub.GQLQuery -> GitHub.FetchResult)
    returns (feed: Feeds.Feed, atomPath: string, rssPath: string)
    requires getData(BuildQuery(search)).response.Ref?
    ensures var resp := getData(BuildQuery(search)).response.target;
      feed == FeedHeader(search).(items := ItemsOf(resp.data.search.edges))
    ensures atomPath == prefix + "atom.xml" && rssPath == prefix + "rss.xml"
  {
    var q := BuildQuery(search);
    var fetched := getData(q);
    feed, atomPath, rssPath := MakeRSS(fetched.response, search, prefix);
  }
}
