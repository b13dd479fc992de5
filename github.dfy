/** The subset of Go's `time` package the program touches. */
module Time {

  /**
   A `time.Time` as decoded from the `createdAt` field. The program never
   inspects it, only copies it into a feed item, so its contents are opaque.
   */
  datatype Time = Time(instant: int)
}

/** A pointer that may be nil. */
module Pointers {

  datatype Ptr<T> = Nil | Ref(target: T)
}

/** The request sent to, and the decoded response of, GitHub's GraphQL search API. */
module GitHub {
  import Time
  import Pointers

  /** The body of the POST request: `{"query": "..."}`. */
  datatype GQLQuery = GQLQuery(query: string)

  /** Pagination information; fetched, never consulted. */
  datatype PageInfo = PageInfo(hasNextPage: bool, endCursor: string)

  /** The repository an issue belongs to. */
  datatype Repository = Repository(name: string, url: string, stargazerCount: int)

  /** The author of an issue. */
  datatype Author = Author(login: string, url: string)

  /** One matched issue. A node that is not an issue decodes with an empty title. */
  datatype Node = Node(
    repository: Repository,
    createdAt: Time.Time,
    title: string,
    url: string,
    author: Author,
    bodyHTML: string)

  /** One search edge, holding one node. */
  datatype Edge = Edge(node: Node)

  /** The search result: count, pagination and the ordered edges. */
  datatype Search = Search(issueCount: int, pageInfo: PageInfo, edges: seq<Edge>)

  datatype Data = Data(search: Search)

  /** The whole decoded response. */
  datatype Response = Response(data: Data)

  /**
   What fetching a query yields: the decoded response and the error, either
   of which may be nil. A failed fetch yields a nil response; so does a
   successful one whose body is the JSON `null`.
   */
  datatype FetchResult = FetchResult(response: Pointers.Ptr<Response>, err: Pointers.Ptr<string>)
}
