/** The book search route: the Hardcover GraphQL response turned into the list of
    books sent back to the caller. */
module Hardcover {
  import opened Options

  /** The response body `data.search.results.hits[]`, each level optional; `D` is
      the type of a hit's `document`, passed through untouched. */
  datatype Hit<D> = Hit(document: D)
  datatype Results<D> = Results(hits: Option<seq<Hit<D>>>)
  datatype SearchField<D> = SearchField(results: Option<Results<D>>)
  datatype GraphData<D> = GraphData(search: Option<SearchField<D>>)

  /** How the GraphQL request ends: an error with its message, or a body that
      may carry an `errors` field and may carry `data`. */
  datatype HardcoverReply<D> = HardcoverFailed(message: string) | HardcoverBody(errors: bool, data: Option<GraphData<D>>)

  /** The reply of `POST /api/search`. */
  datatype SearchReply<D> = Books(books: seq<D>) | SearchRefused(status: nat, error: string)

  /** `hits.map(hit => hit.document)`. */
  function Documents<D>(hits: seq<Hit<D>>): (docs: seq<D>)
    ensures |docs| == |hits|
    ensures forall i :: 0 <= i < |hits| ==> docs[i] == hits[i].document
  {
    if hits == [] then [] else [hits[0].document] + Documents(hits[1..])
  }

  /** `data?.search?.results || {}` then `.hits || []`: the hits, or none when any
      level of the path is missing. */
  function HitsOf<D>(data: Option<GraphData<D>>): (hits: seq<Hit<D>>)
    ensures hits != [] ==> && data.Some? && data.value.search.Some?
                           && data.value.search.value.results.Some?
                           && data.value.search.value.results.value.hits == Some(hits)
    ensures data.Some? && data.value.search.Some? && data.value.search.value.results.Some?
            && data.value.search.value.results.value.hits.Some? ==>
              hits == data.value.search.value.results.value.hits.value
  {
    if data.Some? && data.value.search.Some? && data.value.search.value.results.Some?
       && data.value.search.value.results.value.hits.Some?
    then data.value.search.value.results.value.hits.value
    else []
  }

  /** `POST /api/search`: 400 without a query, 500 when the request fails or the
      body reports GraphQL errors, and otherwise the documents of the hits. */
  function SearchBooks<D>(query: Option<string>, reply: HardcoverReply<D>): (r: SearchReply<D>)
    ensures !Truthy(query) ==> r == SearchRefused(400, "Search query is required")
    ensures Truthy(query) && reply.HardcoverFailed? ==> r == SearchRefused(500, reply.message)
    ensures Truthy(query) && reply.HardcoverBody? && reply.errors ==> r == SearchRefused(500, "Hardcover API error")
    ensures r.Books? <==> Truthy(query) && reply.HardcoverBody? && !reply.errors
    ensures r.Books? ==> |r.books| == |HitsOf(reply.data)|
    ensures r.Books? ==> forall i :: 0 <= i < |r.books| ==> r.books[i] == HitsOf(reply.data)[i].document
  {
    if !Truthy(query) then SearchRefused(400, "Search query is required")
    else match reply
      case HardcoverFailed(message) => SearchRefused(500, message)
      case HardcoverBody(errors, data) =>
        if errors then SearchRefused(500, "Hardcover API error")
        else Books(Documents(HitsOf(data)))
  }

  /** A search that finds nothing is a success with an empty book list, whether
      the hit list is empty or missing, and not an error. */
  lemma NoHitsIsEmptySuccess<D>(query: string, data: Option<GraphData<D>>)
    requires query != "" && HitsOf(data) == []
    ensures SearchBooks(Some(query), HardcoverBody(false, data)) == Books([])
  {
  }
}
