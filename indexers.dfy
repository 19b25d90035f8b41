/** The two release sources of the download handler: the query sent to the
    indexer aggregator (Prowlarr) and the first hit of the private tracker (MAM). */
module Indexers {
  import opened Options

  /** An author is added to the query when it is a non-empty string other than
      the placeholder 'Unknown'. */
  predicate AuthorUsable(author: Option<string>) {
    Truthy(author) && author.value != "Unknown"
  }

  /** The query of `searchProwlarr`: the title, followed by a space and the
      author when the author is usable. */
  function SearchQuery(title: string, author: Option<string>): (q: string)
    ensures title <= q
    ensures q == title <==> !AuthorUsable(author)
    ensures AuthorUsable(author) ==> q[|title|] == ' ' && q[|title| + 1..] == author.value
  {
    if AuthorUsable(author) then title + " " + author.value else title
  }

  /** One torrent record of a MAM search response. */
  datatype MamHit = MamHit(id: string, dl: string, title: string, size: string, seeders: int)

  /** How the MAM search request ends: an error (network failure or non-2xx), or
      a response whose body may or may not hold a `data` array. */
  datatype MamReply = MamUnreachable | MamBody(data: Option<seq<MamHit>>)

  /** `searchMAM`: nothing when MAM is not configured, when the request fails or
      when `data` is absent or empty; otherwise the first record of `data`. */
  function SearchMam(configured: bool, reply: MamReply): (hit: Option<MamHit>)
    ensures hit.Some? <==> configured && reply.MamBody? && reply.data.Some? && reply.data.value != []
    ensures hit.Some? ==> hit.value == reply.data.value[0]
  {
    if !configured then None
    else match reply
      case MamUnreachable => None
      case MamBody(data) => if data.Some? && |data.value| > 0 then Some(data.value[0]) else None
  }
}
