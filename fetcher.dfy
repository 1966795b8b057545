/**
  The ranking-API side of the script: the product record and how the single
  reply to the "top post by votes" query turns into a product or nothing.
  The HTTP request and JSON decoding are not modelled; the reply arrives
  already decoded as far as the `data.posts.edges` list.
 */
module Fetcher {
  import opened Wrappers

  /** One post of the ranking API (the `node` of an edge). */
  datatype Product = Product(
    name: string,
    tagline: string,
    description: string,
    url: string,
    votesCount: int,
    website: string)

  /**
    A reply that arrived: its HTTP status and, when the body has the
    `data.posts.edges` shape, the nodes of that list in order.
   */
  datatype Reply = Reply(status: int, edges: Option<seq<Product>>)

  const Endpoint: string := "https://api.producthunt.com/v2/api/graphql"

  /** The `Authorization` header value: the bearer scheme, then the token intact. */
  function Authorization(token: string): (r: string)
    ensures |r| == 7 + |token| && r[..7] == "Bearer " && r[7..] == token
  {
    "Bearer " + token
  }

  /** Whether `raise_for_status()` raises: any 4xx or 5xx status. */
  predicate IsHttpError(status: int)
  {
    400 <= status < 600
  }

  /**
    The value `get_top_product` returns for a reply (`None` when the request
    itself raised): the first node of the list, or nothing when the status is
    an error, the body has the wrong shape or the list is empty.
   */
  function TopProduct(reply: Option<Reply>): (r: Option<Product>)
    ensures r.Some? <==>
      && reply.Some?
      && !IsHttpError(reply.value.status)
      && reply.value.edges.Some?
      && reply.value.edges.value != []
    ensures r.Some? ==> r.value == reply.value.edges.value[0]
  {
    match reply
    case None => None
    case Some(rep) =>
      if IsHttpError(rep.status) then None
      else match rep.edges
        case None => None
        case Some(nodes) => if nodes == [] then None else Some(nodes[0])
  }
}
