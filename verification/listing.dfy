/** The listing fetcher (`fetch_schools`): cursor-based forward pagination over
    the catalogue's GraphQL connection.

    The HTTP exchange is replaced by a finite sequence of already-decoded
    response pages; request n receives `pages[n]`. A request issued after the
    sequence is used up gets no response, which the model reports as an error. */
module Listing {
  import opened Wrappers
  import opened Seqs

  /** A pagination cursor; `None` is JSON `null`, which the first request sends. */
  type Cursor = Option<string>

  /** One result of the connection: a catalogue node and the cursor placed after it. */
  datatype Edge<N> = Edge(node: N, cursor: Cursor)

  /** One decoded response: `products.edges` and `products.pageInfo.hasNextPage`
      (`None` when the flag is absent). */
  datatype Page<N> = Page(edges: seq<Edge<N>>, hasNextPage: Option<bool>)

  /** A completed fetch: the accumulated nodes and the cursor sent with each request. */
  datatype Fetched<N> = Fetched(schools: seq<N>, sent: seq<Cursor>)

  datatype FetchError =
    /** The server was asked for another page after its last one. */
    NoResponse

  /** Whether a page asks for another request: `hasNextPage` present and true. */
  predicate Continues<N>(p: Page<N>)
  {
    p.hasNextPage == Some(true)
  }

  /** The nodes of a page's edges, in edge order. */
  function NodesOf<N>(edges: seq<Edge<N>>): (r: seq<N>)
    ensures |r| == |edges|
    ensures forall i | 0 <= i < |edges| :: r[i] == edges[i].node
  {
    seq(|edges|, i requires 0 <= i < |edges| => edges[i].node)
  }

  /** The node lists of the given pages, one per page. */
  function PageNodes<N>(pages: seq<Page<N>>): (r: seq<seq<N>>)
    ensures |r| == |pages|
    ensures forall i | 0 <= i < |pages| :: r[i] == NodesOf(pages[i].edges)
  {
    seq(|pages|, i requires 0 <= i < |pages| => NodesOf(pages[i].edges))
  }

  /** The cursor to send after `p` when `c` was sent with it: the cursor of the
      page's last edge, or `c` unchanged when the page has no edges. */
  function Advance<N>(c: Cursor, p: Page<N>): (next: Cursor)
    ensures |p.edges| == 0 ==> next == c
    ensures |p.edges| > 0 ==> next == p.edges[|p.edges| - 1].cursor
  {
    if |p.edges| > 0 then p.edges[|p.edges| - 1].cursor else c
  }

  /** `sent` is the cursor sequence of requests 0 .. |sent|-1 over `pages`: null first,
      then each cursor advanced over the previous page. */
  predicate CursorChain<N>(pages: seq<Page<N>>, sent: seq<Cursor>)
    requires |sent| <= |pages|
  {
    && (|sent| > 0 ==> sent[0] == None)
    && forall n | 0 <= n < |sent| - 1 :: sent[n + 1] == Advance(sent[n], pages[n])
  }

  /** Every page before index `k` continues. */
  predicate AllContinue<N>(pages: seq<Page<N>>, k: nat)
    requires k <= |pages|
  {
    forall n | 0 <= n < k :: Continues(pages[n])
  }

  /** Consuming page i appends its nodes to those of the pages before it. */
  lemma JoinPageNodesStep<N>(pages: seq<Page<N>>, i: nat)
    requires i < |pages|
    ensures Join(PageNodes(pages[..i + 1])) == Join(PageNodes(pages[..i])) + NodesOf(pages[i].edges)
  {
    assert pages[..i + 1][..i] == pages[..i];
    assert PageNodes(pages[..i + 1])[..i] == PageNodes(pages[..i]);
  }

  /** A chain extends by the cursor advanced over the last page it covers. */
  lemma CursorChainExtend<N>(pages: seq<Page<N>>, sent: seq<Cursor>, c: Cursor)
    requires |sent| < |pages|
    requires CursorChain(pages, sent)
    requires c == if |sent| == 0 then None else Advance(sent[|sent| - 1], pages[|sent| - 1])
    ensures CursorChain(pages, sent + [c])
  {
    var ext := sent + [c];
    forall n | 0 <= n < |ext| - 1
      ensures ext[n + 1] == Advance(ext[n], pages[n])
    {
      if n + 1 < |sent| {
        assert ext[n + 1] == sent[n + 1] && ext[n] == sent[n];
      }
    }
  }

  /** Appends the nodes of `edges` to `schools`, one edge at a time. */
  method AppendNodes<N>(schools: seq<N>, edges: seq<Edge<N>>) returns (r: seq<N>)
    ensures r == schools + NodesOf(edges)
  {
    r := schools;
    var j := 0;
    while j < |edges|
      invariant j <= |edges|
      invariant r == schools + NodesOf(edges[..j])
    {
      assert NodesOf(edges[..j + 1]) == NodesOf(edges[..j]) + [edges[j].node];
      r := r + [edges[j].node];
      j := j + 1;
    }
    assert edges[..j] == edges;
  }

  /** Models `fetch_schools`: request pages until one does not continue. */
  method FetchSchools<N>(pages: seq<Page<N>>) returns (r: Result<Fetched<N>, FetchError>)
    ensures r.Err? <==> AllContinue(pages, |pages|)
    ensures r.Ok? ==> 1 <= |r.value.sent| <= |pages|
    // it stops right after the first page that does not continue
    ensures r.Ok? ==> AllContinue(pages, |r.value.sent| - 1)
    ensures r.Ok? ==> !Continues(pages[|r.value.sent| - 1])
    // the cursor starts as null and follows the last edge of each page
    ensures r.Ok? ==> CursorChain(pages, r.value.sent)
    // the nodes are those of every consumed page, in arrival order
    ensures r.Ok? ==> r.value.schools == Join(PageNodes(pages[..|r.value.sent|]))
  {
    var schools: seq<N> := [];
    var cursor: Cursor := None;
    var hasNextPage := true;
    var sent: seq<Cursor> := [];
    var i := 0;
    while hasNextPage
      invariant i <= |pages|
      invariant |sent| == i
      invariant hasNextPage <==> AllContinue(pages, i)
      invariant i > 0 ==> AllContinue(pages, i - 1)
      invariant CursorChain(pages, sent)
      invariant cursor == if i == 0 then None else Advance(sent[i - 1], pages[i - 1])
      invariant schools == Join(PageNodes(pages[..i]))
      decreases |pages| - i
    {
      if i == |pages| {
        return Err(NoResponse);
      }
      CursorChainExtend(pages, sent, cursor);
      sent := sent + [cursor];
      var page := pages[i];
      schools := AppendNodes(schools, page.edges);
      hasNextPage := page.hasNextPage.GetOr(false);
      if |page.edges| > 0 {
        cursor := page.edges[|page.edges| - 1].cursor;
      }
      JoinPageNodesStep(pages, i);
      i := i + 1;
    }
    r := Ok(Fetched(schools, sent));
  }
}
