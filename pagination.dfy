/**
 * The page-following loops of `get_album_tracks` and `get_playlist_tracks`.
 *
 * `requests.get` is abstracted as a finite page source: a map from locator to
 * the outcome of requesting it. A locator the map does not hold, a non-2xx
 * status, a network fault and an unreadable body all collapse into `Failed`,
 * the outcome that raises a `RequestException` in the source.
 */
module Pagination {
  import opened Wrappers

  /** The outcome of one request: a failure, or a parsed page whose "items" and "next" keys may be missing. */
  datatype Response<Item> = Failed | Page(items: Option<seq<Item>>, next: Option<string>)

  type PageSource<Item> = map<string, Response<Item>>

  const AlbumsEndpoint: string := "https://api.spotify.com/v1/albums/"
  const PlaylistsEndpoint: string := "https://api.spotify.com/v1/playlists/"

  /** One GET of `url`. */
  function Request<Item>(src: PageSource<Item>, url: string): Response<Item> {
    if url in src then src[url] else Failed
  }

  /** The loop goes on while the locator is present and non-empty. */
  predicate Continues(url: Option<string>) {
    url.Some? && url.value != ""
  }

  /** A missing or empty access token means the client is not authenticated. */
  predicate HasToken(token: Option<string>) {
    token.Some? && token.value != ""
  }

  /** The items of a page; a page without "items" contributes none. */
  function PageItems<Item>(r: Response<Item>): seq<Item> {
    if r.Page? then r.items.GetOr([]) else []
  }

  /** The response is a page whose "next" sends the loop on to `url`. */
  predicate LinksTo<Item>(r: Response<Item>, url: string) {
    r.Page? && Continues(r.next) && r.next.value == url
  }

  /** The loop stops after this response: it failed, or it is a page without a usable "next". */
  predicate Ends<Item>(r: Response<Item>) {
    r.Failed? || !Continues(r.next)
  }

  /** `reqs` is the sequence of locators the loop requests, starting at `start`, up to the one it stops after. */
  predicate RequestChain<Item>(src: PageSource<Item>, start: string, reqs: seq<string>) {
    && |reqs| > 0
    && reqs[0] == start
    && (forall k :: 0 <= k < |reqs| - 1 ==> LinksTo(Request(src, reqs[k]), reqs[k + 1]))
    && Ends(Request(src, reqs[|reqs| - 1]))
  }

  /**
   * The chain of "next" pointers from `start` reaches a page without one or a
   * failure. The source performs no such check; without it the loop runs
   * forever on a cyclic chain.
   */
  ghost predicate Finite<Item>(src: PageSource<Item>, start: string) {
    start != "" ==> exists reqs :: RequestChain(src, start, reqs)
  }

  /** The items of the pages at `reqs`, page after page, each page's items in its own order. */
  function Collected<Item>(src: PageSource<Item>, reqs: seq<string>): seq<Item> {
    if reqs == [] then [] else PageItems(Request(src, reqs[0])) + Collected(src, reqs[1..])
  }

  /** What one call of the loop returns, given the locators it requested. */
  ghost predicate Fetched<Item>(src: PageSource<Item>, start: string, tracks: seq<Item>, requests: seq<string>) {
    if start == "" then tracks == [] && requests == []
    else
      && RequestChain(src, start, requests)
      && tracks == if Request(src, requests[|requests| - 1]).Failed? then [] else Collected(src, requests)
  }

  /** Two request chains from the same locator are the same: the loop is deterministic. */
  lemma {:induction false} ChainsAgree<Item>(src: PageSource<Item>, start: string, a: seq<string>, b: seq<string>, k: nat)
    requires RequestChain(src, start, a) && RequestChain(src, start, b)
    requires k < |a| && k < |b|
    ensures a[k] == b[k]
  {
    if k > 0 {
      ChainsAgree(src, start, a, b, k - 1);
    }
  }

  /** The loop stops only after the last locator of a chain. */
  lemma EndsOnlyAtLast<Item>(src: PageSource<Item>, start: string, reqs: seq<string>, k: nat)
    requires RequestChain(src, start, reqs) && k < |reqs|
    ensures Ends(Request(src, reqs[k])) ==> k == |reqs| - 1
  {
    if k < |reqs| - 1 {
      assert LinksTo(Request(src, reqs[k]), reqs[k + 1]);
    }
  }

  lemma ChainUnique<Item>(src: PageSource<Item>, start: string, a: seq<string>, b: seq<string>)
    requires RequestChain(src, start, a) && RequestChain(src, start, b)
    ensures a == b
  {
    var m := if |a| < |b| then |a| else |b|;
    ChainsAgree(src, start, a, b, m - 1);
    EndsOnlyAtLast(src, start, a, m - 1);
    EndsOnlyAtLast(src, start, b, m - 1);
    assert |a| == |b|;
    forall k | 0 <= k < |a| ensures a[k] == b[k] {
      ChainsAgree(src, start, a, b, k);
    }
  }

  /** Extending the requested locators by one page appends that page's items. */
  lemma {:induction false} CollectedAppend<Item>(src: PageSource<Item>, reqs: seq<string>, url: string)
    ensures Collected(src, reqs + [url]) == Collected(src, reqs) + PageItems(Request(src, url))
  {
    if reqs != [] {
      assert (reqs + [url])[1..] == reqs[1..] + [url];
      CollectedAppend(src, reqs[1..], url);
    }
  }

  /** Order is kept across any split of the pages: the pages before come first. */
  lemma {:induction false} CollectedConcat<Item>(src: PageSource<Item>, a: seq<string>, b: seq<string>)
    ensures Collected(src, a + b) == Collected(src, a) + Collected(src, b)
  {
    if a == [] {
      assert a + b == b;
    } else {
      assert (a + b)[1..] == a[1..] + b;
      CollectedConcat(src, a[1..], b);
    }
  }

  /** Nothing is lost and nothing invented: an item is collected iff some requested page holds it. */
  lemma {:induction false} CollectedMembers<Item>(src: PageSource<Item>, reqs: seq<string>, x: Item)
    ensures x in Collected(src, reqs) <==> exists k :: 0 <= k < |reqs| && x in PageItems(Request(src, reqs[k]))
  {
    if reqs != [] {
      CollectedMembers(src, reqs[1..], x);
      if x in Collected(src, reqs[1..]) {
        var k :| 0 <= k < |reqs[1..]| && x in PageItems(Request(src, reqs[1..][k]));
        assert reqs[k + 1] == reqs[1..][k];
      }
      if k :| 0 < k < |reqs| && x in PageItems(Request(src, reqs[k])) {
        assert reqs[1..][k - 1] == reqs[k];
      }
    }
  }

  /** The number of items collected is the sum of the pages' item counts. */
  function TotalCount<Item>(src: PageSource<Item>, reqs: seq<string>): nat {
    if reqs == [] then 0 else |PageItems(Request(src, reqs[0]))| + TotalCount(src, reqs[1..])
  }

  lemma {:induction false} CollectedLength<Item>(src: PageSource<Item>, reqs: seq<string>)
    ensures |Collected(src, reqs)| == TotalCount(src, reqs)
  {
    if reqs != [] {
      CollectedLength(src, reqs[1..]);
    }
  }

  /** No deduplication: an item on two different pages appears at least twice. */
  lemma DuplicatesKept<Item>(src: PageSource<Item>, reqs: seq<string>, i: nat, j: nat, x: Item)
    requires i < j < |reqs|
    requires x in PageItems(Request(src, reqs[i])) && x in PageItems(Request(src, reqs[j]))
    ensures multiset(Collected(src, reqs))[x] >= 2
  {
    assert reqs == reqs[..j] + reqs[j..];
    CollectedConcat(src, reqs[..j], reqs[j..]);
    CollectedMembers(src, reqs[..j], x);
    assert reqs[..j][i] == reqs[i];
    CollectedMembers(src, reqs[j..], x);
    assert reqs[j..][0] == reqs[j];
  }

  /** A first page with no usable "next" is the only page requested, and its items are the result. */
  lemma SinglePage<Item>(src: PageSource<Item>, start: string)
    requires start != ""
    requires Request(src, start).Page? && !Continues(Request(src, start).next)
    ensures forall reqs :: RequestChain(src, start, reqs) <==> reqs == [start]
    ensures Collected(src, [start]) == PageItems(Request(src, start))
  {
    assert RequestChain(src, start, [start]);
    forall reqs | RequestChain(src, start, reqs) ensures reqs == [start] {
      ChainUnique(src, start, reqs, [start]);
    }
  }

  /** A failure on the page after the first ends the loop there; its result is then empty. */
  lemma FailureOnSecondPage<Item>(src: PageSource<Item>, start: string, second: string)
    requires start != ""
    requires LinksTo(Request(src, start), second) && Request(src, second).Failed?
    ensures forall tracks, reqs :: Fetched(src, start, tracks, reqs) <==> reqs == [start, second] && tracks == []
  {
    assert RequestChain(src, start, [start, second]);
    forall reqs | RequestChain(src, start, reqs) ensures reqs == [start, second] {
      ChainUnique(src, start, reqs, [start, second]);
    }
  }

  /**
   * The page-following loop: request the page at `url`, append its items, follow
   * its "next". Any failed request makes the whole call return `[]`, so items
   * of earlier pages are discarded. `requests` lists the locators requested,
   * in order.
   */
  method FetchAllPages<Item>(src: PageSource<Item>, start: string) returns (tracks: seq<Item>, requests: seq<string>)
    requires Finite(src, start)
    ensures Fetched(src, start, tracks, requests)
  {
    tracks, requests := [], [];
    var url: Option<string> := Some(start);
    ghost var chain: seq<string> := [];
    if start != "" {
      chain :| RequestChain(src, start, chain);
    }
    while Continues(url)
      invariant start == "" ==> url == Some(start) && requests == []
      invariant start != "" ==> RequestChain(src, start, chain)
      invariant |requests| <= |chain|
      invariant requests == chain[..|requests|]
      invariant Continues(url) ==> |requests| < |chain| && url.value == chain[|requests|]
      invariant start != "" && !Continues(url) ==> requests == chain
      invariant forall k :: 0 <= k < |requests| ==> Request(src, requests[k]).Page?
      invariant tracks == Collected(src, requests)
      decreases |chain| - |requests|
    {
      var response := Request(src, url.value);
      CollectedAppend(src, requests, url.value);
      requests := requests + [url.value];
      EndsOnlyAtLast(src, start, chain, |requests| - 1);
      if response.Failed? {
        return [], requests;
      }
      tracks := tracks + PageItems(response);
      url := response.next;
    }
  }

  /** `get_album_tracks`: every track of an album, or `[]` without a token or on any failed request. */
  method GetAlbumTracks<Item>(token: Option<string>, albumId: string, src: PageSource<Item>)
    returns (tracks: seq<Item>, requests: seq<string>)
    requires HasToken(token) ==> Finite(src, AlbumsEndpoint + albumId + "/tracks")
    ensures !HasToken(token) ==> tracks == [] && requests == []
    ensures HasToken(token) ==> Fetched(src, AlbumsEndpoint + albumId + "/tracks", tracks, requests)
    ensures HasToken(token) ==> |requests| > 0 && requests[0] == AlbumsEndpoint + albumId + "/tracks"
  {
    if !HasToken(token) {
      return [], [];
    }
    tracks, requests := FetchAllPages(src, AlbumsEndpoint + albumId + "/tracks");
  }

  /** `get_playlist_tracks`: every item of a playlist, or `[]` without a token or on any failed request. */
  method GetPlaylistTracks<Item>(token: Option<string>, playlistId: string, src: PageSource<Item>)
    returns (tracks: seq<Item>, requests: seq<string>)
    requires HasToken(token) ==> Finite(src, PlaylistsEndpoint + playlistId + "/tracks")
    ensures !HasToken(token) ==> tracks == [] && requests == []
    ensures HasToken(token) ==> Fetched(src, PlaylistsEndpoint + playlistId + "/tracks", tracks, requests)
    ensures HasToken(token) ==> |requests| > 0 && requests[0] == PlaylistsEndpoint + playlistId + "/tracks"
  {
    if !HasToken(token) {
      return [], [];
    }
    tracks, requests := FetchAllPages(src, PlaylistsEndpoint + playlistId + "/tracks");
  }
}
