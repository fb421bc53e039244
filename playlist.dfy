/** `Playlist` of video_ocr/playlist.py: fetching every item of a YouTube
    playlist page by page (`get_playlist`) and projecting the items to video
    identifiers (`to_video_ids`). The API server is a function from request
    to page. */
module Playlists {
  import opened Base
  import opened World
  import opened Keys

  const DefaultMaxResults: int := 500
  /** The identifier a `Playlist()` built without arguments refers to. */
  const DefaultPlaylistId: string := "UUcWWwmgV5dLmqUJCtAZqHfw"

  /** The `contentDetails` object of an item, and its `videoId` if present. */
  datatype ContentDetails = ContentDetails(videoId: Option<string>)

  /** A playlist item, as far as the model reads it. */
  datatype Item = Item(contentDetails: Option<ContentDetails>)

  /** One response: its `items` and its `nextPageToken`, if any. */
  datatype Page = Page(items: seq<Item>, nextPageToken: Option<string>)

  /** `request.execute()` for each request. */
  type Server = PageRequest -> Page

  /** The requests a fetch made, the items it gathered, and whether it
      reached a page without a next-page token. */
  datatype Fetched = Fetched(requests: seq<PageRequest>, items: seq<Item>, complete: bool)

  /** The items of the pages answering `requests`, in request order. */
  function PageItems(server: Server, requests: seq<PageRequest>): seq<Item>
  {
    if requests == [] then [] else server(requests[0]).items + PageItems(server, requests[1..])
  }

  /** The pages of the playlist from `token` on, fetched while each answer
      names a next page, with at most `fuel` requests. */
  function Fetch(server: Server, playlistId: string, maxResults: int, token: Option<string>, fuel: nat): (f: Fetched)
    ensures |f.requests| <= fuel
    decreases fuel
  {
    if fuel == 0 then Fetched([], [], false)
    else
      var request := PageRequest(playlistId, maxResults, token);
      var page := server(request);
      if !Truthy(page.nextPageToken) then Fetched([request], page.items, true)
      else
        var rest := Fetch(server, playlistId, maxResults, page.nextPageToken, fuel - 1);
        Fetched([request] + rest.requests, page.items + rest.items, rest.complete)
  }

  /** What the fetch loop has gathered so far, followed by a fetch from the
      current token. */
  function Continue(requests: seq<PageRequest>, items: seq<Item>, rest: Fetched): Fetched
  {
    Fetched(requests + rest.requests, items + rest.items, rest.complete)
  }

  /** One request of a fetch: a last page ends it, any other page is
      followed by the fetch from its next-page token. */
  lemma FetchStep(server: Server, playlistId: string, maxResults: int, token: Option<string>, fuel: nat)
    requires fuel > 0
    ensures var request := PageRequest(playlistId, maxResults, token);
            var page := server(request);
            Fetch(server, playlistId, maxResults, token, fuel)
            == if !Truthy(page.nextPageToken) then Fetched([request], page.items, true)
               else Continue([request], page.items, Fetch(server, playlistId, maxResults, page.nextPageToken, fuel - 1))
  {
  }

  /** The requests of a fetch: the first carries the given token, each later
      one the previous answer's next-page token, all for the same playlist
      and page size. */
  lemma {:induction false} FetchRequests(server: Server, playlistId: string, maxResults: int, token: Option<string>, fuel: nat)
    ensures var f := Fetch(server, playlistId, maxResults, token, fuel);
            && (fuel > 0 ==> f.requests != [] && f.requests[0].pageToken == token)
            && (forall k | 0 <= k < |f.requests| ::
                  f.requests[k].playlistId == playlistId && f.requests[k].maxResults == maxResults)
            && (forall k | 0 <= k < |f.requests| - 1 ::
                  Truthy(server(f.requests[k]).nextPageToken)
                  && f.requests[k + 1].pageToken == server(f.requests[k]).nextPageToken)
    decreases fuel
  {
    if fuel > 0 {
      FetchStep(server, playlistId, maxResults, token, fuel);
      var request := PageRequest(playlistId, maxResults, token);
      var page := server(request);
      if Truthy(page.nextPageToken) {
        FetchRequests(server, playlistId, maxResults, page.nextPageToken, fuel - 1);
        var rest := Fetch(server, playlistId, maxResults, page.nextPageToken, fuel - 1).requests;
        var all := [request] + rest;
        assert forall k | 1 <= k < |all| :: all[k] == rest[k - 1];
      }
    }
  }

  /** A fetch stops right after the first answer without a next page, or
      when its budget is spent. */
  lemma {:induction false} FetchStops(server: Server, playlistId: string, maxResults: int, token: Option<string>, fuel: nat)
    ensures var f := Fetch(server, playlistId, maxResults, token, fuel);
            && (f.complete || |f.requests| == fuel)
            && (f.complete <==> f.requests != [] && !Truthy(server(f.requests[|f.requests| - 1]).nextPageToken))
    decreases fuel
  {
    if fuel > 0 {
      FetchStep(server, playlistId, maxResults, token, fuel);
      var page := server(PageRequest(playlistId, maxResults, token));
      if Truthy(page.nextPageToken) {
        FetchStops(server, playlistId, maxResults, page.nextPageToken, fuel - 1);
      }
    }
  }

  /** A fetch's items are those of every page it fetched, in fetch order. */
  lemma {:induction false} FetchItems(server: Server, playlistId: string, maxResults: int, token: Option<string>, fuel: nat)
    ensures var f := Fetch(server, playlistId, maxResults, token, fuel);
            f.items == PageItems(server, f.requests)
    decreases fuel
  {
    if fuel > 0 {
      FetchStep(server, playlistId, maxResults, token, fuel);
      var request := PageRequest(playlistId, maxResults, token);
      var page := server(request);
      if Truthy(page.nextPageToken) {
        FetchItems(server, playlistId, maxResults, page.nextPageToken, fuel - 1);
        var rest := Fetch(server, playlistId, maxResults, page.nextPageToken, fuel - 1).requests;
        assert ([request] + rest)[1..] == rest;
      } else {
        assert [request][1..] == [];
      }
    }
  }

  /** A fetch that completes within its budget completes, with the same
      requests and items, under any larger budget. */
  lemma {:induction false} FetchFuelMonotone(server: Server, playlistId: string, maxResults: int, token: Option<string>,
                                             fuel: nat, more: nat)
    requires fuel <= more && Fetch(server, playlistId, maxResults, token, fuel).complete
    ensures Fetch(server, playlistId, maxResults, token, more) == Fetch(server, playlistId, maxResults, token, fuel)
    decreases fuel
  {
    var page := server(PageRequest(playlistId, maxResults, token));
    if Truthy(page.nextPageToken) {
      FetchFuelMonotone(server, playlistId, maxResults, page.nextPageToken, fuel - 1, more - 1);
    }
  }

  /** `get_playlist()` called with its defaults: the first request asks for
      the first page, and every request asks for 500 items per page. */
  lemma DefaultRequests(server: Server, playlistId: string, fuel: nat)
    requires fuel > 0
    ensures var f := Fetch(server, playlistId, DefaultMaxResults, None, fuel);
            && f.requests != [] && f.requests[0] == PageRequest(playlistId, 500, None)
            && forall k | 0 <= k < |f.requests| :: f.requests[k].maxResults == 500
  {
    FetchRequests(server, playlistId, DefaultMaxResults, None, fuel);
  }

  /** `items[i]["contentDetails"]["videoId"]` for every item, in order; an
      item without `contentDetails` raises. */
  function IdsOf(items: seq<Item>): (r: Result<seq<Option<string>>>)
    ensures r.Success? <==> forall i | 0 <= i < |items| :: items[i].contentDetails.Some?
    ensures r.Failure? ==> r.error == NoContentDetails
    ensures r.Success? ==> |r.value| == |items|
    ensures r.Success? ==> forall i | 0 <= i < |items| :: r.value[i] == items[i].contentDetails.value.videoId
  {
    if items == [] then Success([])
    else match items[0].contentDetails
      case None => Failure(NoContentDetails)
      case Some(details) =>
        match IdsOf(items[1..])
        case Failure(e) => Failure(e)
        case Success(ids) => Success([details.videoId] + ids)
  }

  /** The identifiers of two item lists, one after the other, are the
      identifiers of the joined list. */
  lemma {:induction false} IdsOfAppend(a: seq<Item>, b: seq<Item>)
    requires IdsOf(a).Success? && IdsOf(b).Success?
    ensures IdsOf(a + b) == Success(IdsOf(a).value + IdsOf(b).value)
  {
    var ab := a + b;
    assert |ab| == |a| + |b|;
    assert forall i | 0 <= i < |ab| :: ab[i].contentDetails.Some? by {
      forall i | 0 <= i < |ab| ensures ab[i].contentDetails.Some? {
        if i < |a| { assert ab[i] == a[i]; } else { assert ab[i] == b[i - |a|]; }
      }
    }
    var ids := IdsOf(a).value + IdsOf(b).value;
    forall i | 0 <= i < |ab| ensures IdsOf(ab).value[i] == ids[i] {
      if i < |a| { assert ab[i] == a[i]; } else { assert ab[i] == b[i - |a|]; }
    }
    assert IdsOf(ab).value == ids;
  }

  class Playlist {
    const playlistId: string
    /** `items`: `None` until a fetch completes. */
    var items: Option<seq<Item>>

    /** The dataclass constructor, with the same defaults. */
    constructor (playlistId: string := DefaultPlaylistId, items: Option<seq<Item>> := None)
      ensures this.playlistId == playlistId && this.items == items
    {
      this.playlistId := playlistId;
      this.items := items;
    }

    /** `get_playlist(max_results)`: fails before any request without a
        non-empty `YOUTUBE_API_KEY`; otherwise fetches the pages (see
        `FetchPages`) and, once the last page has come, stores and returns
        their items. */
    method GetPlaylist(env: Env, server: Server, maxResults: int := DefaultMaxResults, fuel: nat, host: Host)
      returns (r: Result<seq<Item>>)
      modifies this`items, host`trace
      ensures !Truthy(Lookup(env, ApiKeyName)) ==>
                r == Failure(MissingApiKey) && items == old(items) && host.trace == old(host.trace)
      ensures Truthy(Lookup(env, ApiKeyName)) ==>
                var f := Fetch(server, playlistId, maxResults, None, fuel);
                && host.trace == old(host.trace) + PageCalls(f.requests)
                && (f.complete ==> r == Success(f.items) && items == Some(f.items))
                && (!f.complete ==> r == Failure(PagesUnbounded) && items == old(items))
    {
      if !Truthy(Lookup(env, ApiKeyName)) {
        return Failure(MissingApiKey);
      }
      var complete, gathered := FetchPages(server, playlistId, maxResults, fuel, host);
      if !complete {
        return Failure(PagesUnbounded);
      }
      items := Some(gathered);
      r := Success(gathered);
    }

    /** `to_video_ids()`: fails when no fetch has completed. */
    function VideoIds(): (r: Result<seq<Option<string>>>)
      reads this
      ensures items.None? ==> r == Failure(ItemsNotFetched)
      ensures r.Success? ==> items.Some? && |r.value| == |items.value|
      ensures r.Success? ==> forall i | 0 <= i < |items.value| ::
                items.value[i].contentDetails.Some? && r.value[i] == items.value[i].contentDetails.value.videoId
      ensures items.Some? ==> (r.Failure? <==> exists i | 0 <= i < |items.value| :: items.value[i].contentDetails.None?)
    {
      if items.None? then Failure(ItemsNotFetched) else IdsOf(items.value)
    }
  }

  /** The loop of `get_playlist`: requests pages, starting with no token and
      following each answer's next-page token, gathers their items, and stops
      after the first answer without a next page. At most `fuel` requests
      are made; `complete` says whether the last page came. */
  method FetchPages(server: Server, playlistId: string, maxResults: int, fuel: nat, host: Host)
    returns (complete: bool, gathered: seq<Item>)
    modifies host`trace
    ensures var f := Fetch(server, playlistId, maxResults, None, fuel);
            && complete == f.complete
            && (complete ==> gathered == f.items)
            && host.trace == old(host.trace) + PageCalls(f.requests)
  {
    ghost var whole := Fetch(server, playlistId, maxResults, None, fuel);
    var token: Option<string> := None;
    gathered := [];
    ghost var requests: seq<PageRequest> := [];
    var n: nat := 0;
    while n < fuel
      invariant n <= fuel
      invariant whole == Continue(requests, gathered, Fetch(server, playlistId, maxResults, token, fuel - n))
      invariant host.trace == old(host.trace) + PageCalls(requests)
    {
      var request := PageRequest(playlistId, maxResults, token);
      var response := server(request);
      ghost var rest := Fetch(server, playlistId, maxResults, response.nextPageToken, fuel - n - 1);
      FetchStep(server, playlistId, maxResults, token, fuel - n);
      ContinueAppend(requests, gathered, request, response.items, rest);
      host.trace := host.trace + [PageRequested(request)];
      PageCallsAppend(requests, request);
      requests := requests + [request];
      gathered := gathered + response.items;
      token := response.nextPageToken;
      if !Truthy(token) {
        assert whole == Fetched(requests, gathered, true);
        return true, gathered;
      }
      assert whole == Continue(requests, gathered, rest);
      n := n + 1;
    }
    // the budget is spent: nothing follows what has been gathered
    assert whole == Continue(requests, gathered, Fetched([], [], false));
    assert requests + [] == requests && gathered + [] == gathered;
    complete := false;
  }

  lemma ContinueAppend(requests: seq<PageRequest>, gathered: seq<Item>, request: PageRequest, items: seq<Item>, rest: Fetched)
    ensures Continue(requests, gathered, Continue([request], items, rest))
            == Continue(requests + [request], gathered + items, rest)
    ensures Continue(requests, gathered, Fetched([request], items, true))
            == Fetched(requests + [request], gathered + items, true)
  {
    assert requests + ([request] + rest.requests) == (requests + [request]) + rest.requests;
    assert gathered + (items + rest.items) == (gathered + items) + rest.items;
  }
}
