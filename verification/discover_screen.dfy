/**
 * The discover screen: the parameters of each feed request, the list that
 * grows page by page, `hasMore`, and the load-more and refresh gestures. A
 * request is issued by one method and its response handed to `Receive`.
 */
module DiscoverScreen {
  import opened Wrappers
  import opened Text
  import opened CafeModel
  import opened CafesRoute
  import opened DiscoverRoute
  import opened TagSelection
  import opened Tags

  /** The page size the screen asks for. */
  const PAGE_LIMIT: int := 10

  /** The query parameters of one feed request. */
  datatype FeedParams = FeedParams(page: int, limit: int, tags: Option<string>, search: Option<string>)

  /** A call `fetchCafes(pageNum, append)`: which page, and whether it is appended to the list or replaces it. */
  datatype Fetch = Fetch(pageNum: int, append: bool)

  /** The part of the response body the screen reads. */
  datatype FeedPage = FeedPage(cafes: seq<Cafe>, pages: int)

  class DiscoverFeed {
    var cafes: seq<Cafe>
    var loading: bool
    var refreshing: bool
    var searchQuery: string
    var selectedTags: seq<string>
    var page: int
    var hasMore: bool
    var loadingMore: bool

    constructor ()
      ensures cafes == [] && loading && !refreshing && searchQuery == "" && selectedTags == []
      ensures page == 1 && hasMore && !loadingMore
    {
      cafes, loading, refreshing := [], true, false;
      searchQuery, selectedTags := "", [];
      page, hasMore, loadingMore := 1, true, false;
    }

    /** The `params` of `fetchCafes(pageNum, ...)`. */
    method BuildParams(pageNum: int) returns (p: FeedParams)
      ensures p.page == pageNum && p.limit == PAGE_LIMIT
      ensures p.tags.Some? <==> selectedTags != []
      ensures p.tags.Some? ==> p.tags.value == Join(selectedTags, ",")
      ensures p.tags.Some? && (forall i :: 0 <= i < |selectedTags| ==> selectedTags[i] in TAG_ENUM) ==>
        TagList(p.tags.value) == selectedTags
      ensures p.search.Some? <==> !IsBlank(searchQuery)
      ensures p.search.Some? ==> p.search.value == Trim(searchQuery) && p.search.value != ""
    {
      p := FeedParams(pageNum, PAGE_LIMIT, None, None);
      if |selectedTags| > 0 {
        p := p.(tags := Some(Join(selectedTags, ",")));
        if forall i :: 0 <= i < |selectedTags| ==> selectedTags[i] in TAG_ENUM {
          JoinedTagsRoundTrip(selectedTags);
        }
      }
      TrimEmptyIffBlank(searchQuery);
      if Trim(searchQuery) != "" {
        p := p.(search := Some(Trim(searchQuery)));
      }
    }

    /**
     * The rest of `fetchCafes(pageNum, append)` once the response is in:
     * `None` is a failed request, which leaves the list and `hasMore` alone.
     * Every loading flag is cleared either way.
     */
    method Receive(fetch: Fetch, response: Option<FeedPage>)
      modifies this
      ensures !loading && !refreshing && !loadingMore
      ensures response.None? ==> cafes == old(cafes) && hasMore == old(hasMore)
      ensures response.Some? && fetch.append ==> cafes == old(cafes) + response.value.cafes
      ensures response.Some? && !fetch.append ==> cafes == response.value.cafes
      ensures response.Some? ==> hasMore == (fetch.pageNum < response.value.pages)
      ensures page == old(page) && selectedTags == old(selectedTags) && searchQuery == old(searchQuery)
    {
      if response.Some? {
        if fetch.append {
          cafes := cafes + response.value.cafes;
        } else {
          cafes := response.value.cafes;
        }
        hasMore := fetch.pageNum < response.value.pages;
      }
      loading, refreshing, loadingMore := false, false, false;
    }

    /**
     * `loadMore`: while no page is being loaded and more remain, asks for the
     * next page in append mode; otherwise does nothing.
     */
    method LoadMore() returns (request: Option<Fetch>)
      modifies this
      ensures old(loadingMore) || !old(hasMore) ==>
        request.None? && page == old(page) && loadingMore == old(loadingMore)
      ensures !old(loadingMore) && old(hasMore) ==>
        loadingMore && page == old(page) + 1 && request == Some(Fetch(page, true))
      ensures cafes == old(cafes) && hasMore == old(hasMore) && loading == old(loading) && refreshing == old(refreshing)
      ensures selectedTags == old(selectedTags) && searchQuery == old(searchQuery)
    {
      request := None;
      if !loadingMore && hasMore {
        loadingMore := true;
        var nextPage := page + 1;
        page := nextPage;
        request := Some(Fetch(nextPage, true));
      }
    }

    /** `onRefresh`: back to page 1, fetched so that it replaces the current list. */
    method OnRefresh() returns (fetch: Fetch)
      modifies this
      ensures refreshing && page == 1 && fetch == Fetch(1, false)
      ensures cafes == old(cafes) && hasMore == old(hasMore) && loading == old(loading) && loadingMore == old(loadingMore)
      ensures selectedTags == old(selectedTags) && searchQuery == old(searchQuery)
    {
      refreshing := true;
      page := 1;
      fetch := Fetch(1, false);
    }

    /**
     * The focus effect, which runs again whenever the selected tags or the
     * search text change: back to page 1, fetched so that it replaces the list.
     */
    method OnFilterChange() returns (fetch: Fetch)
      modifies this
      ensures page == 1 && fetch == Fetch(1, false)
      ensures cafes == old(cafes) && hasMore == old(hasMore)
      ensures loading == old(loading) && refreshing == old(refreshing) && loadingMore == old(loadingMore)
      ensures selectedTags == old(selectedTags) && searchQuery == old(searchQuery)
    {
      page := 1;
      fetch := Fetch(1, false);
    }

    /** `handleTagChange`: toggles one tag and touches nothing else. */
    method HandleTagChange(tag: string)
      modifies this
      ensures selectedTags == Toggle(old(selectedTags), tag)
      ensures cafes == old(cafes) && page == old(page) && hasMore == old(hasMore) && searchQuery == old(searchQuery)
      ensures loading == old(loading) && refreshing == old(refreshing) && loadingMore == old(loadingMore)
    {
      selectedTags := Toggle(selectedTags, tag);
    }
  }

  /**
   * Scrolling to the end once: a load-more that goes out and succeeds appends
   * the next page's cafes after those already shown.
   */
  method ScrollToEnd(feed: DiscoverFeed, response: Option<FeedPage>) returns (request: Option<Fetch>)
    modifies feed
    ensures request.Some? <==> !old(feed.loadingMore) && old(feed.hasMore)
    ensures request.Some? ==> feed.page == old(feed.page) + 1 && !feed.loadingMore
    ensures request.Some? && response.Some? ==>
      feed.cafes == old(feed.cafes) + response.value.cafes && feed.hasMore == (feed.page < response.value.pages)
    ensures request.None? ==> feed.cafes == old(feed.cafes) && feed.page == old(feed.page)
  {
    request := feed.LoadMore();
    if request.Some? {
      feed.Receive(request.value, response);
    }
  }

  /**
   * Pulling to refresh: a refresh that succeeds shows page 1 alone, in place
   * of everything loaded before.
   */
  method PullToRefresh(feed: DiscoverFeed, response: Option<FeedPage>)
    modifies feed
    ensures feed.page == 1 && !feed.refreshing && !feed.loading
    ensures response.Some? ==> feed.cafes == response.value.cafes && feed.hasMore == (1 < response.value.pages)
    ensures response.None? ==> feed.cafes == old(feed.cafes)
  {
    var fetch := feed.OnRefresh();
    feed.Receive(fetch, response);
  }

  /** What the search box asks for: with blank text, anything; otherwise the trimmed text in the name or the location. */
  predicate SearchTextHit(c: Cafe, searchQuery: string) {
    !IsBlank(searchQuery) ==> NameOrLocationContains(c, Trim(searchQuery))
  }

  /**
   * The parameters the screen sends select, on the server, the public cafes of
   * other users that carry one of the selected tags and whose name or location
   * contains the trimmed search.
   */
  lemma ParamsSelect(p: FeedParams, selectedTags: seq<string>, searchQuery: string, caller: UserId, c: Cafe)
    requires p.tags.Some? <==> selectedTags != []
    requires p.tags.Some? ==> TagList(p.tags.value) == selectedTags
    requires p.search.Some? <==> !IsBlank(searchQuery)
    requires p.search.Some? ==> p.search.value == Trim(searchQuery) && p.search.value != ""
    ensures InFeed(c, caller, p.tags, p.search) <==>
      && c.isPublic && c.userId != caller
      && SelectionHit(c, selectedTags) && SearchTextHit(c, searchQuery)
  {
    SearchParamFilter(p.search, searchQuery, c);
  }

  /** A search parameter that is the trimmed, non-blank search text filters as that text does. */
  lemma SearchParamFilter(search: Option<string>, searchQuery: string, c: Cafe)
    requires search.Some? <==> !IsBlank(searchQuery)
    requires search.Some? ==> search.value == Trim(searchQuery) && search.value != ""
    ensures SearchParamHit(c, search) <==> SearchTextHit(c, searchQuery)
  {
  }

  /**
   * Scrolling through the feed: after pages 1 to k have been appended the list
   * is the first 10·k matches, nothing skipped or repeated, and `hasMore`
   * stays true exactly while matches remain unseen.
   */
  lemma ScrollingLoadsPrefix(matches: seq<Cafe>, k: nat)
    requires k >= 1
    ensures Loaded(matches, k, PAGE_LIMIT) == matches[..Min(k * PAGE_LIMIT, |matches|)]
    ensures k < PageCount(|matches|, PAGE_LIMIT).value <==> k * PAGE_LIMIT < |matches|
  {
    LoadedIsPrefix(matches, k, PAGE_LIMIT);
    MorePagesIffUnseen(|matches|, k, PAGE_LIMIT);
  }
}
