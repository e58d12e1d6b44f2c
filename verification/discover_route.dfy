/**
 * The decisions of the discover routes that do not touch the store: the
 * public-feed condition, skip/limit pagination with its page count, and the
 * wishlist copy made by POST `/:id/save`.
 */
module DiscoverRoute {
  import opened Wrappers
  import opened Text
  import opened CafeModel
  import opened CafesRoute

  const DEFAULT_PAGE: int := 1
  const DEFAULT_LIMIT: int := 20
  const ALREADY_SAVED: HttpError := HttpError(400, "Cafe already in your collection")

  /** The MongoDB condition of GET `/`: public cafes of other users, plus the optional filters. */
  datatype FeedQuery = FeedQuery(
    excludeUserId: UserId,
    tags: Option<seq<string>>,
    search: Option<string>)

  /** The JSON body of GET `/`. `pages` is `None` where `Math.ceil` gives a non-finite number (serialised as null). */
  datatype Feed = Feed(cafes: seq<Cafe>, page: int, pages: Option<int>, total: nat)

  /** GET `/` starts from the public, not-mine condition and adds the optional filters. */
  method BuildFeedQuery(caller: UserId, tags: Option<string>, search: Option<string>) returns (q: FeedQuery)
    ensures q.excludeUserId == caller
    ensures q.tags.Some? ==> tags.Some? && q.tags.value != [] && q.tags.value == TagList(tags.value)
    ensures q.tags.None? ==> tags.None? || TagList(tags.value) == []
    ensures q.search.Some? <==> search.Some? && search.value != ""
    ensures q.search.Some? ==> q.search == search
  {
    q := FeedQuery(caller, None, None);
    if tags.Some? && tags.value != "" {
      var tagArray := TagList(tags.value);
      if |tagArray| > 0 {
        q := q.(tags := Some(tagArray));
      }
    }
    if search.Some? && search.value != "" {
      q := q.(search := search);
    }
  }

  /** A cafe satisfies the condition of the public feed; the search looks at the name or the location. */
  predicate MatchesFeed(c: Cafe, q: FeedQuery) {
    && c.isPublic
    && c.userId != q.excludeUserId
    && (q.tags.Some? ==> HasAnyTag(c, q.tags.value))
    && (q.search.Some? ==> NameOrLocationContains(c, q.search.value))
  }

  /** The cafes of `s` that satisfy the feed condition, in store order. */
  function FilterFeed(s: seq<Cafe>, q: FeedQuery): (r: seq<Cafe>)
    ensures forall c :: multiset(r)[c] == if MatchesFeed(c, q) then multiset(s)[c] else 0
  {
    if s == [] then []
    else
      assert s == [s[0]] + s[1..];
      (if MatchesFeed(s[0], q) then [s[0]] else []) + FilterFeed(s[1..], q)
  }

  /** What GET `/` promises in terms of the request: other users' public cafes, filtered when a filter is usable. */
  predicate InFeed(c: Cafe, caller: UserId, tags: Option<string>, search: Option<string>) {
    && c.isPublic
    && c.userId != caller
    && TagsParamHit(c, tags)
    && SearchParamHit(c, search)
  }

  /** The search filter of a feed request: a non-empty `search` parameter asks for it in the name or the location. */
  predicate SearchParamHit(c: Cafe, search: Option<string>) {
    search.Some? && search.value != "" ==> NameOrLocationContains(c, search.value)
  }

  /** The `$or` of the feed search: the name or the location contains `needle`, ignoring case. */
  predicate NameOrLocationContains(c: Cafe, needle: string) {
    ContainsIgnoringCase(c.name, needle) || ContainsIgnoringCase(c.location, needle)
  }

  /** The query built by GET `/` selects exactly the cafes `InFeed` describes. */
  lemma QueryMeansInFeed(q: FeedQuery, caller: UserId, tags: Option<string>, search: Option<string>)
    requires q.excludeUserId == caller
    requires q.tags.Some? ==> tags.Some? && q.tags.value != [] && q.tags.value == TagList(tags.value)
    requires q.tags.None? ==> tags.None? || TagList(tags.value) == []
    requires q.search.Some? <==> search.Some? && search.value != ""
    requires q.search.Some? ==> q.search == search
    ensures forall c :: MatchesFeed(c, q) <==> InFeed(c, caller, tags, search)
  {
  }

  /** The number of cafes of `s` in the caller's feed: the `total` of GET `/`. */
  function FeedSize(s: seq<Cafe>, caller: UserId, tags: Option<string>, search: Option<string>): (n: nat)
    ensures n <= |s|
  {
    if s == [] then 0
    else (if InFeed(s[0], caller, tags, search) then 1 else 0) + FeedSize(s[1..], caller, tags, search)
  }

  /** A filter's result is as long as the number of cafes satisfying the condition it is equivalent to. */
  lemma {:induction false} FilterFeedSize(s: seq<Cafe>, q: FeedQuery, caller: UserId, tags: Option<string>, search: Option<string>)
    requires forall c :: MatchesFeed(c, q) <==> InFeed(c, caller, tags, search)
    ensures |FilterFeed(s, q)| == FeedSize(s, caller, tags, search)
  {
    if s != [] {
      FilterFeedSize(s[1..], q, caller, tags, search);
    }
  }

  /** `Math.ceil(total / limit)`: the number of pages of `limit` items needed for `total` items. */
  function PageCount(total: nat, limit: int): (r: Option<int>)
    ensures r.None? <==> limit == 0
    ensures limit > 0 ==> 0 <= r.value && (r.value - 1) * limit < total <= r.value * limit
    ensures limit < 0 ==> r.value <= 0 && r.value * limit <= total < (r.value - 1) * limit
  {
    if limit == 0 then None
    else if limit > 0 then
      var q := (total + limit - 1) / limit;
      assert total + limit - 1 == q * limit + (total + limit - 1) % limit;
      Some(q)
    else
      var q := total / -limit;
      assert total == q * -limit + total % -limit;
      Some(-q)
  }

  /**
   * `.skip(skip).limit(limit)`: MongoDB returns everything after `skip` for a
   * zero limit and at most |limit| items for a negative one.
   */
  function Window(matches: seq<Cafe>, skip: nat, limit: int): (r: seq<Cafe>)
    ensures limit > 0 ==> |r| == if skip >= |matches| then 0 else Min(limit, |matches| - skip)
    ensures limit == 0 ==> r == matches[Min(skip, |matches|)..]
    ensures limit < 0 ==> |r| == if skip >= |matches| then 0 else Min(-limit, |matches| - skip)
    ensures forall k :: 0 <= k < |r| ==> skip + k < |matches| && r[k] == matches[skip + k]
  {
    var from := if skip <= |matches| then skip else |matches|;
    if limit == 0 then matches[from..]
    else
      var n := if limit > 0 then limit else -limit;
      matches[from..if from + n <= |matches| then from + n else |matches|]
  }

  /**
   * The feed for one page of the newest-first matches. A negative skip, which
   * MongoDB refuses, ends in the handler's 500 reply.
   */
  function Paginate(matches: seq<Cafe>, page: int, limit: int): (r: Result<Feed>)
    ensures r.Err? <==> (page - 1) * limit < 0
    ensures r.Err? ==> r.error == SERVER_ERROR
    ensures r.Ok? ==> r.value.total == |matches| && r.value.page == page
    ensures r.Ok? ==> r.value.pages == PageCount(|matches|, limit)
    ensures r.Ok? && limit > 0 ==>
      |r.value.cafes| == if (page - 1) * limit >= |matches| then 0 else Min(limit, |matches| - (page - 1) * limit)
    ensures r.Ok? ==> forall k :: 0 <= k < |r.value.cafes| ==>
      (page - 1) * limit + k < |matches| && r.value.cafes[k] == matches[(page - 1) * limit + k]
  {
    var skip := (page - 1) * limit;
    if skip < 0 then Err(SERVER_ERROR)
    else Ok(Feed(Window(matches, skip, limit), page, PageCount(|matches|, limit), |matches|))
  }

  function Min(a: int, b: int): int {
    if a <= b then a else b
  }

  /** Pages 1 to `k`, fetched one after another and appended. */
  function Loaded(matches: seq<Cafe>, k: nat, limit: int): seq<Cafe>
    requires limit > 0
  {
    if k == 0 then [] else Loaded(matches, k - 1, limit) + Window(matches, (k - 1) * limit, limit)
  }

  /** Appending pages 1 to `k` gives the first k·limit matches, with nothing skipped or repeated. */
  lemma {:induction false} LoadedIsPrefix(matches: seq<Cafe>, k: nat, limit: int)
    requires limit > 0
    ensures Loaded(matches, k, limit) == matches[..Min(k * limit, |matches|)]
  {
    if k > 0 {
      LoadedIsPrefix(matches, k - 1, limit);
      var a := Min((k - 1) * limit, |matches|);
      var b := Min(k * limit, |matches|);
      assert (k - 1) * limit + limit == k * limit;
      assert Window(matches, (k - 1) * limit, limit) == matches[a..b];
      assert matches[..a] + matches[a..b] == matches[..b];
    }
  }

  /** Another page holds matches exactly when the pages seen so far do not cover them all. */
  lemma MorePagesIffUnseen(total: nat, page: int, limit: int)
    requires limit > 0 && page >= 1
    ensures page < PageCount(total, limit).value <==> page * limit < total
  {
    var pages := PageCount(total, limit).value;
    if page < pages {
      MulLe(page, pages - 1, limit);
    } else {
      MulLe(pages, page, limit);
    }
  }

  /** Multiplying by a non-negative factor keeps the order. */
  lemma MulLe(a: int, b: int, c: int)
    requires a <= b && c >= 0
    ensures a * c <= b * c
  {
    var d := b - a;
    assert b * c == a * c + d * c;
    assert d * c >= 0;
  }

  /** The notes of a saved copy: the source owner's ObjectId, as 24 hexadecimal digits. */
  function Attribution(owner: UserId): (r: string)
    ensures |r| <= NOTES_MAX
  {
    "Discovered from " + Hex(owner, 24) + "'s collection"
  }

  /** The object POST `/:id/save` hands to `Cafe.create`; visitedAt and createdAt take their defaults. */
  function CloneFields(source: Cafe, caller: UserId): (r: NewCafe)
    ensures r.userId == caller && r.notes == Some(Attribution(source.userId))
    ensures r.status == Some(WISHLIST) && r.isPublic == Some(false) && r.visitedAt.None?
    ensures r.name == Some(source.name) && r.location == Some(source.location) && r.tags == Some(source.tags)
  {
    NewCafe(
      caller,
      Some(source.name), Some(source.location), Some(source.photo), Some(source.rating), Some(source.tags),
      Some(Attribution(source.userId)), Some(WISHLIST), Some(false), None)
  }

  /** The document the save handler creates is the source with the copy's own fields. */
  lemma CloneShape(source: Cafe, caller: UserId, id: nat, now: nat)
    requires Normalized(source)
    ensures Instantiate(CloneFields(source, caller), id, now)
      == source.(id := id, userId := caller, notes := Attribution(source.userId), status := WISHLIST,
                 isPublic := false, visitedAt := None, createdAt := now)
  {
    TrimKeepsTrimmed(source.name);
    TrimKeepsTrimmed(source.location);
  }

  /**
   * The copy of a stored cafe passes validation, so the create in the save
   * handler never fails; it is the caller's private wishlist entry with the
   * source's name, location, photo, rating and tags.
   */
  lemma CloneStored(source: Cafe, caller: UserId, id: nat, now: nat)
    requires Stored(source)
    ensures var c := Instantiate(CloneFields(source, caller), id, now);
      && Stored(c)
      && c.id == id && c.userId == caller && c.createdAt == now
      && c.name == source.name && c.location == source.location
      && c.photo == source.photo && c.rating == source.rating && c.tags == source.tags
      && c.notes == Attribution(source.userId)
      && c.status == WISHLIST && !c.isPublic && c.visitedAt == None
  {
    CloneShape(source, caller, id, now);
    var c := Instantiate(CloneFields(source, caller), id, now);
    assert c.status == STATUS_ENUM[1];
  }
}
