/**
 * The cafe collection behind the REST routes, as one object whose methods are
 * the handlers of `/api/cafes` and `/api/discover`. The caller's id comes from
 * the authentication middleware and `now` from the clock; both are parameters.
 * A path `:id` that is not a well-formed ObjectId is `None`.
 */
module CafeStore {
  import opened Wrappers
  import opened Ordering
  import opened CafeModel
  import opened CafesRoute
  import opened DiscoverRoute
  import opened Text

  const REMOVED: string := "Cafe removed"

  /** The sort key of `sort({ createdAt: -1 })`. */
  function CreatedAt(c: Cafe): int {
    c.createdAt
  }

  /** `c` is the document `findOne({ _id: id, userId: caller })` may return. */
  predicate Owns(c: Cafe, id: Option<nat>, caller: UserId) {
    id == Some(c.id) && c.userId == caller
  }

  /** The position of the first cafe of `s` with that id owned by `caller`. */
  function FindOwned(s: seq<Cafe>, id: Option<nat>, caller: UserId): (r: Option<nat>)
    ensures r.Some? ==> r.value < |s| && Owns(s[r.value], id, caller)
    ensures r.None? <==> forall i :: 0 <= i < |s| ==> !Owns(s[i], id, caller)
  {
    if s == [] then None
    else if Owns(s[0], id, caller) then Some(0)
    else
      match FindOwned(s[1..], id, caller)
      case None => None
      case Some(i) => Some(i + 1)
  }

  /** The position of the first cafe of `s` with that id, whoever owns it (`findById`). */
  function FindById(s: seq<Cafe>, id: nat): (r: Option<nat>)
    ensures r.Some? ==> r.value < |s| && s[r.value].id == id
    ensures r.Some? ==> forall j :: 0 <= j < r.value ==> s[j].id != id
    ensures r.None? <==> forall i :: 0 <= i < |s| ==> s[i].id != id
  {
    if s == [] then None
    else if s[0].id == id then Some(0)
    else
      match FindById(s[1..], id)
      case None => None
      case Some(i) => Some(i + 1)
  }

  /** `c` belongs to `caller` and has the name and location of `source`: the duplicate test of the save route. */
  predicate IsCopy(c: Cafe, caller: UserId, source: Cafe) {
    c.userId == caller && c.name == source.name && c.location == source.location
  }

  /** `caller` already owns a cafe with the name and location of `source`. */
  predicate HasCopy(s: seq<Cafe>, caller: UserId, source: Cafe) {
    exists i :: 0 <= i < |s| && IsCopy(s[i], caller, source)
  }

  /** Every document passed validation, and ids are distinct and below `next`. */
  ghost predicate Collection(s: seq<Cafe>, next: nat) {
    && (forall i :: 0 <= i < |s| ==> Stored(s[i]) && s[i].id < next)
    && (forall i, j :: 0 <= i < j < |s| ==> s[i].id != s[j].id)
  }

  /** Inserting a valid document under a fresh id keeps the collection valid. */
  lemma AppendKeepsCollection(s: seq<Cafe>, next: nat, c: Cafe)
    requires Collection(s, next) && Stored(c) && c.id == next
    ensures Collection(s + [c], next + 1)
  {
  }

  /** Replacing a document by a valid one with the same id keeps the collection valid. */
  lemma ReplaceKeepsCollection(s: seq<Cafe>, next: nat, k: nat, c: Cafe)
    requires Collection(s, next) && k < |s| && Stored(c) && c.id == s[k].id
    ensures Collection(s[k := c], next)
  {
  }

  /**
   * Removing one document keeps the collection valid and keeps every
   * document that differs from the removed one.
   */
  lemma RemoveKeepsCollection(s: seq<Cafe>, next: nat, k: nat)
    requires Collection(s, next) && k < |s|
    ensures Collection(s[..k] + s[k + 1..], next)
    ensures forall c :: c in s && c != s[k] ==> c in s[..k] + s[k + 1..]
  {
    var r := s[..k] + s[k + 1..];
    RemoveAt(s, k);
    forall c | c in s && c != s[k] ensures c in r {
      var j :| 0 <= j < |s| && s[j] == c;
      assert r[if j < k then j else j - 1] == c;
    }
  }

  /**
   * The whole discover feed of `caller`, newest first: every cafe the feed
   * query selects, with its multiplicity, and nothing else.
   */
  function NewestFeed(cafes: seq<Cafe>, caller: UserId, tags: Option<string>, search: Option<string>): (m: seq<Cafe>)
    ensures forall c :: multiset(m)[c] == if InFeed(c, caller, tags, search) then multiset(cafes)[c] else 0
    ensures SortedDesc(m, CreatedAt)
    ensures |m| == FeedSize(cafes, caller, tags, search)
  {
    var tagArray := if tags.Some? then TagList(tags.value) else [];
    var q := FeedQuery(caller, if tagArray != [] then Some(tagArray) else None,
                       if search.Some? && search.value != "" then search else None);
    QueryMeansInFeed(q, caller, tags, search);
    FilterFeedSize(cafes, q, caller, tags, search);
    var newest := SortDesc(FilterFeed(cafes, q), CreatedAt);
    assert |newest| == |multiset(newest)| == |multiset(FilterFeed(cafes, q))| == |FilterFeed(cafes, q)|;
    newest
  }

  class Store {
    /** The documents of the collection, in insertion order. */
    var cafes: seq<Cafe>
    /** The id the next inserted document receives. */
    var nextId: nat

    ghost predicate Valid()
      reads this
    {
      Collection(cafes, nextId)
    }

    constructor ()
      ensures Valid() && cafes == [] && nextId == 0
    {
      cafes := [];
      nextId := 0;
    }

    /** Writes a validated document under the next id. */
    method Insert(c: Cafe)
      requires Valid() && Stored(c) && c.id == nextId
      modifies this
      ensures Valid() && cafes == old(cafes) + [c] && nextId == old(nextId) + 1
    {
      AppendKeepsCollection(cafes, nextId, c);
      cafes := cafes + [c];
      nextId := nextId + 1;
    }

    /**
     * GET `/api/cafes`: the caller's cafes that pass the usable filters,
     * newest first. Other users' cafes never appear, public or not.
     */
    method List(caller: UserId, status: Option<string>, tags: Option<string>, search: Option<string>)
      returns (r: seq<Cafe>)
      ensures forall c :: multiset(r)[c] == if Listed(c, caller, status, tags, search) then multiset(cafes)[c] else 0
      ensures forall i :: 0 <= i < |r| ==> r[i].userId == caller
      ensures SortedDesc(r, CreatedAt)
    {
      var q := BuildListQuery(caller, status, tags, search);
      QueryMeansListed(q, caller, status, tags, search);
      r := SortDesc(FilterList(cafes, q), CreatedAt);
      forall i | 0 <= i < |r| ensures r[i].userId == caller {
        assert multiset(r)[r[i]] > 0;
      }
    }

    /** GET `/api/cafes/:id`: a missing id, a malformed id and another user's cafe all answer 404. */
    method Get(caller: UserId, id: Option<nat>) returns (r: Result<Cafe>)
      ensures r.Ok? <==> exists i :: 0 <= i < |cafes| && Owns(cafes[i], id, caller)
      ensures r.Ok? ==> r.value in cafes && Owns(r.value, id, caller)
      ensures r.Err? ==> r.error == NOT_FOUND
    {
      var i := FindOwned(cafes, id, caller);
      if i.None? {
        r := Err(NOT_FOUND);
      } else {
        r := Ok(cafes[i.value]);
      }
    }

    /**
     * POST `/api/cafes`: a missing name or location answers 400 before the
     * document is built; a document that fails validation answers 400 with
     * every message; otherwise the document is appended.
     */
    method Create(caller: UserId, req: CafeRequest, now: nat) returns (r: Result<Cafe>)
      requires Valid()
      modifies this
      ensures Valid()
      ensures var c := Instantiate(CreateFields(caller, req, now), old(nextId), now);
        && (r.Ok? <==> HasNameAndLocation(req) && Conforms(c))
        && (r.Ok? ==> r.value == c && cafes == old(cafes) + [c] && nextId == old(nextId) + 1)
        && (!HasNameAndLocation(req) ==> r == Err(NAME_LOCATION_REQUIRED))
        && (HasNameAndLocation(req) && !Conforms(c) ==> r == Err(HttpError(400, ValidationMessage(Violations(c)))))
        && (r.Err? ==> cafes == old(cafes) && nextId == old(nextId))
    {
      if !HasNameAndLocation(req) {
        r := Err(NAME_LOCATION_REQUIRED);
        return;
      }
      var c := Instantiate(CreateFields(caller, req, now), nextId, now);
      if !Conforms(c) {
        r := Err(HttpError(400, ValidationMessage(Violations(c))));
        return;
      }
      assert Stored(c);
      Insert(c);
      r := Ok(c);
    }

    /**
     * PUT `/api/cafes/:id`: the fields present in the body overwrite the
     * caller's cafe, which is validated again before it is written back.
     */
    method Update(caller: UserId, id: Option<nat>, req: CafeRequest) returns (r: Result<Cafe>)
      requires Valid()
      modifies this
      ensures Valid() && nextId == old(nextId)
      ensures var i := FindOwned(old(cafes), id, caller);
        && (i.None? ==> r == Err(NOT_FOUND))
        && (i.Some? ==> var u := ApplyUpdate(old(cafes)[i.value], req);
              && (r.Ok? <==> Conforms(u))
              && (r.Ok? ==> r.value == u && cafes == old(cafes)[i.value := u])
              && (!Conforms(u) ==> r == Err(HttpError(400, ValidationMessage(Violations(u))))))
      ensures r.Err? ==> cafes == old(cafes)
      ensures |cafes| == |old(cafes)|
      ensures forall j :: 0 <= j < |cafes| && old(cafes)[j].userId != caller ==> cafes[j] == old(cafes)[j]
    {
      var i := FindOwned(cafes, id, caller);
      if i.None? {
        r := Err(NOT_FOUND);
        return;
      }
      var u := ApplyUpdate(cafes[i.value], req);
      if !Conforms(u) {
        r := Err(HttpError(400, ValidationMessage(Violations(u))));
        return;
      }
      ReplaceKeepsCollection(cafes, nextId, i.value, u);
      cafes := cafes[i.value := u];
      r := Ok(u);
    }

    /** DELETE `/api/cafes/:id`: removes the caller's cafe with that id, or answers 404. */
    method Delete(caller: UserId, id: Option<nat>) returns (r: Result<string>)
      requires Valid()
      modifies this
      ensures Valid() && nextId == old(nextId)
      ensures var i := FindOwned(old(cafes), id, caller);
        && (i.None? ==> r == Err(NOT_FOUND) && cafes == old(cafes))
        && (i.Some? ==> r == Ok(REMOVED) && cafes == old(cafes)[..i.value] + old(cafes)[i.value + 1..])
      ensures forall c :: c in old(cafes) && c.userId != caller ==> c in cafes
    {
      var i := FindOwned(cafes, id, caller);
      if i.None? {
        r := Err(NOT_FOUND);
        return;
      }
      var k := i.value;
      RemoveKeepsCollection(cafes, nextId, k);
      cafes := cafes[..k] + cafes[k + 1..];
      r := Ok(REMOVED);
    }

    /**
     * GET `/api/discover`: one page of the caller's feed, newest first, cut
     * from `NewestFeed`. Page and limit default to 1 and 20; a negative skip
     * answers 500.
     */
    method Discover(caller: UserId, tags: Option<string>, search: Option<string>, page: Option<int>, limit: Option<int>)
      returns (r: Result<Feed>)
      ensures var pg, lim := page.GetOr(DEFAULT_PAGE), limit.GetOr(DEFAULT_LIMIT);
        r == Paginate(NewestFeed(cafes, caller, tags, search), pg, lim)
      ensures var pg, lim := page.GetOr(DEFAULT_PAGE), limit.GetOr(DEFAULT_LIMIT);
        && (r.Err? <==> (pg - 1) * lim < 0)
        && (r.Ok? ==> r.value.page == pg && r.value.total == FeedSize(cafes, caller, tags, search))
        && (r.Ok? ==> r.value.pages == PageCount(r.value.total, lim))
      ensures r.Ok? ==> forall k :: 0 <= k < |r.value.cafes| ==>
        r.value.cafes[k] in cafes && r.value.cafes[k].isPublic && r.value.cafes[k].userId != caller
    {
      var q := BuildFeedQuery(caller, tags, search);
      var found := FilterFeed(cafes, q);
      var newest := SortDesc(found, CreatedAt);
      assert q.tags == (if tags.Some? && TagList(tags.value) != [] then Some(TagList(tags.value)) else None);
      assert newest == NewestFeed(cafes, caller, tags, search);
      r := Paginate(newest, page.GetOr(DEFAULT_PAGE), limit.GetOr(DEFAULT_LIMIT));
      if r.Ok? {
        forall k | 0 <= k < |r.value.cafes|
          ensures r.value.cafes[k] in cafes && r.value.cafes[k].isPublic && r.value.cafes[k].userId != caller
        {
          var c := r.value.cafes[k];
          assert c in newest;
          assert multiset(newest)[c] > 0;
          assert InFeed(c, caller, tags, search) && multiset(cafes)[c] > 0;
        }
      }
    }

    /**
     * POST `/api/discover/:id/save`: copies any cafe with that id, visible or
     * not, into the caller's wishlist, unless the caller already owns a cafe
     * with the same name and location. A malformed id makes `findById` throw,
     * which the handler answers with 500.
     */
    method SaveToWishlist(caller: UserId, id: Option<nat>, now: nat) returns (r: Result<Cafe>)
      requires Valid()
      modifies this
      ensures Valid()
      ensures id.None? ==> r == Err(SERVER_ERROR)
      ensures id.Some? && FindById(old(cafes), id.value).None? ==> r == Err(NOT_FOUND)
      ensures id.Some? && FindById(old(cafes), id.value).Some? ==>
        var source := old(cafes)[FindById(old(cafes), id.value).value];
        && (HasCopy(old(cafes), caller, source) ==> r == Err(ALREADY_SAVED))
        && (!HasCopy(old(cafes), caller, source) ==>
              var c := Instantiate(CloneFields(source, caller), old(nextId), now);
              && r == Ok(c) && cafes == old(cafes) + [c] && nextId == old(nextId) + 1
              && HasCopy(cafes, caller, source)
              && FindById(cafes, id.value) == FindById(old(cafes), id.value))
      ensures r.Err? ==> cafes == old(cafes) && nextId == old(nextId)
    {
      if id.None? {
        r := Err(SERVER_ERROR);
        return;
      }
      var i := FindById(cafes, id.value);
      if i.None? {
        r := Err(NOT_FOUND);
        return;
      }
      var source := cafes[i.value];
      if HasCopy(cafes, caller, source) {
        r := Err(ALREADY_SAVED);
        return;
      }
      CloneStored(source, caller, nextId, now);
      var c := Instantiate(CloneFields(source, caller), nextId, now);
      ghost var before := cafes;
      Insert(c);
      assert IsCopy(cafes[|cafes| - 1], caller, source);
      FindByIdAppend(before, c, id.value);
      r := Ok(c);
    }
  }

  /** Where each document of `s` lands once the one at `k` is removed. */
  lemma RemoveAt(s: seq<Cafe>, k: nat)
    requires k < |s|
    ensures var r := s[..k] + s[k + 1..];
      && |r| == |s| - 1
      && (forall j :: 0 <= j < k ==> r[j] == s[j])
      && (forall j :: k < j < |s| ==> r[j - 1] == s[j])
  {
  }

  /** Appending a document with another id does not change where `findById` finds one. */
  lemma FindByIdAppend(s: seq<Cafe>, c: Cafe, id: nat)
    requires FindById(s, id).Some?
    ensures FindById(s + [c], id) == FindById(s, id)
  {
    var i := FindById(s, id).value;
    var t := FindById(s + [c], id);
    assert (s + [c])[i].id == id;
  }

  /**
   * Saving a cafe a second time, with nothing in between, answers 400: the
   * first save left the caller's copy in the store.
   */
  method SaveTwice(store: Store, caller: UserId, id: nat, now: nat) returns (first: Result<Cafe>, second: Result<Cafe>)
    requires store.Valid()
    modifies store
    ensures first.Ok? ==> second == Err(ALREADY_SAVED)
  {
    first := store.SaveToWishlist(caller, Some(id), now);
    second := store.SaveToWishlist(caller, Some(id), now);
  }

  /**
   * A name of spaces passes the route's own check but not validation: POST
   * `/api/cafes` answers 400 with a message that starts with "Cafe name is
   * required", and nothing is stored.
   */
  method CreateBlankName(store: Store, caller: UserId, req: CafeRequest, now: nat) returns (r: Result<Cafe>)
    requires store.Valid()
    requires req.name.Some? && req.name.value != "" && IsBlank(req.name.value)
    requires req.location.Some? && req.location.value != ""
    modifies store
    ensures r.Err? && r.error.code == 400 && "Cafe name is required" <= r.error.message
    ensures store.cafes == old(store.cafes) && store.nextId == old(store.nextId)
  {
    BlankNameRequired(caller, req, store.nextId, now);
    r := store.Create(caller, req, now);
  }

  /**
   * Saving one of the caller's own cafes always fails with "Cafe already in
   * your collection": the source is itself a cafe of the caller with its own
   * name and location, so the duplicate check finds it.
   */
  method SaveOwn(store: Store, caller: UserId, k: nat, now: nat) returns (r: Result<Cafe>)
    requires store.Valid() && k < |store.cafes| && store.cafes[k].userId == caller
    modifies store
    ensures r == Err(ALREADY_SAVED)
    ensures store.cafes == old(store.cafes) && store.nextId == old(store.nextId)
  {
    var id := store.cafes[k].id;
    var found := FindById(store.cafes, id);
    assert found == Some(k);
    assert HasCopy(store.cafes, caller, store.cafes[k]) by {
      assert IsCopy(store.cafes[k], caller, store.cafes[k]);
    }
    r := store.SaveToWishlist(caller, Some(id), now);
  }

  /**
   * A cafe the caller has just created is what `GET /api/cafes/:id` then
   * returns for its id: the new id is fresh, so no other document shadows it.
   */
  method CreateThenGet(store: Store, caller: UserId, req: CafeRequest, now: nat) returns (r: Result<Cafe>, g: Result<Cafe>)
    requires store.Valid()
    modifies store
    ensures r.Ok? ==> g == r
  {
    r := store.Create(caller, req, now);
    if r.Err? {
      g := r;
      return;
    }
    g := store.Get(caller, Some(r.value.id));
    assert store.cafes[|store.cafes| - 1] == r.value;
    if g.Ok? {
      var k :| 0 <= k < |store.cafes| && store.cafes[k] == g.value;
      assert k == |store.cafes| - 1;
    }
  }
}
