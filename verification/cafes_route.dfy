/**
 * The decisions of the owner-scoped cafe routes that do not touch the store:
 * the query of GET `/`, the document built by POST `/` and the field-by-field
 * overwrite of PUT `/:id`.
 */
module CafesRoute {
  import opened Wrappers
  import opened Text
  import opened CafeModel

  /** A JSON `visitedAt` in a request body: left out, `null`, or a date. */
  datatype DateField = Undefined | Null | Date(time: nat)

  /** The fields read from the body of POST `/` and PUT `/:id`; `None` is a field left undefined. */
  datatype CafeRequest = CafeRequest(
    name: Option<string>,
    location: Option<string>,
    photo: Option<string>,
    rating: Option<int>,
    tags: Option<seq<string>>,
    notes: Option<string>,
    status: Option<string>,
    isPublic: Option<bool>,
    visitedAt: DateField)

  /** The MongoDB condition of GET `/`; a `None` field imposes no constraint. */
  datatype ListQuery = ListQuery(
    userId: UserId,
    status: Option<string>,
    tags: Option<seq<string>>,
    nameSearch: Option<string>)

  const NOT_FOUND: HttpError := HttpError(404, "Cafe not found")
  const SERVER_ERROR: HttpError := HttpError(500, "Server error")
  const NAME_LOCATION_REQUIRED: HttpError := HttpError(400, "Name and location are required")

  /** The entries of `s` that are not blank, in order and untrimmed. */
  function NonBlank(s: seq<string>): (r: seq<string>)
    ensures |r| <= |s|
    ensures forall t :: t in r <==> t in s && !IsBlank(t)
  {
    if s == [] then []
    else (if IsBlank(s[0]) then [] else [s[0]]) + NonBlank(s[1..])
  }

  /** `tags.split(',').filter((t) => t.trim())`. */
  function TagList(tags: string): (r: seq<string>)
    ensures forall t :: t in r <==> t in Split(tags, ',') && !IsBlank(t)
    ensures forall i :: 0 <= i < |r| ==> ',' !in r[i]
  {
    var r := NonBlank(Split(tags, ','));
    assert forall i :: 0 <= i < |r| ==> r[i] in Split(tags, ',');
    r
  }

  lemma {:induction false} NonBlankKeepsAll(s: seq<string>)
    requires forall i :: 0 <= i < |s| ==> !IsBlank(s[i])
    ensures NonBlank(s) == s
  {
    if s != [] {
      NonBlankKeepsAll(s[1..]);
    }
  }

  /** Tags joined with "," by a client come back unchanged, provided none is blank or holds a comma. */
  lemma TagListOfJoined(ts: seq<string>)
    requires |ts| >= 1
    requires forall i :: 0 <= i < |ts| ==> !IsBlank(ts[i]) && ',' !in ts[i]
    ensures TagList(Join(ts, ",")) == ts
  {
    SplitJoin(ts, ',');
    NonBlankKeepsAll(ts);
  }

  /** GET `/` builds its condition one optional filter at a time. */
  method BuildListQuery(caller: UserId, status: Option<string>, tags: Option<string>, search: Option<string>)
    returns (q: ListQuery)
    ensures q.userId == caller
    ensures q.status.Some? <==> status.Some? && status.value in STATUS_ENUM
    ensures q.status.Some? ==> q.status == status
    ensures q.tags.Some? ==> tags.Some? && q.tags.value != [] && q.tags.value == TagList(tags.value)
    ensures q.tags.None? ==> tags.None? || TagList(tags.value) == []
    ensures q.nameSearch.Some? <==> search.Some? && search.value != ""
    ensures q.nameSearch.Some? ==> q.nameSearch == search
  {
    q := ListQuery(caller, None, None, None);
    if status.Some? && status.value != "" && status.value in STATUS_ENUM {
      q := q.(status := status);
    }
    if tags.Some? && tags.value != "" {
      var tagArray := TagList(tags.value);
      if |tagArray| > 0 {
        q := q.(tags := Some(tagArray));
      }
    }
    if search.Some? && search.value != "" {
      q := q.(nameSearch := search);
    }
  }

  /** Some tag of the cafe is in `wanted` (MongoDB `$in` on an array field). */
  predicate HasAnyTag(c: Cafe, wanted: seq<string>) {
    exists i :: 0 <= i < |c.tags| && c.tags[i] in wanted
  }

  /** A cafe satisfies the condition of GET `/`. */
  predicate MatchesList(c: Cafe, q: ListQuery) {
    && c.userId == q.userId
    && (q.status.Some? ==> c.status == q.status.value)
    && (q.tags.Some? ==> HasAnyTag(c, q.tags.value))
    && (q.nameSearch.Some? ==> ContainsIgnoringCase(c.name, q.nameSearch.value))
  }

  /** The cafes of `s` that satisfy the condition, in store order. */
  function FilterList(s: seq<Cafe>, q: ListQuery): (r: seq<Cafe>)
    ensures forall c :: multiset(r)[c] == if MatchesList(c, q) then multiset(s)[c] else 0
  {
    if s == [] then []
    else
      assert s == [s[0]] + s[1..];
      (if MatchesList(s[0], q) then [s[0]] else []) + FilterList(s[1..], q)
  }

  /** The tags filter of a list or feed request: a `tags` parameter naming at least one tag asks for a cafe carrying one of them. */
  predicate TagsParamHit(c: Cafe, tags: Option<string>) {
    tags.Some? && TagList(tags.value) != [] ==> HasAnyTag(c, TagList(tags.value))
  }

  /**
   * What GET `/` promises in terms of the request itself: the caller's own
   * cafes, with each filter applied only when its parameter is usable.
   */
  predicate Listed(c: Cafe, caller: UserId, status: Option<string>, tags: Option<string>, search: Option<string>) {
    && c.userId == caller
    && (status.Some? && status.value in STATUS_ENUM ==> c.status == status.value)
    && TagsParamHit(c, tags)
    && (search.Some? && search.value != "" ==> ContainsIgnoringCase(c.name, search.value))
  }

  /** The query built by GET `/` selects exactly the cafes `Listed` describes. */
  lemma QueryMeansListed(q: ListQuery, caller: UserId, status: Option<string>, tags: Option<string>, search: Option<string>)
    requires q.userId == caller
    requires q.status.Some? <==> status.Some? && status.value in STATUS_ENUM
    requires q.status.Some? ==> q.status == status
    requires q.tags.Some? ==> tags.Some? && q.tags.value != [] && q.tags.value == TagList(tags.value)
    requires q.tags.None? ==> tags.None? || TagList(tags.value) == []
    requires q.nameSearch.Some? <==> search.Some? && search.value != ""
    requires q.nameSearch.Some? ==> q.nameSearch == search
    ensures forall c :: MatchesList(c, q) <==> Listed(c, caller, status, tags, search)
  {
  }

  /** `!name || !location`: an undefined or empty name or location stops POST `/`. */
  predicate HasNameAndLocation(req: CafeRequest)
    ensures req.name.Some? && !IsBlank(req.name.value) && req.location.Some? && !IsBlank(req.location.value)
      ==> HasNameAndLocation(req)
  {
    req.name.Some? && req.name.value != "" && req.location.Some? && req.location.value != ""
  }

  /** The object POST `/` hands to `Cafe.create`, with its `||` and `!== undefined` fallbacks. */
  function CreateFields(caller: UserId, req: CafeRequest, now: nat): (r: NewCafe)
    ensures r.userId == caller && r.name == req.name && r.location == req.location
    ensures r.photo.Some? && r.rating.Some? && r.tags.Some? && r.notes.Some? && r.status.Some? && r.isPublic.Some?
    ensures r.rating.value != 0 && (req.rating.Some? && req.rating.value != 0 ==> r.rating == req.rating)
    ensures r.status.value != "" && (req.status.Some? && req.status.value != "" ==> r.status == req.status)
    ensures r.visitedAt.Some? <==> req.visitedAt.Date? || req.status == Some(VISITED)
    ensures req.status.None? && !req.visitedAt.Date? ==> r.status == Some(VISITED) && r.visitedAt.None?
  {
    NewCafe(
      caller,
      req.name,
      req.location,
      Some(if req.photo.Some? && req.photo.value != "" then req.photo.value else ""),
      Some(if req.rating.Some? && req.rating.value != 0 then req.rating.value else RATING_DEFAULT),
      Some(req.tags.GetOr([])),
      Some(if req.notes.Some? && req.notes.value != "" then req.notes.value else ""),
      Some(if req.status.Some? && req.status.value != "" then req.status.value else VISITED),
      Some(req.isPublic.GetOr(true)),
      if req.visitedAt.Date? then Some(req.visitedAt.time)
      else if req.status == Some(VISITED) then Some(now)
      else None)
  }

  /**
   * A name of white space only gets past `!name` when it is not empty, but the
   * `trim` setter empties it, so `required` fails: the first violation is
   * NameRequired and the 400 message starts with "Cafe name is required".
   */
  lemma BlankNameRequired(caller: UserId, req: CafeRequest, id: nat, now: nat)
    requires req.name.Some? && IsBlank(req.name.value)
    ensures var c := Instantiate(CreateFields(caller, req, now), id, now);
      && c.name == ""
      && Violations(c) != [] && Violations(c)[0] == NameRequired
      && "Cafe name is required" <= ValidationMessage(Violations(c))
  {
    TrimEmptyIffBlank(req.name.value);
    var c := Instantiate(CreateFields(caller, req, now), id, now);
    assert NameViolations(c) == [NameRequired];
  }

  /**
   * The document POST `/` asks to store: owned by the caller, name and location
   * trimmed, and each default applied field by field.
   */
  lemma CreateDefaults(caller: UserId, req: CafeRequest, id: nat, now: nat)
    requires HasNameAndLocation(req)
    ensures var c := Instantiate(CreateFields(caller, req, now), id, now);
      && c.id == id && c.userId == caller && c.createdAt == now
      && c.name == Trim(req.name.value) && c.location == Trim(req.location.value)
      && (req.photo == None || req.photo == Some("") ==> c.photo == "")
      && (req.photo.Some? ==> c.photo == req.photo.value)
      && (req.rating == None || req.rating == Some(0) ==> c.rating == RATING_DEFAULT)
      && (req.rating.Some? && req.rating.value != 0 ==> c.rating == req.rating.value)
      && (req.tags == None ==> c.tags == [])
      && (req.tags.Some? ==> c.tags == req.tags.value)
      && (req.notes == None ==> c.notes == "")
      && (req.notes.Some? ==> c.notes == req.notes.value)
      && (req.status == None || req.status == Some("") ==> c.status == VISITED)
      && (req.status.Some? && req.status.value != "" ==> c.status == req.status.value)
      && (req.isPublic == None ==> c.isPublic)
      && (req.isPublic.Some? ==> c.isPublic == req.isPublic.value)
      && (req.visitedAt.Date? ==> c.visitedAt == Some(req.visitedAt.time))
      && (!req.visitedAt.Date? ==> (c.visitedAt.Some? <==> req.status == Some(VISITED)))
      && (!req.visitedAt.Date? && c.visitedAt.Some? ==> c.visitedAt == Some(now))
  {
  }

  /** PUT `/:id`: each field present in the body overwrites the stored one; name and location go through `trim`. */
  function ApplyUpdate(c: Cafe, req: CafeRequest): (u: Cafe)
    ensures u.id == c.id && u.userId == c.userId && u.createdAt == c.createdAt
    ensures req.name.None? ==> u.name == c.name
    ensures req.location.None? ==> u.location == c.location
    ensures req.photo.None? ==> u.photo == c.photo
    ensures req.rating.None? ==> u.rating == c.rating
    ensures req.tags.None? ==> u.tags == c.tags
    ensures req.notes.None? ==> u.notes == c.notes
    ensures req.status.None? ==> u.status == c.status
    ensures req.isPublic.None? ==> u.isPublic == c.isPublic
    ensures req.visitedAt.Undefined? ==> u.visitedAt == c.visitedAt
    ensures Normalized(c) ==> Normalized(u)
  {
    c.(
      name := if req.name.Some? then Trim(req.name.value) else c.name,
      location := if req.location.Some? then Trim(req.location.value) else c.location,
      photo := req.photo.GetOr(c.photo),
      rating := req.rating.GetOr(c.rating),
      tags := req.tags.GetOr(c.tags),
      notes := req.notes.GetOr(c.notes),
      status := req.status.GetOr(c.status),
      isPublic := req.isPublic.GetOr(c.isPublic),
      visitedAt := match req.visitedAt
        case Undefined => c.visitedAt
        case Null => None
        case Date(t) => Some(t))
  }

  /** PUT `/:id`: each field present in the body is the one the updated cafe carries, name and location trimmed. */
  lemma UpdateOverwrites(c: Cafe, req: CafeRequest)
    ensures var u := ApplyUpdate(c, req);
      && (req.name.Some? ==> u.name == Trim(req.name.value))
      && (req.location.Some? ==> u.location == Trim(req.location.value))
      && (req.photo.Some? ==> u.photo == req.photo.value)
      && (req.rating.Some? ==> u.rating == req.rating.value)
      && (req.tags.Some? ==> u.tags == req.tags.value)
      && (req.notes.Some? ==> u.notes == req.notes.value)
      && (req.status.Some? ==> u.status == req.status.value)
      && (req.isPublic.Some? ==> u.isPublic == req.isPublic.value)
      && (req.visitedAt.Null? ==> u.visitedAt.None?)
      && (req.visitedAt.Date? ==> u.visitedAt == Some(req.visitedAt.time))
  {
  }

  /** Sending the same update twice has the effect of sending it once. */
  lemma UpdateIdempotent(c: Cafe, req: CafeRequest)
    ensures ApplyUpdate(ApplyUpdate(c, req), req) == ApplyUpdate(c, req)
  {
    var u := ApplyUpdate(c, req);
    var v := ApplyUpdate(u, req);
    if req.name.Some? {
      TrimKeepsTrimmed(u.name);
    }
    assert v.name == u.name;
    if req.location.Some? {
      TrimKeepsTrimmed(u.location);
    }
    assert v.location == u.location;
  }
}
