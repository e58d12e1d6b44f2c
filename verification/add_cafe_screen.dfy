/**
 * The add/edit form: its fields, the tag toggle, and what a submit sends —
 * nothing when the name or the location is blank, otherwise a create, or an
 * update of the cafe the form was opened with.
 */
module AddCafeScreen {
  import opened Wrappers
  import opened Text
  import opened CafeModel
  import opened CafesRoute
  import opened TagSelection

  const NAME_MISSING: string := "Please enter the cafe name"
  const LOCATION_MISSING: string := "Please enter the location"

  /** The `cafeData` body of the request; `visitedAt` is `now` as an ISO date, or null. */
  datatype CafeData = CafeData(
    name: string,
    location: string,
    photo: string,
    rating: int,
    tags: seq<string>,
    notes: string,
    status: string,
    isPublic: bool,
    visitedAt: Option<nat>)

  /** What a submit does: an alert and no request, or one request. */
  datatype Submission =
    | Rejected(message: string)
    | CreateCafe(data: CafeData)
    | UpdateCafe(id: nat, data: CafeData)

  /** The body as the server reads it: every field is present, and a null `visitedAt` is `Null`. */
  function AsRequest(d: CafeData): (req: CafeRequest)
    ensures req.name == Some(d.name) && req.location == Some(d.location)
    ensures req.visitedAt.Date? <==> d.visitedAt.Some?
  {
    CafeRequest(
      Some(d.name), Some(d.location), Some(d.photo), Some(d.rating), Some(d.tags), Some(d.notes),
      Some(d.status), Some(d.isPublic),
      if d.visitedAt.Some? then Date(d.visitedAt.value) else Null)
  }

  class CafeForm {
    /** The cafe passed as route parameter when the form edits one. */
    const editCafe: Option<Cafe>

    var name: string
    var location: string
    /** The uploaded photo URL; `None` is the initial `null`. */
    var photo: Option<string>
    var rating: int
    var tags: seq<string>
    var notes: string
    var status: string
    var isPublic: bool
    var loading: bool

    /** The initial state, with the fields of the edited cafe copied in when there is one. */
    constructor (editCafe: Option<Cafe>)
      ensures this.editCafe == editCafe && !loading
      ensures editCafe.None? ==>
        && name == "" && location == "" && photo == None && rating == RATING_DEFAULT && tags == []
        && notes == "" && status == VISITED && isPublic
      ensures editCafe.Some? ==>
        var c := editCafe.value;
        && name == c.name && location == c.location && photo == Some(c.photo) && rating == c.rating
        && tags == c.tags && notes == c.notes && status == c.status && isPublic == c.isPublic
    {
      this.editCafe := editCafe;
      loading := false;
      if editCafe.Some? {
        var c := editCafe.value;
        name, location, photo, rating := c.name, c.location, Some(c.photo), c.rating;
        tags, notes, status, isPublic := c.tags, c.notes, c.status, c.isPublic;
      } else {
        name, location, photo, rating := "", "", None, RATING_DEFAULT;
        tags, notes, status, isPublic := [], "", VISITED, true;
      }
    }

    /** `handleTagPress`: toggles one tag and touches nothing else. */
    method HandleTagPress(tag: string)
      modifies this
      ensures tags == Toggle(old(tags), tag)
      ensures name == old(name) && location == old(location) && photo == old(photo) && rating == old(rating)
      ensures notes == old(notes) && status == old(status) && isPublic == old(isPublic) && loading == old(loading)
    {
      tags := Toggle(tags, tag);
    }

    /** The `cafeData` of a submit at time `now`. */
    function Payload(now: nat): (d: CafeData)
      reads this`name, this`location, this`photo, this`rating, this`tags, this`notes, this`status, this`isPublic
      ensures d.name == Trim(name) && d.location == Trim(location) && d.notes == Trim(notes)
      ensures photo.None? || photo == Some("") ==> d.photo == ""
      ensures photo.Some? && photo.value != "" ==> d.photo == photo.value
      ensures d.rating == rating && d.tags == tags && d.status == status && d.isPublic == isPublic
      ensures d.visitedAt.Some? <==> status == VISITED
      ensures d.visitedAt.Some? ==> d.visitedAt.value == now
    {
      CafeData(
        Trim(name), Trim(location),
        if photo.Some? && photo.value != "" then photo.value else "",
        rating, tags, Trim(notes), status, isPublic,
        if status == VISITED then Some(now) else None)
    }

    /**
     * What a submit at time `now` does: a blank name is reported first, then
     * a blank location; otherwise the payload goes to an update of the edited
     * cafe, or to a create.
     */
    function SubmitOutcome(now: nat): (s: Submission)
      reads this`name, this`location, this`photo, this`rating, this`tags, this`notes, this`status, this`isPublic
      ensures IsBlank(name) ==> s == Rejected(NAME_MISSING)
      ensures !IsBlank(name) && IsBlank(location) ==> s == Rejected(LOCATION_MISSING)
      ensures !IsBlank(name) && !IsBlank(location) ==>
        && (editCafe.Some? ==> s == UpdateCafe(editCafe.value.id, Payload(now)))
        && (editCafe.None? ==> s == CreateCafe(Payload(now)))
    {
      TrimEmptyIffBlank(name);
      TrimEmptyIffBlank(location);
      if Trim(name) == "" then Rejected(NAME_MISSING)
      else if Trim(location) == "" then Rejected(LOCATION_MISSING)
      else if editCafe.Some? then UpdateCafe(editCafe.value.id, Payload(now))
      else CreateCafe(Payload(now))
    }

    /** `handleSubmit` up to the request: the loading flag, and nothing else, is set exactly when a request goes out. */
    method HandleSubmit(now: nat) returns (s: Submission)
      modifies this`loading
      ensures s == old(SubmitOutcome(now))
      ensures loading == (old(loading) || !s.Rejected?)
    {
      s := SubmitOutcome(now);
      if !s.Rejected? {
        loading := true;
      }
    }

    /** The `finally` of `handleSubmit`: the request has settled, with or without an error. */
    method RequestSettled()
      modifies this
      ensures !loading
      ensures name == old(name) && location == old(location) && photo == old(photo) && rating == old(rating)
      ensures tags == old(tags) && notes == old(notes) && status == old(status) && isPublic == old(isPublic)
    {
      loading := false;
    }
  }

  /**
   * A payload the form sends passes the server's name and location check, and
   * the document the server builds from it keeps the name, location, notes
   * and visit date the form sent.
   */
  lemma SubmittedCafeKept(d: CafeData, caller: UserId, id: nat, now: nat)
    requires d.name != "" && IsTrimmed(d.name) && d.location != "" && IsTrimmed(d.location)
    ensures HasNameAndLocation(AsRequest(d))
    ensures var c := Instantiate(CreateFields(caller, AsRequest(d), now), id, now);
      && c.name == d.name && c.location == d.location && c.notes == d.notes
      && c.rating == (if d.rating == 0 then RATING_DEFAULT else d.rating)
      && c.tags == d.tags && c.isPublic == d.isPublic
      && c.status == (if d.status == "" then VISITED else d.status)
      && (d.visitedAt.Some? ==> c.visitedAt == d.visitedAt)
      && (d.visitedAt.None? && d.status != VISITED ==> c.visitedAt == None)
  {
    var fields := CreateFields(caller, AsRequest(d), now);
    InstantiateTrimmed(fields, id, now);
    CreateDefaults(caller, AsRequest(d), id, now);
  }

  /** The payload of a submit that goes through carries a non-empty, trimmed name and location. */
  lemma PayloadReady(name: string, location: string)
    requires !IsBlank(name) && !IsBlank(location)
    ensures Trim(name) != "" && IsTrimmed(Trim(name)) && Trim(location) != "" && IsTrimmed(Trim(location))
  {
    TrimEmptyIffBlank(name);
    TrimEmptyIffBlank(location);
  }
}
