/**
 * The cafe document: its fields, the schema constraints that Mongoose checks
 * before a document is written, the `trim` setters and the field defaults.
 */
module CafeModel {
  import opened Wrappers
  import opened Text

  /** ObjectIds are 12 bytes wide. */
  const OBJECT_ID_BOUND: nat := 0x1_0000_0000_0000_0000_0000_0000

  /** The id of a user, an ObjectId. */
  type UserId = n: nat | n < OBJECT_ID_BOUND

  const NAME_MAX: nat := 100
  const LOCATION_MAX: nat := 200
  const NOTES_MAX: nat := 1000
  const RATING_MIN: int := 1
  const RATING_MAX: int := 5
  const RATING_DEFAULT: int := 3

  const VISITED: string := "visited"
  const WISHLIST: string := "wishlist"

  /** The values the `tags` array may hold. */
  const TAG_ENUM: seq<string> := ["wifi", "quiet", "aesthetic", "good-coffee", "pet-friendly"]

  /** The values `status` may hold. */
  const STATUS_ENUM: seq<string> := [VISITED, WISHLIST]

  /** A stored cafe. Timestamps are milliseconds; `visitedAt` is nullable. */
  datatype Cafe = Cafe(
    id: nat,
    userId: UserId,
    name: string,
    location: string,
    photo: string,
    rating: int,
    tags: seq<string>,
    notes: string,
    status: string,
    isPublic: bool,
    visitedAt: Option<nat>,
    createdAt: nat)

  /**
   * The fields handed to `Cafe.create`. `None` is a field left undefined, which
   * takes its default; for `visitedAt`, undefined and null both end as null.
   */
  datatype NewCafe = NewCafe(
    userId: UserId,
    name: Option<string>,
    location: Option<string>,
    photo: Option<string>,
    rating: Option<int>,
    tags: Option<seq<string>>,
    notes: Option<string>,
    status: Option<string>,
    isPublic: Option<bool>,
    visitedAt: Option<nat>)

  /** Name and location carry no surrounding white space, as the `trim` setters leave them. */
  predicate Normalized(c: Cafe) {
    IsTrimmed(c.name) && IsTrimmed(c.location)
  }

  /**
   * Builds the document `Cafe.create` validates: `trim` on name and location,
   * then the defaults. An undefined name or location fails `required` exactly
   * like an empty one, so it is cast to the empty string here.
   */
  function Instantiate(d: NewCafe, id: nat, now: nat): (c: Cafe)
    ensures Normalized(c)
    ensures c.id == id && c.userId == d.userId && c.createdAt == now
  {
    Cafe(
      id, d.userId,
      Trim(d.name.GetOr("")), Trim(d.location.GetOr("")),
      d.photo.GetOr(""),
      d.rating.GetOr(RATING_DEFAULT),
      d.tags.GetOr([]),
      d.notes.GetOr(""),
      d.status.GetOr(VISITED),
      d.isPublic.GetOr(true),
      d.visitedAt,
      now)
  }

  /** The `trim` setters leave an already trimmed name and location as they are. */
  lemma InstantiateTrimmed(d: NewCafe, id: nat, now: nat)
    requires d.name.Some? && IsTrimmed(d.name.value) && d.location.Some? && IsTrimmed(d.location.value)
    ensures Instantiate(d, id, now).name == d.name.value
    ensures Instantiate(d, id, now).location == d.location.value
  {
    TrimKeepsTrimmed(d.name.value);
    TrimKeepsTrimmed(d.location.value);
  }

  /** Every constraint of the schema holds. */
  predicate Conforms(c: Cafe) {
    && c.name != "" && |c.name| <= NAME_MAX
    && c.location != "" && |c.location| <= LOCATION_MAX
    && RATING_MIN <= c.rating <= RATING_MAX
    && (forall i :: 0 <= i < |c.tags| ==> c.tags[i] in TAG_ENUM)
    && |c.notes| <= NOTES_MAX
    && c.status in STATUS_ENUM
  }

  /** What the store keeps: documents that passed validation after the setters ran. */
  predicate Stored(c: Cafe) {
    Conforms(c) && Normalized(c)
  }

  /** A failed validator; at most one per path, since Mongoose stops at a path's first failure. */
  datatype Violation =
    | NameRequired
    | NameTooLong
    | LocationRequired
    | LocationTooLong
    | RatingBelowMin(rating: int)
    | RatingAboveMax(rating: int)
    | TagNotInEnum(index: nat, tag: string)
    | NotesTooLong
    | StatusNotInEnum(status: string)

  /** The element validators of `tags`, one per element outside the enum, in index order. */
  function TagViolations(tags: seq<string>): (r: seq<Violation>)
    ensures r == [] <==> forall i :: 0 <= i < |tags| ==> tags[i] in TAG_ENUM
    ensures forall i :: 0 <= i < |tags| ==> (TagNotInEnum(i, tags[i]) in r <==> tags[i] !in TAG_ENUM)
    ensures forall v :: v in r ==> v.TagNotInEnum? && v.index < |tags| && v.tag == tags[v.index] && v.tag !in TAG_ENUM
    ensures forall j, k :: 0 <= j < k < |r| ==> r[j].TagNotInEnum? && r[k].TagNotInEnum? && r[j].index < r[k].index
  {
    if tags == [] then []
    else
      var n := |tags| - 1;
      var rest := TagViolations(tags[..n]);
      var last := if tags[n] in TAG_ENUM then [] else [TagNotInEnum(n, tags[n])];
      TagViolationsStep(tags, rest, last);
      rest + last
  }

  /** One step of `TagViolations`: the report on the last element behind the report on the others. */
  lemma TagViolationsStep(tags: seq<string>, rest: seq<Violation>, last: seq<Violation>)
    requires tags != []
    requires var n := |tags| - 1;
      && (forall i :: 0 <= i < n ==> (TagNotInEnum(i, tags[..n][i]) in rest <==> tags[..n][i] !in TAG_ENUM))
      && (forall v :: v in rest ==> v.TagNotInEnum? && v.index < n && v.tag == tags[..n][v.index] && v.tag !in TAG_ENUM)
      && (forall j, k :: 0 <= j < k < |rest| ==> rest[j].TagNotInEnum? && rest[k].TagNotInEnum? && rest[j].index < rest[k].index)
      && last == if tags[n] in TAG_ENUM then [] else [TagNotInEnum(n, tags[n])]
    ensures forall i :: 0 <= i < |tags| ==> (TagNotInEnum(i, tags[i]) in rest + last <==> tags[i] !in TAG_ENUM)
    ensures forall v :: v in rest + last ==> v.TagNotInEnum? && v.index < |tags| && v.tag == tags[v.index] && v.tag !in TAG_ENUM
    ensures forall j, k :: 0 <= j < k < |rest + last| ==>
      (rest + last)[j].TagNotInEnum? && (rest + last)[k].TagNotInEnum? && (rest + last)[j].index < (rest + last)[k].index
  {
    var n := |tags| - 1;
    var r := rest + last;
    forall i | 0 <= i < |tags| ensures TagNotInEnum(i, tags[i]) in r <==> tags[i] !in TAG_ENUM {
      if i < n {
        assert tags[..n][i] == tags[i];
      }
    }
    forall j, k | 0 <= j < k < |r| ensures r[j].TagNotInEnum? && r[k].TagNotInEnum? && r[j].index < r[k].index {
      if k >= |rest| {
        assert r[j] in rest && r[k] in last;
      } else {
        assert r[j] == rest[j] && r[k] == rest[k];
      }
    }
  }

  /**
   * The validator that reports `v` fails on `c`: an empty required path, a
   * string over its maxlength, a rating out of bounds, an element of `tags`
   * or a status outside its enum, each reported with the offending value.
   */
  predicate Fails(c: Cafe, v: Violation) {
    match v
    case NameRequired => c.name == ""
    case NameTooLong => c.name != "" && |c.name| > NAME_MAX
    case LocationRequired => c.location == ""
    case LocationTooLong => c.location != "" && |c.location| > LOCATION_MAX
    case RatingBelowMin(x) => x == c.rating && c.rating < RATING_MIN
    case RatingAboveMax(x) => x == c.rating && c.rating > RATING_MAX
    case TagNotInEnum(i, t) => i < |c.tags| && t == c.tags[i] && t !in TAG_ENUM
    case NotesTooLong => |c.notes| > NOTES_MAX
    case StatusNotInEnum(s) => s == c.status && s !in STATUS_ENUM
  }

  /** The schema path a violation is reported under, numbered in schema order. */
  function PathOf(v: Violation): (p: nat)
    ensures p < PATHS
  {
    match v
    case NameRequired => 0
    case NameTooLong => 0
    case LocationRequired => 1
    case LocationTooLong => 1
    case RatingBelowMin(_) => 2
    case RatingAboveMax(_) => 2
    case TagNotInEnum(_, _) => 3
    case NotesTooLong => 4
    case StatusNotInEnum(_) => 5
  }

  /** The number of validated paths: name, location, rating, tags, notes, status. */
  const PATHS := 6

  /** `name`: required, then maxlength; Mongoose reports only the first failure of a path. */
  function NameViolations(c: Cafe): (r: seq<Violation>)
    ensures r == [] <==> c.name != "" && |c.name| <= NAME_MAX
    ensures forall v :: v in r <==> PathOf(v) == 0 && Fails(c, v)
    ensures Distinct(r)
  {
    if c.name == "" then [NameRequired] else if |c.name| > NAME_MAX then [NameTooLong] else []
  }

  /** `location`: required, then maxlength. */
  function LocationViolations(c: Cafe): (r: seq<Violation>)
    ensures r == [] <==> c.location != "" && |c.location| <= LOCATION_MAX
    ensures forall v :: v in r <==> PathOf(v) == 1 && Fails(c, v)
    ensures Distinct(r)
  {
    if c.location == "" then [LocationRequired] else if |c.location| > LOCATION_MAX then [LocationTooLong] else []
  }

  /** `rating`: min, then max. */
  function RatingViolations(c: Cafe): (r: seq<Violation>)
    ensures r == [] <==> RATING_MIN <= c.rating <= RATING_MAX
    ensures forall v :: v in r <==> PathOf(v) == 2 && Fails(c, v)
    ensures Distinct(r)
  {
    if c.rating < RATING_MIN then [RatingBelowMin(c.rating)]
    else if c.rating > RATING_MAX then [RatingAboveMax(c.rating)] else []
  }

  /** The tags report holds exactly the failing validators of the `tags` path. */
  lemma TagsReport(c: Cafe)
    ensures forall v :: v in TagViolations(c.tags) <==> PathOf(v) == 3 && Fails(c, v)
    ensures Distinct(TagViolations(c.tags))
  {
    var r := TagViolations(c.tags);
    forall v ensures v in r <==> PathOf(v) == 3 && Fails(c, v) {
      if v.TagNotInEnum? {
        if v.index < |c.tags| && v.tag == c.tags[v.index] {
          assert v == TagNotInEnum(v.index, c.tags[v.index]);
        }
      } else {
        assert v !in r;
      }
    }
    forall j, k | 0 <= j < k < |r| ensures r[j] != r[k] {
      assert r[j].index < r[k].index;
    }
  }

  /** `notes`: maxlength. */
  function NotesViolations(c: Cafe): (r: seq<Violation>)
    ensures r == [] <==> |c.notes| <= NOTES_MAX
    ensures forall v :: v in r <==> PathOf(v) == 4 && Fails(c, v)
    ensures Distinct(r)
  {
    if |c.notes| > NOTES_MAX then [NotesTooLong] else []
  }

  /** `status`: enum. */
  function StatusViolations(c: Cafe): (r: seq<Violation>)
    ensures r == [] <==> c.status in STATUS_ENUM
    ensures forall v :: v in r <==> PathOf(v) == 5 && Fails(c, v)
    ensures Distinct(r)
  {
    if c.status in STATUS_ENUM then [] else [StatusNotInEnum(c.status)]
  }

  /** The validators of the schema, path by path: every failing one is reported, once, in schema order. */
  function Violations(c: Cafe): (r: seq<Violation>)
    ensures r == [] <==> Conforms(c)
    ensures forall v :: v in r <==> Fails(c, v)
    ensures forall j, k :: 0 <= j < k < |r| ==> r[j] != r[k]
    ensures forall j, k :: 0 <= j < k < |r| ==> PathOf(r[j]) <= PathOf(r[k])
  {
    var r := NameViolations(c) + LocationViolations(c) + RatingViolations(c)
      + TagViolations(c.tags) + NotesViolations(c) + StatusViolations(c);
    ViolationsAre(c);
    r
  }

  /** No violation is listed twice. */
  predicate Distinct(vs: seq<Violation>) {
    forall j, k :: 0 <= j < k < |vs| ==> vs[j] != vs[k]
  }

  /** Violations listed path by path, in the order of the schema. */
  predicate InSchemaOrder(vs: seq<Violation>) {
    forall j, k :: 0 <= j < k < |vs| ==> PathOf(vs[j]) <= PathOf(vs[k])
  }

  /** A list in schema order followed by one of later paths is in schema order. */
  lemma AppendInSchemaOrder(a: seq<Violation>, b: seq<Violation>)
    requires InSchemaOrder(a) && InSchemaOrder(b) && forall v, w :: v in a && w in b ==> PathOf(v) <= PathOf(w)
    ensures InSchemaOrder(a + b)
  {
    forall j, k | 0 <= j < k < |a + b| ensures PathOf((a + b)[j]) <= PathOf((a + b)[k]) {
      if j < |a| && k >= |a| {
        assert (a + b)[j] in a && (a + b)[k] == b[k - |a|];
      } else if j >= |a| {
        assert (a + b)[j] == b[j - |a|] && (a + b)[k] == b[k - |a|];
      }
    }
  }

  /** Two lists without duplicates and without a common element concatenate without duplicates. */
  lemma AppendDistinct(a: seq<Violation>, b: seq<Violation>)
    requires Distinct(a) && Distinct(b) && forall v :: v in a ==> v !in b
    ensures Distinct(a + b)
  {
    forall j, k | 0 <= j < k < |a + b| ensures (a + b)[j] != (a + b)[k] {
      if j < |a| && k >= |a| {
        assert (a + b)[j] in a && (a + b)[k] == b[k - |a|];
      }
    }
  }

  /** The path reports together list each failing validator once, in schema order. */
  lemma ViolationsAre(c: Cafe)
    ensures var r := NameViolations(c) + LocationViolations(c) + RatingViolations(c)
      + TagViolations(c.tags) + NotesViolations(c) + StatusViolations(c);
      && (forall v :: v in r <==> Fails(c, v))
      && Distinct(r)
      && InSchemaOrder(r)
  {
    var a, b, d := NameViolations(c), LocationViolations(c), RatingViolations(c);
    var e, f, g := TagViolations(c.tags), NotesViolations(c), StatusViolations(c);
    TagsReport(c);
    forall v ensures v in a + b + d + e + f + g <==> Fails(c, v) {
      var p := PathOf(v);
      assert p == 0 || p == 1 || p == 2 || p == 3 || p == 4 || p == 5;
    }
    ReportsCombine(a, b, d, e, f, g);
  }

  /**
   * Six reports, each without duplicates and each on its own path, numbered
   * in order, concatenate without duplicates and in schema order.
   */
  lemma ReportsCombine(a: seq<Violation>, b: seq<Violation>, d: seq<Violation>,
                       e: seq<Violation>, f: seq<Violation>, g: seq<Violation>)
    requires Distinct(a) && Distinct(b) && Distinct(d) && Distinct(e) && Distinct(f) && Distinct(g)
    requires forall v :: v in a ==> PathOf(v) == 0
    requires forall v :: v in b ==> PathOf(v) == 1
    requires forall v :: v in d ==> PathOf(v) == 2
    requires forall v :: v in e ==> PathOf(v) == 3
    requires forall v :: v in f ==> PathOf(v) == 4
    requires forall v :: v in g ==> PathOf(v) == 5
    ensures Distinct(a + b + d + e + f + g) && InSchemaOrder(a + b + d + e + f + g)
  {
    AppendReport(a, b, 0);
    AppendReport(a + b, d, 1);
    AppendReport(a + b + d, e, 2);
    AppendReport(a + b + d + e, f, 3);
    AppendReport(a + b + d + e + f, g, 4);
  }

  /** A report of paths up to `p` followed by a report of path `p + 1`. */
  lemma AppendReport(a: seq<Violation>, b: seq<Violation>, p: nat)
    requires Distinct(a) && InSchemaOrder(a) && forall v :: v in a ==> PathOf(v) <= p
    requires Distinct(b) && forall v :: v in b ==> PathOf(v) == p + 1
    ensures Distinct(a + b) && InSchemaOrder(a + b)
    ensures forall v :: v in a + b ==> PathOf(v) <= p + 1
  {
    AppendDistinct(a, b);
    AppendInSchemaOrder(a, b);
  }

  /** The message of one failed validator: the schema's own text, or Mongoose's built-in wording. */
  function Message(v: Violation): (r: string)
    ensures |r| > 0
  {
    match v
    case NameRequired => "Cafe name is required"
    case NameTooLong => "Name cannot exceed 100 characters"
    case LocationRequired => "Location is required"
    case LocationTooLong => "Location cannot exceed 200 characters"
    case RatingBelowMin(r) => "Path `rating` (" + IntString(r) + ") is less than minimum allowed value (1)."
    case RatingAboveMax(r) => "Path `rating` (" + IntString(r) + ") is more than maximum allowed value (5)."
    case TagNotInEnum(i, t) => "`" + t + "` is not a valid enum value for path `tags." + Decimal(i) + "`."
    case NotesTooLong => "Notes cannot exceed 1000 characters"
    case StatusNotInEnum(s) => "`" + s + "` is not a valid enum value for path `status`."
  }

  /** The 400 body of a `ValidationError`: every message, joined by ", ". */
  function ValidationMessage(vs: seq<Violation>): (r: string)
    ensures r == "" <==> vs == []
    ensures vs != [] ==> Message(vs[0]) <= r
    ensures |vs| == 1 ==> r == Message(vs[0])
    ensures forall i :: 0 <= i < |vs| ==> IsSubstring(Message(vs[i]), r)
  {
    var messages := seq(|vs|, i requires 0 <= i < |vs| => Message(vs[i]));
    JoinHasParts(messages, ", ");
    assert forall i :: 0 <= i < |vs| ==> messages[i] == Message(vs[i]);
    Join(seq(|vs|, i requires 0 <= i < |vs| => Message(vs[i])), ", ")
  }

  /** A document given only a valid name and location takes the schema defaults, and they conform. */
  lemma DefaultsConform(userId: UserId, name: string, location: string, id: nat, now: nat)
    requires Trim(name) != "" && |Trim(name)| <= NAME_MAX
    requires Trim(location) != "" && |Trim(location)| <= LOCATION_MAX
    ensures var c := Instantiate(NewCafe(userId, Some(name), Some(location), None, None, None, None, None, None, None), id, now);
      && Stored(c)
      && c.photo == "" && c.rating == RATING_DEFAULT && c.tags == [] && c.notes == ""
      && c.status == VISITED && c.isPublic && c.visitedAt == None && c.createdAt == now
  {
    var c := Instantiate(NewCafe(userId, Some(name), Some(location), None, None, None, None, None, None, None), id, now);
    assert c.status == STATUS_ENUM[0];
  }
}
