/**
 * The client's tables of tags and statuses, and the lookups the screens use
 * to show a tag's label.
 */
module Tags {
  import opened Wrappers
  import opened Text
  import opened CafeModel
  import opened CafesRoute

  /** One selectable tag: the value stored on a cafe, its label (`caption`, as `label` is a Dafny keyword) and its icon name. */
  datatype TagInfo = TagInfo(id: string, caption: string, icon: string)

  /** One status choice: the stored value and its label (`caption`). */
  datatype StatusInfo = StatusInfo(id: string, caption: string)

  const CAFE_TAGS: seq<TagInfo> := [
    TagInfo("wifi", "WiFi", "wifi"),
    TagInfo("quiet", "Quiet", "volume-off"),
    TagInfo("aesthetic", "Aesthetic", "camera"),
    TagInfo("good-coffee", "Good Coffee", "cafe"),
    TagInfo("pet-friendly", "Pet Friendly", "paw")
  ]

  const CAFE_STATUS: seq<StatusInfo> := [
    StatusInfo("visited", "Visited"),
    StatusInfo("wishlist", "Wishlist")
  ]

  /** The ids of the tag table are distinct and are exactly the values the cafe schema accepts, in the same order. */
  function TagIds(): (r: seq<string>)
    ensures r == TAG_ENUM
    ensures forall i, j :: 0 <= i < j < |r| ==> r[i] != r[j]
    ensures |r| == |CAFE_TAGS| && forall i :: 0 <= i < |r| ==> r[i] == CAFE_TAGS[i].id
  {
    seq(|CAFE_TAGS|, i requires 0 <= i < |CAFE_TAGS| => CAFE_TAGS[i].id)
  }

  /** The ids of the status table are exactly the values the cafe schema accepts. */
  function StatusIds(): (r: seq<string>)
    ensures r == STATUS_ENUM
    ensures |r| == |CAFE_STATUS| && forall i :: 0 <= i < |r| ==> r[i] == CAFE_STATUS[i].id
  {
    seq(|CAFE_STATUS|, i requires 0 <= i < |CAFE_STATUS| => CAFE_STATUS[i].id)
  }

  /** `Array.prototype.find` on the id: the first entry of `ts` with that id. */
  function FindTag(ts: seq<TagInfo>, id: string): (r: Option<TagInfo>)
    ensures r.Some? ==> r.value in ts && r.value.id == id
    ensures r.None? <==> forall i :: 0 <= i < |ts| ==> ts[i].id != id
    ensures r.Some? ==> exists i :: 0 <= i < |ts| && ts[i] == r.value && forall j :: 0 <= j < i ==> ts[j].id != id
  {
    if ts == [] then None
    else if ts[0].id == id then Some(ts[0])
    else
      var r := FindTag(ts[1..], id);
      if r.Some? then
        var i :| 0 <= i < |ts[1..]| && ts[1..][i] == r.value && forall j :: 0 <= j < i ==> ts[1..][j].id != id;
        assert ts[i + 1] == r.value;
        r
      else r
  }

  /** `getTagById`: the table entry of a tag the schema accepts, and nothing for any other string. */
  function GetTagById(id: string): (r: Option<TagInfo>)
    ensures r.Some? <==> id in TAG_ENUM
    ensures r.Some? ==> r.value in CAFE_TAGS && r.value.id == id
  {
    var ids := TagIds();
    assert forall i :: 0 <= i < |CAFE_TAGS| ==> (CAFE_TAGS[i].id == id <==> ids[i] == id);
    FindTag(CAFE_TAGS, id)
  }

  /** `getTagLabel`: the label of a known tag, and the id itself for an unknown one. */
  function GetTagLabel(id: string): (r: string)
    ensures id !in TAG_ENUM ==> r == id
    ensures id in TAG_ENUM ==> exists i :: 0 <= i < |CAFE_TAGS| && CAFE_TAGS[i].id == id && r == CAFE_TAGS[i].caption
  {
    var t := GetTagById(id);
    if t.Some? && t.value.caption != "" then t.value.caption else id
  }

  /** No tag value is blank or holds a comma, so tags survive being sent as one comma-joined parameter. */
  lemma {:induction false} JoinedTagsRoundTrip(selected: seq<string>)
    requires |selected| >= 1
    requires forall i :: 0 <= i < |selected| ==> selected[i] in TAG_ENUM
    ensures TagList(Join(selected, ",")) == selected
  {
    forall i | 0 <= i < |selected| ensures !IsBlank(selected[i]) && ',' !in selected[i] {
      var t := selected[i];
      assert !IsSpace(t[0]);
      assert t == "wifi" || t == "quiet" || t == "aesthetic" || t == "good-coffee" || t == "pet-friendly";
    }
    TagListOfJoined(selected);
  }

  /** What the tag chips ask for: with none selected, anything; otherwise one of the selected tags. */
  predicate SelectionHit(c: Cafe, selectedTags: seq<string>) {
    selectedTags != [] ==> HasAnyTag(c, selectedTags)
  }
}
