/**
 * The home screen: the caller's own list, filtered by status, tags and a
 * search box. Each filter change issues one list request, built by
 * `BuildParams`, whose response is handed to `Receive`.
 */
module HomeScreen {
  import opened Wrappers
  import opened Text
  import opened CafeModel
  import opened CafesRoute
  import opened TagSelection
  import opened Tags

  /** The query parameters of one list request; an absent key is `None`. */
  datatype ListParams = ListParams(status: Option<string>, tags: Option<string>, search: Option<string>)

  class CafeList {
    var cafes: seq<Cafe>
    var loading: bool
    var refreshing: bool
    var searchQuery: string
    /** The status chip; `None` is the initial `null` ("All"). */
    var selectedStatus: Option<string>
    var selectedTags: seq<string>

    constructor ()
      ensures cafes == [] && loading && !refreshing
      ensures searchQuery == "" && selectedStatus == None && selectedTags == []
    {
      cafes, loading, refreshing := [], true, false;
      searchQuery, selectedStatus, selectedTags := "", None, [];
    }

    /**
     * The `params` of `fetchCafes`: a status only when one is selected and
     * non-empty, the tags joined with commas only when some are selected, and
     * the trimmed search only when it is not blank.
     */
    method BuildParams() returns (p: ListParams)
      ensures p.status.Some? <==> selectedStatus.Some? && selectedStatus.value != ""
      ensures p.status.Some? ==> p.status == selectedStatus
      ensures p.tags.Some? <==> selectedTags != []
      ensures p.tags.Some? ==> p.tags.value == Join(selectedTags, ",")
      ensures p.tags.Some? && (forall i :: 0 <= i < |selectedTags| ==> selectedTags[i] in TAG_ENUM) ==>
        TagList(p.tags.value) == selectedTags
      ensures p.search.Some? <==> !IsBlank(searchQuery)
      ensures p.search.Some? ==> p.search.value == Trim(searchQuery) && p.search.value != ""
    {
      p := ListParams(None, None, None);
      if selectedStatus.Some? && selectedStatus.value != "" {
        p := p.(status := selectedStatus);
      }
      if |selectedTags| > 0 {
        p := p.(tags := Some(Join(selectedTags, ",")));
        if forall i :: 0 <= i < |selectedTags| ==> selectedTags[i] in TAG_ENUM {
          JoinedTagsRoundTrip(selectedTags);
        }
      }
      TrimEmptyIffBlank(searchQuery);
      if Trim(searchQuery) != "" {
        p := p.(search := Some(Trim(searchQuery)));
      }
    }

    /**
     * The rest of `fetchCafes` once the response is in: a response replaces
     * the list, a failed request (`None`) leaves it as it was. Both loading
     * flags are cleared either way.
     */
    method Receive(response: Option<seq<Cafe>>)
      modifies this
      ensures !loading && !refreshing
      ensures response.Some? ==> cafes == response.value
      ensures response.None? ==> cafes == old(cafes)
      ensures searchQuery == old(searchQuery) && selectedStatus == old(selectedStatus) && selectedTags == old(selectedTags)
    {
      if response.Some? {
        cafes := response.value;
      }
      loading, refreshing := false, false;
    }

    /** `onRefresh`: marks the list as refreshing; the request follows. */
    method OnRefresh()
      modifies this
      ensures refreshing
      ensures cafes == old(cafes) && loading == old(loading)
      ensures searchQuery == old(searchQuery) && selectedStatus == old(selectedStatus) && selectedTags == old(selectedTags)
    {
      refreshing := true;
    }

    /** `handleTagChange`: toggles one tag and touches nothing else. */
    method HandleTagChange(tag: string)
      modifies this
      ensures selectedTags == Toggle(old(selectedTags), tag)
      ensures cafes == old(cafes) && searchQuery == old(searchQuery) && selectedStatus == old(selectedStatus)
      ensures loading == old(loading) && refreshing == old(refreshing)
    {
      selectedTags := Toggle(selectedTags, tag);
    }
  }

  /** The results line: the count, then "cafe" for exactly one result and "cafes" otherwise. */
  function CountLabel(n: nat): (r: string)
    ensures |r| > |Decimal(n)| && r[..|Decimal(n)|] == Decimal(n) && r[|Decimal(n)|] == ' '
    ensures r[|Decimal(n)| + 1..] == "cafe" <==> n == 1
    ensures r[|Decimal(n)| + 1..] == "cafe" || r[|Decimal(n)| + 1..] == "cafes"
  {
    Decimal(n) + " " + (if n == 1 then "cafe" else "cafes")
  }

  /** The results line splits at its space into the count, which reads back as `n`, and the noun. */
  lemma CountLabelReadsBack(n: nat)
    ensures var parts := Split(CountLabel(n), ' ');
      && |parts| == 2
      && (forall i :: 0 <= i < |parts[0]| ==> '0' <= parts[0][i] <= '9')
      && DecimalValue(parts[0]) == n
      && (parts[1] == "cafe" <==> n == 1)
  {
    var noun := if n == 1 then "cafe" else "cafes";
    var parts := [Decimal(n), noun];
    assert ' ' !in Decimal(n);
    assert Join(parts, [' ']) == CountLabel(n);
    SplitJoin(parts, ' ');
    DecimalRoundTrip(n);
  }

  /** What the status chip asks for: with none selected, anything; otherwise that status. */
  predicate StatusHit(c: Cafe, selectedStatus: Option<string>) {
    selectedStatus.Some? ==> c.status == selectedStatus.value
  }

  /** What the search box asks for: with blank text, anything; otherwise the trimmed text in the name. */
  predicate NameSearchHit(c: Cafe, searchQuery: string) {
    !IsBlank(searchQuery) ==> ContainsIgnoringCase(c.name, Trim(searchQuery))
  }

  /**
   * The parameters the screen sends select, on the server, the caller's own
   * cafes with the chosen status, one of the chosen tags, and the trimmed
   * search in the name.
   */
  lemma ListParamsSelect(p: ListParams, selectedStatus: Option<string>, selectedTags: seq<string>,
                         searchQuery: string, caller: UserId, c: Cafe)
    requires selectedStatus.Some? ==> selectedStatus.value in STATUS_ENUM
    requires p.status.Some? <==> selectedStatus.Some? && selectedStatus.value != ""
    requires p.status.Some? ==> p.status == selectedStatus
    requires p.tags.Some? <==> selectedTags != []
    requires p.tags.Some? ==> TagList(p.tags.value) == selectedTags
    requires p.search.Some? <==> !IsBlank(searchQuery)
    requires p.search.Some? ==> p.search.value == Trim(searchQuery) && p.search.value != ""
    ensures Listed(c, caller, p.status, p.tags, p.search) <==>
      && c.userId == caller
      && StatusHit(c, selectedStatus) && SelectionHit(c, selectedTags) && NameSearchHit(c, searchQuery)
  {
    assert selectedStatus.Some? ==> selectedStatus.value != "";
  }
}
