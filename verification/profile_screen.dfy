/**
 * The statistics of the profile screen, computed from the caller's cafes:
 * how many there are, how many per status, and the three most used tags;
 * and the initials shown in the avatar.
 */
module ProfileScreen {
  import opened Wrappers
  import opened Text
  import opened Ordering
  import opened CafeModel

  /** One entry of `Object.entries(tagCount)`: a tag and how often it occurs. */
  datatype TagStat = TagStat(tag: string, count: nat)

  /** The `stats` state of the screen. */
  datatype Stats = Stats(totalCafes: nat, visitedCafes: nat, wishlistCafes: nat, topTags: seq<TagStat>)

  /** The number of cafes with exactly that status (`cafes.filter(...).length`). */
  function StatusCount(cafes: seq<Cafe>, status: string): (n: nat)
    ensures n <= |cafes|
    ensures n == 0 <==> forall i :: 0 <= i < |cafes| ==> cafes[i].status != status
    ensures n == |cafes| <==> forall i :: 0 <= i < |cafes| ==> cafes[i].status == status
  {
    if cafes == [] then 0
    else StatusCount(cafes[..|cafes| - 1], status) + (if cafes[|cafes| - 1].status == status then 1 else 0)
  }

  /** No cafe is counted both as visited and as on the wishlist. */
  lemma {:induction false} StatusCountsBounded(cafes: seq<Cafe>)
    ensures StatusCount(cafes, VISITED) + StatusCount(cafes, WISHLIST) <= |cafes|
  {
    if cafes != [] {
      StatusCountsBounded(cafes[..|cafes| - 1]);
    }
  }

  /** The tags of every cafe, cafe after cafe, in the order the nested `forEach` visits them. */
  function AllTags(cafes: seq<Cafe>): seq<string> {
    if cafes == [] then [] else AllTags(cafes[..|cafes| - 1]) + cafes[|cafes| - 1].tags
  }

  /** The distinct elements of `s`, in the order of their first occurrence. */
  function FirstSeen(s: seq<string>): seq<string> {
    if s == [] then []
    else
      var p := FirstSeen(s[..|s| - 1]);
      if s[|s| - 1] in p then p else p + [s[|s| - 1]]
  }

  /** `FirstSeen` lists each element of `s` exactly once. */
  lemma {:induction false} FirstSeenDistinct(s: seq<string>)
    ensures forall x :: x in FirstSeen(s) <==> x in s
    ensures forall i, j :: 0 <= i < j < |FirstSeen(s)| ==> FirstSeen(s)[i] != FirstSeen(s)[j]
  {
    if s != [] {
      FirstSeenDistinct(s[..|s| - 1]);
      assert s == s[..|s| - 1] + [s[|s| - 1]];
    }
  }

  /** `tagCount` and `order` record how often each tag of `seen` occurs, and where it first occurs. */
  ghost predicate Tallies(tagCount: map<string, nat>, order: seq<string>, seen: seq<string>) {
    && (forall t :: t in tagCount <==> t in seen)
    && (forall t :: t in tagCount ==> tagCount[t] == multiset(seen)[t])
    && order == FirstSeen(seen)
  }

  /** One `tagCount[tag] = (tagCount[tag] || 0) + 1` keeps the tally exact. */
  lemma TallyStep(tagCount: map<string, nat>, order: seq<string>, seen: seq<string>, tag: string)
    requires Tallies(tagCount, order, seen)
    ensures tag in tagCount ==> Tallies(tagCount[tag := tagCount[tag] + 1], order, seen + [tag])
    ensures tag !in tagCount ==> Tallies(tagCount[tag := 1], order + [tag], seen + [tag])
  {
    FirstSeenStep(seen, tag);
    CountStep(tagCount, seen, tag);
  }

  /** A new element joins the end of the first-seen order; a repeated one leaves it as it is. */
  lemma FirstSeenStep(seen: seq<string>, tag: string)
    ensures FirstSeen(seen + [tag]) == if tag in seen then FirstSeen(seen) else FirstSeen(seen) + [tag]
  {
    FirstSeenDistinct(seen);
    assert (seen + [tag])[..|seen|] == seen;
  }

  /** One increment keeps the counts equal to the occurrences. */
  lemma CountStep(tagCount: map<string, nat>, seen: seq<string>, tag: string)
    requires forall t :: t in tagCount <==> t in seen
    requires forall t :: t in tagCount ==> tagCount[t] == multiset(seen)[t]
    ensures var m := tagCount[tag := if tag in tagCount then tagCount[tag] + 1 else 1];
      && (forall t :: t in m <==> t in seen + [tag])
      && (forall t :: t in m ==> m[t] == multiset(seen + [tag])[t])
  {
    assert multiset(seen + [tag]) == multiset(seen) + multiset{tag};
  }

  /** The body of the inner `forEach`: `tagCount[tag] = (tagCount[tag] || 0) + 1`. */
  method Tally(tagCount: map<string, nat>, order: seq<string>, tag: string, ghost seen: seq<string>)
    returns (tagCount': map<string, nat>, order': seq<string>)
    requires Tallies(tagCount, order, seen)
    ensures Tallies(tagCount', order', seen + [tag])
  {
    TallyStep(tagCount, order, seen, tag);
    if tag in tagCount {
      tagCount' := tagCount[tag := tagCount[tag] + 1];
      order' := order;
    } else {
      tagCount' := tagCount[tag := 1];
      order' := order + [tag];
    }
  }

  /** The inner `forEach`: tallies the tags of one cafe. */
  method TallyTags(tagCount: map<string, nat>, order: seq<string>, tags: seq<string>, ghost before: seq<string>)
    returns (tagCount': map<string, nat>, order': seq<string>)
    requires Tallies(tagCount, order, before)
    ensures Tallies(tagCount', order', before + tags)
  {
    tagCount', order' := tagCount, order;
    ghost var seen := before;
    var j := 0;
    while j < |tags|
      invariant 0 <= j <= |tags|
      invariant seen == before + tags[..j]
      invariant Tallies(tagCount', order', seen)
    {
      tagCount', order' := Tally(tagCount', order', tags[j], seen);
      assert before + tags[..j + 1] == seen + [tags[j]] by {
        assert tags[..j + 1] == tags[..j] + [tags[j]];
      }
      seen := seen + [tags[j]];
      j := j + 1;
    }
    assert tags[..j] == tags;
  }

  /**
   * Fills the `tagCount` dictionary as the nested loops do. `order` is the
   * order in which keys were first set, which `Object.entries` follows.
   */
  method CountTags(cafes: seq<Cafe>) returns (tagCount: map<string, nat>, order: seq<string>)
    ensures forall t :: t in tagCount <==> t in AllTags(cafes)
    ensures forall t :: t in tagCount ==> tagCount[t] == multiset(AllTags(cafes))[t]
    ensures order == FirstSeen(AllTags(cafes))
    ensures forall i :: 0 <= i < |order| ==> order[i] in tagCount
  {
    tagCount := map[];
    order := [];
    var i := 0;
    while i < |cafes|
      invariant 0 <= i <= |cafes|
      invariant Tallies(tagCount, order, AllTags(cafes[..i]))
    {
      tagCount, order := TallyTags(tagCount, order, cafes[i].tags, AllTags(cafes[..i]));
      assert cafes[..i + 1][..i] == cafes[..i];
      i := i + 1;
    }
    assert cafes[..i] == cafes;
    FirstSeenDistinct(AllTags(cafes));
  }

  /** `Object.entries(tagCount)` for the dictionary the loops fill. */
  function TagEntries(cafes: seq<Cafe>): (r: seq<TagStat>)
    ensures forall e :: e in r ==> e.tag in AllTags(cafes) && e.count == multiset(AllTags(cafes))[e.tag]
    ensures forall t :: t in AllTags(cafes) ==> exists i :: 0 <= i < |r| && r[i].tag == t
  {
    var order := FirstSeen(AllTags(cafes));
    FirstSeenDistinct(AllTags(cafes));
    var r := seq(|order|, i requires 0 <= i < |order| => TagStat(order[i], multiset(AllTags(cafes))[order[i]]));
    assert forall t :: t in AllTags(cafes) ==> exists i :: 0 <= i < |order| && order[i] == t && r[i].tag == t;
    r
  }

  /** The sort key of `sort((a, b) => b[1] - a[1])`. */
  function Count(e: TagStat): int {
    e.count
  }

  /** `.sort((a, b) => b[1] - a[1]).slice(0, 3)`: the three largest counts, largest first. */
  function TopTags(entries: seq<TagStat>): (r: seq<TagStat>)
    ensures |r| == if |entries| < 3 then |entries| else 3
    ensures SortedDesc(r, Count)
    ensures multiset(r) <= multiset(entries)
  {
    var sorted := SortDesc(entries, Count);
    assert |sorted| == |multiset(sorted)| == |multiset(entries)| == |entries|;
    var n := if |sorted| < 3 then |sorted| else 3;
    assert sorted == sorted[..n] + sorted[n..];
    sorted[..n]
  }

  /** A tag left out of the top three occurs no more often than any tag shown. */
  lemma TopTagsDominate(entries: seq<TagStat>, e: TagStat)
    requires e in entries && e !in TopTags(entries)
    ensures forall x :: x in TopTags(entries) ==> x.count >= e.count
  {
    var sorted := SortDesc(entries, Count);
    var n := if |sorted| < 3 then |sorted| else 3;
    assert TopTags(entries) == sorted[..n];
    assert e in multiset(sorted);
    var p :| 0 <= p < |sorted| && sorted[p] == e;
    assert p >= n;
    forall x | x in TopTags(entries) ensures x.count >= e.count {
      var q :| 0 <= q < n && sorted[q] == x;
      assert Count(sorted[q]) >= Count(sorted[p]);
    }
  }

  /** Among equal counts, the shown entries are the first ones in dictionary order, in that order. */
  lemma TopTagsStable(entries: seq<TagStat>, k: int)
    ensures WithKey(TopTags(entries), Count, k) <= WithKey(entries, Count, k)
  {
    var sorted := SortDesc(entries, Count);
    var n := if |sorted| < 3 then |sorted| else 3;
    SortStable(entries, Count, k);
    WithKeyPrefix(sorted, n, Count, k);
  }

  /** The first character of each piece; an empty piece gives `undefined`, which `join` prints as nothing. */
  function Heads(parts: seq<string>): (r: string)
    ensures |r| <= |parts|
    ensures (forall i :: 0 <= i < |parts| ==> parts[i] != []) ==> |r| == |parts|
  {
    if parts == [] then []
    else (if parts[0] == [] then [] else [parts[0][0]]) + Heads(parts[1..])
  }

  lemma {:induction false} HeadsOfWords(parts: seq<string>)
    requires forall i :: 0 <= i < |parts| ==> parts[i] != []
    ensures |Heads(parts)| == |parts|
    ensures forall i :: 0 <= i < |parts| ==> Heads(parts)[i] == parts[i][0]
  {
    if parts != [] {
      HeadsOfWords(parts[1..]);
    }
  }

  /**
   * The characters of `s` that start a word: those that are not a space and
   * come first (when `atStart`) or right after a space.
   */
  function WordStarts(s: string, atStart: bool): string
    decreases |s|
  {
    if s == [] then []
    else if s[0] == ' ' then WordStarts(s[1..], true)
    else (if atStart then [s[0]] else []) + WordStarts(s[1..], false)
  }

  /** A single word contributes its first character, and only at the start. */
  lemma {:induction false} WordStartsOfWord(w: string, atStart: bool)
    requires ' ' !in w
    ensures WordStarts(w, atStart) == if atStart && w != [] then [w[0]] else []
    decreases |w|
  {
    if w != [] {
      assert ' ' !in w[1..];
      WordStartsOfWord(w[1..], false);
    }
  }

  /** A space splits the word starts into those before it and those after it. */
  lemma {:induction false} WordStartsAcross(a: string, b: string, atStart: bool)
    requires ' ' !in a
    ensures WordStarts(a + [' '] + b, atStart) == WordStarts(a, atStart) + WordStarts(b, true)
    decreases |a|
  {
    if a == [] {
      assert a + [' '] + b == [' '] + b;
      assert ([' '] + b)[1..] == b;
    } else {
      assert (a + [' '] + b)[1..] == a[1..] + [' '] + b;
      assert ' ' !in a[1..];
      WordStartsAcross(a[1..], b, false);
    }
  }

  /** Splitting at spaces and taking each piece's first character gives the word starts. */
  lemma {:induction false} HeadsOfSplit(s: string)
    ensures Heads(Split(s, ' ')) == WordStarts(s, true)
    decreases |s|
  {
    if ' ' !in s {
      WordStartsOfWord(s, true);
    } else {
      var i := IndexOf(s, ' ');
      var a, b := s[..i], s[i + 1..];
      assert s == a + [' '] + b;
      WordStartsAcross(a, b, true);
      WordStartsOfWord(a, true);
      HeadsOfSplit(b);
      var parts := Split(s, ' ');
      assert parts == [a] + Split(b, ' ');
      assert Heads(parts) == (if a == [] then [] else [a[0]]) + Heads(Split(b, ' '));
    }
  }

  /**
   * `getInitials`: `?` for a missing or empty name, else the first letters of
   * the words, upper-cased, at most two.
   */
  function Initials(name: Option<string>): (r: string)
    ensures name.None? || name == Some("") ==> r == "?"
    ensures name.Some? && name.value != "" ==>
      var starts := WordStarts(name.value, true);
      && |r| == (if |starts| < 2 then |starts| else 2)
      && forall i :: 0 <= i < |r| ==> r[i] == UpperChar(starts[i])
    ensures name.Some? && name.value != "" && name.value[0] != ' ' ==> r != [] && r[0] == UpperChar(name.value[0])
  {
    if name.None? || name.value == "" then "?"
    else
      var parts := Split(name.value, ' ');
      var letters := Upper(Heads(parts));
      HeadsOfSplit(name.value);
      if |letters| <= 2 then letters else letters[..2]
  }

  /**
   * The initials of a name of space-separated words are the upper-cased first
   * letters of its first two words, or of its only word.
   */
  lemma InitialsOfWords(words: seq<string>)
    requires |words| >= 1
    requires forall i :: 0 <= i < |words| ==> words[i] != [] && ' ' !in words[i]
    ensures |words| == 1 ==> Initials(Some(Join(words, " "))) == [UpperChar(words[0][0])]
    ensures |words| >= 2 ==> Initials(Some(Join(words, " "))) == [UpperChar(words[0][0]), UpperChar(words[1][0])]
  {
    JoinedWordStarts(words);
    InitialsFromStarts(Join(words, " "));
  }

  /** The initials of a non-empty name are its first one or two word starts, upper-cased. */
  lemma InitialsFromStarts(name: string)
    requires name != ""
    ensures var starts := WordStarts(name, true);
      && (|starts| == 1 ==> Initials(Some(name)) == [UpperChar(starts[0])])
      && (|starts| >= 2 ==> Initials(Some(name)) == [UpperChar(starts[0]), UpperChar(starts[1])])
  {
    var starts := WordStarts(name, true);
    var r := Initials(Some(name));
    if |starts| == 1 {
      assert |r| == 1 && r[0] == UpperChar(starts[0]);
    } else if |starts| >= 2 {
      assert |r| == 2 && r[0] == UpperChar(starts[0]) && r[1] == UpperChar(starts[1]);
    }
  }

  /** The first one or two word starts of words joined with single spaces. */
  lemma JoinedWordStarts(words: seq<string>)
    requires |words| >= 1
    requires forall i :: 0 <= i < |words| ==> words[i] != [] && ' ' !in words[i]
    ensures var starts := WordStarts(Join(words, " "), true);
      && Join(words, " ") != ""
      && |starts| == |words| && starts[0] == words[0][0]
      && (|words| >= 2 ==> starts[1] == words[1][0])
  {
    WordStartsOfJoin(words);
    HeadsOfWords(words);
  }

  /** The words joined with single spaces start exactly with the words' first letters. */
  lemma {:induction false} WordStartsOfJoin(words: seq<string>)
    requires |words| >= 1
    requires forall i :: 0 <= i < |words| ==> words[i] != [] && ' ' !in words[i]
    ensures WordStarts(Join(words, " "), true) == Heads(words)
  {
    WordStartsOfWord(words[0], true);
    if |words| == 1 {
      assert Heads(words) == [words[0][0]] + Heads([]);
    } else {
      assert Join(words, " ") == words[0] + [' '] + Join(words[1..], " ");
      WordStartsAcross(words[0], Join(words[1..], " "), true);
      WordStartsOfJoin(words[1..]);
    }
  }

  /** The screen's statistics and its loading flag. */
  class Profile {
    var stats: Stats
    var loading: bool

    constructor ()
      ensures stats == Stats(0, 0, 0, []) && loading
    {
      stats := Stats(0, 0, 0, []);
      loading := true;
    }

    /**
     * `fetchStats` once the request has settled: `None` is a failed request,
     * which keeps the previous statistics. The loading flag is cleared either way.
     */
    method FetchStats(response: Option<seq<Cafe>>)
      modifies this
      ensures !loading
      ensures response.None? ==> stats == old(stats)
      ensures response.Some? ==>
        var cafes := response.value;
        && stats.totalCafes == |cafes|
        && stats.visitedCafes == StatusCount(cafes, VISITED)
        && stats.wishlistCafes == StatusCount(cafes, WISHLIST)
        && stats.topTags == TopTags(TagEntries(cafes))
    {
      if response.Some? {
        var cafes := response.value;
        var tagCount, order := CountTags(cafes);
        var entries := seq(|order|, i requires 0 <= i < |order| => TagStat(order[i], tagCount[order[i]]));
        assert entries == TagEntries(cafes);
        stats := Stats(|cafes|, StatusCount(cafes, VISITED), StatusCount(cafes, WISHLIST), TopTags(entries));
      }
      loading := false;
    }
  }
}
