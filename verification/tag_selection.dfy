/**
 * The tag toggle shared by the add/edit form and the two list screens: a
 * press removes the tag if it is selected, and appends it otherwise.
 */
module TagSelection {

  /** `prev.filter((t) => t !== tag)`: every occurrence of `tag` goes, the rest keep their order. */
  function Remove(s: seq<string>, tag: string): (r: seq<string>)
    ensures |r| <= |s|
    ensures forall x :: x in r <==> x in s && x != tag
    ensures forall x :: x != tag ==> multiset(r)[x] == multiset(s)[x]
  {
    if s == [] then []
    else
      assert s == [s[0]] + s[1..];
      (if s[0] == tag then [] else [s[0]]) + Remove(s[1..], tag)
  }

  /** `prev.includes(tag) ? prev.filter(...) : [...prev, tag]`. */
  function Toggle(s: seq<string>, tag: string): (r: seq<string>)
    ensures tag in r <==> tag !in s
    ensures forall x :: x != tag ==> (x in r <==> x in s)
    ensures tag in s ==> r == Remove(s, tag) && |r| < |s|
    ensures tag !in s ==> |r| == |s| + 1 && r[..|s|] == s && r[|s|] == tag
  {
    if tag in s then
      assert multiset(s)[tag] > 0;
      assert multiset(Remove(s, tag))[tag] == 0;
      assert |Remove(s, tag)| == |multiset(Remove(s, tag))|;
      RemoveShrinks(s, tag);
      Remove(s, tag)
    else s + [tag]
  }

  /** Removing a tag that occurs shortens the list. */
  lemma {:induction false} RemoveShrinks(s: seq<string>, tag: string)
    requires tag in s
    ensures |Remove(s, tag)| < |s|
  {
    if s[0] != tag {
      RemoveShrinks(s[1..], tag);
    }
  }

  /** Removing a tag that does not occur changes nothing. */
  lemma {:induction false} RemoveAbsent(s: seq<string>, tag: string)
    requires tag !in s
    ensures Remove(s, tag) == s
  {
    if s != [] {
      RemoveAbsent(s[1..], tag);
    }
  }

  /** Removal distributes over concatenation. */
  lemma {:induction false} RemoveAppend(a: seq<string>, b: seq<string>, tag: string)
    ensures Remove(a + b, tag) == Remove(a, tag) + Remove(b, tag)
  {
    if a == [] {
      assert a + b == b;
    } else {
      assert (a + b)[1..] == a[1..] + b;
      RemoveAppend(a[1..], b, tag);
    }
  }

  /**
   * Removal is an in-order filter: around any position, what comes before
   * it, the element itself unless it is the tag, and what comes after it.
   */
  lemma RemoveInOrder(s: seq<string>, i: nat, tag: string)
    requires i < |s|
    ensures Remove(s, tag) == Remove(s[..i], tag) + (if s[i] == tag then [] else [s[i]]) + Remove(s[i + 1..], tag)
  {
    assert s == s[..i] + ([s[i]] + s[i + 1..]);
    RemoveAppend(s[..i], [s[i]] + s[i + 1..], tag);
    RemoveAppend([s[i]], s[i + 1..], tag);
    assert Remove([s[i]], tag) == (if s[i] == tag then [] else [s[i]]) + Remove([], tag);
  }

  /** Pressing an unselected tag twice gives the selection back. */
  lemma ToggleTwice(s: seq<string>, tag: string)
    requires tag !in s
    ensures Toggle(Toggle(s, tag), tag) == s
  {
    RemoveAppend(s, [tag], tag);
    RemoveAbsent(s, tag);
    assert Remove([tag], tag) == [] + Remove([], tag);
  }

  /** Pressing a selected tag removes every copy of it; pressing it again selects it once, at the end. */
  lemma ToggleSelectedTwice(s: seq<string>, tag: string)
    requires tag in s
    ensures Toggle(Toggle(s, tag), tag) == Remove(s, tag) + [tag]
  {
  }
}
