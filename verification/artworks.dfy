/** The artwork list query (`useArtworks` in `src/hooks/useArtworks.ts`): the published rows
    come from the store in its order; the search then keeps, case-insensitively, those whose
    title, description or one of whose tags contains the search text. */
module Artworks {
  import opened Wrappers
  import opened Text

  datatype Artwork = Artwork(
    id: string, slug: string, title: string, description: Option<string>,
    tags: Option<seq<string>>, category: Option<string>)

  /** `tags.some(tag => tag.toLowerCase().includes(needle))`. */
  function AnyTagIncludes(tags: seq<string>, needle: string): (b: bool)
    ensures b <==> exists i | 0 <= i < |tags| :: Includes(ToLower(tags[i]), needle)
  {
    if tags == [] then false
    else Includes(ToLower(tags[0]), needle) || AnyTagIncludes(tags[1..], needle)
  }

  /** The search's test, with `needle` already lower-cased: a missing description or tag list
      matches nothing. */
  predicate Matches(a: Artwork, needle: string) {
    || Includes(ToLower(a.title), needle)
    || (a.description.Some? && Includes(ToLower(a.description.value), needle))
    || (a.tags.Some? && AnyTagIncludes(a.tags.value, needle))
  }

  /** The rows that match, in their order. */
  function Filter(rows: seq<Artwork>, needle: string): (r: seq<Artwork>)
    ensures |r| <= |rows|
    ensures forall a | a in r :: a in rows && Matches(a, needle)
    ensures forall a | a in rows && Matches(a, needle) :: a in r
  {
    if rows == [] then []
    else
      var rest := Filter(rows[1..], needle);
      assert forall a | a in rows[1..] :: a in rows;
      if Matches(rows[0], needle) then [rows[0]] + rest else rest
  }

  /** The query's result for `search`: every row when the search is empty, otherwise the rows
      matching its lower-cased text. */
  function Search(rows: seq<Artwork>, search: string): (r: seq<Artwork>)
    ensures search == "" ==> r == rows
    ensures search != "" ==> r == Filter(rows, ToLower(search))
  {
    if search == "" then rows else Filter(rows, ToLower(search))
  }

  /** Filtering keeps the order: the matches of two lists one after the other are the matches
      of the first followed by those of the second. */
  lemma {:induction false} FilterAppend(xs: seq<Artwork>, ys: seq<Artwork>, needle: string)
    ensures Filter(xs + ys, needle) == Filter(xs, needle) + Filter(ys, needle)
  {
    if xs == [] {
      assert xs + ys == ys;
    } else {
      assert (xs + ys)[0] == xs[0] && (xs + ys)[1..] == xs[1..] + ys;
      FilterAppend(xs[1..], ys, needle);
    }
  }

  /** Filtering twice with the same text is filtering once. */
  lemma {:induction false} FilterIdempotent(rows: seq<Artwork>, needle: string)
    ensures Filter(Filter(rows, needle), needle) == Filter(rows, needle)
  {
    if rows != [] {
      FilterIdempotent(rows[1..], needle);
    }
  }

  /** Searches that differ only in letter case give the same rows. */
  lemma SearchIgnoresCase(rows: seq<Artwork>, s1: string, s2: string)
    requires ToLower(s1) == ToLower(s2)
    ensures Search(rows, s1) == Search(rows, s2)
  {
    assert |s1| == |ToLower(s1)| == |ToLower(s2)| == |s2|;
  }
}
