/** The portfolio page (`src/pages/Portfolio.tsx`): the category menu built from the artwork
    categories, the category a click selects, the link shown as active for it, the featured
    strip, and the artworks listed. */
module Portfolio {
  import opened Wrappers
  import opened Text
  import opened Artworks
  import opened FlowingMenu

  const AllAccent := "hsl(var(--primary))"
  const CategoryAccent := "hsl(var(--secondary))"

  /** `toLowerCase().replace(/\s/g, '-')`: lower case, every whitespace character a dash. */
  function Slug(s: string): (r: string)
    ensures |r| == |s|
    ensures forall i | 0 <= i < |s| :: r[i] == (if IsSpace(s[i]) then '-' else LowerChar(s[i]))
  {
    var t := ToLower(s);
    seq(|t|, i requires 0 <= i < |t| => if IsSpace(t[i]) then '-' else t[i])
  }

  /** The link of a category: "#" and its slug. */
  function CategoryHref(name: string): string {
    "#" + Slug(name)
  }

  /** The menu: "All" first, then one item per category, in order. */
  function CategoryMenuItems(categories: seq<string>): (items: seq<Item>)
    ensures |items| == |categories| + 1
    ensures items[0] == Item(Some("#all"), "All", Some(AllAccent))
    ensures forall i | 0 <= i < |categories| ::
              items[i + 1] == Item(Some(CategoryHref(categories[i])), categories[i], Some(CategoryAccent))
  {
    [Item(Some("#all"), "All", Some(AllAccent))]
      + seq(|categories|, i requires 0 <= i < |categories| =>
              Item(Some(CategoryHref(categories[i])), categories[i], Some(CategoryAccent)))
  }

  /** `handleCategoryClick`: the item named "All" selects "all", any other its own name. */
  function SelectedBy(name: string): string {
    if name == "All" then "all" else name
  }

  /** The link the menu shows as active for the selected category. */
  function ActiveHref(selected: string): string {
    "#" + Slug(selected)
  }

  /** Slugs ignore letter case. */
  lemma SlugIgnoresCase(a: string, b: string)
    requires ToLower(a) == ToLower(b)
    ensures Slug(a) == Slug(b)
  {
    assert |a| == |ToLower(a)| == |ToLower(b)| == |b|;
    forall i | 0 <= i < |a| ensures Slug(a)[i] == Slug(b)[i] {
      assert ToLower(a)[i] == ToLower(b)[i];
    }
  }

  /** After a click on any item of the menu, that item is the one shown as active. */
  lemma ClickedItemIsActive(categories: seq<string>, k: nat)
    requires k < |categories| + 1
    ensures var item := CategoryMenuItems(categories)[k];
      IsActive(Some(ActiveHref(SelectedBy(item.name))), item)
  {
    var items := CategoryMenuItems(categories);
    assert ToLower("All") == "all" == ToLower("all");
    assert Slug("all") == "all";
    if k > 0 {
      var name := categories[k - 1];
      assert items[k] == Item(Some(CategoryHref(name)), name, Some(CategoryAccent));
      if name == "All" {
        SlugIgnoresCase("All", "all");
        assert CategoryHref(name) == ActiveHref("all");
      } else {
        assert CategoryHref(name) == ActiveHref(SelectedBy(name));
      }
    } else {
      assert items[0].name == "All" && SelectedBy("All") == "all";
      assert ActiveHref("all") == "#" + "all" == "#all";
    }
  }

  /** The featured strip: the first four artworks, or all of them when there are fewer. */
  function Featured(artworks: seq<Artwork>): (r: seq<Artwork>)
    ensures |r| == if |artworks| < 4 then |artworks| else 4
    ensures r == artworks[..|r|]
  {
    if |artworks| < 4 then artworks else artworks[..4]
  }

  /** The artworks listed, as the page obtains them: the query receives the search and the
      selected category, but it reads only the search. */
  function Listed(rows: seq<Artwork>, search: string, selected: string): seq<Artwork> {
    Search(rows, search)
  }

  /** Choosing a category never changes the artworks listed. */
  lemma CategoryIsIgnored(rows: seq<Artwork>, search: string, c1: string, c2: string)
    ensures Listed(rows, search, c1) == Listed(rows, search, c2)
  {
  }

  /** With the category "Digital" selected, an artwork of another category is still listed. */
  lemma OtherCategoryStillListed(a: Artwork)
    requires a.category == Some("3D")
    ensures a in Listed([a], "", "Digital")
  {
    assert Search([a], "") == [a];
  }

  /** The rows of one category, in order. */
  function InCategory(rows: seq<Artwork>, category: string): (r: seq<Artwork>)
    ensures |r| <= |rows|
    ensures forall a | a in r :: a in rows && a.category == Some(category)
    ensures forall a | a in rows && a.category == Some(category) :: a in r
  {
    if rows == [] then []
    else
      var rest := InCategory(rows[1..], category);
      assert forall a | a in rows[1..] :: a in rows;
      if rows[0].category == Some(category) then [rows[0]] + rest else rest
  }

  /** The listing with the category applied: "all" lists every search result, any other
      selection only the results in that category. */
  function ListedInCategory(rows: seq<Artwork>, search: string, selected: string)
    : (r: seq<Artwork>)
    ensures selected == "all" ==> r == Search(rows, search)
    ensures selected != "all" ==>
              forall a | a in r :: a in Search(rows, search) && a.category == Some(selected)
    ensures selected != "all" ==>
              forall a | a in Search(rows, search) && a.category == Some(selected) :: a in r
  {
    if selected == "all" then Search(rows, search) else InCategory(Search(rows, search), selected)
  }

  /** The page's two views of the listing: the featured strip is the head of the grid. */
  function Gallery(rows: seq<Artwork>, search: string, selected: string)
    : (r: (seq<Artwork>, seq<Artwork>))
    ensures r.1 == ListedInCategory(rows, search, selected)
    ensures |r.0| <= 4 && |r.0| <= |r.1| && r.0 == r.1[..|r.0|]
    ensures |r.0| == 4 || r.0 == r.1
  {
    var grid := ListedInCategory(rows, search, selected);
    (Featured(grid), grid)
  }
}
