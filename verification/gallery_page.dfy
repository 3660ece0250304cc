/** app/gallery/page.tsx: the public gallery with a category selector
    ("ყველა", "all", is the wildcard) and a search box. `fold` stands for
    `toLowerCase`. */
module GalleryPage {
  import opened Types
  import opened Js
  import Collection

  const Everything := "ყველა"

  datatype Filters = Filters(selected: string, term: string)

  function Category(i: Image): string { i.category }

  /** `categories`: the wildcard followed by the distinct image categories. */
  function Categories(images: seq<Image>): seq<string> {
    Collection.Selector(Everything, images, Category)
  }

  predicate InCategory(img: Image, selected: string) {
    selected == Everything || img.category == selected
  }

  predicate MatchesSearch(img: Image, term: string, fold: string -> string) {
    term == "" || Contains(fold(img.alt), fold(term)) || Contains(fold(img.category), fold(term))
  }

  /** The category step: the wildcard keeps everything. */
  function ByCategory(images: seq<Image>, selected: string): (r: seq<Image>)
    ensures forall x :: x in r <==> x in images && InCategory(x, selected)
    ensures forall x :: multiset(r)[x] == if InCategory(x, selected) then multiset(images)[x] else 0
    ensures Collection.IsSubsequence(r, images)
    ensures selected == Everything ==> r == images
  {
    if selected != Everything then
      Collection.FilterIsSubsequence(images, (x: Image) => x.category == selected);
      Collection.Filter(images, (x: Image) => x.category == selected)
    else
      Collection.PrefixIsSubsequence(images, |images|);
      assert images[..|images|] == images;
      images
  }

  /** `filterImages`: first the category (skipped for the wildcard), then,
      for a non-empty search, the folded alt text or category must contain
      the folded term. The result keeps the gallery's order. */
  function FilterImages(images: seq<Image>, f: Filters, fold: string -> string): (r: seq<Image>)
    ensures forall x :: x in r <==> x in images && InCategory(x, f.selected) && MatchesSearch(x, f.term, fold)
    ensures forall x :: multiset(r)[x] ==
              if InCategory(x, f.selected) && MatchesSearch(x, f.term, fold) then multiset(images)[x] else 0
    ensures Collection.IsSubsequence(r, images)
  {
    var byCategory := ByCategory(images, f.selected);
    if f.term != "" then
      var pred := (x: Image) => Contains(fold(x.alt), fold(f.term)) || Contains(fold(x.category), fold(f.term));
      Collection.FilterIsSubsequence(byCategory, pred);
      Collection.SubsequenceTrans(Collection.Filter(byCategory, pred), byCategory, images);
      Collection.Filter(byCategory, pred)
    else
      byCategory
  }

  /** Every category the selector offers besides the wildcard shows at least
      one image of that category when the search box is empty. */
  lemma OfferedCategoryShowsSomething(images: seq<Image>, c: string, fold: string -> string)
    requires c in Categories(images)[1..]
    ensures exists x :: x in FilterImages(images, Filters(c, ""), fold) && x.category == c
  {
  }

  /** The "show all photos" handler: the wildcard and no search. */
  function Reset(): (f: Filters)
    ensures f.selected == Everything && f.term == ""
  {
    Filters(Everything, "")
  }

  /** After the reset the whole gallery shows, in order. */
  lemma ResetShowsAllImages(images: seq<Image>, fold: string -> string)
    ensures FilterImages(images, Reset(), fold) == images
  {
  }
}
