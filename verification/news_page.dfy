/** app/news/page.tsx: the public news list with a category selector and a
    search box. `fold` stands for `toLowerCase`, which is not modelled
    character by character; the one fact some lemmas need is that it maps
    "" to "". The page's filter state is a `Filters` value. */
module NewsPage {
  import opened Types
  import opened Js
  import Collection

  const Everything := "All"

  datatype Filters = Filters(selected: string, term: string)

  /** The initial state: every category, no search. */
  const Initial := Filters(Everything, "")

  function Category(n: NewsItem): string { n.category }

  /** `categories`: "All" followed by the distinct article categories. */
  function Categories(news: seq<NewsItem>): seq<string> {
    Collection.Selector(Everything, news, Category)
  }

  /** The filter predicate: the category is "All" or matches exactly, and
      the folded title or excerpt contains the folded search term. */
  predicate Shown(n: NewsItem, f: Filters, fold: string -> string) {
    && (f.selected == Everything || n.category == f.selected)
    && (Contains(fold(n.title), fold(f.term)) || Contains(fold(n.excerpt), fold(f.term)))
  }

  /** `filteredNews`: exactly the articles the predicate admits, in their
      original order. */
  function FilteredNews(news: seq<NewsItem>, f: Filters, fold: string -> string): (r: seq<NewsItem>)
    ensures forall n :: n in r <==> n in news && Shown(n, f, fold)
    ensures forall n :: multiset(r)[n] == if Shown(n, f, fold) then multiset(news)[n] else 0
    ensures Collection.IsSubsequence(r, news)
  {
    Collection.FilterIsSubsequence(news, (n: NewsItem) => Shown(n, f, fold));
    Collection.Filter(news, (n: NewsItem) => Shown(n, f, fold))
  }

  /** Every category the selector offers besides "All" shows at least one
      article of that category when the search box is empty. */
  lemma OfferedCategoryShowsSomething(news: seq<NewsItem>, c: string, fold: string -> string)
    requires fold("") == ""
    requires c in Categories(news)[1..]
    ensures exists n :: n in FilteredNews(news, Filters(c, ""), fold) && n.category == c
  {
  }

  /** An empty search restricts nothing: only the category decides. */
  lemma EmptySearchOnlyCategory(news: seq<NewsItem>, selected: string, fold: string -> string)
    requires fold("") == ""
    ensures forall n :: n in FilteredNews(news, Filters(selected, ""), fold) <==>
              n in news && (selected == Everything || n.category == selected)
  {
    forall n: NewsItem ensures Contains(fold(n.title), fold("")) {
      ContainsEmpty(fold(n.title));
    }
  }

  /** With "All" selected and no search, the whole list shows, in order. */
  lemma {:induction false} AllAndEmptyShowsEverything(news: seq<NewsItem>, fold: string -> string)
    requires fold("") == ""
    ensures FilteredNews(news, Filters(Everything, ""), fold) == news
  {
    forall i | 0 <= i < |news| ensures Shown(news[i], Filters(Everything, ""), fold) {
      ContainsEmpty(fold(news[i].title));
    }
    Collection.FilterKeepsAll(news, (n: NewsItem) => Shown(n, Filters(Everything, ""), fold));
  }

  /** The "View All News" handler as the source writes it: it selects the
      lower-case "all", which is not the wildcard "All". */
  function ResetAsWritten(): (f: Filters)
    ensures f.term == "" && f.selected != Everything
  {
    Filters("all", "")
  }

  /** As written, the reset hides every article whose category is not
      literally "all", so on the usual data it shows nothing. */
  lemma ResetAsWrittenHidesAll(news: seq<NewsItem>, fold: string -> string)
    requires forall i :: 0 <= i < |news| ==> news[i].category != "all"
    ensures FilteredNews(news, ResetAsWritten(), fold) == []
  {
  }

  /** A concrete case: one stored article, the reset clicked, nothing shown
      although "View All News" promises the article. */
  lemma ResetAsWrittenCounterexample(fold: string -> string)
    requires fold("") == ""
    ensures var news := [NewsItem(1, "t", "e", "c", "a", "General", "d", 0, Wrappers.None, Wrappers.None)];
            FilteredNews(news, ResetAsWritten(), fold) == []
            && FilteredNews(news, Filters(Everything, ""), fold) == news
  {
    var news := [NewsItem(1, "t", "e", "c", "a", "General", "d", 0, Wrappers.None, Wrappers.None)];
    ResetAsWrittenHidesAll(news, fold);
    AllAndEmptyShowsEverything(news, fold);
  }

  /** The reset the button's label promises: the wildcard and no search. */
  function Reset(): (f: Filters)
    ensures f == Initial
  {
    Filters(Everything, "")
  }

  /** After the corrected reset every article shows again, in order. */
  lemma ResetShowsAllNews(news: seq<NewsItem>, fold: string -> string)
    requires fold("") == ""
    ensures FilteredNews(news, Reset(), fold) == news
  {
    AllAndEmptyShowsEverything(news, fold);
  }
}
