/** components/admin/news-manager.tsx: the administrator's news list and
    its add/edit dialog (`NewsForm`). The panel's state is a `Panel`; the
    store calls complete before the list reloads. The current time in ISO
    form is `nowIso`, the id of a new item is `stamp`, and the answer to the
    confirmation dialog is `confirmed`. */
module NewsManager {
  import opened Wrappers
  import opened Types
  import opened Js
  import opened ContentManager
  import Collection

  datatype Panel = Panel(news: seq<NewsItem>, editing: Option<NewsItem>, dialogOpen: bool)

  datatype NewsForm = NewsForm(
    title: string,
    excerpt: string,
    content: string,
    author: string,
    category: string,
    imageUrl: string,
    viewCount: int)

  /** `loadNews`. */
  function LoadNews(st: Storage): seq<NewsItem> {
    GetAllNewsFromStorage(st)
  }

  /** The form's prefill: the edited item's fields, with `||` turning a
      missing or empty value into "" (and a missing or zero view count into
      0, which keeps every count as it is). */
  function InitNewsForm(news: Option<NewsItem>): (f: NewsForm)
    ensures news.None? ==> f == NewsForm("", "", "", "", "", "", 0)
    ensures news.Some? ==> f.viewCount == news.value.viewCount
    ensures news.Some? ==> f.title == news.value.title && f.excerpt == news.value.excerpt
                           && f.content == news.value.content && f.author == news.value.author
                           && f.category == news.value.category
    ensures news.Some? ==> f.imageUrl == news.value.imageUrl.GetOr("")
  {
    match news
    case None => NewsForm("", "", "", "", "", "", 0)
    case Some(n) =>
      NewsForm(Or(n.title, ""), Or(n.excerpt, ""), Or(n.content, ""), Or(n.author, ""),
               Or(n.category, ""), OrOpt(n.imageUrl, ""), OrNum(Some(n.viewCount), 0))
  }

  /** What the form submits: its fields, the edited item's publication date
      (the current time for a new item, or when the old date is empty), and
      the edited item's archived flag (false for a new item). */
  function Payload(f: NewsForm, news: Option<NewsItem>, nowIso: string): (p: NewsItem)
    ensures p.title == f.title && p.excerpt == f.excerpt && p.content == f.content
    ensures p.author == f.author && p.category == f.category && p.viewCount == f.viewCount
    ensures p.imageUrl == Some(f.imageUrl)
    ensures news.Some? && news.value.publishedDate != "" ==> p.publishedDate == news.value.publishedDate
    ensures news.Some? && news.value.publishedDate == "" ==> p.publishedDate == nowIso
    ensures news.None? ==> p.publishedDate == nowIso && p.isArchived == Some(false)
    ensures p.isArchived == Some(news.Some? && news.value.isArchived == Some(true))
  {
    var date := if news.Some? then Or(news.value.publishedDate, nowIso) else nowIso;
    var archived := news.Some? && news.value.isArchived == Some(true);
    NewsItem(0, f.title, f.excerpt, f.content, f.author, f.category, date, f.viewCount, Some(f.imageUrl), Some(archived))
  }

  /** The same values as an update patch. */
  function AsPatch(p: NewsItem): (u: NewsPatch)
    ensures forall n: NewsItem :: MergeNews(n, u) == p.(id := n.id)
  {
    NewsPatch(None, Some(p.title), Some(p.excerpt), Some(p.content), Some(p.author), Some(p.category),
              Some(p.publishedDate), Some(p.viewCount), Some(p.imageUrl), Some(p.isArchived))
  }

  /** `handleSubmit`: while editing, the edited item is updated by its id and
      the editing target cleared; otherwise a new item is created. Either
      way the list reloads and the dialog closes. */
  function HandleSubmit(panel: Panel, st: Storage, f: NewsForm, nowIso: string, stamp: int): (r: (Panel, Storage))
    ensures panel.editing.Some? ==>
              r.1 == UpdateNews(st, panel.editing.value.id, AsPatch(Payload(f, panel.editing, nowIso))).storage
    ensures panel.editing.None? ==> r.1 == CreateNews(st, Payload(f, None, nowIso), stamp).storage
    ensures r.0 == Panel(LoadNews(r.1), None, false)
  {
    match panel.editing
    case Some(n) =>
      var st' := UpdateNews(st, n.id, AsPatch(Payload(f, panel.editing, nowIso))).storage;
      (Panel(LoadNews(st'), None, false), st')
    case None =>
      var st' := CreateNews(st, Payload(f, None, nowIso), stamp).storage;
      (Panel(LoadNews(st'), None, false), st')
  }

  /** Creating puts the new story at the top of the reloaded list with the
      form's content, today's date and not archived. */
  lemma CreateShowsOnTop(panel: Panel, st: Storage, f: NewsForm, nowIso: string, stamp: int)
    requires panel.editing.None?
    ensures var (p, _) := HandleSubmit(panel, st, f, nowIso, stamp);
            |p.news| > 0 && p.news[0] == Payload(f, None, nowIso).(id := stamp)
            && p.news[0].publishedDate == nowIso && p.news[0].isArchived == Some(false)
  {
  }

  /** Opening a stored story for editing and submitting the form untouched
      writes the story back unchanged, provided its date is non-empty (an
      empty one is restamped) and its image field and archived flag are set,
      possibly to "" and false. */
  lemma UnchangedEditIsIdentity(panel: Panel, st: Storage, n: NewsItem, i: nat, nowIso: string, stamp: int)
    requires panel.editing == Some(n)
    requires i < |LoadNews(st)| && LoadNews(st)[i] == n
    requires forall j :: 0 <= j < i ==> LoadNews(st)[j].id != n.id
    requires n.publishedDate != "" && n.imageUrl.Some? && n.isArchived.Some?
    ensures HandleSubmit(panel, st, InitNewsForm(Some(n)), nowIso, stamp).0.news == LoadNews(st)
  {
    var s := LoadNews(st);
    assert Collection.IndexOf(s, NewsId, n.id) == Some(i);
    var p := Payload(InitNewsForm(Some(n)), panel.editing, nowIso);
    assert p.imageUrl == n.imageUrl;
    assert p.isArchived == n.isArchived by {
      assert panel.editing.value == n;
      if n.isArchived.value {
        assert n.isArchived == Some(true);
      } else {
        assert n.isArchived == Some(false);
        assert n.isArchived != Some(true);
      }
    }
    assert p.(id := n.id) == n;
    var s' := HandleSubmit(panel, st, InitNewsForm(Some(n)), nowIso, stamp).0.news;
    assert s' == s;
  }

  /** `handleDelete(id)`: once confirmed, the item goes and the list reloads. */
  function HandleDelete(panel: Panel, st: Storage, id: int, confirmed: bool): (r: (Panel, Storage))
    ensures !confirmed ==> r == (panel, st)
    ensures confirmed ==> r.1 == DeleteNews(st, id).storage
    ensures confirmed ==> r.0 == panel.(news := LoadNews(r.1))
    ensures confirmed ==> Collection.RemovedAll(LoadNews(st), r.0.news, NewsId, id)
  {
    if !confirmed then (panel, st)
    else
      var st' := DeleteNews(st, id).storage;
      (panel.(news := LoadNews(st')), st')
  }
}
