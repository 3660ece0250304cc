/** lib/content-manager.ts: the browser-storage store behind the site.
    `localStorage` is a record with one slot per storage key the file uses
    ("lelo_content", "lelo_news", "lelo_matches", "lelo_images",
    "lelo_players"); a slot is `None` while its key is absent, and JSON
    (de)serialisation is the identity. Ids that the source takes from
    `Date.now()` are the `stamp` parameters. */
module ContentManager {
  import opened Wrappers
  import opened Types
  import opened Js
  import Collection

  datatype Storage = Storage(
    content: Option<seq<EditableContent>>,
    news: Option<seq<NewsItem>>,
    matches: Option<seq<MatchFixture>>,
    images: Option<seq<Image>>,
    players: Option<seq<PlayerCard>>)

  /** A store operation's return value together with the storage after it. */
  datatype Saved<T> = Saved(value: T, storage: Storage)

  const EmptyStorage := Storage(None, None, None, None, None)

  // ---------------------------------------------------------------------------
  // Editable content

  function ContentKey(c: EditableContent): string { c.key }

  const AboutDescription: string :=
    "რაგბის კლუბი „ლელო\", დაარსებული 1980 წელს თბილისში, წარმოადგენს ერთ-ერთ ყველაზე წარმატებულ და ტიტულოვან კლუბს ქართულ რაგბიში."

  /** The four entries the about page ships with. */
  function DefaultContent(): (r: seq<EditableContent>)
    ensures |r| == 4
    ensures [r[0].id, r[1].id, r[2].id, r[3].id] == ["1", "2", "3", "4"]
    ensures forall i, j :: 0 <= i < j < |r| ==> r[i].key != r[j].key
  {
    [ EditableContent("1", "about_title", "ჩვენს შესახებ", "text", "about"),
      EditableContent("2", "about_description",
        AboutDescription,
        "textarea", "about"),
      EditableContent("3", "history_title", "ისტორია და მიღწევები", "text", "about"),
      EditableContent("4", "infrastructure_title", "ინფრასტრუქტურა და აკადემია", "text", "about") ]
  }

  /** `getEditableContent`: the stored list, even an empty one, when the key
      is present; the defaults otherwise. */
  function GetEditableContent(st: Storage): (r: seq<EditableContent>)
    ensures st.content.Some? ==> r == st.content.value
    ensures st.content.None? ==> |r| == 4 && r[0].id == "1" && r[3].id == "4"
  {
    match st.content
    case Some(c) => c
    case None => DefaultContent()
  }

  /** `saveEditableContent`: what is saved is what is read back, and no
      other key changes. */
  function SaveEditableContent(st: Storage, c: seq<EditableContent>): (r: Storage)
    ensures GetEditableContent(r) == c
    ensures r.(content := st.content) == st
  {
    st.(content := Some(c))
  }

  /** `updateContent(key, value)`: the first entry with `key` gets the new
      value and nothing else changes; with no such entry one "text" entry in
      section "general" is appended. */
  function UpdateContent(st: Storage, key: string, value: string, stamp: string): (r: Storage)
    ensures r.(content := st.content) == st && r.content.Some?
    ensures var c := GetEditableContent(st);
            match Collection.IndexOf(c, ContentKey, key)
            case Some(i) => Collection.ReplacedAt(c, r.content.value, i, c[i].(value := value))
            case None => r.content.value == c + [EditableContent(stamp, key, value, "text", "general")]
  {
    var c := GetEditableContent(st);
    if Collection.IndexOf(c, ContentKey, key).Some? then
      SaveEditableContent(st, Collection.UpdateFirst(c, ContentKey, key, (e: EditableContent) => e.(value := value)))
    else
      SaveEditableContent(st, c + [EditableContent(stamp, key, value, "text", "general")])
  }

  /** `getContentValue(key, fallback)`: the first entry's value for `key`, or
      `fallback` when there is none or its value is "" (the source's `||`). */
  function GetContentValue(st: Storage, key: string, fallback: string): (r: string)
    ensures !Collection.HasKey(GetEditableContent(st), ContentKey, key) ==> r == fallback
    ensures var c := GetEditableContent(st);
            match Collection.IndexOf(c, ContentKey, key)
            case Some(i) => r == (if c[i].value != "" then c[i].value else fallback)
            case None => r == fallback
  {
    match Collection.Find(GetEditableContent(st), ContentKey, key)
    case None => fallback
    case Some(item) => Or(item.value, fallback)
  }

  /** The first entry with `key` after an update is the updated one. */
  lemma UpdatedEntryIsFirst(st: Storage, key: string, value: string, stamp: string)
    ensures var c' := UpdateContent(st, key, value, stamp).content.value;
            Collection.Find(c', ContentKey, key) == Some(
              match Collection.Find(GetEditableContent(st), ContentKey, key)
              case Some(e) => e.(value := value)
              case None => EditableContent(stamp, key, value, "text", "general"))
  {
    var c := GetEditableContent(st);
    var c' := UpdateContent(st, key, value, stamp).content.value;
    match Collection.IndexOf(c, ContentKey, key)
    case Some(i) =>
      assert c'[i].key == key;
      forall j | 0 <= j < i ensures c'[j].key != key { assert c'[j] == c[j]; }
      assert Collection.IndexOf(c', ContentKey, key) == Some(i);
    case None =>
      forall j | 0 <= j < |c| ensures c'[j].key != key { assert c'[j] == c[j]; }
      assert c'[|c|].key == key;
      assert Collection.IndexOf(c', ContentKey, key) == Some(|c|);
  }

  /** Round trip: a non-empty value written with `updateContent` is what
      `getContentValue` returns for that key afterwards. */
  lemma UpdateThenRead(st: Storage, key: string, value: string, stamp: string, fallback: string)
    requires value != ""
    ensures GetContentValue(UpdateContent(st, key, value, stamp), key, fallback) == value
  {
    UpdatedEntryIsFirst(st, key, value, stamp);
  }

  /** Writing "" makes later reads return the caller's fallback, because of
      the `||` in `getContentValue`. */
  lemma UpdateEmptyThenRead(st: Storage, key: string, stamp: string, fallback: string)
    ensures GetContentValue(UpdateContent(st, key, "", stamp), key, fallback) == fallback
  {
    UpdatedEntryIsFirst(st, key, "", stamp);
  }

  /** An update for one key leaves what every other key reads unchanged. */
  lemma UpdateKeepsOtherKeys(st: Storage, key: string, value: string, stamp: string,
                             other: string, fallback: string)
    requires other != key
    ensures GetContentValue(UpdateContent(st, key, value, stamp), other, fallback)
         == GetContentValue(st, other, fallback)
  {
    var c := GetEditableContent(st);
    var c' := UpdateContent(st, key, value, stamp).content.value;
    assert forall j :: 0 <= j < |c| ==> c'[j].key == c[j].key;
    match Collection.IndexOf(c, ContentKey, other)
    case Some(i) =>
      assert c'[i] == c[i];
      assert Collection.IndexOf(c', ContentKey, other) == Some(i);
    case None =>
      assert Collection.IndexOf(c', ContentKey, other).None?;
  }

  // ---------------------------------------------------------------------------
  // News: newest first

  function NewsId(n: NewsItem): int { n.id }

  function GetAllNewsFromStorage(st: Storage): seq<NewsItem> {
    st.news.GetOr([])
  }

  /** `createNews`: the new item, carrying the draft's fields under the fresh
      id, goes in front of the stored items, which follow unchanged. */
  function CreateNews(st: Storage, draft: NewsItem, stamp: int): (r: Saved<NewsItem>)
    ensures r.value.id == stamp && r.value.(id := draft.id) == draft
    ensures var s' := GetAllNewsFromStorage(r.storage);
            |s'| == |GetAllNewsFromStorage(st)| + 1 && s'[0] == r.value
            && s'[1..] == GetAllNewsFromStorage(st)
    ensures r.storage.(news := st.news) == st
  {
    var item := draft.(id := stamp);
    Saved(item, st.(news := Some([item] + GetAllNewsFromStorage(st))))
  }

  /** `updateNews(id, patch)`: the first item with that id is merged with
      the patch and returned; the others stay. With no such item the result
      is null and the storage is untouched. */
  function UpdateNews(st: Storage, id: int, patch: NewsPatch): (r: Saved<Option<NewsItem>>)
    ensures var s := GetAllNewsFromStorage(st);
            match Collection.IndexOf(s, NewsId, id)
            case None => r.value.None? && r.storage == st
            case Some(i) => r.value == Some(MergeNews(s[i], patch))
                            && Collection.ReplacedAt(s, GetAllNewsFromStorage(r.storage), i, MergeNews(s[i], patch))
    ensures r.storage.(news := st.news) == st
  {
    var s := GetAllNewsFromStorage(st);
    match Collection.IndexOf(s, NewsId, id)
    case None => Saved(None, st)
    case Some(i) =>
      Saved(Some(MergeNews(s[i], patch)),
            st.(news := Some(Collection.UpdateFirst(s, NewsId, id, (n: NewsItem) => MergeNews(n, patch)))))
  }

  /** `deleteNews(id)`: every item with that id goes; true exactly when one
      existed, and nothing is written otherwise. */
  function DeleteNews(st: Storage, id: int): (r: Saved<bool>)
    ensures r.value <==> Collection.HasKey(GetAllNewsFromStorage(st), NewsId, id)
    ensures !r.value ==> r.storage == st
    ensures Collection.RemovedAll(GetAllNewsFromStorage(st), GetAllNewsFromStorage(r.storage), NewsId, id)
    ensures r.storage.(news := st.news) == st
  {
    var (f, removed) := Collection.DeleteAll(GetAllNewsFromStorage(st), NewsId, id);
    if removed then Saved(true, st.(news := Some(f))) else Saved(false, st)
  }

  // ---------------------------------------------------------------------------
  // Matches: appended

  function MatchId(m: MatchFixture): int { m.id }

  function GetAllMatchesFromStorage(st: Storage): seq<MatchFixture> {
    st.matches.GetOr([])
  }

  /** `createMatch`: the new fixture goes after the stored ones. */
  function CreateMatch(st: Storage, draft: MatchFixture, stamp: int): (r: Saved<MatchFixture>)
    ensures r.value.id == stamp && r.value.(id := draft.id) == draft
    ensures var s' := GetAllMatchesFromStorage(r.storage);
            |s'| == |GetAllMatchesFromStorage(st)| + 1 && s'[|s'| - 1] == r.value
            && s'[..|s'| - 1] == GetAllMatchesFromStorage(st)
    ensures r.storage.(matches := st.matches) == st
  {
    var item := draft.(id := stamp);
    Saved(item, st.(matches := Some(GetAllMatchesFromStorage(st) + [item])))
  }

  /** `updateMatch(id, patch)`, as `updateNews`. */
  function UpdateMatch(st: Storage, id: int, patch: MatchPatch): (r: Saved<Option<MatchFixture>>)
    ensures var s := GetAllMatchesFromStorage(st);
            match Collection.IndexOf(s, MatchId, id)
            case None => r.value.None? && r.storage == st
            case Some(i) => r.value == Some(MergeMatch(s[i], patch))
                            && Collection.ReplacedAt(s, GetAllMatchesFromStorage(r.storage), i, MergeMatch(s[i], patch))
    ensures r.storage.(matches := st.matches) == st
  {
    var s := GetAllMatchesFromStorage(st);
    match Collection.IndexOf(s, MatchId, id)
    case None => Saved(None, st)
    case Some(i) =>
      Saved(Some(MergeMatch(s[i], patch)),
            st.(matches := Some(Collection.UpdateFirst(s, MatchId, id, (m: MatchFixture) => MergeMatch(m, patch)))))
  }

  /** `deleteMatch(id)`, as `deleteNews`. */
  function DeleteMatch(st: Storage, id: int): (r: Saved<bool>)
    ensures r.value <==> Collection.HasKey(GetAllMatchesFromStorage(st), MatchId, id)
    ensures !r.value ==> r.storage == st
    ensures Collection.RemovedAll(GetAllMatchesFromStorage(st), GetAllMatchesFromStorage(r.storage), MatchId, id)
    ensures r.storage.(matches := st.matches) == st
  {
    var (f, removed) := Collection.DeleteAll(GetAllMatchesFromStorage(st), MatchId, id);
    if removed then Saved(true, st.(matches := Some(f))) else Saved(false, st)
  }

  // ---------------------------------------------------------------------------
  // Gallery images: appended

  function ImageId(i: Image): int { i.id }

  function GetAllImagesFromStorage(st: Storage): seq<Image> {
    st.images.GetOr([])
  }

  /** `createImage`: the new record goes after the stored ones. */
  function CreateImage(st: Storage, draft: Image, stamp: int): (r: Saved<Image>)
    ensures r.value.id == stamp && r.value.(id := draft.id) == draft
    ensures var s' := GetAllImagesFromStorage(r.storage);
            |s'| == |GetAllImagesFromStorage(st)| + 1 && s'[|s'| - 1] == r.value
            && s'[..|s'| - 1] == GetAllImagesFromStorage(st)
    ensures r.storage.(images := st.images) == st
  {
    var item := draft.(id := stamp);
    Saved(item, st.(images := Some(GetAllImagesFromStorage(st) + [item])))
  }

  /** `updateImage(id, patch)`, as `updateNews`. */
  function UpdateImage(st: Storage, id: int, patch: ImagePatch): (r: Saved<Option<Image>>)
    ensures var s := GetAllImagesFromStorage(st);
            match Collection.IndexOf(s, ImageId, id)
            case None => r.value.None? && r.storage == st
            case Some(i) => r.value == Some(MergeImage(s[i], patch))
                            && Collection.ReplacedAt(s, GetAllImagesFromStorage(r.storage), i, MergeImage(s[i], patch))
    ensures r.storage.(images := st.images) == st
  {
    var s := GetAllImagesFromStorage(st);
    match Collection.IndexOf(s, ImageId, id)
    case None => Saved(None, st)
    case Some(i) =>
      Saved(Some(MergeImage(s[i], patch)),
            st.(images := Some(Collection.UpdateFirst(s, ImageId, id, (x: Image) => MergeImage(x, patch)))))
  }

  /** `deleteImage(id)`, as `deleteNews`. */
  function DeleteImage(st: Storage, id: int): (r: Saved<bool>)
    ensures r.value <==> Collection.HasKey(GetAllImagesFromStorage(st), ImageId, id)
    ensures !r.value ==> r.storage == st
    ensures Collection.RemovedAll(GetAllImagesFromStorage(st), GetAllImagesFromStorage(r.storage), ImageId, id)
    ensures r.storage.(images := st.images) == st
  {
    var (f, removed) := Collection.DeleteAll(GetAllImagesFromStorage(st), ImageId, id);
    if removed then Saved(true, st.(images := Some(f))) else Saved(false, st)
  }

  // ---------------------------------------------------------------------------
  // Players: appended; an absent key reads as the built-in roster

  function PlayerId(p: PlayerCard): int { p.id }

  const PlaceholderPhoto := "https://hebbkx1anhila5yf.public.blob.vercel-storage.com/image-w3G5RbmObBxpJgpVPYMQVroyeNpa7H.png"
  const SponsorPlaceholder := "/placeholder.svg?height=40&width=120"

  /** `getDefaultPlayers`: the built-in roster with ids 1 to 4. */
  function DefaultPlayers(): (r: seq<PlayerCard>)
    ensures |r| == 4
    ensures forall i :: 0 <= i < |r| ==> r[i].id == i + 1
    ensures forall i :: 0 <= i < |r| ==> r[i].isActive == Some(true)
  {
    [ PlayerCard(1, "ADAM POWELL", "Men's Defence Coach", Some(35), Some("180cm"), Some("85kg"),
        Some("Georgian"), Some(PlaceholderPhoto),
        Some("Experienced defence coach with over 10 years in professional rugby."),
        Stats(0, 0, 0, 0, 0), Some(true), Some("Coaches"), Some("Security Services"),
        Some(SponsorPlaceholder), Some("coaches")),
      PlayerCard(2, "AKINA GONDWE", "Prop", Some(24), Some("175cm"), Some("95kg"),
        Some("Georgian"), Some(PlaceholderPhoto),
        Some("Dynamic prop forward with excellent scrummaging technique."),
        Stats(45, 8, 40, 3, 0), Some(true), Some("Women's Rugby"), Some("SSA Racems"),
        Some(SponsorPlaceholder), Some("womens")),
      PlayerCard(3, "ALEC CLAREY", "Prop", Some(28), Some("185cm"), Some("110kg"),
        Some("Georgian"), Some(PlaceholderPhoto),
        Some("Powerful prop with strong lineout throwing skills."),
        Stats(67, 12, 60, 5, 1), Some(true), Some("Men's Rugby"), Some("Security Services"),
        Some(SponsorPlaceholder), Some("mens")),
      PlayerCard(4, "ALEX AUSTERBERRY", "Women's Director Of Rugby", Some(42), Some("178cm"), Some("80kg"),
        Some("Georgian"), Some(PlaceholderPhoto),
        Some("Visionary leader driving women's rugby development."),
        Stats(0, 0, 0, 0, 0), Some(true), Some("Coaches"), Some("Security Services"),
        Some(SponsorPlaceholder), Some("coaches")) ]
  }

  function GetAllPlayersFromStorage(st: Storage): seq<PlayerCard> {
    st.players.GetOr(DefaultPlayers())
  }

  /** `createPlayer`: the new card goes after the stored ones (after the
      built-in roster when nothing is stored yet). */
  function CreatePlayer(st: Storage, draft: PlayerCard, stamp: int): (r: Saved<PlayerCard>)
    ensures r.value.id == stamp && r.value.(id := draft.id) == draft
    ensures var s' := GetAllPlayersFromStorage(r.storage);
            |s'| == |GetAllPlayersFromStorage(st)| + 1 && s'[|s'| - 1] == r.value
            && s'[..|s'| - 1] == GetAllPlayersFromStorage(st)
    ensures r.storage.(players := st.players) == st
  {
    var item := draft.(id := stamp);
    Saved(item, st.(players := Some(GetAllPlayersFromStorage(st) + [item])))
  }

  /** `updatePlayer(id, patch)`, as `updateNews`. */
  function UpdatePlayer(st: Storage, id: int, patch: PlayerPatch): (r: Saved<Option<PlayerCard>>)
    ensures var s := GetAllPlayersFromStorage(st);
            match Collection.IndexOf(s, PlayerId, id)
            case None => r.value.None? && r.storage == st
            case Some(i) => r.value == Some(MergePlayer(s[i], patch))
                            && Collection.ReplacedAt(s, GetAllPlayersFromStorage(r.storage), i, MergePlayer(s[i], patch))
    ensures r.storage.(players := st.players) == st
  {
    var s := GetAllPlayersFromStorage(st);
    match Collection.IndexOf(s, PlayerId, id)
    case None => Saved(None, st)
    case Some(i) =>
      Saved(Some(MergePlayer(s[i], patch)),
            st.(players := Some(Collection.UpdateFirst(s, PlayerId, id, (p: PlayerCard) => MergePlayer(p, patch)))))
  }

  /** `deletePlayer(id)`, as `deleteNews`. */
  function DeletePlayer(st: Storage, id: int): (r: Saved<bool>)
    ensures r.value <==> Collection.HasKey(GetAllPlayersFromStorage(st), PlayerId, id)
    ensures !r.value ==> r.storage == st
    ensures Collection.RemovedAll(GetAllPlayersFromStorage(st), GetAllPlayersFromStorage(r.storage), PlayerId, id)
    ensures r.storage.(players := st.players) == st
  {
    var (f, removed) := Collection.DeleteAll(GetAllPlayersFromStorage(st), PlayerId, id);
    if removed then Saved(true, st.(players := Some(f))) else Saved(false, st)
  }
}
