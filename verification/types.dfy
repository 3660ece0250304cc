/** The records the site keeps (lib/types.ts), and the `Partial<T>` updates
    applied to them with the object spread `{ ...record, ...updates }`.
    An optional TypeScript field (`imageUrl?: string`) is an `Option`; in a
    patch a required field is `Option<T>` (absent or present) and an optional
    field is `Option<Option<T>>` (absent, present as `undefined`, or present
    with a value), because the spread copies a present `undefined` as well. */
module Types {
  import opened Wrappers

  datatype NewsItem = NewsItem(
    id: int,
    title: string,
    excerpt: string,
    content: string,
    author: string,
    category: string,
    publishedDate: string,
    viewCount: int,
    imageUrl: Option<string>,
    isArchived: Option<bool>)

  datatype NewsPatch = NewsPatch(
    id: Option<int>,
    title: Option<string>,
    excerpt: Option<string>,
    content: Option<string>,
    author: Option<string>,
    category: Option<string>,
    publishedDate: Option<string>,
    viewCount: Option<int>,
    imageUrl: Option<Option<string>>,
    isArchived: Option<Option<bool>>)

  /** `{ ...n, ...p }`. */
  function MergeNews(n: NewsItem, p: NewsPatch): NewsItem {
    NewsItem(
      p.id.GetOr(n.id), p.title.GetOr(n.title), p.excerpt.GetOr(n.excerpt),
      p.content.GetOr(n.content), p.author.GetOr(n.author), p.category.GetOr(n.category),
      p.publishedDate.GetOr(n.publishedDate), p.viewCount.GetOr(n.viewCount),
      p.imageUrl.GetOr(n.imageUrl), p.isArchived.GetOr(n.isArchived))
  }

  datatype MatchFixture = MatchFixture(
    id: int,
    homeTeam: string,
    awayTeam: string,
    homeTeamLogo: Option<string>,
    awayTeamLogo: Option<string>,
    matchDate: string,
    venue: string,
    matchType: string,
    status: Option<string>)

  datatype MatchPatch = MatchPatch(
    id: Option<int>,
    homeTeam: Option<string>,
    awayTeam: Option<string>,
    homeTeamLogo: Option<Option<string>>,
    awayTeamLogo: Option<Option<string>>,
    matchDate: Option<string>,
    venue: Option<string>,
    matchType: Option<string>,
    status: Option<Option<string>>)

  /** `{ ...m, ...p }`. */
  function MergeMatch(m: MatchFixture, p: MatchPatch): MatchFixture {
    MatchFixture(
      p.id.GetOr(m.id), p.homeTeam.GetOr(m.homeTeam), p.awayTeam.GetOr(m.awayTeam),
      p.homeTeamLogo.GetOr(m.homeTeamLogo), p.awayTeamLogo.GetOr(m.awayTeamLogo),
      p.matchDate.GetOr(m.matchDate), p.venue.GetOr(m.venue), p.matchType.GetOr(m.matchType),
      p.status.GetOr(m.status))
  }

  /** A gallery record. */
  datatype Image = Image(
    id: int,
    url: string,
    alt: string,
    category: string,
    uploadedAt: string,
    uploadedBy: int)

  datatype ImagePatch = ImagePatch(
    id: Option<int>,
    url: Option<string>,
    alt: Option<string>,
    category: Option<string>,
    uploadedAt: Option<string>,
    uploadedBy: Option<int>)

  /** `{ ...i, ...p }`. */
  function MergeImage(i: Image, p: ImagePatch): Image {
    Image(
      p.id.GetOr(i.id), p.url.GetOr(i.url), p.alt.GetOr(i.alt), p.category.GetOr(i.category),
      p.uploadedAt.GetOr(i.uploadedAt), p.uploadedBy.GetOr(i.uploadedBy))
  }

  datatype Stats = Stats(matches: int, tries: int, points: int, yellowCards: int, redCards: int)

  /** A roster card. `stats`, `biography` and the sponsor fields are not in the
      TypeScript interface, but both ways a card is made (the player form and
      the built-in defaults) write them, and the form reads `stats` without a
      guard, so `stats` is required here. */
  datatype PlayerCard = PlayerCard(
    id: int,
    name: string,
    position: string,
    age: Option<int>,
    height: Option<string>,
    weight: Option<string>,
    nationality: Option<string>,
    imageUrl: Option<string>,
    biography: Option<string>,
    stats: Stats,
    isActive: Option<bool>,
    category: Option<string>,
    sponsorName: Option<string>,
    sponsorLogo: Option<string>,
    team: Option<string>)

  datatype PlayerPatch = PlayerPatch(
    id: Option<int>,
    name: Option<string>,
    position: Option<string>,
    age: Option<Option<int>>,
    height: Option<Option<string>>,
    weight: Option<Option<string>>,
    nationality: Option<Option<string>>,
    imageUrl: Option<Option<string>>,
    biography: Option<Option<string>>,
    stats: Option<Stats>,
    isActive: Option<Option<bool>>,
    category: Option<Option<string>>,
    sponsorName: Option<Option<string>>,
    sponsorLogo: Option<Option<string>>,
    team: Option<Option<string>>)

  /** `{ ...c, ...p }`. */
  function MergePlayer(c: PlayerCard, p: PlayerPatch): PlayerCard {
    PlayerCard(
      p.id.GetOr(c.id), p.name.GetOr(c.name), p.position.GetOr(c.position), p.age.GetOr(c.age),
      p.height.GetOr(c.height), p.weight.GetOr(c.weight), p.nationality.GetOr(c.nationality),
      p.imageUrl.GetOr(c.imageUrl), p.biography.GetOr(c.biography), p.stats.GetOr(c.stats),
      p.isActive.GetOr(c.isActive), p.category.GetOr(c.category),
      p.sponsorName.GetOr(c.sponsorName), p.sponsorLogo.GetOr(c.sponsorLogo), p.team.GetOr(c.team))
  }

  /** One piece of inline-editable site copy; `kind` is the TypeScript
      `type` field ("text" | "number" | "textarea"). */
  datatype EditableContent = EditableContent(
    id: string,
    key: string,
    value: string,
    kind: string,
    section: string)

  datatype Role = Admin | Member

  /** An account of the local user table; `Member` is the role "user". */
  datatype User = User(
    id: int,
    email: string,
    password: string,
    role: Role,
    name: string,
    createdAt: string)
}
