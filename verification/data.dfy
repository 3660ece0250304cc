/** lib/data.ts: what the public pages read from the store, with built-in
    items when the store is empty. The clock is the parameter `now`
    (milliseconds); `toIso` stands for `new Date(t).toISOString()` and
    `parse` for `new Date(s)`, `None` being an Invalid Date. */
module Data {
  import opened Wrappers
  import opened Types
  import opened ContentManager
  import Collection

  const Day := 24 * 60 * 60 * 1000

  const FeaturedTitle := "ჭაბუკთა 'ა' ლიგა | 'ლელომ' ტიტული უმძიმეს ბრძოლაში დაიცვა"
  const FeaturedExcerpt :=
    "ბოლო 10 წლის მანძილზე უფროსი ასაკის ჭაბუკ მორაგბეთა პირველობის ტიტულის მფლობელს 'აია'-'ლელოს' რიგით მე-8 დაპირისპირება არკვევდა."
  const FeaturedContent :=
    "ბოლო 10 წლის მანძილზე უფროსი ასაკის ჭაბუკ მორაგბეთა პირველობის ტიტულის მფლობელს 'აია'-'ლელოს' რიგით მე-8 დაპირისპირება (მათ შორის ფინალში მეოთხედ) არკვევდა. აღნიშნულ პერიოდში დიდ დიღმელები 6-ჯერ გახდნენ ჩემპიონები (ერთხელ ფინალში 'ხვამლს' მოუგეს), 'აიამ' კი ტიტულის მოპოვება 2-ჯერ მოახერხა."
  const FeaturedImage :=
    "https://hebbkx1anhila5yf.public.blob.vercel-storage.com/4bebcd1a-e285-44dd-9d18-e67be8b94575.jpg-lPuPFwmePbLuJFxxjut63NadgkFNnw.jpeg"

  const SecondTitle := "ლელო ესპუართა ლიგის ჩემპიონია"
  const SecondExcerpt :=
    "3 მაისს, ავჭალის სარაგბო სტადიონზე ესპუართა ლიგის ფინალური შეხვედრა \"ბათუმთან\" გვქონდა სადაც მეტოქე ანგარიშით 38:20 დავამარცხეთ."
  const SecondContent :=
    "3 მაისს, ავჭალის სარაგბო სტადიონზე ესპუართა ლიგის ფინალური შეხვედრა \"ბათუმთან\" გვქონდა სადაც მეტოქე ანგარიშით 38:20 დავამარცხეთ და ესპუართა ლიგის ჩემპიონობა მინიმუმ ერთი წლით გავიხანგრძლივეთ."
  const SecondImage :=
    "https://hebbkx1anhila5yf.public.blob.vercel-storage.com/a7818084-195b-47f1-b81d-988d070f9d7d.jpg-2XJwiAEI3Ai6oRta4QmmPa1LY1SYjU.jpeg"

  const ThirdTitle := "ლელო ჭაბუკთა \"ა\" ლიგის 7 კაცა ტურნირის გამარჯვებულია"
  const ThirdText :=
    "12 აპრილს ლოკომოტივის ბაზაზე გაიმართა ჭაბუკთა \"ა\" ლიგის 7 კაცა ტურნირი სადაც გამარჯვებული, საქართველოს ჩემპიონი ხორბალაძე-შანიძის გუნდმა გახდა."
  const ThirdImage :=
    "https://hebbkx1anhila5yf.public.blob.vercel-storage.com/1fd63848-f6b3-4c77-9efa-9cff3663dc6c.jpg-CqcaMUcbbEF3vXtVeUoF0xFPDleh0O.jpeg"

  const TopLeague := "უმაღლესი ლიგა"
  const EspoirsLeague := "ესპუართა ლიგა"

  /** `getFeaturedNews`: the newest stored item, or the built-in story
      dated one day back. */
  function GetFeaturedNews(st: Storage, now: int, toIso: int -> string): (r: NewsItem)
    ensures |GetAllNewsFromStorage(st)| > 0 ==> r == GetAllNewsFromStorage(st)[0]
    ensures |GetAllNewsFromStorage(st)| == 0 ==>
              r.id == 1 && r.publishedDate == toIso(now - Day) && r.viewCount == 1850
              && r.category == "Youth Team" && r.isArchived.None?
  {
    var all := GetAllNewsFromStorage(st);
    if |all| > 0 then all[0]
    else
      NewsItem(1, FeaturedTitle, FeaturedExcerpt, FeaturedContent, "სპორტული რეპორტიორი",
               "Youth Team", toIso(now - Day), 1850, Some(FeaturedImage), None)
  }

  /** `getRecentNews`: the first three stored items (fewer when fewer are
      stored), or the three built-in stories with ids 1, 2, 3, newest first. */
  function GetRecentNews(st: Storage, now: int, toIso: int -> string): (r: seq<NewsItem>)
    ensures var all := GetAllNewsFromStorage(st);
            |all| > 0 ==> |r| == (if |all| < 3 then |all| else 3) && r == all[..|r|]
    ensures |GetAllNewsFromStorage(st)| == 0 ==>
              |r| == 3 && [r[0].id, r[1].id, r[2].id] == [1, 2, 3]
              && [r[0].publishedDate, r[1].publishedDate, r[2].publishedDate]
                 == [toIso(now - Day), toIso(now - 3 * Day), toIso(now - 5 * Day)]
  {
    var all := GetAllNewsFromStorage(st);
    if |all| > 0 then
      if |all| < 3 then all else all[..3]
    else
      [ GetFeaturedNews(st, now, toIso),
        NewsItem(2, SecondTitle, SecondExcerpt, SecondContent, "კლუბის ადმინისტრაცია",
                 "General", toIso(now - 3 * Day), 1340, Some(SecondImage), None),
        NewsItem(3, ThirdTitle, ThirdText, ThirdText, "ტურნირის ორგანიზატორები",
                 "Youth Team", toIso(now - 5 * Day), 920, Some(ThirdImage), None) ]
  }

  /** `getAllNews`: every stored item, or the built-in stories. */
  function GetAllNews(st: Storage, now: int, toIso: int -> string): (r: seq<NewsItem>)
    ensures |GetAllNewsFromStorage(st)| > 0 ==> r == GetAllNewsFromStorage(st)
    ensures |GetAllNewsFromStorage(st)| == 0 ==> r == GetRecentNews(st, now, toIso)
    ensures |r| > 0
  {
    var all := GetAllNewsFromStorage(st);
    if |all| > 0 then all else GetRecentNews(st, now, toIso)
  }

  /** The three news readers agree: the recent list is a prefix of the full
      list, and the featured story heads both. */
  lemma NewsReadersAgree(st: Storage, now: int, toIso: int -> string)
    ensures GetRecentNews(st, now, toIso) <= GetAllNews(st, now, toIso)
    ensures GetRecentNews(st, now, toIso)[0] == GetFeaturedNews(st, now, toIso)
    ensures GetAllNews(st, now, toIso)[0] == GetFeaturedNews(st, now, toIso)
  {
  }

  /** `new Date(m.matchDate) > new Date()`: an unparsable date is never
      upcoming. */
  predicate Upcoming(m: MatchFixture, now: int, parse: string -> Option<int>) {
    parse(m.matchDate).Some? && parse(m.matchDate).value > now
  }

  /** `getUpcomingMatches`: with fixtures stored, the first two whose date
      lies strictly after `now`, in stored order (possibly none); with none
      stored, the two built-in fixtures a week and a fortnight ahead. */
  function GetUpcomingMatches(st: Storage, now: int, parse: string -> Option<int>,
                              toIso: int -> string): (r: seq<MatchFixture>)
    ensures |GetAllMatchesFromStorage(st)| > 0 ==>
              var upcoming := Collection.Filter(GetAllMatchesFromStorage(st), (m: MatchFixture) => Upcoming(m, now, parse));
              && |r| == (if |upcoming| < 2 then |upcoming| else 2)
              && r <= upcoming
              && Collection.IsSubsequence(r, GetAllMatchesFromStorage(st))
              && forall j :: 0 <= j < |r| ==> Upcoming(r[j], now, parse)
    ensures |GetAllMatchesFromStorage(st)| == 0 ==>
              && |r| == 2 && r[0].id == 1 && r[1].id == 2
              && r[0].homeTeam == "LELO" && r[1].awayTeam == "LELO"
              && r[0].matchDate == toIso(now + 7 * Day) && r[1].matchDate == toIso(now + 14 * Day)
  {
    var all := GetAllMatchesFromStorage(st);
    if |all| > 0 then
      var upcoming := Collection.Filter(all, (m: MatchFixture) => Upcoming(m, now, parse));
      Collection.FilterIsSubsequence(all, (m: MatchFixture) => Upcoming(m, now, parse));
      Collection.PrefixIsSubsequence(upcoming, if |upcoming| < 2 then |upcoming| else 2);
      Collection.SubsequenceTrans(upcoming[..if |upcoming| < 2 then |upcoming| else 2], upcoming, all);
      upcoming[..if |upcoming| < 2 then |upcoming| else 2]
    else
      [ MatchFixture(1, "LELO", "City Rivals", None, None, toIso(now + 7 * Day),
                     "LELO Arena", TopLeague, None),
        MatchFixture(2, "Regional Champions", "LELO", None, None, toIso(now + 14 * Day),
                     "Away Ground", EspoirsLeague, None) ]
  }

  /** When `parse` reads back what `toIso` writes, every fixture the home
      page lists is upcoming, the built-in ones included. */
  lemma UpcomingMatchesAreUpcoming(st: Storage, now: int, parse: string -> Option<int>,
                                   toIso: int -> string)
    requires forall t :: parse(toIso(t)) == Some(t)
    ensures var r := GetUpcomingMatches(st, now, parse, toIso);
            forall j :: 0 <= j < |r| ==> Upcoming(r[j], now, parse)
  {
    var r := GetUpcomingMatches(st, now, parse, toIso);
    if |GetAllMatchesFromStorage(st)| == 0 {
      assert parse(toIso(now + 7 * Day)) == Some(now + 7 * Day);
      assert parse(toIso(now + 14 * Day)) == Some(now + 14 * Day);
    }
  }
}
