/** components/admin/upcoming-matches-manager.tsx: the administrator's list
    of future fixtures and its add/edit dialog (`MatchForm`). The clock is
    `now`; `parse` stands for `new Date(s)` (`None` for an Invalid Date);
    `toInput` for `new Date(s).toISOString().slice(0, 16)`, the value a
    `datetime-local` input takes; `fromInput` for
    `new Date(s).toISOString()` on the input's value. The store calls
    complete before the list reloads. */
module UpcomingMatchesManager {
  import opened Wrappers
  import opened Types
  import opened Js
  import opened ContentManager
  import Collection
  import Data

  datatype Panel = Panel(matches: seq<MatchFixture>, editing: Option<MatchFixture>, dialogOpen: bool)

  datatype MatchForm = MatchForm(
    homeTeam: string,
    awayTeam: string,
    matchDate: string,
    venue: string,
    matchType: string,
    status: string)

  function IsUpcoming(now: int, parse: string -> Option<int>): MatchFixture -> bool {
    (m: MatchFixture) => Data.Upcoming(m, now, parse)
  }

  /** `loadMatches`: only the fixtures dated strictly after `now`, in stored
      order. */
  function LoadMatches(st: Storage, now: int, parse: string -> Option<int>): (r: seq<MatchFixture>)
    ensures forall m :: m in r <==> m in GetAllMatchesFromStorage(st) && Data.Upcoming(m, now, parse)
    ensures forall m :: multiset(r)[m] ==
              if Data.Upcoming(m, now, parse) then multiset(GetAllMatchesFromStorage(st))[m] else 0
    ensures Collection.IsSubsequence(r, GetAllMatchesFromStorage(st))
  {
    Collection.FilterIsSubsequence(GetAllMatchesFromStorage(st), IsUpcoming(now, parse));
    Collection.Filter(GetAllMatchesFromStorage(st), IsUpcoming(now, parse))
  }

  /** With fixtures stored, the home page's "next two" are the first two
      entries of this list. */
  lemma HomePageShowsHeadOfList(st: Storage, now: int, parse: string -> Option<int>, toIso: int -> string)
    requires |GetAllMatchesFromStorage(st)| > 0
    ensures Data.GetUpcomingMatches(st, now, parse, toIso) <= LoadMatches(st, now, parse)
  {
  }

  /** The form's prefill: the edited fixture's teams, venue and type (or ""),
      its date in input form (or "" when it has none), and its status or "scheduled". */
  function InitMatchForm(m: Option<MatchFixture>, toInput: string -> string): (f: MatchForm)
    ensures m.None? ==> f == MatchForm("", "", "", "", "", "scheduled")
    ensures m.Some? ==> f.homeTeam == m.value.homeTeam && f.awayTeam == m.value.awayTeam
                        && f.venue == m.value.venue && f.matchType == m.value.matchType
    ensures m.Some? && m.value.matchDate != "" ==> f.matchDate == toInput(m.value.matchDate)
    ensures m.Some? && m.value.matchDate == "" ==> f.matchDate == ""
    ensures m.Some? && m.value.status.Some? && m.value.status.value != "" ==> f.status == m.value.status.value
    ensures m.None? || m.value.status.None? || m.value.status.value == "" ==> f.status == "scheduled"
  {
    match m
    case None => MatchForm("", "", "", "", "", "scheduled")
    case Some(x) =>
      MatchForm(Or(x.homeTeam, ""), Or(x.awayTeam, ""), if x.matchDate != "" then toInput(x.matchDate) else "",
                Or(x.venue, ""), Or(x.matchType, ""), OrOpt(x.status, "scheduled"))
  }

  /** The fixture a new-match submit creates (the id is the store's). It has
      no logos: the form does not carry them. */
  function NewFixture(f: MatchForm, fromInput: string -> string): MatchFixture {
    MatchFixture(0, f.homeTeam, f.awayTeam, None, None, fromInput(f.matchDate), f.venue, f.matchType, Some(f.status))
  }

  /** The patch an edit submit applies: every form field, and nothing about
      the logos. */
  function EditPatch(f: MatchForm, fromInput: string -> string): (u: MatchPatch)
    ensures forall m: MatchFixture :: MergeMatch(m, u) ==
              NewFixture(f, fromInput).(id := m.id, homeTeamLogo := m.homeTeamLogo, awayTeamLogo := m.awayTeamLogo)
  {
    MatchPatch(None, Some(f.homeTeam), Some(f.awayTeam), None, None, Some(fromInput(f.matchDate)),
               Some(f.venue), Some(f.matchType), Some(Some(f.status)))
  }

  /** Submit: while editing, the edited fixture is updated by its id and the
      editing target cleared; otherwise a fixture is created. Either way the
      list reloads and the dialog closes. */
  function HandleSubmit(panel: Panel, st: Storage, f: MatchForm, now: int, parse: string -> Option<int>,
                        fromInput: string -> string, stamp: int): (r: (Panel, Storage))
    ensures panel.editing.Some? ==> r.1 == UpdateMatch(st, panel.editing.value.id, EditPatch(f, fromInput)).storage
    ensures panel.editing.None? ==> r.1 == CreateMatch(st, NewFixture(f, fromInput), stamp).storage
    ensures r.0 == Panel(LoadMatches(r.1, now, parse), None, false)
  {
    match panel.editing
    case Some(m) =>
      var st' := UpdateMatch(st, m.id, EditPatch(f, fromInput)).storage;
      (Panel(LoadMatches(st', now, parse), None, false), st')
    case None =>
      var st' := CreateMatch(st, NewFixture(f, fromInput), stamp).storage;
      (Panel(LoadMatches(st', now, parse), None, false), st')
  }

  /** A created fixture shows in the reloaded list exactly when its date is
      in the future. */
  lemma CreatedShowsIffUpcoming(panel: Panel, st: Storage, f: MatchForm, now: int,
                                parse: string -> Option<int>, fromInput: string -> string, stamp: int)
    requires panel.editing.None?
    ensures var created := NewFixture(f, fromInput).(id := stamp);
            var (p, _) := HandleSubmit(panel, st, f, now, parse, fromInput, stamp);
            created in p.matches <==> Data.Upcoming(created, now, parse)
  {
    var created := NewFixture(f, fromInput).(id := stamp);
    var st' := CreateMatch(st, NewFixture(f, fromInput), stamp).storage;
    var all' := GetAllMatchesFromStorage(st');
    assert all'[|all'| - 1] == created;
  }

  /** Editing keeps the fixture's logos, which the form cannot show. */
  lemma EditKeepsLogos(panel: Panel, st: Storage, f: MatchForm, now: int, parse: string -> Option<int>,
                       fromInput: string -> string, stamp: int, i: nat)
    requires panel.editing.Some?
    requires Collection.IndexOf(GetAllMatchesFromStorage(st), MatchId, panel.editing.value.id) == Some(i)
    ensures var st' := HandleSubmit(panel, st, f, now, parse, fromInput, stamp).1;
            var before := GetAllMatchesFromStorage(st)[i];
            var after := GetAllMatchesFromStorage(st')[i];
            after.homeTeamLogo == before.homeTeamLogo && after.awayTeamLogo == before.awayTeamLogo
            && after.id == before.id && after.status == Some(f.status)
  {
  }

  /** Deleting a fixture and reloading lists what the panel listed before,
      without that id: the delete and the upcoming filter commute. */
  lemma DeleteThenLoad(st: Storage, id: int, now: int, parse: string -> Option<int>)
    ensures LoadMatches(DeleteMatch(st, id).storage, now, parse)
            == Collection.Filter(LoadMatches(st, now, parse), Collection.KeyIsNot(MatchId, id))
  {
    var all := GetAllMatchesFromStorage(st);
    var notId := Collection.KeyIsNot(MatchId, id);
    if !Collection.HasKey(all, MatchId, id) {
      forall j | 0 <= j < |all| ensures notId(all[j]) {
        assert MatchId(all[j]) != id;
      }
      Collection.FilterKeepsAll(all, notId);
    }
    assert GetAllMatchesFromStorage(DeleteMatch(st, id).storage) == Collection.Filter(all, notId);
    Collection.FilterCommutes(all, notId, IsUpcoming(now, parse));
  }

  /** Delete: once confirmed, the fixture goes and the list reloads. */
  function HandleDelete(panel: Panel, st: Storage, id: int, confirmed: bool, now: int,
                        parse: string -> Option<int>): (r: (Panel, Storage))
    ensures !confirmed ==> r == (panel, st)
    ensures confirmed ==> r.0 == panel.(matches := LoadMatches(r.1, now, parse))
    ensures confirmed ==> r.1 == DeleteMatch(st, id).storage
    ensures confirmed ==> Collection.RemovedAll(LoadMatches(st, now, parse), r.0.matches, MatchId, id)
  {
    if !confirmed then (panel, st)
    else
      var st' := DeleteMatch(st, id).storage;
      DeleteThenLoad(st, id, now, parse);
      Collection.FilterRemovesAll(LoadMatches(st, now, parse), MatchId, id);
      (panel.(matches := LoadMatches(st', now, parse)), st')
  }
}
