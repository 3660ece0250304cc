/** components/admin/player-manager.tsx: the administrator's roster list,
    with a team filter, a count on each filter button, and delete. The
    confirmation dialog's answer is `confirmed`; the store calls complete
    before the list reloads. */
module PlayerManager {
  import opened Wrappers
  import opened Types
  import opened ContentManager
  import Collection

  const Teams := ["mens", "womens", "youth", "coaches"]

  /** `loadPlayers`. */
  function LoadPlayers(st: Storage): seq<PlayerCard> {
    GetAllPlayersFromStorage(st)
  }

  function OnTeam(team: string): PlayerCard -> bool {
    (p: PlayerCard) => p.team == Some(team)
  }

  /** `filteredPlayers`: "all" shows every card; any other filter shows
      exactly the cards of that team, in roster order. A card without a team
      shows only under "all". */
  function FilteredPlayers(players: seq<PlayerCard>, filter: string): (r: seq<PlayerCard>)
    ensures filter == "all" ==> r == players
    ensures filter != "all" ==> forall p :: p in r <==> p in players && p.team == Some(filter)
    ensures filter != "all" ==>
              forall p :: multiset(r)[p] == if p.team == Some(filter) then multiset(players)[p] else 0
    ensures Collection.IsSubsequence(r, players)
  {
    if filter == "all" then
      Collection.PrefixIsSubsequence(players, |players|);
      assert players[..|players|] == players;
      players
    else
      Collection.FilterIsSubsequence(players, OnTeam(filter));
      Collection.Filter(players, OnTeam(filter))
  }

  /** The number on a team's filter button. */
  function TeamCount(players: seq<PlayerCard>, team: string): (n: nat)
    ensures n == Collection.Count(players, OnTeam(team))
    ensures n <= |players|
  {
    Collection.FilterLengthIsCount(players, OnTeam(team));
    |Collection.Filter(players, OnTeam(team))|
  }

  /** Every button's number is the number of cards its filter then shows. */
  lemma CountMatchesFilter(players: seq<PlayerCard>, team: string)
    requires team != "all"
    ensures TeamCount(players, team) == |FilteredPlayers(players, team)|
  {
  }

  /** When every card belongs to one of the four teams, the four team
      counts add up to the "All" count. */
  lemma {:induction false} TeamCountsPartition(players: seq<PlayerCard>)
    requires forall i :: 0 <= i < |players| ==> players[i].team.Some? && players[i].team.value in Teams
    ensures TeamCount(players, "mens") + TeamCount(players, "womens") + TeamCount(players, "youth")
            + TeamCount(players, "coaches") == |players|
    decreases |players|
  {
    if |players| > 0 {
      TeamCountsPartition(players[1..]);
      assert players[0].team.value in Teams;
    }
  }

  /** `handleDelete(id)`: once confirmed, the card is deleted and the list
      reloaded; the id is then absent and every other card is still there. */
  function HandleDelete(st: Storage, id: int, confirmed: bool): (r: (seq<PlayerCard>, Storage))
    ensures !confirmed ==> r == (LoadPlayers(st), st)
    ensures confirmed ==> r.1 == DeletePlayer(st, id).storage
    ensures confirmed ==> Collection.RemovedAll(LoadPlayers(st), r.0, PlayerId, id)
    ensures r.0 == LoadPlayers(r.1)
  {
    if !confirmed then (LoadPlayers(st), st)
    else
      var st' := DeletePlayer(st, id).storage;
      (LoadPlayers(st'), st')
  }
}
