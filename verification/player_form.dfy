/** components/admin/player-form.tsx: the add/edit form for a roster card.
    The form's state is `FormState` (the field values and the error map);
    `updateField` and `updateStat` edit it; `handleSubmit` validates it and
    writes a card through the store. `onSuccess` is the `success` flag of
    the result; the id of a new card is the parameter `stamp`. */
module PlayerForm {
  import opened Wrappers
  import opened Types
  import opened Js
  import opened ContentManager
  import Collection

  datatype Form = Form(
    name: string,
    position: string,
    age: int,
    height: string,
    weight: string,
    nationality: string,
    imageUrl: string,
    biography: string,
    team: string,
    category: string,
    sponsorName: string,
    sponsorLogo: string,
    isActive: bool,
    stats: Stats)

  datatype FormState = FormState(data: Form, errors: map<string, string>)

  datatype Submitted = Submitted(state: FormState, storage: Storage, success: bool)

  /** `v` is what the field `o || fallback` holds: the card's value when it
      is present and non-empty, `fallback` otherwise. */
  predicate FilledOr(o: Option<string>, fallback: string, v: string) {
    && (o.Some? && o.value != "" ==> v == o.value)
    && (o.None? || o.value == "" ==> v == fallback)
  }

  /** The initial field values: each field of the edited card, with `||`
      falling back to "" (to 20 for the age, "Georgian" for the nationality,
      the page's team, "Men's Rugby"), and `??` making a missing `isActive`
      true. */
  function InitialForm(player: Option<PlayerCard>, defaultTeam: string): (r: FormState)
    ensures r.errors == map[]
    ensures player.None? ==>
              && r.data.name == "" && r.data.position == "" && r.data.age == 20
              && r.data.height == "" && r.data.weight == "" && r.data.imageUrl == "" && r.data.biography == ""
              && r.data.nationality == "Georgian" && r.data.team == defaultTeam
              && r.data.category == "Men's Rugby" && r.data.sponsorName == "" && r.data.sponsorLogo == ""
              && r.data.isActive && r.data.stats == Stats(0, 0, 0, 0, 0)
    ensures player.Some? ==>
              var p := player.value;
              && r.data.name == p.name && r.data.position == p.position
              && (p.age.Some? && p.age.value != 0 ==> r.data.age == p.age.value)
              && (p.age.None? || p.age.value == 0 ==> r.data.age == 20)
              && FilledOr(p.height, "", r.data.height) && FilledOr(p.weight, "", r.data.weight)
              && FilledOr(p.nationality, "Georgian", r.data.nationality)
              && FilledOr(p.imageUrl, "", r.data.imageUrl) && FilledOr(p.biography, "", r.data.biography)
              && FilledOr(p.team, defaultTeam, r.data.team)
              && FilledOr(p.category, "Men's Rugby", r.data.category)
              && FilledOr(p.sponsorName, "", r.data.sponsorName) && FilledOr(p.sponsorLogo, "", r.data.sponsorLogo)
              && (r.data.isActive <==> p.isActive != Some(false))
              && r.data.stats == p.stats
  {
    match player
    case None =>
      FormState(Form("", "", 20, "", "", "Georgian", "", "", defaultTeam, "Men's Rugby", "", "", true,
                     Stats(0, 0, 0, 0, 0)), map[])
    case Some(p) =>
      FormState(Form(
        Or(p.name, ""), Or(p.position, ""), OrNum(p.age, 20), OrOpt(p.height, ""), OrOpt(p.weight, ""),
        OrOpt(p.nationality, "Georgian"), OrOpt(p.imageUrl, ""), OrOpt(p.biography, ""),
        OrOpt(p.team, defaultTeam), OrOpt(p.category, "Men's Rugby"),
        OrOpt(p.sponsorName, ""), OrOpt(p.sponsorLogo, ""), p.isActive.GetOr(true),
        Stats(p.stats.matches, p.stats.tries, p.stats.points, p.stats.yellowCards, p.stats.redCards)),
        map[])
  }

  /** `getCategoryFromTeam`: each of the four teams has its own category and
      anything else counts as the men's team. */
  function CategoryFromTeam(team: string): (r: string)
    ensures r == "Women's Rugby" <==> team == "womens"
    ensures r == "Youth Rugby" <==> team == "youth"
    ensures r == "Coaches" <==> team == "coaches"
    ensures r == "Men's Rugby" <==> team != "womens" && team != "youth" && team != "coaches"
  {
    match team
    case "mens" => "Men's Rugby"
    case "womens" => "Women's Rugby"
    case "youth" => "Youth Rugby"
    case "coaches" => "Coaches"
    case _ => "Men's Rugby"
  }

  /** The built-in roster files every card under the category of its team. */
  lemma DefaultRosterCategoriesMatchTeams()
    ensures forall i :: 0 <= i < |DefaultPlayers()| ==>
              DefaultPlayers()[i].team.Some? &&
              DefaultPlayers()[i].category == Some(CategoryFromTeam(DefaultPlayers()[i].team.value))
  {
  }

  /** The validation: an error for a blank name, a blank position and an age
      outside 1 to 100, and no other key. */
  function Validate(f: Form): (r: map<string, string>)
    ensures "name" in r <==> AllSpace(f.name)
    ensures "position" in r <==> AllSpace(f.position)
    ensures "age" in r <==> !(1 <= f.age <= 100)
    ensures r.Keys <= {"name", "position", "age"}
    ensures "name" in r ==> r["name"] == "Name is required"
    ensures "position" in r ==> r["position"] == "Position is required"
    ensures "age" in r ==> r["age"] == "Age must be between 1 and 100"
  {
    TrimEmptyIffAllSpace(f.name);
    TrimEmptyIffAllSpace(f.position);
    var e0: map<string, string> := map[];
    var e1 := if Trim(f.name) == "" then e0["name" := "Name is required"] else e0;
    var e2 := if Trim(f.position) == "" then e1["position" := "Position is required"] else e1;
    if f.age < 1 || f.age > 100 then e2["age" := "Age must be between 1 and 100"] else e2
  }

  /** The card `createPlayer` receives: the form's values with the category
      taken from the team (the id is replaced by the store). */
  function FormCard(f: Form): PlayerCard {
    PlayerCard(0, f.name, f.position, Some(f.age), Some(f.height), Some(f.weight), Some(f.nationality),
               Some(f.imageUrl), Some(f.biography), f.stats, Some(f.isActive), Some(CategoryFromTeam(f.team)),
               Some(f.sponsorName), Some(f.sponsorLogo), Some(f.team))
  }

  /** The same values as the patch `updatePlayer` receives. */
  function FormPatch(f: Form): PlayerPatch {
    PlayerPatch(None, Some(f.name), Some(f.position), Some(Some(f.age)), Some(Some(f.height)),
                Some(Some(f.weight)), Some(Some(f.nationality)), Some(Some(f.imageUrl)),
                Some(Some(f.biography)), Some(f.stats), Some(Some(f.isActive)),
                Some(Some(CategoryFromTeam(f.team))), Some(Some(f.sponsorName)),
                Some(Some(f.sponsorLogo)), Some(Some(f.team)))
  }

  /** Creating and updating write the same card: the patch applied to any
      card yields the form's card under that card's id. */
  lemma PatchWritesFormCard(c: PlayerCard, f: Form)
    ensures MergePlayer(c, FormPatch(f)) == FormCard(f).(id := c.id)
  {
  }

  /** `handleSubmit`: an invalid form shows its errors and writes nothing;
      a valid one updates the edited card (or creates one) and reports
      success. */
  function HandleSubmit(s: FormState, player: Option<PlayerCard>, st: Storage, stamp: int): (r: Submitted)
    ensures r.success <==> |Validate(s.data)| == 0
    ensures !r.success ==> r == Submitted(s.(errors := Validate(s.data)), st, false)
    ensures r.success && player.None? ==> r.storage == CreatePlayer(st, FormCard(s.data), stamp).storage
    ensures r.success && player.Some? ==>
              r.storage == UpdatePlayer(st, player.value.id, FormPatch(s.data)).storage
    ensures r.storage.(players := st.players) == st
  {
    var errors := Validate(s.data);
    if |errors| > 0 then Submitted(s.(errors := errors), st, false)
    else if player.None? then Submitted(s, CreatePlayer(st, FormCard(s.data), stamp).storage, true)
    else Submitted(s, UpdatePlayer(st, player.value.id, FormPatch(s.data)).storage, true)
  }

  /** Every card the form writes is filed under the category of its team. */
  lemma SubmitFilesCardUnderTeam(s: FormState, player: Option<PlayerCard>, st: Storage, stamp: int)
    requires HandleSubmit(s, player, st, stamp).success
    requires GetAllPlayersFromStorage(HandleSubmit(s, player, st, stamp).storage) != GetAllPlayersFromStorage(st)
    ensures var before := GetAllPlayersFromStorage(st);
            var after := GetAllPlayersFromStorage(HandleSubmit(s, player, st, stamp).storage);
            exists j :: 0 <= j < |after| && after[j].team == Some(s.data.team)
                        && after[j].category == Some(CategoryFromTeam(s.data.team))
                        && after[j].name == s.data.name
  {
    var before := GetAllPlayersFromStorage(st);
    var after := GetAllPlayersFromStorage(HandleSubmit(s, player, st, stamp).storage);
    if player.None? {
      assert after[|after| - 1] == FormCard(s.data).(id := stamp);
    } else {
      var k := Collection.IndexOf(before, PlayerId, player.value.id);
      PatchWritesFormCard(before[k.value], s.data);
      assert after[k.value] == FormCard(s.data).(id := before[k.value].id);
    }
  }

  /** A card comes back unchanged when its edit form is submitted untouched,
      provided every field is present (the free-text ones possibly ""), its
      name and position are not blank, its age is from 1 to 100, its
      nationality and team are non-empty and its category is the one its
      team derives. */
  lemma UnchangedEditIsIdentity(p: PlayerCard, st: Storage, defaultTeam: string, stamp: int, i: nat)
    requires i < |GetAllPlayersFromStorage(st)| && GetAllPlayersFromStorage(st)[i] == p
    requires forall j :: 0 <= j < i ==> GetAllPlayersFromStorage(st)[j].id != p.id
    requires !AllSpace(p.name) && !AllSpace(p.position)
    requires p.age.Some? && 1 <= p.age.value <= 100
    requires p.height.Some? && p.weight.Some? && p.imageUrl.Some? && p.biography.Some?
    requires p.nationality.Some? && p.nationality.value != "" && p.isActive.Some?
    requires p.sponsorName.Some? && p.sponsorLogo.Some?
    requires p.team.Some? && p.team.value != "" && p.category == Some(CategoryFromTeam(p.team.value))
    ensures var r := HandleSubmit(InitialForm(Some(p), defaultTeam), Some(p), st, stamp);
            r.success && GetAllPlayersFromStorage(r.storage) == GetAllPlayersFromStorage(st)
  {
    var s := GetAllPlayersFromStorage(st);
    var f := InitialForm(Some(p), defaultTeam).data;
    assert Collection.IndexOf(s, PlayerId, p.id) == Some(i);
    PatchWritesFormCard(p, f);
    assert FormCard(f).(id := p.id) == p;
    var s' := GetAllPlayersFromStorage(HandleSubmit(InitialForm(Some(p), defaultTeam), Some(p), st, stamp).storage);
    assert s' == s;
  }

  /** A new form cannot be submitted as it is: the name and the position
      are missing, the age is fine. */
  lemma NewFormNeedsNameAndPosition(defaultTeam: string)
    ensures var e := Validate(InitialForm(None, defaultTeam).data);
            e.Keys == {"name", "position"}
  {
    var e := Validate(InitialForm(None, defaultTeam).data);
    assert AllSpace("");
    assert !("age" in e);
  }

  // ---------------------------------------------------------------------------
  // Field edits

  datatype Field =
    | Name | Position | Age | Height | Weight | Nationality | ImageUrl | Biography
    | Team | Category | SponsorName | SponsorLogo | IsActive

  datatype Value = Str(s: string) | Num(n: int) | Flag(b: bool)

  /** The key a field has in the form data and in the error map. */
  function FieldName(field: Field): string {
    match field
    case Name => "name"
    case Position => "position"
    case Age => "age"
    case Height => "height"
    case Weight => "weight"
    case Nationality => "nationality"
    case ImageUrl => "imageUrl"
    case Biography => "biography"
    case Team => "team"
    case Category => "category"
    case SponsorName => "sponsorName"
    case SponsorLogo => "sponsorLogo"
    case IsActive => "isActive"
  }

  /** The value of one field. */
  function Get(f: Form, field: Field): Value {
    match field
    case Name => Str(f.name)
    case Position => Str(f.position)
    case Age => Num(f.age)
    case Height => Str(f.height)
    case Weight => Str(f.weight)
    case Nationality => Str(f.nationality)
    case ImageUrl => Str(f.imageUrl)
    case Biography => Str(f.biography)
    case Team => Str(f.team)
    case Category => Str(f.category)
    case SponsorName => Str(f.sponsorName)
    case SponsorLogo => Str(f.sponsorLogo)
    case IsActive => Flag(f.isActive)
  }

  /** The inputs give each field a value of its own type. */
  predicate Fits(field: Field, v: Value) {
    match field
    case Age => v.Num?
    case IsActive => v.Flag?
    case _ => v.Str?
  }

  /** `{ ...formData, [field]: value }`: that field takes the value and every
      other field keeps its own. */
  function SetField(f: Form, field: Field, v: Value): (r: Form)
    requires Fits(field, v)
    ensures Get(r, field) == v
    ensures forall g: Field :: g != field ==> Get(r, g) == Get(f, g)
    ensures r.stats == f.stats
  {
    match field
    case Name => f.(name := v.s)
    case Position => f.(position := v.s)
    case Age => f.(age := v.n)
    case Height => f.(height := v.s)
    case Weight => f.(weight := v.s)
    case Nationality => f.(nationality := v.s)
    case ImageUrl => f.(imageUrl := v.s)
    case Biography => f.(biography := v.s)
    case Team => f.(team := v.s)
    case Category => f.(category := v.s)
    case SponsorName => f.(sponsorName := v.s)
    case SponsorLogo => f.(sponsorLogo := v.s)
    case IsActive => f.(isActive := v.b)
  }

  /** `updateField`: sets the field, and blanks its error message when one is
      showing; every other message stays. */
  function UpdateField(s: FormState, field: Field, v: Value): (r: FormState)
    requires Fits(field, v)
    ensures r.data == SetField(s.data, field, v)
    ensures r.errors.Keys == s.errors.Keys
    ensures FieldName(field) in s.errors ==> r.errors[FieldName(field)] == ""
    ensures forall k :: k in s.errors && k != FieldName(field) ==> r.errors[k] == s.errors[k]
  {
    var key := FieldName(field);
    var errors := if key in s.errors && s.errors[key] != "" then s.errors[key := ""] else s.errors;
    FormState(SetField(s.data, field, v), errors)
  }

  /** Fixing what a validation complained about clears the complaint: after
      a failed submit, typing a non-blank name leaves no message for it. */
  lemma FixingNameClearsItsError(s: FormState, player: Option<PlayerCard>, st: Storage, stamp: int, name: string)
    requires AllSpace(s.data.name)
    ensures var failed := HandleSubmit(s, player, st, stamp);
            var fixed := UpdateField(failed.state, Name, Str(name));
            !failed.success && fixed.errors["name"] == ""
  {
  }

  datatype Stat = Matches | Tries | Points | YellowCards | RedCards

  function StatOf(s: Stats, stat: Stat): int {
    match stat
    case Matches => s.matches
    case Tries => s.tries
    case Points => s.points
    case YellowCards => s.yellowCards
    case RedCards => s.redCards
  }

  /** `updateStat`: one counter takes the value; the other counters, the
      other fields and the error messages stay. */
  function UpdateStat(s: FormState, stat: Stat, value: int): (r: FormState)
    ensures StatOf(r.data.stats, stat) == value
    ensures forall t: Stat :: t != stat ==> StatOf(r.data.stats, t) == StatOf(s.data.stats, t)
    ensures r.data.(stats := s.data.stats) == s.data && r.errors == s.errors
  {
    var st := s.data.stats;
    var stats := match stat
      case Matches => st.(matches := value)
      case Tries => st.(tries := value)
      case Points => st.(points := value)
      case YellowCards => st.(yellowCards := value)
      case RedCards => st.(redCards := value);
    s.(data := s.data.(stats := stats))
  }
}
