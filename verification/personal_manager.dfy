/** components/admin/personal-manager.tsx: the administrator's staff list,
    kept in a hosted database table. The table is a sequence of rows; the
    outcome of each database call is a parameter (`writeOk`, `fetchOk`),
    the id the database gives an inserted row is `newId`, and the
    server-side `order("name")` is the parameter `order`, about which the
    lemmas assume only that it keeps the rows it is given. Failures are
    only logged by the source, so they appear here as "nothing changed". */
module PersonalManager {
  import opened Wrappers
  import opened Js
  import Collection

  /** A `staff` row; `None` is SQL null (or a missing field). */
  datatype StaffMember = StaffMember(
    id: int,
    name: string,
    position: Option<string>,
    email: Option<string>,
    imageUrl: Option<string>)

  datatype StaffForm = StaffForm(name: string, position: string, email: string, imageUrl: string)

  datatype Panel = Panel(
    staff: seq<StaffMember>,
    editing: Option<StaffMember>,
    dialogOpen: bool,
    form: StaffForm)

  /** `s || null`. */
  function NullIfEmpty(s: string): (r: Option<string>)
    ensures r.None? <==> s == ""
    ensures r.Some? ==> r.value == s
  {
    if s == "" then None else Some(s)
  }

  /** `fetchStaff`: on success the list becomes the ordered table; on an
      error the old list stays. */
  function FetchStaff(shown: seq<StaffMember>, table: seq<StaffMember>, fetchOk: bool,
                      order: seq<StaffMember> -> seq<StaffMember>): seq<StaffMember> {
    if fetchOk then order(table) else shown
  }

  /** `openModal(member)`: the dialog opens on that member (or on a new one),
      with each missing field shown as "". */
  function OpenModal(panel: Panel, member: Option<StaffMember>): (r: Panel)
    ensures r.dialogOpen && r.editing == member && r.staff == panel.staff
    ensures member.None? ==> r.form == StaffForm("", "", "", "")
    ensures member.Some? ==> r.form.name == member.value.name
    ensures member.Some? ==> r.form.position == member.value.position.GetOr("")
                             && r.form.email == member.value.email.GetOr("")
                             && r.form.imageUrl == member.value.imageUrl.GetOr("")
  {
    var form := match member
      case None => StaffForm("", "", "", "")
      case Some(m) => StaffForm(Or(m.name, ""), OrOpt(m.position, ""), OrOpt(m.email, ""), OrOpt(m.imageUrl, ""));
    Panel(panel.staff, member, true, form)
  }

  /** Sets a row's data from a normalised form; the id stays. */
  function WithData(m: StaffMember, f: StaffForm): StaffMember {
    StaffMember(m.id, f.name, NullIfEmpty(f.position), NullIfEmpty(f.email), NullIfEmpty(f.imageUrl))
  }

  /** `update(data).eq("id", id)`: every row with that id takes the data. */
  function UpdateRows(table: seq<StaffMember>, id: int, f: StaffForm): (r: seq<StaffMember>)
    ensures |r| == |table|
    ensures forall i :: 0 <= i < |table| ==> r[i] == (if table[i].id == id then WithData(table[i], f) else table[i])
  {
    seq(|table|, i requires 0 <= i < |table| => if table[i].id == id then WithData(table[i], f) else table[i])
  }

  /** `handleSave`: a blank name stops everything. Otherwise the row is
      written (updated by id while editing, inserted otherwise) with empty
      fields as null, the list refetched, and the dialog closed on no one —
      even when the write or the fetch failed. */
  function HandleSave(panel: Panel, table: seq<StaffMember>, writeOk: bool, fetchOk: bool, newId: int,
                      order: seq<StaffMember> -> seq<StaffMember>): (r: (Panel, seq<StaffMember>))
    ensures AllSpace(panel.form.name) ==> r == (panel, table)
    ensures !AllSpace(panel.form.name) ==>
              && !r.0.dialogOpen && r.0.editing.None? && r.0.form == panel.form
              && r.0.staff == FetchStaff(panel.staff, r.1, fetchOk, order)
              && (!writeOk ==> r.1 == table)
              && (writeOk && panel.editing.Some? ==> r.1 == UpdateRows(table, panel.editing.value.id, panel.form))
              && (writeOk && panel.editing.None? ==>
                    r.1 == table + [WithData(StaffMember(newId, "", None, None, None), panel.form)])
  {
    TrimEmptyIffAllSpace(panel.form.name);
    if Trim(panel.form.name) == "" then (panel, table)
    else
      var table' :=
        if !writeOk then table
        else if panel.editing.Some? then UpdateRows(table, panel.editing.value.id, panel.form)
        else table + [WithData(StaffMember(newId, "", None, None, None), panel.form)];
      (Panel(FetchStaff(panel.staff, table', fetchOk, order), None, false, panel.form), table')
  }

  /** The fields a write stores never hold "": an empty input becomes null. */
  lemma SavedFieldsAreNullOrFilled(m: StaffMember, f: StaffForm)
    ensures var w := WithData(m, f);
            w.position != Some("") && w.email != Some("") && w.imageUrl != Some("")
  {
  }

  /** Opening a member and saving without touching the form writes the same
      row back, when the member has a name and no field holds "". */
  lemma UnchangedSaveIsIdentity(panel: Panel, table: seq<StaffMember>, m: StaffMember, fetchOk: bool, newId: int,
                                order: seq<StaffMember> -> seq<StaffMember>)
    requires !AllSpace(m.name)
    requires m.position != Some("") && m.email != Some("") && m.imageUrl != Some("")
    requires forall i :: 0 <= i < |table| && table[i].id == m.id ==> table[i] == m
    ensures HandleSave(OpenModal(panel, Some(m)), table, true, fetchOk, newId, order).1 == table
  {
    var p := OpenModal(panel, Some(m));
    assert m.name != "";
    assert WithData(m, p.form) == m by {
      assert m.position == NullIfEmpty(m.position.GetOr(""));
      assert m.email == NullIfEmpty(m.email.GetOr(""));
      assert m.imageUrl == NullIfEmpty(m.imageUrl.GetOr(""));
    }
    var t' := HandleSave(p, table, true, fetchOk, newId, order).1;
    assert t' == UpdateRows(table, m.id, p.form);
    forall i | 0 <= i < |table| ensures t'[i] == table[i] {
      if table[i].id == m.id {
        assert WithData(table[i], p.form) == m;
      }
    }
  }

  /** After a successful save and fetch of a new member, the list shows a
      row with the typed name, when the ordering keeps the rows. */
  lemma InsertedMemberIsListed(panel: Panel, table: seq<StaffMember>, newId: int,
                               order: seq<StaffMember> -> seq<StaffMember>)
    requires panel.editing.None? && !AllSpace(panel.form.name)
    requires forall t: seq<StaffMember>, x :: x in order(t) <==> x in t
    ensures var (p, _) := HandleSave(panel, table, true, true, newId, order);
            exists x :: x in p.staff && x.id == newId && x.name == panel.form.name
  {
    var (p, t') := HandleSave(panel, table, true, true, newId, order);
    var x := t'[|table|];
    assert x in t';
    assert x in order(t');
  }

  /** `handleDelete(id)`: once confirmed, the rows with that id are deleted
      (unless the call fails) and the list refetched. */
  function HandleDelete(panel: Panel, table: seq<StaffMember>, id: int, confirmed: bool, deleteOk: bool,
                        fetchOk: bool, order: seq<StaffMember> -> seq<StaffMember>): (r: (Panel, seq<StaffMember>))
    ensures !confirmed ==> r == (panel, table)
    ensures confirmed && deleteOk ==> forall x :: x in r.1 <==> x in table && x.id != id
    ensures confirmed && !deleteOk ==> r.1 == table
    ensures confirmed ==> r.0 == panel.(staff := FetchStaff(panel.staff, r.1, fetchOk, order))
  {
    if !confirmed then (panel, table)
    else
      var table' := if deleteOk then Collection.Filter(table, (x: StaffMember) => x.id != id) else table;
      (panel.(staff := FetchStaff(panel.staff, table', fetchOk, order)), table')
  }
}
