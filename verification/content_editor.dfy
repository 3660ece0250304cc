/** components/admin/content-editor.tsx: the administrator's table of all
    editable site copy. The editor keeps a working copy (`content`) and the
    copy last loaded (`original`); edits stay local until "save all". The
    decimal `Date.now()` of a new row is the parameter `stamp`, the answer
    to the confirmation dialog is `confirmed`, and `deleteContentItem`,
    which lib/content-manager.ts does not define, is the parameter
    `deleteItem`. Loading and saving complete before the next action. */
module ContentEditor {
  import opened Types
  import opened Js
  import opened ContentManager

  datatype Editor = Editor(content: seq<EditableContent>, original: seq<EditableContent>)

  datatype Reloaded = Reloaded(editor: Editor, storage: Storage)

  /** `hasChanges`: the working copy differs from the loaded one. */
  predicate HasChanges(e: Editor) {
    e.content != e.original
  }

  /** `loadContent`: both copies become what the store holds. */
  function Load(st: Storage): (e: Editor)
    ensures e.content == GetEditableContent(st) && !HasChanges(e)
  {
    var c := GetEditableContent(st);
    Editor(c, c)
  }

  /** Rows made in the editor and not yet known to the store. */
  predicate IsNewRow(id: string) {
    StartsWith(id, "new_")
  }

  /** The key input is enabled only on new rows, and not while saving. */
  predicate KeyEditable(item: EditableContent, isSaving: bool) {
    !isSaving && IsNewRow(item.id)
  }

  datatype ContentField = Key | Value

  function SetContentField(item: EditableContent, field: ContentField, v: string): EditableContent {
    match field
    case Key => item.(key := v)
    case Value => item.(value := v)
  }

  /** `handleLocalUpdate(id, field, v)`: every row with that id takes the
      value in that field; other rows, and the loaded copy, stay. */
  function HandleLocalUpdate(e: Editor, id: string, field: ContentField, v: string): (r: Editor)
    ensures r.original == e.original && |r.content| == |e.content|
    ensures forall i :: 0 <= i < |e.content| && e.content[i].id == id ==>
              r.content[i] == SetContentField(e.content[i], field, v)
    ensures forall i :: 0 <= i < |e.content| && e.content[i].id != id ==> r.content[i] == e.content[i]
  {
    e.(content := seq(|e.content|, i requires 0 <= i < |e.content| =>
                   if e.content[i].id == id then SetContentField(e.content[i], field, v) else e.content[i]))
  }

  /** Typing the same thing twice is typing it once. */
  lemma LocalUpdateIdempotent(e: Editor, id: string, field: ContentField, v: string)
    ensures HandleLocalUpdate(HandleLocalUpdate(e, id, field, v), id, field, v) == HandleLocalUpdate(e, id, field, v)
  {
    var once := HandleLocalUpdate(e, id, field, v);
    var twice := HandleLocalUpdate(once, id, field, v);
    forall i | 0 <= i < |e.content| ensures twice.content[i] == once.content[i] {
      if e.content[i].id == id {
        assert once.content[i].id == id;
      }
    }
  }

  /** `addNewContent`: a new "text" row in section "general" with a
      placeholder value goes last; its id and key carry the clock's reading
      at two separate calls, which may differ; it is a new row, so its key can be
      edited, and the editor now has unsaved changes. */
  function AddNewContent(e: Editor, idStamp: string, keyStamp: string): (r: Editor)
    ensures r.original == e.original
    ensures |r.content| == |e.content| + 1 && r.content[..|e.content|] == e.content
    ensures var item := r.content[|e.content|];
            && item.id == "new_" + idStamp && item.key == "new_key_" + keyStamp
            && item.value == "New content value" && item.kind == "text" && item.section == "general"
            && KeyEditable(item, false)
  {
    e.(content := e.content + [EditableContent("new_" + idStamp, "new_key_" + keyStamp, "New content value", "text", "general")])
  }

  /** Adding a row to a freshly loaded editor always leaves something to save. */
  lemma AddMakesChanges(st: Storage, idStamp: string, keyStamp: string)
    ensures HasChanges(AddNewContent(Load(st), idStamp, keyStamp))
  {
    var e := Load(st);
    assert |AddNewContent(e, idStamp, keyStamp).content| != |e.original|;
  }

  /** The rows the site ships with are stored rows: their keys cannot be
      changed in the editor. */
  lemma DefaultRowsKeepTheirKeys()
    ensures forall i :: 0 <= i < |DefaultContent()| ==> !KeyEditable(DefaultContent()[i], false)
  {
    var d := DefaultContent();
    forall i | 0 <= i < |d| ensures !IsNewRow(d[i].id) {
      assert |d[i].id| == 1;
    }
  }

  /** `handleSaveAll`: the working copy is written and loaded back. */
  function HandleSaveAll(e: Editor, st: Storage): (r: Reloaded)
    ensures GetEditableContent(r.storage) == e.content
    ensures r.editor.content == e.content && !HasChanges(r.editor)
    ensures r.storage.(content := st.content) == st
  {
    var st' := SaveEditableContent(st, e.content);
    Reloaded(Load(st'), st')
  }

  /** "Save all" is offered only when there is something to save. */
  predicate SaveEnabled(e: Editor, isSaving: bool) {
    HasChanges(e) && !isSaving
  }

  /** `handleDelete(id, key)`: nothing happens unless confirmed; then a stored
      row is deleted by key through the store, a new row is not, and in both
      cases the editor reloads from the store. */
  function HandleDelete(e: Editor, st: Storage, id: string, key: string, confirmed: bool,
                        deleteItem: (Storage, string) -> Storage): (r: Reloaded)
    ensures !confirmed ==> r == Reloaded(e, st)
    ensures confirmed && IsNewRow(id) ==> r.storage == st
    ensures confirmed && !IsNewRow(id) ==> r.storage == deleteItem(st, key)
    ensures confirmed ==> r.editor == Load(r.storage)
  {
    if !confirmed then Reloaded(e, st)
    else
      var st' := if IsNewRow(id) then st else deleteItem(st, key);
      Reloaded(Load(st'), st')
  }

  /** Deleting an unsaved row reloads the editor, which throws away every
      other unsaved edit too: afterwards the editor shows exactly the
      stored rows. */
  lemma DeletingNewRowDropsUnsavedEdits(e: Editor, st: Storage, stamp: string, key: string,
                                        deleteItem: (Storage, string) -> Storage)
    ensures var r := HandleDelete(e, st, "new_" + stamp, key, true, deleteItem);
            r.storage == st && r.editor.content == GetEditableContent(st) && !HasChanges(r.editor)
  {
    assert IsNewRow("new_" + stamp);
  }
}
