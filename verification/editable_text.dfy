/** components/editable-text.tsx: a piece of site copy that an
    administrator can edit in place. The component's state is a `Control`,
    its render is a `View`, and the user's clicks and keystrokes are
    `Event`s; an event only happens when the element that fires it is on
    screen. Whether the viewer is an administrator is the parameter
    `isAdmin`, fixed for a run. The asynchronous store calls complete before
    the next event. */
module EditableText {
  import opened ContentManager

  datatype Control = Control(
    key: string,        // contentKey
    fallback: string,   // defaultValue
    value: string,      // the shown text
    draft: string,      // tempValue
    editing: bool)      // isEditing

  datatype Kind = Text | Textarea | Number

  /** What the component renders: the bare text, the text with a pencil
      button, or an input (a text area for `Textarea`) with save and cancel. */
  datatype View = Plain(text: string) | WithPencil(text: string) | Editor(draft: string, multiline: bool)

  datatype Event =
    | Fetch              // the effect that loads the stored value
    | Pencil             // the pencil button
    | Type(text: string) // a change in the input
    | Save(stamp: string)
    | Cancel

  /** The state on mount, before the effect has run: the default shows. */
  function Mount(key: string, fallback: string): (c: Control)
    ensures Settled(c) && c.value == fallback
  {
    Control(key, fallback, fallback, fallback, false)
  }

  /** Outside editing, the draft is the shown value. */
  predicate Settled(c: Control) {
    !c.editing ==> c.draft == c.value
  }

  /** The render: non-administrators only ever see the text; administrators
      see the editor while editing and the text with a pencil otherwise. */
  function Render(c: Control, isAdmin: bool, kind: Kind): (v: View)
    ensures !isAdmin <==> v.Plain?
    ensures v.Editor? <==> isAdmin && c.editing
    ensures !v.Editor? ==> v.text == c.value
    ensures v.Editor? ==> v.draft == c.draft && (v.multiline <==> kind == Textarea)
  {
    if !isAdmin then Plain(c.value)
    else if c.editing then Editor(c.draft, kind == Textarea)
    else WithPencil(c.value)
  }

  /** Whether the element that fires `e` is on screen. */
  predicate Enabled(c: Control, isAdmin: bool, e: Event) {
    match e
    case Fetch => true
    case Pencil => isAdmin && !c.editing
    case _ => isAdmin && c.editing
  }

  /** One event. The effect reads the stored value (or the default); save
      writes the draft with `updateContent` and shows it; cancel throws the
      draft away. Events whose element is not on screen change nothing. */
  function Step(c: Control, st: Storage, isAdmin: bool, e: Event): (r: (Control, Storage))
    ensures r.0.key == c.key && r.0.fallback == c.fallback
    ensures Settled(c) ==> Settled(r.0)
    ensures !Enabled(c, isAdmin, e) ==> r == (c, st)
    ensures r.1 != st ==> isAdmin && c.editing && e.Save?
    ensures e.Fetch? ==> r == (c.(value := GetContentValue(st, c.key, c.fallback),
                                  draft := GetContentValue(st, c.key, c.fallback)), st)
    ensures Enabled(c, isAdmin, e) && e.Save? ==>
              r == (c.(value := c.draft, editing := false), UpdateContent(st, c.key, c.draft, e.stamp))
    ensures Enabled(c, isAdmin, e) && e.Pencil? ==> r == (c.(editing := true), st)
    ensures Enabled(c, isAdmin, e) && e.Type? ==> r == (c.(draft := e.text), st)
    ensures Enabled(c, isAdmin, e) && e.Cancel? ==> r == (c.(draft := c.value, editing := false), st)
  {
    if !Enabled(c, isAdmin, e) then (c, st)
    else
      match e
      case Fetch =>
        var v := GetContentValue(st, c.key, c.fallback);
        (c.(value := v, draft := v), st)
      case Pencil => (c.(editing := true), st)
      case Type(text) => (c.(draft := text), st)
      case Save(stamp) => (c.(value := c.draft, editing := false), UpdateContent(st, c.key, c.draft, stamp))
      case Cancel => (c.(draft := c.value, editing := false), st)
  }

  function Run(c: Control, st: Storage, isAdmin: bool, events: seq<Event>): (Control, Storage)
    decreases |events|
  {
    if |events| == 0 then (c, st)
    else
      var (c', st') := Step(c, st, isAdmin, events[0]);
      Run(c', st', isAdmin, events[1..])
  }

  /** A visitor who is not an administrator never opens the editor and never
      writes to the store, whatever they do. */
  lemma {:induction false} NonAdminNeverWrites(c: Control, st: Storage, events: seq<Event>)
    requires !c.editing
    ensures !Run(c, st, false, events).0.editing
    ensures Run(c, st, false, events).1 == st
    decreases |events|
  {
    if |events| > 0 {
      NonAdminNeverWrites(Step(c, st, false, events[0]).0, st, events[1..]);
    }
  }

  /** The draft equals the shown value whenever the editor is closed, after
      any sequence of events from a settled state. */
  lemma {:induction false} RunKeepsSettled(c: Control, st: Storage, isAdmin: bool, events: seq<Event>)
    requires Settled(c)
    ensures Settled(Run(c, st, isAdmin, events).0)
    decreases |events|
  {
    if |events| > 0 {
      var (c', st') := Step(c, st, isAdmin, events[0]);
      RunKeepsSettled(c', st', isAdmin, events[1..]);
    }
  }

  /** Opening the editor, typing anything and cancelling leaves the control
      and the store exactly as they were. */
  lemma CancelDiscardsEdits(c: Control, st: Storage, typed: string)
    requires Settled(c) && !c.editing
    ensures Run(c, st, true, [Pencil, Type(typed), Cancel]) == (c, st)
  {
    var s1 := Step(c, st, true, Pencil);
    var s2 := Step(s1.0, s1.1, true, Type(typed));
    var s3 := Step(s2.0, s2.1, true, Cancel);
    assert s3 == (c, st);
    assert [Pencil, Type(typed), Cancel][1..] == [Type(typed), Cancel];
    assert [Type(typed), Cancel][1..] == [Cancel];
    assert Run(s2.0, s2.1, true, [Cancel]) == s3 by { assert [Cancel][1..] == []; }
    assert Run(s1.0, s1.1, true, [Type(typed), Cancel]) == s3;
  }

  /** Round trip: what an administrator saves is what the same control shows
      when mounted again (a cleared text falls back to the default, because
      of the `||` in `getContentValue`). */
  lemma SaveThenRemount(c: Control, st: Storage, typed: string, stamp: string)
    requires !c.editing
    ensures var (_, st') := Run(c, st, true, [Pencil, Type(typed), Save(stamp)]);
            var (shown, _) := Run(Mount(c.key, c.fallback), st', true, [Fetch]);
            shown.value == (if typed == "" then c.fallback else typed)
  {
    var s1 := Step(c, st, true, Pencil);
    var s2 := Step(s1.0, s1.1, true, Type(typed));
    var s3 := Step(s2.0, s2.1, true, Save(stamp));
    assert [Pencil, Type(typed), Save(stamp)][1..] == [Type(typed), Save(stamp)];
    assert [Type(typed), Save(stamp)][1..] == [Save(stamp)];
    assert s3.1 == UpdateContent(st, c.key, typed, stamp);
    assert Run(s2.0, s2.1, true, [Save(stamp)]) == s3 by { assert [Save(stamp)][1..] == []; }
    assert Run(s1.0, s1.1, true, [Type(typed), Save(stamp)]) == s3;
    var m := Mount(c.key, c.fallback);
    assert Run(m, s3.1, true, [Fetch]) == Step(m, s3.1, true, Fetch) by { assert [Fetch][1..] == []; }
    if typed == "" {
      UpdateEmptyThenRead(st, c.key, stamp, c.fallback);
    } else {
      UpdateThenRead(st, c.key, typed, stamp, c.fallback);
    }
  }
}
