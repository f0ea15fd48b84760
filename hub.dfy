/** The page's module-level state and its event handlers: the four panel
    lists, the note edit cursor, the theme, the active tab, the avatar, and the
    `localStorage` they are mirrored into. Form fields arrive already read as
    strings, and `Date.now()` arrives as the `now` parameter. */
module Hub {
  import opened Text
  import opened Records
  import opened Storage
  import opened Prefs

  /** `if (editNoteId)`: JavaScript truthiness, so a cursor of `0` counts as
      no cursor at all. */
  predicate CursorActive(cursor: Option<int>): (active: bool)
    ensures cursor.None? ==> !active
    ensures cursor == Some(0) ==> !active
    ensures cursor.Some? && cursor.value != 0 ==> active
  {
    cursor.Some? && cursor.value != 0
  }

  /** The notes list `AddNote` leaves behind when it accepts `fields`: the
      edit under an active cursor, or else the append. */
  function NotesAfterAdd(notes: seq<Note>, cursor: Option<int>, fields: NoteFields, now: int): (r: seq<Note>)
    ensures CursorActive(cursor) ==> |r| == |notes| && forall k :: 0 <= k < |r| ==> r[k].id == notes[k].id
    ensures !CursorActive(cursor) ==> r == notes + [Record(now, fields)]
  {
    if CursorActive(cursor) then ReplaceFields(notes, cursor.value, fields) else notes + [Record(now, fields)]
  }

  /** An accepted note keeps ids unique when `now` is later than every
      existing id: an edit keeps every id, an append adds a later one. */
  lemma AddNoteKeepsUnique(notes: seq<Note>, cursor: Option<int>, fields: NoteFields, now: int)
    requires UniqueIds(notes) && IdsBelow(notes, now)
    ensures UniqueIds(NotesAfterAdd(notes, cursor, fields, now))
  {
    if CursorActive(cursor) {
      ReplaceFieldsKeepsUnique(notes, cursor.value, fields);
    } else {
      AppendLaterIdKeepsUnique(notes, Record(now, fields));
    }
  }

  class Hub {
    var todos: seq<Todo>
    var notes: seq<Note>
    var links: seq<Link>
    var images: seq<Image>
    var editNoteId: Option<int>
    var storage: Store
    /** Whether the page carries the `light` class. */
    var light: bool
    /** Text of the theme toggle button. */
    var themeLabel: string
    /** Name of the tab marked active; `None` until one is set by script. */
    var activeTab: Option<string>
    /** `src` of the avatar image. */
    var avatarShown: string

    /** Storage holds values of the expected shapes and each list reads back
        from storage as the in-memory list: the saved copy mirrors memory. */
    ghost predicate ListsMirrored()
      reads this
    {
      && WellShaped(storage)
      && LoadTodos(storage) == todos
      && LoadNotes(storage) == notes
      && LoadLinks(storage) == links
      && LoadImages(storage) == images
    }

    /** The theme matches what a reload would restore, and the toggle label
        offers the other theme. */
    ghost predicate ThemeShown()
      reads this
    {
      light == RestoresLight(GetText(storage, ThemeKey)) && themeLabel == ThemeLabel(light)
    }

    ghost predicate AvatarMirrored()
      reads this
    {
      Consistent(Avatar(avatarShown, GetText(storage, AvatarKey)))
    }

    ghost predicate TabMirrored()
      reads this
    {
      activeTab.Some? ==> GetText(storage, ActiveTabKey) == activeTab
    }

    ghost predicate Valid()
      reads this
    {
      ListsMirrored() && ThemeShown() && AvatarMirrored() && TabMirrored()
    }

    /** Script evaluation (lines 13-17): each list is read from storage, or
        empty when nothing is saved, and there is no edit cursor. The theme,
        tab and avatar keep the page's initial markup until `OnReady`. */
    constructor (initial: Store)
      requires WellShaped(initial)
      ensures ListsMirrored() && storage == initial
      ensures todos == LoadTodos(initial) && notes == LoadNotes(initial)
      ensures links == LoadLinks(initial) && images == LoadImages(initial)
      ensures editNoteId == None && activeTab == None
    {
      todos := LoadTodos(initial);
      notes := LoadNotes(initial);
      links := LoadLinks(initial);
      images := LoadImages(initial);
      editNoteId := None;
      storage := initial;
      light := false;
      themeLabel := ThemeLabel(false);
      activeTab := None;
      avatarShown := DefaultAvatarUrl;
    }

    /** The DOMContentLoaded handler: loads the avatar, restores the theme,
        and restores the saved tab when a tab button for it exists. */
    method OnReady(savedTabHasButton: bool)
      requires ListsMirrored() && activeTab == None
      modifies this`avatarShown, this`storage, this`light, this`themeLabel, this`activeTab
      ensures Valid()
      ensures light == RestoresLight(old(GetText(storage, ThemeKey)))
      ensures var a := SetAvatarEffect(AvatarToLoad(old(GetText(storage, AvatarKey))));
        avatarShown == a.shown && storage == PutText(old(storage), AvatarKey, a.saved)
      ensures var saved := old(GetText(storage, ActiveTabKey));
        activeTab == if saved.Some? && saved.value != "" && savedTabHasButton then saved else None
    {
      LoadAvatar();
      RestoreTheme();
      RestoreActiveTab(savedTabHasButton);
    }

    // ---------- save helpers ----------

    method SaveTodos()
      requires WellShaped(storage)
      modifies this`storage
      ensures WellShaped(storage) && storage == old(storage)[TodosKey := TodoList(todos)]
    {
      storage := storage[TodosKey := TodoList(todos)];
    }

    method SaveNotes()
      requires WellShaped(storage)
      modifies this`storage
      ensures WellShaped(storage) && storage == old(storage)[NotesKey := NoteList(notes)]
    {
      storage := storage[NotesKey := NoteList(notes)];
    }

    method SaveLinks()
      requires WellShaped(storage)
      modifies this`storage
      ensures WellShaped(storage) && storage == old(storage)[LinksKey := LinkList(links)]
    {
      storage := storage[LinksKey := LinkList(links)];
    }

    method SaveImages()
      requires WellShaped(storage)
      modifies this`storage
      ensures WellShaped(storage) && storage == old(storage)[ImagesKey := ImageList(images)]
    {
      storage := storage[ImagesKey := ImageList(images)];
    }

    // ---------- avatar ----------

    /** `setAvatar(url)`. */
    method SetAvatar(url: string)
      requires ListsMirrored()
      modifies this`avatarShown, this`storage
      ensures ListsMirrored() && AvatarMirrored()
      ensures var a := SetAvatarEffect(url);
        avatarShown == a.shown && storage == PutText(old(storage), AvatarKey, a.saved)
    {
      if Trim(url) != "" {
        avatarShown := url;
        storage := storage[AvatarKey := Text(url)];
      } else {
        avatarShown := DefaultAvatarUrl;
        storage := storage - {AvatarKey};
      }
    }

    /** `loadAvatar()`: re-applies the saved avatar, or saves the default. */
    method LoadAvatar()
      requires ListsMirrored()
      modifies this`avatarShown, this`storage
      ensures ListsMirrored() && AvatarMirrored()
      ensures var a := SetAvatarEffect(AvatarToLoad(old(GetText(storage, AvatarKey))));
        avatarShown == a.shown && storage == PutText(old(storage), AvatarKey, a.saved)
    {
      var saved := GetText(storage, AvatarKey);
      if saved.Some? && saved.value != "" {
        SetAvatar(saved.value);
      } else {
        SetAvatar(DefaultAvatarUrl);
      }
    }

    /** The avatar's click handler, given the prompt's answer (`None` when
        the prompt is cancelled). */
    method ChangeAvatar(answer: Option<string>)
      requires Valid()
      modifies this`avatarShown, this`storage
      ensures Valid()
      ensures answer.None? ==> avatarShown == old(avatarShown) && storage == old(storage)
      ensures answer.Some? ==> var a := SetAvatarEffect(answer.value);
        avatarShown == a.shown && storage == PutText(old(storage), AvatarKey, a.saved)
    {
      if answer.Some? {
        if Trim(answer.value) == "" {
          SetAvatar("");
        } else {
          SetAvatar(answer.value);
        }
      }
    }

    // ---------- theme and active tab ----------

    /** Start-up theme restore: light only for a saved `"light"`. Nothing is
        written. */
    method RestoreTheme()
      requires ListsMirrored() && AvatarMirrored()
      modifies this`light, this`themeLabel
      ensures ListsMirrored() && AvatarMirrored() && ThemeShown()
      ensures light == RestoresLight(GetText(storage, ThemeKey))
    {
      var saved := GetText(storage, ThemeKey);
      light := saved == Some("light");
      themeLabel := if light then "dark_mode" else "light_mode";
    }

    /** The theme toggle's click handler. */
    method ToggleTheme()
      requires Valid()
      modifies this`light, this`themeLabel, this`storage
      ensures Valid()
      ensures light == !old(light) && themeLabel == ThemeLabel(light)
      ensures storage == old(storage)[ThemeKey := Text(ThemeValue(light))]
    {
      var nowLight := !light;
      light := nowLight;
      themeLabel := if nowLight then "dark_mode" else "light_mode";
      storage := storage[ThemeKey := Text(if nowLight then "light" else "dark")];
    }

    /** `setActiveTab(button, tabName)`: exactly one tab, `tabName`, is
        active and its name is saved. */
    method SetActiveTab(tabName: string)
      requires Valid()
      modifies this`activeTab, this`storage
      ensures Valid()
      ensures activeTab == Some(tabName)
      ensures storage == old(storage)[ActiveTabKey := Text(tabName)]
    {
      activeTab := Some(tabName);
      storage := storage[ActiveTabKey := Text(tabName)];
    }

    /** Start-up tab restore: a saved non-empty tab name whose button exists
        becomes active. Rewriting the saved name leaves storage as it was. */
    method RestoreActiveTab(savedTabHasButton: bool)
      requires Valid()
      modifies this`activeTab, this`storage
      ensures Valid()
      ensures storage == old(storage)
      ensures var saved := GetText(storage, ActiveTabKey);
        activeTab == if saved.Some? && saved.value != "" && savedTabHasButton then saved else old(activeTab)
    {
      var saved := GetText(storage, ActiveTabKey);
      if saved.Some? && saved.value != "" && savedTabHasButton {
        SetActiveTab(saved.value);
        assert storage == old(storage);
      }
    }

    // ---------- todos ----------

    /** `addTodo()`: a non-blank input is trimmed and appended as an open todo
        and the list is saved; a blank input changes and saves nothing. */
    method AddTodo(input: string, now: int)
      requires Valid()
      modifies this`todos, this`storage
      ensures Valid()
      ensures Trim(input) == "" ==> todos == old(todos) && storage == old(storage)
      ensures Trim(input) != "" ==>
        && todos == old(todos) + [Record(now, TodoFields(Trim(input), false))]
        && storage == old(storage)[TodosKey := TodoList(todos)]
      ensures UniqueIds(old(todos)) && IdsBelow(old(todos), now) ==> UniqueIds(todos)
    {
      if UniqueIds(todos) && IdsBelow(todos, now) {
        AppendLaterIdKeepsUnique(todos, Record(now, TodoFields(Trim(input), false)));
      }
      if Trim(input) == "" {
        return;
      }
      todos := todos + [Record(now, TodoFields(Trim(input), false))];
      SaveTodos();
    }

    /** `toggleTodo(id)`: flips the first todo with that id and saves; with
        no such todo nothing changes and nothing is saved. */
    method ToggleTodo(id: int)
      requires Valid()
      modifies this`todos, this`storage
      ensures Valid()
      ensures todos == Toggled(old(todos), id)
      ensures storage == if HasId(old(todos), id) then old(storage)[TodosKey := TodoList(todos)] else old(storage)
    {
      match FindFirst(todos, id)
      case None =>
      case Some(k) =>
        todos := todos[k := Record(id, TodoFields(todos[k].fields.text, !todos[k].fields.completed))];
        SaveTodos();
    }

    /** `deleteTodo(id)`: drops every todo with that id and always saves. */
    method DeleteTodo(id: int)
      requires Valid()
      modifies this`todos, this`storage
      ensures Valid()
      ensures todos == RemoveId(old(todos), id)
      ensures storage == old(storage)[TodosKey := TodoList(todos)]
    {
      todos := RemoveId(todos, id);
      SaveTodos();
    }

    // ---------- notes ----------

    /** `addNote()`: rejected when both trimmed fields are blank. With an
        active edit cursor every note with the cursor's id takes the trimmed
        fields and the cursor is cleared; otherwise a new note is appended.
        An accepted call always saves. */
    method AddNote(titleInput: string, contentInput: string, now: int)
      requires Valid()
      modifies this`notes, this`editNoteId, this`storage
      ensures Valid()
      ensures Trim(titleInput) == "" && Trim(contentInput) == "" ==>
        notes == old(notes) && editNoteId == old(editNoteId) && storage == old(storage)
      ensures (Trim(titleInput) != "" || Trim(contentInput) != "") ==>
        var fields := NoteFields(Trim(titleInput), Trim(contentInput));
        && notes == NotesAfterAdd(old(notes), old(editNoteId), fields, now)
        && (CursorActive(old(editNoteId)) ==>
              notes == ReplaceFields(old(notes), old(editNoteId).value, fields) && editNoteId == None)
        && (!CursorActive(old(editNoteId)) ==> editNoteId == old(editNoteId))
        && storage == old(storage)[NotesKey := NoteList(notes)]
    {
      var title := Trim(titleInput);
      var content := Trim(contentInput);
      if title == "" && content == "" {
        return;
      }
      if CursorActive(editNoteId) {
        notes := ReplaceFields(notes, editNoteId.value, NoteFields(title, content));
        editNoteId := None;
      } else {
        notes := notes + [Record(now, NoteFields(title, content))];
      }
      SaveNotes();
    }

    /** `editNote(id)`: returns the first matching note's fields (what the
        handler copies into the form) and points the cursor at `id`. The
        source dereferences `undefined` for an unknown id, hence the
        precondition. */
    method EditNote(id: int) returns (title: string, content: string)
      requires Valid()
      requires HasId(notes, id)
      modifies this`editNoteId
      ensures Valid()
      ensures editNoteId == Some(id)
      ensures var k := FindFirst(notes, id).value;
        title == notes[k].fields.title && content == notes[k].fields.content
    {
      var k := FindFirst(notes, id).value;
      title := notes[k].fields.title;
      content := notes[k].fields.content;
      editNoteId := Some(id);
    }

    /** `deleteNote(id)`: drops every note with that id and always saves. */
    method DeleteNote(id: int)
      requires Valid()
      modifies this`notes, this`storage
      ensures Valid()
      ensures notes == RemoveId(old(notes), id)
      ensures storage == old(storage)[NotesKey := NoteList(notes)]
    {
      notes := RemoveId(notes, id);
      SaveNotes();
    }

    // ---------- links ----------

    /** `addLink()`: rejected when the trimmed URL is blank; the title is the
        trimmed title, or the trimmed URL when the title is blank. */
    method AddLink(titleInput: string, urlInput: string, now: int)
      requires Valid()
      modifies this`links, this`storage
      ensures Valid()
      ensures Trim(urlInput) == "" ==> links == old(links) && storage == old(storage)
      ensures Trim(urlInput) != "" ==>
        var title := if Trim(titleInput) == "" then Trim(urlInput) else Trim(titleInput);
        && links == old(links) + [Record(now, LinkFields(title, Trim(urlInput)))]
        && storage == old(storage)[LinksKey := LinkList(links)]
      ensures UniqueIds(old(links)) && IdsBelow(old(links), now) ==> UniqueIds(links)
    {
      if UniqueIds(links) && IdsBelow(links, now) {
        AppendLaterIdKeepsUnique(links, Record(now, LinkFields(if Trim(titleInput) != "" then Trim(titleInput) else Trim(urlInput), Trim(urlInput))));
      }
      var url := Trim(urlInput);
      if url == "" {
        return;
      }
      var title := if Trim(titleInput) != "" then Trim(titleInput) else url;
      links := links + [Record(now, LinkFields(title, url))];
      SaveLinks();
    }

    /** `deleteLink(id)`: drops every link with that id and always saves. */
    method DeleteLink(id: int)
      requires Valid()
      modifies this`links, this`storage
      ensures Valid()
      ensures links == RemoveId(old(links), id)
      ensures storage == old(storage)[LinksKey := LinkList(links)]
    {
      links := RemoveId(links, id);
      SaveLinks();
    }

    // ---------- images ----------

    /** `addImage()`: rejected when the trimmed URL is blank; the caption is
        the trimmed caption, which is `""` when blank. */
    method AddImage(urlInput: string, captionInput: string, now: int)
      requires Valid()
      modifies this`images, this`storage
      ensures Valid()
      ensures Trim(urlInput) == "" ==> images == old(images) && storage == old(storage)
      ensures Trim(urlInput) != "" ==>
        && images == old(images) + [Record(now, ImageFields(Trim(urlInput), Trim(captionInput)))]
        && storage == old(storage)[ImagesKey := ImageList(images)]
      ensures UniqueIds(old(images)) && IdsBelow(old(images), now) ==> UniqueIds(images)
    {
      if UniqueIds(images) && IdsBelow(images, now) {
        AppendLaterIdKeepsUnique(images, Record(now, ImageFields(Trim(urlInput), if Trim(captionInput) != "" then Trim(captionInput) else "")));
      }
      var url := Trim(urlInput);
      if url == "" {
        return;
      }
      var caption := if Trim(captionInput) != "" then Trim(captionInput) else "";
      images := images + [Record(now, ImageFields(url, caption))];
      SaveImages();
    }

    /** `deleteImage(id)`: drops every image with that id and always saves. */
    method DeleteImage(id: int)
      requires Valid()
      modifies this`images, this`storage
      ensures Valid()
      ensures images == RemoveId(old(images), id)
      ensures storage == old(storage)[ImagesKey := ImageList(images)]
    {
      images := RemoveId(images, id);
      SaveImages();
    }
  }
}
