/** The browser's `localStorage` as the handlers use it: fixed keys, each
    holding one whole panel list or one preference string. The JSON text
    encoding of the lists is abstracted away: a list key holds the list. */
module Storage {
  import opened Records

  datatype Stored =
    | TodoList(todos: seq<Todo>)
    | NoteList(notes: seq<Note>)
    | LinkList(links: seq<Link>)
    | ImageList(images: seq<Image>)
    | Text(text: string)

  /** The seven `STORAGE_KEYS` entries. */
  datatype Key = TodosKey | NotesKey | LinksKey | ImagesKey | ThemeKey | ActiveTabKey | AvatarKey

  /** The string each key is stored under; all seven share the page's
      `pph_` prefix. */
  function KeyName(k: Key): (name: string)
    ensures |name| > 4 && name[..4] == "pph_"
  {
    match k
    case TodosKey => "pph_todos"
    case NotesKey => "pph_notes"
    case LinksKey => "pph_links"
    case ImagesKey => "pph_images"
    case ThemeKey => "pph_theme"
    case ActiveTabKey => "pph_active_tab"
    case AvatarKey => "pph_avatar"
  }

  /** Different keys are stored under different strings, so a store indexed
      by `Key` is the browser store restricted to these seven strings. */
  lemma KeyNamesDistinct(a: Key, b: Key)
    requires a != b
    ensures KeyName(a) != KeyName(b)
  {
  }

  type Store = map<Key, Stored>

  /** Every key holds a value of the shape its reader expects. Malformed
      JSON under a list key makes `JSON.parse` throw, and a truthy non-array
      value breaks the handlers that call array methods on it; neither is
      recovered from. (Falsy JSON such as `null` or `0` would fall back to
      `[]`; this predicate excludes those values too.) */
  ghost predicate WellShaped(st: Store)
  {
    && (TodosKey in st ==> st[TodosKey].TodoList?)
    && (NotesKey in st ==> st[NotesKey].NoteList?)
    && (LinksKey in st ==> st[LinksKey].LinkList?)
    && (ImagesKey in st ==> st[ImagesKey].ImageList?)
    && (ThemeKey in st ==> st[ThemeKey].Text?)
    && (ActiveTabKey in st ==> st[ActiveTabKey].Text?)
    && (AvatarKey in st ==> st[AvatarKey].Text?)
  }

  /** `JSON.parse(localStorage.getItem(key)) || []` for each list key: the
      saved list, or the empty list when nothing is saved. */
  function LoadTodos(st: Store): (r: seq<Todo>)
    ensures TodosKey !in st ==> r == []
    ensures WellShaped(st) && TodosKey in st ==> r == st[TodosKey].todos
  {
    if TodosKey in st && st[TodosKey].TodoList? then st[TodosKey].todos else []
  }

  function LoadNotes(st: Store): (r: seq<Note>)
    ensures NotesKey !in st ==> r == []
    ensures WellShaped(st) && NotesKey in st ==> r == st[NotesKey].notes
  {
    if NotesKey in st && st[NotesKey].NoteList? then st[NotesKey].notes else []
  }

  function LoadLinks(st: Store): (r: seq<Link>)
    ensures LinksKey !in st ==> r == []
    ensures WellShaped(st) && LinksKey in st ==> r == st[LinksKey].links
  {
    if LinksKey in st && st[LinksKey].LinkList? then st[LinksKey].links else []
  }

  function LoadImages(st: Store): (r: seq<Image>)
    ensures ImagesKey !in st ==> r == []
    ensures WellShaped(st) && ImagesKey in st ==> r == st[ImagesKey].images
  {
    if ImagesKey in st && st[ImagesKey].ImageList? then st[ImagesKey].images else []
  }

  /** `localStorage.getItem(key)` for a preference key; `None` is `null`. */
  function GetText(st: Store, key: Key): (r: Option<string>)
    ensures r.Some? ==> key in st
  {
    if key in st && st[key].Text? then Some(st[key].text) else None
  }

  /** `getItem` gives back exactly the string saved under the key, and
      `null` when the key holds no string. */
  lemma GetTextSaved(st: Store, key: Key)
    ensures GetText(st, key).Some? <==> key in st && st[key].Text?
    ensures GetText(st, key).Some? ==> st[key] == Text(GetText(st, key).value)
    ensures WellShaped(st) && key in st && key in {ThemeKey, ActiveTabKey, AvatarKey} ==> GetText(st, key).Some?
  {
  }

  /** `setItem(key, v)` for `Some(v)`, `removeItem(key)` for `None`. */
  function PutText(st: Store, key: Key, v: Option<string>): (st': Store)
    ensures GetText(st', key) == v
    ensures forall k :: k != key ==> (k in st' <==> k in st) && (k in st ==> st'[k] == st[k])
  {
    match v
    case Some(t) => st[key := Text(t)]
    case None => st - {key}
  }

  /** A list written with `save*` reads back unchanged, and writing one key
      leaves what every other key reads back untouched. */
  lemma SaveLoadRoundTrip(st: Store, todos: seq<Todo>, notes: seq<Note>, links: seq<Link>, images: seq<Image>)
    ensures LoadTodos(st[TodosKey := TodoList(todos)]) == todos
    ensures LoadNotes(st[NotesKey := NoteList(notes)]) == notes
    ensures LoadLinks(st[LinksKey := LinkList(links)]) == links
    ensures LoadImages(st[ImagesKey := ImageList(images)]) == images
    ensures var st' := st[TodosKey := TodoList(todos)];
      LoadNotes(st') == LoadNotes(st) && LoadLinks(st') == LoadLinks(st) && LoadImages(st') == LoadImages(st)
    ensures var st' := st[NotesKey := NoteList(notes)];
      LoadTodos(st') == LoadTodos(st) && LoadLinks(st') == LoadLinks(st) && LoadImages(st') == LoadImages(st)
    ensures var st' := st[LinksKey := LinkList(links)];
      LoadTodos(st') == LoadTodos(st) && LoadNotes(st') == LoadNotes(st) && LoadImages(st') == LoadImages(st)
    ensures var st' := st[ImagesKey := ImageList(images)];
      LoadTodos(st') == LoadTodos(st) && LoadNotes(st') == LoadNotes(st) && LoadLinks(st') == LoadLinks(st)
  {
  }
}
