/** What the four `render*` functions display, as values: one row per record
    in list order, the display fallbacks, and the "empty" indicator. HTML
    markup and escaping are not part of this model. */
module View {
  import opened Records

  /** A rendered panel: its rows and whether its "empty" message is shown. */
  datatype Panel<R> = Panel(rows: seq<R>, emptyShown: bool)

  datatype TodoRow = TodoRow(id: int, text: string, checked: bool)
  datatype NoteCard = NoteCard(id: int, title: string, content: string)
  datatype LinkRow = LinkRow(id: int, href: string, text: string)
  datatype ImageTile = ImageTile(id: int, src: string, alt: string, caption: string)

  /** `n.title || "Untitled"`: a card never shows an empty title. */
  function NoteTitle(n: Note): (t: string)
    ensures t != ""
    ensures n.fields.title != "" ==> t == n.fields.title
    ensures n.fields.title == "" ==> t == "Untitled"
  {
    if n.fields.title != "" then n.fields.title else "Untitled"
  }

  /** `img.caption || 'Image'`: the alternative text is never empty. */
  function ImageAlt(img: Image): (t: string)
    ensures t != ""
    ensures img.fields.caption != "" ==> t == img.fields.caption
    ensures img.fields.caption == "" ==> t == "Image"
  {
    if img.fields.caption != "" then img.fields.caption else "Image"
  }

  function TodoRowOf(t: Todo): TodoRow
  {
    TodoRow(t.id, t.fields.text, t.fields.completed)
  }

  function NoteCardOf(n: Note): NoteCard
  {
    NoteCard(n.id, NoteTitle(n), n.fields.content)
  }

  function LinkRowOf(l: Link): LinkRow
  {
    LinkRow(l.id, l.fields.url, l.fields.title)
  }

  function ImageTileOf(img: Image): ImageTile
  {
    ImageTile(img.id, img.fields.url, ImageAlt(img), img.fields.caption)
  }

  /** `list.forEach(r => append(draw(r)))` after clearing the container: one
      row per record, in the same order. */
  function Rows<F, R>(xs: seq<Record<F>>, draw: Record<F> -> R): (rows: seq<R>)
    ensures |rows| == |xs|
    ensures forall k :: 0 <= k < |xs| ==> rows[k] == draw(xs[k])
  {
    if xs == [] then [] else [draw(xs[0])] + Rows(xs[1..], draw)
  }

  /** A panel with the "empty" message shown exactly when the list is empty
      (`emptyMsg.style.display = list.length ? "none" : "block"`). */
  function Render<F, R>(xs: seq<Record<F>>, draw: Record<F> -> R): (p: Panel<R>)
    ensures p.emptyShown <==> xs == []
    ensures p.emptyShown <==> p.rows == []
    ensures |p.rows| == |xs| && p.rows == Rows(xs, draw)
  {
    Panel(Rows(xs, draw), |xs| == 0)
  }

  /** `renderTodos()`: one row per todo, checked exactly when it is done. */
  function RenderTodos(todos: seq<Todo>): (p: Panel<TodoRow>)
    ensures p.emptyShown <==> todos == []
    ensures |p.rows| == |todos|
    ensures forall k :: 0 <= k < |todos| ==>
      p.rows[k] == TodoRow(todos[k].id, todos[k].fields.text, todos[k].fields.completed)
  {
    Render(todos, TodoRowOf)
  }

  /** `renderNotes()`: one card per note, showing its id, its content and
      its title or "Untitled". */
  function RenderNotes(notes: seq<Note>): (p: Panel<NoteCard>)
    ensures p.emptyShown <==> notes == []
    ensures |p.rows| == |notes|
    ensures forall k :: 0 <= k < |notes| ==>
      && p.rows[k].id == notes[k].id && p.rows[k].content == notes[k].fields.content
      && p.rows[k].title == (if notes[k].fields.title == "" then "Untitled" else notes[k].fields.title)
  {
    Render(notes, NoteCardOf)
  }

  /** `renderLinks()`: one anchor per link, pointing at its URL and labelled
      with its title. */
  function RenderLinks(links: seq<Link>): (p: Panel<LinkRow>)
    ensures p.emptyShown <==> links == []
    ensures |p.rows| == |links|
    ensures forall k :: 0 <= k < |links| ==>
      p.rows[k] == LinkRow(links[k].id, links[k].fields.url, links[k].fields.title)
  {
    Render(links, LinkRowOf)
  }

  /** `renderImages()`: one tile per image, with its URL, its caption, and
      the caption or "Image" as alternative text. */
  function RenderImages(images: seq<Image>): (p: Panel<ImageTile>)
    ensures p.emptyShown <==> images == []
    ensures |p.rows| == |images|
    ensures forall k :: 0 <= k < |images| ==>
      && p.rows[k].id == images[k].id && p.rows[k].src == images[k].fields.url
      && p.rows[k].caption == images[k].fields.caption
      && p.rows[k].alt == (if images[k].fields.caption == "" then "Image" else images[k].fields.caption)
  {
    Render(images, ImageTileOf)
  }
}
