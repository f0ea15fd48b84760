# Productivity Hub — state model in Dafny

Productivity Hub is a single-page browser widget with four list panels (to-dos,
notes, links, images) and three preferences (light/dark theme, active tab,
avatar image). All of its logic lives in `script.js`. Each handler mutates one
module-level list, or the note edit cursor `editNoteId`, and then mirrors the
whole list into `localStorage`.

This project models that state and its handlers:

- `Hub.Hub` is a class with one field per piece of module-level state: `todos`, `notes`, `links`, `images`, `editNoteId`, the theme flag and its button label, the active tab, the avatar `src`, and `storage` (an abstract `localStorage`).
- Every handler is a method. Form values arrive as strings that have already been read, `Date.now()` arrives as the parameter `now`, and the avatar prompt's answer arrives as an `Option`.
- The invariant `Valid()` says the saved copy mirrors memory. Each list reads back from storage exactly as held. The theme flag is what a reload would restore, and the label matches it. A saved avatar is a non-blank URL and is the one shown. The active tab, once set, is the saved one. Every handler keeps `Valid()`.
- The callbacks the handlers pass to `filter`, `find` and `map` are pure functions in `Records`. `String.prototype.trim` is a pure function in `Text`, using the ECMAScript whitespace set. The display fallbacks and the "empty" indicator are in `View`. The theme and avatar decisions are in `Prefs`.
- Storage keys are a datatype `Storage.Key`. `KeyName` gives the `pph_*` string each key is stored under, and `KeyNamesDistinct` shows that different keys get different strings. A list key holds the list itself. The JSON text in between is abstracted away.

Behaviour of the code that the model keeps, and that a reader might not expect:

- `addTodo`, `addLink` and `addImage` reject input that is blank after trimming, and then write nothing. `addNote` is rejected only when both trimmed fields are blank.
- `toggleTodo` flips only the first record with the id. It writes only if some record matched.
- Every `delete*` removes all records carrying the id, and it always writes, even when nothing matched.
- Ids are never checked for uniqueness.
- `addNote` with a cursor replaces the fields of every note with that id and clears the cursor. It writes even when no note matched.
- The cursor is tested by JavaScript truthiness (`if (editNoteId)`). A cursor of `0` therefore counts as no cursor: the note is appended and the cursor stays as it is (`Hub.CursorActive`).
- `setAvatar` saves a non-blank URL verbatim, without trimming it.
- `loadAvatar` treats a saved empty string like a missing value, and then saves the default URL. A saved value made only of whitespace is removed instead.
- On restore, the theme is light only when the saved value is exactly `"light"`. Restoring writes nothing.

Behaviour a reader of the data model might not expect:

- Delete removes every record with the id, not exactly one. `Records.RemoveIdUniqueLength` shows that it removes exactly one only when ids are unique.
- Malformed saved data makes `JSON.parse` throw; only a missing key (or falsy JSON) falls back to an empty list. The model therefore requires well-shaped storage at start-up (`Storage.WellShaped`).
- A note edit whose id is gone still saves and clears the cursor.
- Ids are guaranteed unique when `Date.now()` is strictly increasing between adds to the same list. `AddTodo`, `AddLink` and `AddImage` state, and `Hub.AddNoteKeepsUnique` shows for notes, that an id later than every existing id keeps them unique.

## Model

| member | source | states |
|---|---|---|
| Text.IsWhitespace | script.js:152 | the code points `trim` strips: ECMAScript WhiteSpace and LineTerminator |
| Text.AsciiWhitespace | script.js:152 | among ASCII characters, `trim` strips exactly space and tab through carriage return |
| Text.Trim | script.js:152 | `trim` never lengthens its input; what it returns is characterised by the lemmas below |
| Text.TrimStart | script.js:152 | the result is the longest suffix not starting with whitespace; everything dropped is whitespace |
| Text.TrimEnd | script.js:152 | the result is the longest prefix not ending with whitespace; everything dropped is whitespace |
| Text.TrimFromEnds | script.js:152 | `trim` (stripping either end in any order) equals stripping the front and then the back |
| Text.TrimSlice | script.js:154 | the trimmed value is the contiguous slice of the input starting after its leading whitespace |
| Text.TrimOutside | script.js:154 | only whitespace lies outside the trimmed slice |
| Text.TrimUntrimmable | script.js:203-204 | a trimmed value has no whitespace at either end |
| Text.TrimEmptyIff | script.js:152 | the handlers' blank test (`!value.trim()`) holds exactly when the input is all whitespace |
| Text.TrimIdempotent | script.js:203-205 | trimming an already trimmed value changes nothing |
| Records.FindFirst | script.js:161 | `find` by id yields the first position holding that id, and nothing exactly when no record has it |
| Records.RemoveId | script.js:170 | `filter` by id leaves no record with that id, never lengthens the list, and is the identity when the id is absent |
| Records.RemoveIdKeepsOthers | script.js:170 | `filter` by id adds no record and keeps every record whose id differs |
| Records.RemoveIdAppend | script.js:169-173 | deleting preserves the relative order of the survivors (distributes over concatenation) |
| Records.RemoveIdUniqueLength | script.js:169-173 | with unique ids, a delete shortens the list by one if the id is present and by none otherwise |
| Records.AddThenRemove | script.js:154 | appending a record under a fresh id and then deleting that id restores the list |
| Records.AppendLaterIdKeepsUnique | script.js:154 | an id later than every existing id (`Date.now()` on a strictly increasing clock) keeps ids unique |
| Records.Toggled | script.js:160-167 | toggling flips `completed` on the first match only, keeps its text, every id and every other record; no match means no change |
| Records.FindFirstByIds | script.js:161 | lists with the same ids agree on `find` |
| Records.ToggleTwice | script.js:163 | toggling the same id twice restores the list |
| Records.ReplaceFields | script.js:208-210 | the edit `map` gives every record with the id the new fields and keeps length, ids, positions and all other records |
| Records.ReplaceFieldsIdempotent | script.js:208-210 | applying the same edit twice equals applying it once |
| Records.ReplaceFieldsKeepsUnique | script.js:208-210 | an edit keeps every id in place, so unique ids stay unique |
| Records.ReplaceFieldsMissing | script.js:207-211 | an edit whose id is in no record leaves the list unchanged (nothing is added) |
| Storage.KeyName | script.js:2-10 | the string each storage key is saved under; all carry the `pph_` prefix |
| Storage.KeyNamesDistinct | script.js:2-10 | the seven storage keys are pairwise different strings |
| Storage.GetText | script.js:61 | `getItem` on a preference key yields a string only when something is saved under that key |
| Storage.GetTextSaved | script.js:61 | `getItem` yields exactly the string saved under the key, and `None` (`null`) when no string is saved; in well-shaped storage a saved preference key always yields its string |
| Storage.PutText | script.js:50 | `setItem`/`removeItem` on a preference key reads back as written and leaves every other key alone |
| Storage.LoadTodos | script.js:13 | start-up reads the saved to-do list, or `[]` when nothing is saved |
| Storage.LoadNotes | script.js:14 | start-up reads the saved notes, or `[]` when nothing is saved |
| Storage.LoadLinks | script.js:15 | start-up reads the saved links, or `[]` when nothing is saved |
| Storage.LoadImages | script.js:16 | start-up reads the saved images, or `[]` when nothing is saved |
| Storage.SaveLoadRoundTrip | script.js:13-37 | a list written by a save helper reads back unchanged at start-up, and writing one list key leaves the others' read-back unchanged |
| Prefs.ThemeValue | script.js:114 | the toggle saves `"light"` exactly when the new theme is light and `"dark"` exactly when it is dark |
| Prefs.ThemeLabel | script.js:108 | the toggle's glyph names the other theme, as `<theme>_mode` |
| Prefs.RestoresLight | script.js:104-108 | restore yields light exactly for a saved `"light"`; absence means dark |
| Prefs.ThemeRoundTrip | script.js:104-115 | the theme the toggle saves is the one restored, and the label names the opposite of the restored theme |
| Prefs.SetAvatarEffect | script.js:42-58 | a non-blank URL is shown and saved verbatim; a blank one shows the default and removes the saved value |
| Prefs.AvatarToLoad | script.js:61-67 | `loadAvatar` passes on a saved non-empty value, and the default URL when nothing or `""` is saved; never an empty URL |
| Prefs.DefaultAvatarNotBlank | script.js:40 | the built-in avatar URL is not blank |
| Prefs.LoadAvatarOutcome | script.js:60-68 | loading keeps a saved non-blank URL, saves the default when nothing or `""` is saved, and removes a saved all-whitespace value |
| Prefs.AvatarSurvivesReload | script.js:46-67 | the avatar shown after a reload is the one shown before it |
| Prefs.PromptEffect | script.js:89-99 | a cancelled prompt keeps the avatar; any answer acts as `setAvatar(answer)` (a blank answer as `setAvatar("")`) |
| View.NoteTitle | script.js:244 | a note card's title is the note's title, or "Untitled" when that is empty; never empty |
| View.ImageAlt | script.js:333 | an image's alternative text is its caption, or "Image" when that is empty; never empty |
| View.Rows | script.js:181-191 | rendering draws one row per record, in list order |
| View.Render | script.js:193-196 | the "empty" indicator is shown exactly when the list is empty, which is exactly when no row is drawn; the rows are those `Rows` draws |
| View.RenderTodos | script.js:175-197 | one row per todo in order, with its id and text, checked exactly when it is completed; "empty" exactly when there are none |
| View.RenderNotes | script.js:235-258 | one card per note in order, with its id, its content, and its title or "Untitled"; "empty" exactly when there are none |
| View.RenderLinks | script.js:282-300 | one anchor per link in order, pointing at its URL and showing its title; "empty" exactly when there are none |
| View.RenderImages | script.js:324-346 | one tile per image in order, with its URL, its caption, and the caption or "Image" as alternative text; "empty" exactly when there are none |
| Hub.CursorActive | script.js:207 | `if (editNoteId)`: no cursor and a cursor of `0` are inactive; any other id is active |
| Hub.NotesAfterAdd | script.js:207-216 | an accepted note under an active cursor keeps every id in place; otherwise it is appended at the end |
| Hub.AddNoteKeepsUnique | script.js:200-220 | an accepted note keeps ids unique when `now` is later than every existing id |
| Hub.Hub.constructor | script.js:12-17 | each list is what storage holds under its key, or empty; no edit cursor; the lists mirror storage |
| Hub.Hub.OnReady | script.js:71-126 | start-up applies `loadAvatar`, restores the theme without writing, and restores a saved non-empty tab whose button exists; establishes `Valid()` |
| Hub.Hub.SaveTodos | script.js:23-25 | the to-do key holds exactly the in-memory list; no other key changes |
| Hub.Hub.SaveNotes | script.js:27-29 | the notes key holds exactly the in-memory list; no other key changes |
| Hub.Hub.SaveLinks | script.js:31-33 | the links key holds exactly the in-memory list; no other key changes |
| Hub.Hub.SaveImages | script.js:35-37 | the images key holds exactly the in-memory list; no other key changes |
| Hub.Hub.SetAvatar | script.js:42-58 | shown avatar and saved avatar follow `SetAvatarEffect`; the lists stay mirrored |
| Hub.Hub.LoadAvatar | script.js:60-68 | applies `setAvatar` to the saved non-empty URL, or to the default URL |
| Hub.Hub.ChangeAvatar | script.js:89-99 | a cancelled prompt changes nothing; an answer applies `setAvatar`; keeps `Valid()` |
| Hub.Hub.RestoreTheme | script.js:103-108 | the light flag becomes "saved theme is `light`", and the label matches; storage is untouched |
| Hub.Hub.ToggleTheme | script.js:110-115 | flips the light flag, sets the label, saves `"light"`/`"dark"` to match; keeps `Valid()` |
| Hub.Hub.SetActiveTab | script.js:128-143 | the given tab becomes the single active tab and is saved |
| Hub.Hub.RestoreActiveTab | script.js:118-125 | a saved non-empty tab with a matching button becomes active; storage is unchanged |
| Hub.Hub.AddTodo | script.js:150-158 | blank input: no change and no write; otherwise appends `{now, trimmed text, open}` at the end, keeps earlier records, and saves; a later `now` keeps ids unique |
| Hub.Hub.ToggleTodo | script.js:160-167 | the list becomes `Toggled`; it writes only when the id was found |
| Hub.Hub.DeleteTodo | script.js:169-173 | the list becomes `RemoveId` of the old list and is always saved |
| Hub.Hub.AddNote | script.js:200-220 | both fields blank: no change and no write; with an active cursor: `ReplaceFields` and the cursor is cleared; else append (`NotesAfterAdd`); then save |
| Hub.Hub.EditNote | script.js:222-227 | returns the first matching note's title and content and sets the cursor to the id |
| Hub.Hub.DeleteNote | script.js:229-233 | the list becomes `RemoveId` of the old list and is always saved |
| Hub.Hub.AddLink | script.js:261-274 | blank URL: no change and no write; else appends the trimmed URL with the trimmed title, or the URL when the title is blank, and saves; a later `now` keeps ids unique |
| Hub.Hub.DeleteLink | script.js:276-280 | the list becomes `RemoveId` of the old list and is always saved |
| Hub.Hub.AddImage | script.js:303-316 | blank URL: no change and no write; else appends the trimmed URL and trimmed caption (`""` when blank) and saves; a later `now` keeps ids unique |
| Hub.Hub.DeleteImage | script.js:318-322 | the list becomes `RemoveId` of the old list and is always saved |

## Left out

- HTML generation and `escapeHtml` (script.js:349-353): escaping is done by the browser's own serialisation, which this model cannot see. Rendering is modelled as the rows and the "empty" flag that a panel displays.
- The JSON encoding of the saved lists: storage holds the lists themselves. A `JSON.parse` failure on malformed data is excluded by the start-up precondition, because the code does not recover from it.
- The `|| []` fallback at script.js:13-16 is modelled only for a missing key. Falsy JSON under a list key (`null`, `false`, `0`, `""`) would also give `[]`, but `Storage.WellShaped` excludes those values.
- Storage write failures such as an exceeded quota: the source does not handle them.
- Other writers of the `pph_*` keys, such as a second tab of the same page: the source has no `storage` listener, so each tab's next save overwrites the other's list. `Valid()` assumes this page is the only writer.
- `Date.now()`: ids come in as the parameter `now`, and uniqueness is not assumed.
- Hub.Hub.EditNote: requires an existing id, because the source dereferences `undefined` for an unknown one.
- DOM plumbing: element lookups and the `!input` / `!noteTitle` guards for missing form elements (the fields are assumed present), clearing the inputs after an add, `classList`/`aria-selected`/`style.display` changes, the avatar's text placeholder, `prompt` itself, and event binding.
- The `querySelector` that matches a saved tab to a button is the parameter `savedTabHasButton`. `openTab` only forwards to `setActiveTab`.
- The calls to `render*` after each mutation, and the initial render (script.js:355-369): the `View` functions give what a render of the current lists displays. Rendering twice displays the same thing, because the views are functions of the lists.
- Hub.Hub.constructor: before the DOMContentLoaded handler runs, the theme flag, label and avatar hold placeholder values. The page's markup decides them, and `OnReady` overwrites all three.
