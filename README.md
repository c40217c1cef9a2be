# Notebook note store, modelled in Dafny

The notebook is a small tkinter application (`INST326_Project2.py`). A main
window keeps an ordered list of notes. A note form appends one note to that
list. "Open Notebook" appends the notes of a text file, six lines per note.
"Save Notebook" writes every note back as six prefixed lines. After each
change the window rebuilds a grid of preview buttons, three per row.

This project models that note store without the widgets:

- `py_text.dfy` (module `PyText`): the Python behaviour the store relies on.
  This is `str.strip()` with Python's whitespace set, and `readlines()` on a
  file opened in text mode, with universal newlines: "\r\n" and "\r" read as
  "\n", and each line keeps its "\n". It also holds the text a writer produces
  when it ends every line with "\n".
- `note_format.dfy` (module `NoteFormat`): the `MakeNote` record, the six-line
  record the saver writes, the loader's six-line groups, and the save-then-load
  lemmas.
- `preview.dfy` (module `Preview`): the 30-character preview text, the label,
  and the grid arithmetic `row = i // 3`, `column = i % 3`,
  `num_rows = (n + 2) // 3`.
- `notebook.dfy` (module `Notebook`): the shared Python list (`NoteList`),
  `MainWindow` with `OpenNotebook`, `SaveNotebook`, `UpdateNotePreview` and
  `NewNote`, and `NoteForm.Submit`. The window and each form it opens hold the
  same `NoteList` object, as they share one list object in the program.

The clock, the file dialogs and the files are parameters and results:

- A clock reading is a `Stamp`: the text of the aware `datetime` and of its
  `tzinfo`, as the saver prints them. `Submit` takes one reading.
  `OpenNotebook` takes `clock: nat -> Stamp`; the note built from group `j`
  of the file gets `clock(j)`.
- The open dialog is an `Option<string>`: `None` when it is cancelled,
  otherwise the contents of the chosen file. The save dialog is a `bool`.
  `SaveNotebook` returns the new contents of the chosen file.

The model follows the code, including three behaviours a reader may not
expect:

- A file whose line count is not a multiple of six is not silently
  truncated. The loop reads `lines[i + 1]` to `lines[i + 5]` of the short
  last group and raises `IndexError`. The notes of the complete groups before
  it are already in the list, and the previews are not rebuilt.
  `MainWindow.OpenNotebook` returns `IndexError` in that case.
- A loaded note's `created_at` and `zone` are not taken from the file.
  `MakeNote` reads the clock and never looks at the "created_at" and
  "timezone" entries. Those two lines survive only inside the dictionary that
  the note keeps (`note_dict`).
- Save followed by load is not the identity. The saver writes "Title: ",
  "Links: ", "Tags: " and "Created At: " in front of four fields, and the
  loader does not remove them. Every round trip adds one more prefix
  (`NoteFormat.TitlePrefixAccumulates`).

## Model

| member | source | states |
|---|---|---|
| `PyText.Strip` | INST326_Project2.py:46-51 | `str.strip()`: left-strip, then right-strip; its properties are the lemmas below |
| `PyText.StripLeftSpec` | INST326_Project2.py:46-51 | the left half of `strip()`: it keeps the longest suffix that does not start with whitespace, and everything it drops is whitespace |
| `PyText.StripRightSpec` | INST326_Project2.py:46-51 | the right half of `strip()`: it keeps the longest prefix that does not end with whitespace, and everything it drops is whitespace |
| `PyText.StripSpec` | INST326_Project2.py:46-51 | `strip()` returns an unchanged stretch of the line that neither starts nor ends with whitespace, with only whitespace around it |
| `PyText.StripEdgeFree` | INST326_Project2.py:46-51 | a line with no whitespace at either end is its own strip |
| `PyText.StripIdempotent` | INST326_Project2.py:46-51 | stripping twice is the same as stripping once |
| `PyText.StripLeftAppend` | INST326_Project2.py:46-51 | left-stripping `s + t` only reaches into `t` when `s` is all whitespace |
| `PyText.StripRightTrailingSpaces` | INST326_Project2.py:46-51 | right-stripping ignores any whitespace appended to the string |
| `PyText.StripTrailingSpace` | INST326_Project2.py:46-51 | a trailing whitespace character, such as the "\n" that `readlines` keeps, does not change the strip |
| `PyText.StripTerminatedLine` | INST326_Project2.py:46-51 | a line read with its "\n" strips to its content when that content has no whitespace at either end |
| `PyText.TranslateNewlines` | INST326_Project2.py:42-43 | universal-newline translation of text-mode reading; its properties are the lemmas below |
| `PyText.TranslateNewlinesSpec` | INST326_Project2.py:42-43 | text-mode reading leaves no "\r", and changes nothing in text that has no "\r" |
| `PyText.TranslateNewlineHead` | INST326_Project2.py:42-43 | a leading "\n", "\r\n" or lone "\r" reads as one "\n" |
| `PyText.TranslateSingleLine` | INST326_Project2.py:42-43 | a single line passes through text-mode reading unchanged |
| `PyText.TranslateLine` | INST326_Project2.py:42-43 | a single line followed by "\n", "\r\n" or "\r" reads as the line followed by "\n" |
| `PyText.TranslateWrittenLines` | INST326_Project2.py:42-43 | lines written with "\r\n" or "\r" line ends translate to the text of the same lines written with "\n" |
| `PyText.FirstLineLength` | INST326_Project2.py:43 | the first line read runs up to and including the first "\n", or to the end of the text when there is none |
| `PyText.SplitLines` | INST326_Project2.py:43 | `readlines` loses nothing: joining its lines gives the text back, and no line is empty |
| `PyText.SplitLinesBreaks` | INST326_Project2.py:43 | each line is cut right after a "\n": no line holds a "\n" before its last character, and every line but the last ends with "\n" |
| `PyText.ReadLines` | INST326_Project2.py:42-43 | `readlines` on a file opened in text mode: universal-newline translation, then splitting after each "\n" |
| `PyText.WriteLines` | INST326_Project2.py:60-62 | the text written when every line is followed by the given line end |
| `PyText.JoinLines` | INST326_Project2.py:60-62 | the text written when every line is followed by "\n" |
| `PyText.JoinLinesAppend` | INST326_Project2.py:60-62 | writing one list of lines and then another gives the text of the two lists joined |
| `PyText.FirstLineOfJoined` | INST326_Project2.py:43 | the first line read from `l + "\n" + rest` is exactly `l` with its "\n" when `l` contains no "\n" |
| `PyText.SplitJoinedLines` | INST326_Project2.py:43 | splitting text written from lines without "\n" gives each written line back with its "\n", in order |
| `PyText.ReadWrittenLines` | INST326_Project2.py:42-43 | reading back a file written from lines without line breaks gives those lines, each with "\n", whichever of "\n", "\r\n" or "\r" the writer put after each line |
| `NoteFormat.MakeNote` | INST326_Project2.py:161-168 | a note keeps its dictionary and copies its title, text, links and tags; its creation time and zone are a clock reading |
| `NoteFormat.MakeNoteIgnoresStoredStamp` | INST326_Project2.py:161-168 | whatever the dictionary holds under "created_at" and "timezone", a note's four text fields are the dictionary's, and its creation time and zone are the clock's |
| `NoteFormat.RecordLines` | INST326_Project2.py:62 | the saver writes exactly six lines per note |
| `NoteFormat.Record` | INST326_Project2.py:62 | the one `write` for a note: its six record lines, each ended by "\n" |
| `NoteFormat.SaveText` | INST326_Project2.py:60-62 | the whole saved file: the notes' records in list order |
| `NoteFormat.SaveLines` | INST326_Project2.py:61-62 | the saved file has exactly six lines per note |
| `NoteFormat.SaveLinesAt` | INST326_Project2.py:61-62 | line `6j + k` of the saved file is line `k` of note `j`'s record: title, text, links, tags, creation time and zone, in list order with no separators |
| `NoteFormat.SaveTextIsJoinedLines` | INST326_Project2.py:60-62 | the saved text is the saved lines, each ended by "\n" |
| `NoteFormat.GroupDict` | INST326_Project2.py:54 | the loader's dictionary holds the four keys `MakeNote` looks up, plus "created_at" and "timezone" |
| `NoteFormat.LoadedNotes` | INST326_Project2.py:45-54 | the first `k` complete groups give exactly `k` notes, and each keeps a dictionary with all six keys |
| `NoteFormat.Parsed` | INST326_Project2.py:45 | a file of `n` lines gives exactly `n / 6` notes (rounded down) |
| `NoteFormat.GroupCount` | INST326_Project2.py:45 | when the loop stops at a short group, the complete groups read are `n / 6`, and the file is malformed exactly when lines are left over |
| `NoteFormat.LoadedNoteFields` | INST326_Project2.py:46-54 | note `j` of a load takes title, text, links and tags from lines `6j` to `6j + 3`, stripped. Lines `6j + 4` and `6j + 5` only reach its dictionary. Its creation time and zone are the clock's |
| `NoteFormat.LoadedNotesStep` | INST326_Project2.py:54 | reading one more group appends its note after those already loaded |
| `NoteFormat.ParsedIgnoresShortTail` | INST326_Project2.py:45-54 | lines after the last complete group never become a note |
| `NoteFormat.SavedLinesAreSingle` | INST326_Project2.py:62 | when no field holds a line break, no saved line holds one |
| `NoteFormat.ReadSavedFile` | INST326_Project2.py:60-62 | reading back the saved file gives the saved lines, six per note, each with its "\n" |
| `NoteFormat.ReadSavedFileAnyNewline` | INST326_Project2.py:60-62 | where the platform writes "\r\n" (or "\r") for each "\n", the saved file still reads back as the same lines |
| `NoteFormat.SavedLineReadsBack` | INST326_Project2.py:46-51 | once read back and stripped, a saved line is the stripped line of the record it came from |
| `NoteFormat.RoundTripNote` | INST326_Project2.py:46-54 | the note that a load builds from note `j`'s saved record: prefixed, stripped title, links and tags; stripped text; the clock's creation time and zone |
| `NoteFormat.SaveLoadRoundTrip` | INST326_Project2.py:60-62 | save then load, for fields without line breaks, gives as many notes in the same order. Each text is the stripped original; title, links and tags are stripped with their prefixes; creation times come from the clock |
| `NoteFormat.TitlePrefixAccumulates` | INST326_Project2.py:62 | a non-empty title without trailing whitespace comes back with "Title: " in front, seven characters longer, so each round trip adds a prefix |
| `NoteFormat.BlankTitleComesBack` | INST326_Project2.py:62 | a blank title, such as the empty one an untouched form field gives, comes back as "Title:", six characters, because the space after the colon is stripped too |
| `NoteFormat.MeetingNotesExample` | INST326_Project2.py:42-54 | a hand-written one-note file loads as one note with the four text fields of the file; the stored date and zone reach only its dictionary |
| `Preview.PreviewText` | INST326_Project2.py:74 | text of at most 30 characters is shown whole. Longer text shows its first 30 characters followed by "...", 33 characters in all |
| `Preview.PreviewBounded` | INST326_Project2.py:74 | a preview is never longer than 33 characters and always starts like the text it shows |
| `Preview.LabelText` | INST326_Project2.py:75 | a button's label: "Title: " and the title, then "Text: " and the preview, each on its own line |
| `Preview.NumRows` | INST326_Project2.py:70 | `num_rows` is the ceiling of n / 3: three times it covers `n` and falls short of `n + 3` |
| `Preview.Row` | INST326_Project2.py:77 | the `i`-th preview's row `r` has `3r <= i < 3r + 3` |
| `Preview.Column` | INST326_Project2.py:78 | the `i`-th preview's column is below 3 and, with its row, gives `i = 3 * row + column` |
| `Preview.CellInGrid` | INST326_Project2.py:68-78 | each of `n` previews is in a row below `num_rows` and a column below 3 |
| `Preview.NumRowsTight` | INST326_Project2.py:70 | `num_rows` is the fewest rows that hold the previews: the last preview is on the last row |
| `Preview.CellsDistinct` | INST326_Project2.py:77-78 | two different previews never share a grid cell |
| `Preview.Previews` | INST326_Project2.py:73-79 | one preview button per note |
| `Preview.PreviewsLayout` | INST326_Project2.py:73-80 | button `i` shows and opens note `i`, every button fits the `num_rows` by 3 grid, and no two buttons share a cell |
| `Notebook.NoteList.constructor` | INST326_Project2.py:19 | the note list starts empty |
| `Notebook.NoteList.Append` | INST326_Project2.py:54 | appending puts the note at the end and leaves the earlier notes as they were |
| `Notebook.MainWindow.constructor` | INST326_Project2.py:13-19 | a new window owns a fresh, empty note list |
| `Notebook.MainWindow.NewNote` | INST326_Project2.py:36-37 | the new form appends to the window's own list, and opening it changes no note |
| `Notebook.MainWindow.OpenNotebook` | INST326_Project2.py:39-55 | a cancelled dialog changes nothing. Otherwise the notes of every complete group are appended in file order after the existing ones. The previews are rebuilt when the line count is a multiple of 6, and `IndexError` is returned otherwise |
| `Notebook.MainWindow.SaveNotebook` | INST326_Project2.py:57-62 | a cancelled dialog writes nothing. Otherwise the file's new contents are the records of all notes, in list order |
| `Notebook.MainWindow.UpdateNotePreview` | INST326_Project2.py:64-80 | one button per note in list order, `num_rows` is the ceiling of n / 3, and every button is inside that grid |
| `Notebook.NoteForm.constructor` | INST326_Project2.py:99-103 | the form keeps its main window and the list it was given |
| `Notebook.NoteForm.Submit` | INST326_Project2.py:136-153 | the list grows by exactly one note at its end. The earlier notes are unchanged. The new note holds the four entered strings and the clock's time and zone. The window's previews are rebuilt |

## Left out

- The tkinter windows, widgets, layout, `grid` calls and event bindings. This
  covers `MainWindow.__init__` beyond the list, `NoteForm.__init__` beyond its
  references, the preview buttons' click binding and `display_notes`. They
  are presentation only. A preview button keeps the note it opens, as `Button.note`.
- The destruction of the old preview widgets and of the note form after
  "Submit". The model keeps only the buttons that are laid out.
- The file dialogs and real file I/O. The open dialog's result is the file's
  contents or `None`; the save dialog is a `bool`, and the written text is
  returned. Errors of the file system and of decoding are not modelled.
- On a platform whose line separator is "\r\n", text-mode writing turns each
  "\n" into "\r\n". `SaveNotebook` returns the text with "\n";
  `NoteFormat.ReadSavedFileAnyNewline` proves that the translated file reads
  back as the same lines.
- `datetime.now()`, `astimezone()` and `tzinfo`. The clock is a parameter
  whose readings are the printed text of the time and the zone. `MakeNote`
  reads the clock twice, once for `created_at` and once for `zone`; the model
  takes both from one reading.
- The unused `notebook` list, the unused `meta` string built in `submit`,
  `num_lines` in `open_notebook`, and `self.note_dict` beyond what it holds.
  They have no observable effect.
- `NoteFormat.MakeNote`: it requires the four keys `title`, `text`, `links`
  and `tags` instead of modelling the `KeyError` of a missing key. Both
  callers always supply all four.
- The dictionary keys are the six constructors of `NoteFormat.Key` rather
  than strings. Only those six keys are ever used.
- `Notebook.MainWindow.OpenNotebook`: the model does not say which of
  `lines[i + 1]` to `lines[i + 5]` raises the `IndexError`. Nothing observable
  happens between those reads.
