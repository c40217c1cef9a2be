/**
 The notebook's state and the operations behind its buttons: the main window
 owns one list of notes, every note form it opens appends to that same list,
 "Open Notebook" appends the notes read from a file, "Save Notebook" writes
 them all out, and the preview grid is rebuilt after each change. Widgets,
 dialogs and files are replaced by the values they carry.
 */
module Notebook {
  import opened PyText
  import opened NoteFormat
  import opened Preview

  /** What a file dialog leads to: `None` when the user cancels, else a value for the chosen file. */
  datatype Option<T> = None | Some(value: T)

  /** How a click on "Open Notebook" ends. */
  datatype OpenOutcome =
    | Cancelled                        // the dialog returned no path: nothing happens
    | Refreshed(buttons: seq<Button>)  // every group was loaded, then the previews were rebuilt
    | IndexError                       // a trailing group has fewer than six lines

  /** The Python list of notes; the main window and its note forms hold the same one. */
  class NoteList {
    var items: seq<Note>

    constructor ()
      ensures items == []
    {
      items := [];
    }

    /** `list.append` */
    method Append(n: Note)
      modifies this
      ensures items == old(items) + [n]
    {
      items := items + [n];
    }
  }

  class MainWindow {
    /** `self.notes`, created empty with the window and never replaced. */
    const notes: NoteList

    constructor ()
      ensures fresh(notes) && notes.items == []
    {
      notes := new NoteList();
    }

    /** "New Note": a note form that appends to this window's own list. */
    method NewNote() returns (form: NoteForm)
      ensures fresh(form) && form.master == this && form.notes == notes
      ensures notes.items == old(notes.items)
    {
      form := new NoteForm(this, notes);
    }

    /**
     "Open Notebook" on a file whose contents are `chosen.value`. Group `j` of
     six lines becomes a note while the clock reads `clock(j)`, appended after
     the notes already there. When the last group is short, indexing past the
     end raises `IndexError`: the complete groups before it stay appended and
     the previews are not rebuilt.
     */
    method OpenNotebook(chosen: Option<string>, clock: nat -> Stamp) returns (outcome: OpenOutcome)
      modifies notes
      ensures chosen.None? ==> outcome == Cancelled && notes.items == old(notes.items)
      ensures chosen.Some? ==>
        var lines := ReadLines(chosen.value);
        && notes.items == old(notes.items) + Parsed(lines, clock)
        && outcome == (if |lines| % 6 == 0 then Refreshed(Previews(notes.items)) else IndexError)
    {
      if chosen.None? {
        return Cancelled;
      }
      var lines := ReadLines(chosen.value);
      var i, j := 0, 0;  // i is the first line of the current group, j the number of groups read
      while i < |lines|
        invariant 0 <= i <= |lines| && i == 6 * j
        invariant notes.items == old(notes.items) + LoadedNotes(lines, j, clock)
        decreases |lines| - i
      {
        if i + 5 >= |lines| {
          // one of lines[i + 1] .. lines[i + 5] does not exist
          GroupCount(|lines|, j);
          return IndexError;
        }
        // the six stripped lines, keyed title, text, links, tags, created_at, timezone
        var noteDict := GroupDict(lines, i);
        LoadedNotesStep(lines, j, clock);
        notes.Append(MakeNote(noteDict, clock(j)));
        i, j := i + 6, j + 1;
      }
      GroupCount(|lines|, j);
      var buttons, numRows := UpdateNotePreview();
      outcome := Refreshed(buttons);
    }

    /**
     "Save Notebook": `None` when the dialog is cancelled, else the new
     contents of the chosen file, six lines per note in list order.
     */
    method SaveNotebook(chosen: bool) returns (written: Option<string>)
      ensures written == if chosen then Some(SaveText(notes.items)) else None
    {
      if !chosen {
        return None;
      }
      var text := "";
      var i := 0;
      while i < |notes.items|
        invariant 0 <= i <= |notes.items|
        invariant text == SaveText(notes.items[..i])
      {
        assert notes.items[..i + 1][..i] == notes.items[..i];
        text := text + Record(notes.items[i]);
        i := i + 1;
      }
      assert notes.items[..i] == notes.items;
      written := Some(text);
    }

    /**
     `update_note_preview`: one button per note, in list order, on a grid of
     three columns, and the number of rows that grid needs.
     */
    method UpdateNotePreview() returns (buttons: seq<Button>, numRows: nat)
      ensures buttons == Previews(notes.items)
      ensures numRows == NumRows(|notes.items|)
      ensures forall i :: 0 <= i < |buttons| ==> buttons[i].row < numRows && buttons[i].column < Columns
    {
      var numNotes := |notes.items|;
      numRows := (numNotes + Columns - 1) / Columns;
      buttons := [];
      var i := 0;
      while i < numNotes
        invariant 0 <= i <= numNotes
        invariant |buttons| == i
        invariant forall k :: 0 <= k < i ==>
          buttons[k] == Button(LabelText(notes.items[k]), Row(k), Column(k), notes.items[k])
      {
        var note := notes.items[i];
        buttons := buttons + [Button(LabelText(note), Row(i), Column(i), note)];
        i := i + 1;
      }
      PreviewsLayout(notes.items);
    }
  }

  class NoteForm {
    /** The main window that opened the form. */
    const master: MainWindow
    /** The list the form appends to: the one its main window was given. */
    const notes: NoteList

    constructor (master: MainWindow, notes: NoteList)
      ensures this.master == master && this.notes == notes
    {
      this.master := master;
      this.notes := notes;
    }

    /**
     "Submit": a note made of the four entered strings while the clock reads
     `now` goes at the end of the list, the notes before it stay as they were,
     and the main window's previews are rebuilt.
     */
    method Submit(title: string, text: string, links: string, tags: string, now: Stamp)
      returns (buttons: seq<Button>)
      modifies notes
      ensures notes.items == old(notes.items) + [MakeNote(map[Title := title, Text := text, Links := links, Tags := tags], now)]
      ensures |notes.items| == |old(notes.items)| + 1
      ensures notes.items[..|old(notes.items)|] == old(notes.items)
      ensures var n := notes.items[|notes.items| - 1];
        && n.title == title && n.text == text && n.links == links && n.tags == tags
        && n.createdAt == now.createdAt && n.zone == now.zone
      ensures buttons == Previews(master.notes.items)
    {
      var noteDict := map[Title := title, Text := text, Links := links, Tags := tags];
      var newNote := MakeNote(noteDict, now);
      notes.Append(newNote);
      var numRows;
      buttons, numRows := master.UpdateNotePreview();
    }
  }
}
