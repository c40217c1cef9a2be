/**
 The arithmetic behind the main window's note previews: the shortened text a
 preview button shows, and the three-column grid the buttons are placed on.
 */
module Preview {
  import opened NoteFormat

  /** Previews per row of the grid (`num_columns`). */
  const Columns: nat := 3

  /** The number of text characters a preview keeps before it adds "...". */
  const PreviewWidth: nat := 30

  /** The text a preview shows: the whole text, or its first 30 characters and "..." when it is longer. */
  function PreviewText(text: string): (r: string)
    ensures |text| <= PreviewWidth ==> r == text
    ensures |text| > PreviewWidth ==> |r| == PreviewWidth + 3 && r[..PreviewWidth] == text[..PreviewWidth] && r[PreviewWidth..] == "..."
  {
    if |text| > PreviewWidth then text[..PreviewWidth] + "..." else text
  }

  /** A preview is never longer than 33 characters and always starts like the text it shows. */
  lemma PreviewBounded(text: string)
    ensures |PreviewText(text)| <= PreviewWidth + 3
    ensures var m := if |text| < PreviewWidth then |text| else PreviewWidth;
      PreviewText(text)[..m] == text[..m]
  {
  }

  /** The label of a preview button: the title, then the shortened text. */
  function LabelText(n: Note): string {
    "Title: " + n.title + "\nText: " + PreviewText(n.text) + "\n"
  }

  /** The grid row of the `i`-th preview: rows fill three previews at a time. */
  function Row(i: nat): (r: nat)
    ensures Columns * r <= i < Columns * r + Columns
  {
    i / Columns
  }

  /** The grid column of the `i`-th preview: its place within its row. */
  function Column(i: nat): (c: nat)
    ensures c < Columns && i == Columns * Row(i) + c
  {
    i % Columns
  }

  /** `num_rows`: enough rows for `n` previews, three to a row (the ceiling of n / 3). */
  function NumRows(n: nat): (r: nat)
    ensures n <= Columns * r < n + Columns
  {
    (n + Columns - 1) / Columns
  }

  /** Every one of `n` previews lands inside the `NumRows(n)` by 3 grid. */
  lemma CellInGrid(n: nat, i: nat)
    requires i < n
    ensures Row(i) < NumRows(n) && Column(i) < Columns
  {
  }

  /** `NumRows(n)` is the fewest rows that hold `n` previews: the last preview sits on the last row. */
  lemma NumRowsTight(n: nat)
    requires n > 0
    ensures Row(n - 1) == NumRows(n) - 1
  {
  }

  /** Row and column together identify the preview: two previews never share a cell. */
  lemma CellsDistinct(i: nat, j: nat)
    requires i != j
    ensures Row(i) != Row(j) || Column(i) != Column(j)
  {
    assert i == Columns * Row(i) + Column(i);
    assert j == Columns * Row(j) + Column(j);
  }

  /**
   A preview button on the main window: its label, its grid cell, and the note
   its click handler opens in a detail window.
   */
  datatype Button = Button(labelText: string, row: nat, column: nat, note: Note)

  /** The buttons `update_note_preview` lays out, one per note, in list order. */
  function Previews(notes: seq<Note>): (r: seq<Button>)
    ensures |r| == |notes|
  {
    seq(|notes|, i requires 0 <= i < |notes| => Button(LabelText(notes[i]), Row(i), Column(i), notes[i]))
  }

  /**
   The preview layout: button `i` shows and opens note `i`; all buttons fit
   the `NumRows` by 3 grid; no two buttons share a cell.
   */
  lemma PreviewsLayout(notes: seq<Note>)
    ensures var bs := Previews(notes);
      && (forall i :: 0 <= i < |bs| ==>
            bs[i].note == notes[i] && bs[i].labelText == LabelText(notes[i])
            && bs[i].row < NumRows(|notes|) && bs[i].column < Columns)
      && (forall i, j :: 0 <= i < j < |bs| ==>
            bs[i].row != bs[j].row || bs[i].column != bs[j].column)
  {
    var bs := Previews(notes);
    forall i | 0 <= i < |bs|
      ensures bs[i].row < NumRows(|notes|) && bs[i].column < Columns
    {
      CellInGrid(|notes|, i);
    }
    forall i, j | 0 <= i < j < |bs|
      ensures bs[i].row != bs[j].row || bs[i].column != bs[j].column
    {
      CellsDistinct(i, j);
    }
  }
}
