/**
 The note record of the notebook and its flat-file format: `MakeNote` builds a
 note from a dictionary and a clock reading, the saver writes each note as six
 prefixed lines, and the loader reads a file back six lines at a time.
 */
module NoteFormat {
  import opened PyText

  /**
   One reading of the local clock, as the saver renders it: the text of the
   aware `datetime` and the text of its `tzinfo`.
   */
  datatype Stamp = Stamp(createdAt: string, zone: string)

  /**
   The keys of a note dictionary: "title", "text", "links" and "tags" from the
   note form and the loader, "created_at" and "timezone" from the loader only.
   */
  datatype Key = Title | Text | Links | Tags | CreatedAt | Timezone

  /**
   A `MakeNote` object. It keeps the dictionary it was built from, copies four
   entries of it and takes its creation time and zone from the clock.
   */
  datatype Note = Note(
    noteDict: map<Key, string>,
    title: string,
    text: string,
    links: string,
    tags: string,
    createdAt: string,
    zone: string)

  /** The keys `MakeNote` looks up; a missing one raises `KeyError`. */
  predicate HasNoteKeys(d: map<Key, string>) {
    Title in d && Text in d && Links in d && Tags in d
  }

  /** `MakeNote(note_dict)`, with `now` the reading of the clock while it runs. */
  function MakeNote(d: map<Key, string>, now: Stamp): Note
    requires HasNoteKeys(d)
  {
    Note(d, d[Title], d[Text], d[Links], d[Tags], now.createdAt, now.zone)
  }

  /**
   Whatever the dictionary says under "created_at" and "timezone", the note's
   creation time and zone are the clock's, and its four text fields are the
   dictionary's.
   */
  lemma MakeNoteIgnoresStoredStamp(d: map<Key, string>, now: Stamp, date: string, zone: string)
    requires HasNoteKeys(d)
    ensures var n := MakeNote(d[CreatedAt := date][Timezone := zone], now);
      && n.title == d[Title] && n.text == d[Text]
      && n.links == d[Links] && n.tags == d[Tags]
      && n.createdAt == now.createdAt && n.zone == now.zone
  {
  }

  // ----- The saver -----

  /**
   The six lines `save_notebook` writes for one note, in order and without
   their "\n" terminators: the title, links, tags and creation time behind
   their literal prefixes, the text and the zone as they are.
   */
  function RecordLines(n: Note): (r: seq<string>)
    ensures |r| == 6
  {
    ["Title: " + n.title, n.text, "Links: " + n.links, "Tags: " + n.tags,
     "Created At: " + n.createdAt, n.zone]
  }

  /** The text of the single `file.write` call for one note: its six lines, each ended by "\n". */
  function Record(n: Note): string {
    JoinLines(RecordLines(n))
  }

  /** The whole file `save_notebook` writes: the records of the notes in list order. */
  function SaveText(notes: seq<Note>): string
    decreases |notes|
  {
    if notes == [] then []
    else SaveText(notes[..|notes| - 1]) + Record(notes[|notes| - 1])
  }

  /** The lines of the saved file, six per note, in list order. */
  function SaveLines(notes: seq<Note>): (r: seq<string>)
    ensures |r| == 6 * |notes|
    decreases |notes|
  {
    if notes == [] then []
    else SaveLines(notes[..|notes| - 1]) + RecordLines(notes[|notes| - 1])
  }

  /** Line `6j + k` of the saved file is line `k` of note `j`'s record: no separators, no reordering. */
  lemma {:induction false} SaveLinesAt(notes: seq<Note>, j: nat, k: nat)
    requires j < |notes| && k < 6
    ensures 6 * j + k < |SaveLines(notes)|
    ensures SaveLines(notes)[6 * j + k] == RecordLines(notes[j])[k]
    decreases |notes|
  {
    var init := notes[..|notes| - 1];
    if j < |notes| - 1 {
      SaveLinesAt(init, j, k);
      assert init[j] == notes[j];
    }
  }

  /** The saved file is the text of its lines, each followed by "\n". */
  lemma {:induction false} SaveTextIsJoinedLines(notes: seq<Note>)
    ensures SaveText(notes) == JoinLines(SaveLines(notes))
    decreases |notes|
  {
    if notes != [] {
      var init, last := notes[..|notes| - 1], notes[|notes| - 1];
      SaveTextIsJoinedLines(init);
      JoinLinesAppend(SaveLines(init), RecordLines(last));
    }
  }

  // ----- The loader -----

  /** The loader's dictionaries also carry the stored creation time and zone. */
  predicate HasFileKeys(d: map<Key, string>) {
    HasNoteKeys(d) && CreatedAt in d && Timezone in d
  }

  /** The dictionary `open_notebook` builds from the six lines starting at `i`, each stripped. */
  function GroupDict(lines: seq<string>, i: nat): (d: map<Key, string>)
    requires i + 6 <= |lines|
    ensures HasFileKeys(d)
  {
    map[Title := Strip(lines[i]), Text := Strip(lines[i + 1]),
        Links := Strip(lines[i + 2]), Tags := Strip(lines[i + 3]),
        CreatedAt := Strip(lines[i + 4]), Timezone := Strip(lines[i + 5])]
  }

  /**
   The notes built from the first `k` complete groups of six lines, in file
   order; the note of group `j` is built while the clock reads `clock(j)`.
   */
  function LoadedNotes(lines: seq<string>, k: nat, clock: nat -> Stamp): (r: seq<Note>)
    requires 6 * k <= |lines|
    ensures |r| == k
    ensures forall j :: 0 <= j < k ==> HasFileKeys(r[j].noteDict)
  {
    var r := seq(k, j requires 0 <= j < k => MakeNote(GroupDict(lines, 6 * j), clock(j)));
    assert forall j :: 0 <= j < k ==> r[j] == MakeNote(GroupDict(lines, 6 * j), clock(j));
    r
  }

  /** The notes built from every complete group of six lines. */
  function Parsed(lines: seq<string>, clock: nat -> Stamp): (r: seq<Note>)
    ensures |r| == |lines| / 6
  {
    LoadedNotes(lines, |lines| / 6, clock)
  }

  /**
   Note `j` of a load takes its title, text, links and tags from lines `6j` to
   `6j + 3`, stripped; lines `6j + 4` and `6j + 5` only reach the kept
   dictionary, while the note's creation time and zone are the clock's.
   */
  lemma LoadedNoteFields(lines: seq<string>, clock: nat -> Stamp, j: nat)
    requires j < |lines| / 6
    ensures var n := Parsed(lines, clock)[j];
      && n.title == Strip(lines[6 * j]) && n.text == Strip(lines[6 * j + 1])
      && n.links == Strip(lines[6 * j + 2]) && n.tags == Strip(lines[6 * j + 3])
      && n.noteDict[CreatedAt] == Strip(lines[6 * j + 4])
      && n.noteDict[Timezone] == Strip(lines[6 * j + 5])
      && n.createdAt == clock(j).createdAt && n.zone == clock(j).zone
  {
    assert j < |lines| / 6;
    assert Parsed(lines, clock)[j] == MakeNote(GroupDict(lines, 6 * j), clock(j));
  }

  /** A file of `n` lines with `j` complete groups and fewer than six lines left over. */
  lemma GroupCount(n: nat, j: nat)
    requires 6 * j <= n < 6 * j + 6
    ensures n / 6 == j
    ensures n % 6 == 0 <==> n == 6 * j
  {
  }

  /** One more complete group adds its note after those already loaded. */
  lemma LoadedNotesStep(lines: seq<string>, k: nat, clock: nat -> Stamp)
    requires 6 * k + 6 <= |lines|
    ensures LoadedNotes(lines, k + 1, clock)
      == LoadedNotes(lines, k, clock) + [MakeNote(GroupDict(lines, 6 * k), clock(k))]
  {
  }

  /**
   Lines after the last complete group never become a note: a file with a
   short tail yields exactly the notes of the file without it.
   */
  lemma ParsedIgnoresShortTail(lines: seq<string>, tail: seq<string>, clock: nat -> Stamp)
    requires |lines| % 6 == 0 && |tail| < 6
    ensures Parsed(lines + tail, clock) == Parsed(lines, clock)
  {
    var k := |lines| / 6;
    GroupCount(|lines + tail|, k);
    forall j | 0 <= j < k
      ensures GroupDict(lines + tail, 6 * j) == GroupDict(lines, 6 * j)
    {
      assert forall m :: 0 <= m < |lines| ==> (lines + tail)[m] == lines[m];
    }
  }

  // ----- Save followed by load -----

  /** Every field the saver writes on a line of its own holds no line break. */
  predicate Writable(n: Note) {
    && SingleLine(n.title) && SingleLine(n.text) && SingleLine(n.links)
    && SingleLine(n.tags) && SingleLine(n.createdAt) && SingleLine(n.zone)
  }

  /** The lines saved for writable notes are single lines. */
  lemma SavedLinesAreSingle(notes: seq<Note>)
    requires forall j :: 0 <= j < |notes| ==> Writable(notes[j])
    ensures forall i :: 0 <= i < |SaveLines(notes)| ==> SingleLine(SaveLines(notes)[i])
  {
    forall i | 0 <= i < |SaveLines(notes)|
      ensures SingleLine(SaveLines(notes)[i])
    {
      var j, k := i / 6, i % 6;
      SaveLinesAt(notes, j, k);
      assert Writable(notes[j]);
    }
  }

  /** Reading back the saved file gives its lines, six per note, each with its "\n". */
  lemma ReadSavedFile(notes: seq<Note>)
    requires forall j :: 0 <= j < |notes| ==> Writable(notes[j])
    ensures ReadLines(SaveText(notes)) == Terminated(SaveLines(notes))
  {
    SaveTextIsJoinedLines(notes);
    SavedLinesAreSingle(notes);
    ReadWrittenLines(SaveLines(notes), "\n");
  }

  /**
   Where the platform's line separator is "\r\n" (or "\r"), the saved file
   holds that separator after each line; it still reads back as the same lines.
   */
  lemma ReadSavedFileAnyNewline(notes: seq<Note>, newline: string)
    requires forall j :: 0 <= j < |notes| ==> Writable(notes[j])
    requires IsNewline(newline)
    ensures ReadLines(WriteLines(SaveLines(notes), newline)) == ReadLines(SaveText(notes))
  {
    SavedLinesAreSingle(notes);
    ReadWrittenLines(SaveLines(notes), newline);
    ReadSavedFile(notes);
  }

  /** Read back, line `6j + k` of the saved file strips to what line `k` of note `j`'s record strips to. */
  lemma SavedLineReadsBack(notes: seq<Note>, j: nat, k: nat)
    requires j < |notes| && k < 6
    ensures 6 * j + k < |Terminated(SaveLines(notes))|
    ensures Strip(Terminated(SaveLines(notes))[6 * j + k]) == Strip(RecordLines(notes[j])[k])
  {
    var saved := SaveLines(notes);
    SaveLinesAt(notes, j, k);
    StripTrailingSpace(saved[6 * j + k], '\n');
    assert Terminated(saved)[6 * j + k] == saved[6 * j + k] + ['\n'];
  }

  /** The note that a load of the saved file builds from note `j`'s record. */
  lemma RoundTripNote(notes: seq<Note>, clock: nat -> Stamp, j: nat)
    requires j < |notes|
    ensures |Terminated(SaveLines(notes))| / 6 == |notes|
    ensures var n := Parsed(Terminated(SaveLines(notes)), clock)[j];
      && n.title == Strip("Title: " + notes[j].title)
      && n.text == Strip(notes[j].text)
      && n.links == Strip("Links: " + notes[j].links)
      && n.tags == Strip("Tags: " + notes[j].tags)
      && n.noteDict[CreatedAt] == Strip("Created At: " + notes[j].createdAt)
      && n.noteDict[Timezone] == Strip(notes[j].zone)
      && n.createdAt == clock(j).createdAt
      && n.zone == clock(j).zone
  {
    var lines := Terminated(SaveLines(notes));
    LoadedNoteFields(lines, clock, j);
    SavedLineReadsBack(notes, j, 0);
    SavedLineReadsBack(notes, j, 1);
    SavedLineReadsBack(notes, j, 2);
    SavedLineReadsBack(notes, j, 3);
    SavedLineReadsBack(notes, j, 4);
    SavedLineReadsBack(notes, j, 5);
  }

  /**
   Saving notes whose fields hold no line break and loading the file gives as
   many notes, in the same order. Each text comes back stripped; title, links,
   tags and the stored creation time come back stripped with the saver's
   prefix in front; the new notes' creation times are the clock's.
   */
  lemma SaveLoadRoundTrip(notes: seq<Note>, clock: nat -> Stamp)
    requires forall j :: 0 <= j < |notes| ==> Writable(notes[j])
    ensures var back := Parsed(ReadLines(SaveText(notes)), clock);
      && |back| == |notes|
      && forall j :: 0 <= j < |notes| ==>
        && back[j].title == Strip("Title: " + notes[j].title)
        && back[j].text == Strip(notes[j].text)
        && back[j].links == Strip("Links: " + notes[j].links)
        && back[j].tags == Strip("Tags: " + notes[j].tags)
        && back[j].noteDict[CreatedAt] == Strip("Created At: " + notes[j].createdAt)
        && back[j].noteDict[Timezone] == Strip(notes[j].zone)
        && back[j].createdAt == clock(j).createdAt
        && back[j].zone == clock(j).zone
  {
    ReadSavedFile(notes);
    assert |Terminated(SaveLines(notes))| / 6 == |notes|;
    forall j | 0 <= j < |notes|
      ensures var n := Parsed(ReadLines(SaveText(notes)), clock)[j];
        && n.title == Strip("Title: " + notes[j].title)
        && n.text == Strip(notes[j].text)
        && n.links == Strip("Links: " + notes[j].links)
        && n.tags == Strip("Tags: " + notes[j].tags)
        && n.noteDict[CreatedAt] == Strip("Created At: " + notes[j].createdAt)
        && n.noteDict[Timezone] == Strip(notes[j].zone)
        && n.createdAt == clock(j).createdAt
        && n.zone == clock(j).zone
    {
      RoundTripNote(notes, clock, j);
    }
  }

  /**
   A non-empty title without trailing whitespace comes back from a save and a
   load with "Title: " in front of it, so every further round trip adds one
   more prefix.
   */
  lemma TitlePrefixAccumulates(title: string)
    requires title != [] && !IsSpace(title[|title| - 1])
    ensures Strip("Title: " + title) == "Title: " + title
    ensures |Strip("Title: " + title)| == |title| + 7
  {
    var s := "Title: " + title;
    assert s[0] == 'T' && s[|s| - 1] == title[|title| - 1];
    StripEdgeFree(s);
  }

  /**
   A blank title, such as the empty one an untouched form field submits,
   comes back from a save and a load as "Title:": the space after the colon
   is stripped along with the title.
   */
  lemma BlankTitleComesBack(title: string)
    requires forall k :: 0 <= k < |title| ==> IsSpace(title[k])
    ensures Strip("Title: " + title) == "Title:"
  {
    var s := "Title: " + title;
    assert s[0] == 'T';
    assert StripLeft(s) == s;
    assert s == "Title:" + (" " + title);
    StripRightTrailingSpaces("Title:", " " + title);
    assert StripRight("Title:") == "Title:";
  }

  /**
   A one-note file as a user would write it by hand, without the saver's
   prefixes: the four text fields come through, the stored date and zone only
   reach the kept dictionary, and the note's own date and zone are the clock's.
   */
  lemma MeetingNotesExample(clock: nat -> Stamp)
    ensures var notes := Parsed(["Meeting Notes\n", "Discuss Q3 roadmap\n", "http://example.com\n",
                                 "work,urgent\n", "2024-01-15 09:00:00-05:00\n", "EST\n"], clock);
      && |notes| == 1
      && notes[0].title == "Meeting Notes" && notes[0].text == "Discuss Q3 roadmap"
      && notes[0].links == "http://example.com" && notes[0].tags == "work,urgent"
      && notes[0].noteDict[CreatedAt] == "2024-01-15 09:00:00-05:00"
      && notes[0].noteDict[Timezone] == "EST"
      && notes[0].createdAt == clock(0).createdAt && notes[0].zone == clock(0).zone
  {
    var fields := ["Meeting Notes", "Discuss Q3 roadmap", "http://example.com",
                   "work,urgent", "2024-01-15 09:00:00-05:00", "EST"];
    var lines := Terminated(fields);
    assert "Meeting Notes" + "\n" == "Meeting Notes\n";
    assert "Discuss Q3 roadmap" + "\n" == "Discuss Q3 roadmap\n";
    assert "http://example.com" + "\n" == "http://example.com\n";
    assert "work,urgent" + "\n" == "work,urgent\n";
    assert "2024-01-15 09:00:00-05:00" + "\n" == "2024-01-15 09:00:00-05:00\n";
    assert "EST" + "\n" == "EST\n";
    assert lines == ["Meeting Notes\n", "Discuss Q3 roadmap\n", "http://example.com\n",
                     "work,urgent\n", "2024-01-15 09:00:00-05:00\n", "EST\n"];
    forall k | 0 <= k < 6
      ensures Strip(lines[k]) == fields[k]
    {
      StripTerminatedLine(fields[k]);
    }
    LoadedNoteFields(lines, clock, 0);
  }
}
