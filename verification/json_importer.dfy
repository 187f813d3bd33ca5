/**
 * The entry transformer of the JSON importer: turning one parsed JSON entry
 * into a note row (with media references rewritten into Anki markup), and
 * turning a list of entries into the notes to import.
 */
module JsonImporter {
  import opened Wrappers
  import opened Text

  /** One parsed JSON object: field name to string value. */
  type Entry = map<string, string>

  /** The field values of one note, in the note model's field order. */
  type Row = seq<string>

  /** A note ready for the bulk inserter; only its fields matter here. */
  datatype Note = Note(fields: Row)

  /**
   * Everything the transformer consults outside the entry itself: the audio
   * and image extension lists of the editor (lower-case), the directory of
   * the JSON file, path joining, file existence, and the media store, which
   * copies a file into the collection and returns the name it was stored under.
   */
  datatype MediaEnv = MediaEnv(
    audio: set<string>,
    image: set<string>,
    fileDir: string,
    join: (string, string) -> string,
    fileExists: string -> bool,
    addFile: string -> string)
  {
    /** Audio and image extensions together. */
    function MediaExtensions(): set<string> {
      audio + image
    }

    /** The path a field value names, relative to the JSON file's directory. */
    function PathOf(value: string): string {
      join(fileDir, value)
    }
  }

  function SoundMarkup(name: string): string {
    "[sound:" + name + "]"
  }

  function ImageMarkup(name: string): string {
    "<img src=\"" + name + "\">"
  }

  /** The value of field `f` in `entry`, the empty string when the entry lacks it. */
  function FieldValue(entry: Entry, f: string): string {
    if f in entry then entry[f] else ""
  }

  /** How a field value is treated: kept as text, or stored as audio or as an image. */
  datatype MediaKind = Plain | Audio | Picture

  /**
   * The media decision for one field value: a value whose lower-cased
   * extension is a media extension and whose file exists is audio when the
   * extension is an audio one (checked first) and a picture otherwise.
   */
  function Kind(env: MediaEnv, value: string): (k: MediaKind)
    ensures k == Plain <==>
      || '.' !in value
      || CandidateExtension(value).value !in env.MediaExtensions()
      || !env.fileExists(env.PathOf(value))
    ensures k == Audio <==>
      && CandidateExtension(value).Some?
      && CandidateExtension(value).value in env.audio
      && env.fileExists(env.PathOf(value))
    ensures k == Picture <==>
      && CandidateExtension(value).Some?
      && CandidateExtension(value).value in env.image - env.audio
      && env.fileExists(env.PathOf(value))
  {
    match CandidateExtension(value)
    case None => Plain
    case Some(ext) =>
      if ext in env.MediaExtensions() && env.fileExists(env.PathOf(value)) then
        if ext in env.audio then Audio else Picture
      else
        Plain
  }

  /**
   * The decision is case-insensitive in the extension: values equal up to
   * ASCII case whose paths agree on existence are treated alike.
   */
  lemma {:induction false} KindIgnoresCase(env: MediaEnv, a: string, b: string)
    requires Lower(a) == Lower(b)
    requires env.fileExists(env.PathOf(a)) == env.fileExists(env.PathOf(b))
    ensures Kind(env, a) == Kind(env, b)
  {
    ExtensionIgnoresCase(a, b);
  }

  /**
   * Media rewriting of one field value: an audio value becomes sound markup
   * and a picture value image markup around the name the media store gave
   * the file; a plain value is kept.
   */
  function RewriteMedia(env: MediaEnv, value: string): (v: string)
    ensures '.' !in value ==> v == value
    ensures CandidateExtension(value).Some? && CandidateExtension(value).value !in env.MediaExtensions()
            ==> v == value
    ensures !env.fileExists(env.PathOf(value)) ==> v == value
    ensures CandidateExtension(value).Some? && CandidateExtension(value).value in env.audio
            && env.fileExists(env.PathOf(value))
            ==> v == SoundMarkup(env.addFile(env.PathOf(value)))
    ensures CandidateExtension(value).Some? && CandidateExtension(value).value in env.image - env.audio
            && env.fileExists(env.PathOf(value))
            ==> v == ImageMarkup(env.addFile(env.PathOf(value)))
  {
    match Kind(env, value)
    case Plain => value
    case Audio => SoundMarkup(env.addFile(env.PathOf(value)))
    case Picture => ImageMarkup(env.addFile(env.PathOf(value)))
  }

  /** Rewriting keeps a value empty exactly when it was empty. */
  lemma {:induction false} RewriteKeepsEmptiness(env: MediaEnv, value: string)
    ensures RewriteMedia(env, value) == "" <==> value == ""
  {
  }

  /** The raw values of the mapped fields, in field order. */
  function RawValues(fields: seq<string>, entry: Entry): seq<string> {
    seq(|fields|, i requires 0 <= i < |fields| => FieldValue(entry, fields[i]))
  }

  predicate AllEmpty(values: seq<string>) {
    forall i :: 0 <= i < |values| ==> values[i] == ""
  }

  /**
   * The row an entry yields: the rewritten field values in field order, or
   * the empty row when every raw value is empty.
   */
  function RowOf(env: MediaEnv, fields: seq<string>, entry: Entry): Row {
    var raw := RawValues(fields, entry);
    if AllEmpty(raw) then []
    else seq(|raw|, i requires 0 <= i < |raw| => RewriteMedia(env, raw[i]))
  }

  /**
   * The loop of `_read_row`: walks the field list once, clearing the `empty`
   * flag on the first non-empty raw value and appending each rewritten value.
   */
  method ReadRow(env: MediaEnv, fields: seq<string>, entry: Entry) returns (row: Row)
    ensures row == [] || |row| == |fields|
    ensures row == [] <==> forall i :: 0 <= i < |fields| ==> FieldValue(entry, fields[i]) == ""
    ensures row != [] ==>
      forall i :: 0 <= i < |fields| ==> row[i] == RewriteMedia(env, FieldValue(entry, fields[i]))
    ensures row == RowOf(env, fields, entry)
  {
    var values: seq<string> := [];
    var empty := true;
    for k := 0 to |fields|
      invariant |values| == k
      invariant forall i :: 0 <= i < k ==> values[i] == RewriteMedia(env, FieldValue(entry, fields[i]))
      invariant empty <==> forall i :: 0 <= i < k ==> FieldValue(entry, fields[i]) == ""
    {
      var value := FieldValue(entry, fields[k]);
      if value != "" {
        empty := false;
      }
      values := values + [RewriteMedia(env, value)];
    }
    var raw := RawValues(fields, entry);
    assert forall i :: 0 <= i < |fields| ==> raw[i] == FieldValue(entry, fields[i]);
    assert empty <==> AllEmpty(raw);
    row := if empty then [] else values;
  }

  /** The row of every entry, in input order. */
  function Rows(env: MediaEnv, fields: seq<string>, entries: seq<Entry>): seq<Row> {
    seq(|entries|, i requires 0 <= i < |entries| => RowOf(env, fields, entries[i]))
  }

  /** The positions of the non-empty rows, in ascending order, and no others. */
  function KeptIndices(rows: seq<Row>): (ks: seq<nat>)
    ensures |ks| <= |rows|
    ensures forall k :: 0 <= k < |ks| ==> ks[k] < |rows| && rows[ks[k]] != []
    ensures forall k, l :: 0 <= k < l < |ks| ==> ks[k] < ks[l]
    ensures forall i :: 0 <= i < |rows| && rows[i] != [] ==> i in ks
  {
    if |rows| == 0 then []
    else
      var ks := KeptIndices(rows[..|rows| - 1]);
      if rows[|rows| - 1] != [] then ks + [|rows| - 1] else ks
  }

  /** One note per non-empty row, in order. */
  function KeepNonEmpty(rows: seq<Row>): seq<Note> {
    if |rows| == 0 then []
    else
      var row := rows[|rows| - 1];
      KeepNonEmpty(rows[..|rows| - 1]) + (if row == [] then [] else [Note(row)])
  }

  /** The notes of `entriesToNotes`: one per entry whose row is non-empty, in input order. */
  function Notes(env: MediaEnv, fields: seq<string>, entries: seq<Entry>): seq<Note> {
    KeepNonEmpty(Rows(env, fields, entries))
  }

  /**
   * Exactly the non-empty rows are kept, in order: the k-th note carries the
   * k-th non-empty row.
   */
  lemma {:induction false} KeepSelectsNonEmpty(rows: seq<Row>)
    ensures var ks := KeptIndices(rows);
            var notes := KeepNonEmpty(rows);
            |notes| == |ks| && forall k :: 0 <= k < |ks| ==> notes[k] == Note(rows[ks[k]])
  {
    if |rows| > 0 {
      KeepSelectsNonEmpty(rows[..|rows| - 1]);
    }
  }

  /** Rows are kept one by one, so keeping distributes over concatenation. */
  lemma {:induction false} KeepAppend(a: seq<Row>, b: seq<Row>)
    ensures KeepNonEmpty(a + b) == KeepNonEmpty(a) + KeepNonEmpty(b)
  {
    if |b| == 0 {
      assert a + b == a;
    } else {
      var b' := b[..|b| - 1];
      assert (a + b)[..|a + b| - 1] == a + b';
      KeepAppend(a, b');
    }
  }

  /** The notes of a concatenation of entry lists are the concatenated notes. */
  lemma {:induction false} NotesAppend(env: MediaEnv, fields: seq<string>, a: seq<Entry>, b: seq<Entry>)
    ensures Notes(env, fields, a + b) == Notes(env, fields, a) + Notes(env, fields, b)
  {
    RowsAppend(env, fields, a, b);
    KeepAppend(Rows(env, fields, a), Rows(env, fields, b));
  }

  lemma {:induction false} RowsAppend(env: MediaEnv, fields: seq<string>, a: seq<Entry>, b: seq<Entry>)
    ensures Rows(env, fields, a + b) == Rows(env, fields, a) + Rows(env, fields, b)
  {
    var l := Rows(env, fields, a + b);
    var r := Rows(env, fields, a) + Rows(env, fields, b);
    forall i | 0 <= i < |l|
      ensures l[i] == r[i]
    {
      if i < |a| {
        assert (a + b)[i] == a[i];
      } else {
        assert (a + b)[i] == b[i - |a|];
      }
    }
  }

  /**
   * The loop of `entriesToNotes`: reads each entry's row and keeps a note for
   * it unless the row is empty.
   */
  method EntriesToNotes(env: MediaEnv, fields: seq<string>, entries: seq<Entry>) returns (notes: seq<Note>)
    ensures notes == Notes(env, fields, entries)
    ensures |notes| <= |entries|
    ensures forall k :: 0 <= k < |notes| ==> notes[k].fields != [] && |notes[k].fields| == |fields|
    ensures var ks := KeptIndices(Rows(env, fields, entries));
            |notes| == |ks| && forall k :: 0 <= k < |ks| ==> notes[k].fields == RowOf(env, fields, entries[ks[k]])
  {
    ghost var rows := Rows(env, fields, entries);
    notes := [];
    for i := 0 to |entries|
      invariant notes == KeepNonEmpty(rows[..i])
      invariant |notes| <= i
      invariant forall k :: 0 <= k < |notes| ==> notes[k].fields != [] && |notes[k].fields| == |fields|
    {
      var row := ReadRow(env, fields, entries[i]);
      assert rows[..i + 1][..i] == rows[..i];
      if |row| == 0 {
        continue;
      }
      notes := notes + [Note(row)];
    }
    assert rows[..|entries|] == rows;
    KeepSelectsNonEmpty(rows);
  }
}
