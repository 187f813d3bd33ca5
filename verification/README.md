# JSON card importer: a verified model

This project models the decision-making core of the kindle2anki "Import from JSON" add-on
for Anki (`json_importer.py`). The add-on reads a JSON array of entries. Each entry maps field
names to strings, and its mandatory `deck` key names the destination deck. The model covers
three parts of the add-on:

- **Row transformer** (`JsonImporter._read_row`). It turns one entry into a note row in the
  import model's field order. A missing field reads as the empty string. A value naming an
  existing media file is copied into the media store and replaced by `[sound:NAME]` (audio)
  or `<img src="NAME">` (any other media extension). An entry whose mapped values are all
  empty yields the empty row.
- **Note filter** (`JsonImporter.entriesToNotes`). It keeps one note per non-empty row, in
  input order.
- **Deck grouping** (`import_from_json`). It sorts the entries by deck name with Python's
  stable sort, groups consecutive equal names as `itertools.groupby` does, and runs one
  importer per group.

Modules:

- `Wrappers` (wrappers.dfy) defines `Option` and `Result`.
- `Text` (text.dfy) defines ASCII lower-casing, `str.rfind`, the candidate media extension
  of a value, and Python's code-point ordering of strings.
- `JsonImporter` (json_importer.dfy) holds the media decision, the rewriting, `_read_row`
  and `entriesToNotes`.
- `DeckGrouping` (deck_grouping.dfy) holds the stable sort by deck, the run grouping and
  the partition theorem.
- `Orchestrator` (import_from_json.dfy) holds the per-deck import loop and a worked
  two-deck example.

A row's emptiness is judged on the raw values (json_importer.py:63-64).
`JsonImporter.RewriteKeepsEmptiness` shows that judging after rewriting would give the same
rows.

The add-on's environment is passed in as the `MediaEnv` value. It holds the editor's audio
and image extension lists, the JSON file's directory, `os.path.join`, `os.path.exists` and
the media store's `addFile`. The functions in it are left uninterpreted: every property
holds for every choice of them.

## Model

| member | source | states |
|---|---|---|
| `Text.RFind` | json_importer.py:67 | `rfind('.')` gives -1 exactly when the value has no '.'; otherwise it gives the position of a '.' with no '.' after it |
| `Text.CandidateExtension` | json_importer.py:66-67 | a value has a candidate extension exactly when it contains a '.' |
| `Text.LowerNormalises` | json_importer.py:67 | lower-casing keeps the length, leaves no upper-case ASCII letter, and is idempotent |
| `Text.ExtensionIsLastSuffix` | json_importer.py:67 | the extension is the lower-cased text after the last '.': it contains no '.', has no upper-case ASCII letter, and is shorter than the value |
| `Text.ExtensionIgnoresCase` | json_importer.py:67 | values that differ only in ASCII case (`x.MP3`, `x.mp3`) have the same candidate extension |
| `Text.RFindSameDots` | json_importer.py:67 | strings with '.' in the same places have their last '.' in the same place, which is why case folding does not move the extension |
| `Text.StrLeTotal` | json_importer.py:106 | any two deck names are comparable under Python's string order |
| `Text.StrLeAntisymmetric` | json_importer.py:106 | two deck names that are each at most the other are equal |
| `Text.StrLeTransitive` | json_importer.py:106 | Python's string order is transitive |
| `JsonImporter.Kind` | json_importer.py:66-72 | a value is kept as text exactly when it has no '.', its extension is not a media extension, or its file does not exist. It is audio exactly when the extension is an audio one and the file exists; audio is checked first. It is a picture exactly when the extension is an image extension but not an audio one and the file exists |
| `JsonImporter.KindIgnoresCase` | json_importer.py:67-72 | the media decision is the same for two values equal up to ASCII case whose paths agree on existence |
| `JsonImporter.RewriteMedia` | json_importer.py:66-75 | a value passes through unchanged when it has no '.', when its extension is not a media extension, and when its file does not exist. With an existing audio file it becomes exactly `[sound:` + stored name + `]`; with an existing image file that is not also audio it becomes exactly `<img src="` + stored name + `">` |
| `JsonImporter.RewriteKeepsEmptiness` | json_importer.py:63-79 | a rewritten value is empty exactly when the raw value was, so judging emptiness before or after rewriting gives the same result |
| `JsonImporter.ReadRow` | json_importer.py:58-79 | the row is empty or exactly as long as the field list. It is empty exactly when every mapped raw value (a missing key read as "") is empty. Otherwise element i is field i's raw value after media rewriting |
| `JsonImporter.KeptIndices` | json_importer.py:44-47 | lists the positions of the non-empty rows, strictly ascending, and no other positions |
| `JsonImporter.KeepSelectsNonEmpty` | json_importer.py:43-53 | the k-th note carries the k-th non-empty row, and there is one note per non-empty row |
| `JsonImporter.KeepAppend` | json_importer.py:44-51 | rows are kept one at a time, so keeping the rows of two lists joined equals joining what is kept from each |
| `JsonImporter.RowsAppend` | json_importer.py:44-45 | the rows of two entry lists joined are the rows of each, joined |
| `JsonImporter.NotesAppend` | json_importer.py:42-53 | the notes of two entry lists joined are the notes of each, joined |
| `JsonImporter.EntriesToNotes` | json_importer.py:42-53 | it keeps exactly the entries whose row is non-empty, in input order, and each note's fields equal that entry's row. So there are no more notes than entries, and no note is empty or of the wrong width |
| `DeckGrouping.Insert` | json_importer.py:106 | inserting an entry into deck-sorted entries keeps them sorted and adds exactly that entry |
| `DeckGrouping.InsertStable` | json_importer.py:106 | inserting keeps every deck's entries in order and places the new entry before its deck-mates |
| `DeckGrouping.SortByDeck` | json_importer.py:105-106 | the result is sorted by deck name and is a permutation of the input |
| `DeckGrouping.SortStable` | json_importer.py:106 | the sort is stable: for every deck, its entries appear in input order |
| `DeckGrouping.GroupRuns` | json_importer.py:110 | each group is non-empty and all its entries carry the group's deck. Neighbouring groups have different decks. The groups, concatenated, give back the input |
| `DeckGrouping.JoinRun` | json_importer.py:110 | extending the first run with an entry of the same deck keeps the runs well formed, keeps neighbours distinct, and prepends the entry to the concatenation |
| `DeckGrouping.StartRun` | json_importer.py:110 | starting a new run with an entry of another deck keeps the runs well formed, keeps neighbours distinct, and prepends the entry to the concatenation |
| `DeckGrouping.GroupRunsStepAscending` | json_importer.py:105-110 | on deck-sorted entries, each group's deck is strictly smaller than the next group's |
| `DeckGrouping.GroupRunsAscending` | json_importer.py:105-110 | on deck-sorted entries, the groups come in strictly ascending deck order |
| `DeckGrouping.OfDeckFlatten` | json_importer.py:110 | selecting one deck from well-formed groups with distinct decks gives exactly that deck's group, or nothing if no group has that deck |
| `DeckGrouping.GroupDecksAreFlattenDecks` | json_importer.py:110 | the groups' deck names are exactly the deck names their entries carry |
| `DeckGrouping.GroupByDeck` | json_importer.py:104-106 | the grouping fails exactly when some entry has no `deck` key (the sort reads every entry's key), with a `deck` key error. On success the groups are well formed and there are no more groups than entries |
| `DeckGrouping.GroupsSelectByDeck` | json_importer.py:104-110 | each group holds exactly the input entries bound for its deck, in input order |
| `DeckGrouping.FlattenMembers` | json_importer.py:110 | an entry is in the concatenated groups exactly when it is in some group |
| `DeckGrouping.AscendingGroupsDisjoint` | json_importer.py:105-110 | groups in strictly ascending deck order share no entry |
| `DeckGrouping.PartitionMembers` | json_importer.py:104-110 | well-formed ascending groups that concatenate to a permutation of the entries place every entry in exactly one group, and hold nothing else |
| `DeckGrouping.EachEntryInOneGroup` | json_importer.py:104-110 | every input entry lands in exactly one group, and every group's entries come from the input |
| `DeckGrouping.GroupDecksAreEntryDecks` | json_importer.py:104-110 | the groups' decks are exactly the decks the entries name |
| `DeckGrouping.GroupByDeckPartitions` | json_importer.py:104-110 | the grouping partitions the entries by deck. Groups come in strictly ascending deck order and are non-empty. Each holds exactly the entries of its deck, in input order. Their decks are exactly the entries' decks. Concatenated, they give the sorted entries, a permutation of the input |
| `Orchestrator.ImportGroup` | json_importer.py:112-114 | one importer run gives the notes of that group's entries, bound for that group's deck, and no more notes than entries |
| `Orchestrator.ImportGroups` | json_importer.py:110-114 | there is one import per group, in group order, holding that group's notes. All imports together hold the notes of the concatenated groups |
| `Orchestrator.AllNotesFollowGroups` | json_importer.py:110-114 | imports made group by group hold, in order, the notes of the concatenated groups, so every note belongs to exactly one deck import |
| `Orchestrator.ImportsFollowGroups` | json_importer.py:110-114 | the deck imports inherit the groups' strictly ascending deck order and the groups' decks. Each holds the notes of exactly the input entries bound for its deck |
| `Orchestrator.ImportFromJson` | json_importer.py:103-116 | the import fails with a `deck` key error exactly when some entry lacks `deck`. Otherwise it gives one import per deck named in the input, in strictly ascending deck order. Each import holds the notes of that deck's entries in input order, and all notes together are the notes of the deck-sorted entries |
| `Orchestrator.TwoDecksTwoGroups` | json_importer.py:104-110 | two entries whose decks are already in strictly ascending order form one group each |
| `Orchestrator.ExampleExtension` | json_importer.py:67 | `x.mp3` and `x.MP3` both have extension `mp3` |
| `Orchestrator.ExampleSoundValue` | json_importer.py:70-73 | `x.mp3`, existing, with `mp3` an audio extension and stored as `x.mp3`, becomes `[sound:x.mp3]` |
| `Orchestrator.ExampleGroups` | json_importer.py:104-110 | entries for decks "A" and "B" form the groups A then B |
| `Orchestrator.ExamplePlainRow` | json_importer.py:58-79 | an entry with Front "hi" and Back "bye" gives the row `["hi", "bye"]` |
| `Orchestrator.ExampleSoundRow` | json_importer.py:58-79 | an entry with Front "x.mp3" (an existing audio file) and an empty Back gives `["[sound:x.mp3]", ""]`; the row is kept because one raw value is non-empty |

## Left out

- File picking, reading, UTF-8 decoding and `json.loads` (json_importer.py:97-103) are left out. The model starts from the parsed entries. A malformed document, and JSON values that are not strings, are not modelled.
- Menu wiring and result display (`QAction`, `mw.connect`, `showText`, `mw.reset`; lines 118-126) are left out: they are user interface.
- The Anki collection is not modelled. This covers model lookup and deck creation in `_setup_model` (lines 81-93), `mw.checkpoint` (line 108), `initMapping` (line 113), and the bulk insert `importNotes` with its log (lines 40, 115-116). Their behaviour lives in the host application. The field list of the import model is a parameter, and an import stops at the notes handed to the inserter.
- The media store's `addFile` is a pure function of the path. The real store copies the file and may rename it on a content collision, so two calls with the same path could return different names. The model does not capture that.
- `os.path.join` and `os.path.exists` are uninterpreted. No file-system state is modelled.
- `Text.Lower` folds ASCII letters only. Python's `lower()` also folds non-ASCII letters, and some of those fold to ASCII. So the model can miss a media extension that Python finds. For example, the extension of `x.m\u212Av` (U+212A is the Kelvin sign) is `m\u212Av` in the model, but Python lowers it to `mkv`. If `mkv` is an audio extension, the add-on stores audio where the model keeps plain text. For values whose extension is ASCII, the two folds agree.
- `Text.StrLe` orders strings by code point, as Python 3 and wide Python 2 builds do. A narrow Python 2 build compares UTF-16 code units, which orders characters outside the Basic Multilingual Plane differently.
- There is no guard against re-wrapping a value that already holds markup. The code has none, so the model has none either.
- A missing `deck` key is modelled as a failure of the whole import before any note is made. This matches the `KeyError` that the sort key raises (line 105-106). No per-entry error reporting is modelled.
