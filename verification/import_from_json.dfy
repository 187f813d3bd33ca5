/**
 * The import pipeline of `import_from_json`, from parsed entries to the
 * notes handed to the bulk inserter for each deck.
 */
module Orchestrator {
  import opened Wrappers
  import opened Text
  import opened JsonImporter
  import opened DeckGrouping

  /** The notes one importer run inserts into one deck. */
  datatype DeckImport = DeckImport(deck: string, notes: seq<Note>)

  /** The notes of all deck imports, in import order. */
  function AllNotes(imports: seq<DeckImport>): seq<Note> {
    if |imports| == 0 then []
    else AllNotes(imports[..|imports| - 1]) + imports[|imports| - 1].notes
  }

  /** One importer run: the notes of one group, bound for the group's deck. */
  method ImportGroup(env: MediaEnv, fields: seq<string>, group: DeckGroup) returns (d: DeckImport)
    ensures d.deck == group.deck
    ensures d.notes == Notes(env, fields, group.entries)
    ensures |d.notes| <= |group.entries|
  {
    var notes := EntriesToNotes(env, fields, group.entries);
    d := DeckImport(group.deck, notes);
  }

  /** The per-deck loop: one importer run per group, in group order. */
  method ImportGroups(env: MediaEnv, fields: seq<string>, groups: seq<DeckGroup>) returns (imports: seq<DeckImport>)
    ensures |imports| == |groups|
    ensures forall k :: 0 <= k < |groups| ==>
      imports[k] == DeckImport(groups[k].deck, Notes(env, fields, groups[k].entries))
    ensures AllNotes(imports) == Notes(env, fields, Flatten(groups))
  {
    imports := [];
    for k := 0 to |groups|
      invariant |imports| == k
      invariant forall j :: 0 <= j < k ==>
        imports[j] == DeckImport(groups[j].deck, Notes(env, fields, groups[j].entries))
    {
      var d := ImportGroup(env, fields, groups[k]);
      imports := imports + [d];
    }
    AllNotesFollowGroups(env, fields, groups, imports);
  }

  /** Imports made group by group hold, one after the other, the notes of the flattened groups. */
  lemma {:induction false} AllNotesFollowGroups(env: MediaEnv, fields: seq<string>,
                                                groups: seq<DeckGroup>, imports: seq<DeckImport>)
    requires |imports| == |groups|
    requires forall k :: 0 <= k < |groups| ==> imports[k].notes == Notes(env, fields, groups[k].entries)
    ensures AllNotes(imports) == Notes(env, fields, Flatten(groups))
  {
    if |groups| > 0 {
      var n := |groups| - 1;
      AllNotesFollowGroups(env, fields, groups[..n], imports[..n]);
      NotesOfNextGroup(env, fields, groups, n);
      assert groups[..n + 1] == groups;
    }
  }

  /** The notes of the first k + 1 groups are those of the first k followed by those of group k. */
  lemma {:induction false} NotesOfNextGroup(env: MediaEnv, fields: seq<string>, groups: seq<DeckGroup>, k: nat)
    requires k < |groups|
    ensures Notes(env, fields, Flatten(groups[..k + 1]))
         == Notes(env, fields, Flatten(groups[..k])) + Notes(env, fields, groups[k].entries)
  {
    FlattenSnoc(groups[..k], groups[k]);
    assert groups[..k + 1] == groups[..k] + [groups[k]];
    NotesAppend(env, fields, Flatten(groups[..k]), groups[k].entries);
  }

  /** Deck imports made group by group inherit the groups' order, decks and contents. */
  lemma {:induction false} ImportsFollowGroups(env: MediaEnv, fields: seq<string>, entries: seq<Entry>,
                            groups: seq<DeckGroup>, imports: seq<DeckImport>)
    requires AllHaveDeck(entries)
    requires Ascending(groups)
    requires GroupDecks(groups) == DecksOf(entries)
    requires forall k :: 0 <= k < |groups| ==> groups[k].entries == OfDeck(entries, groups[k].deck)
    requires |imports| == |groups|
    requires forall k :: 0 <= k < |groups| ==>
      imports[k] == DeckImport(groups[k].deck, Notes(env, fields, groups[k].entries))
    ensures forall i, j :: 0 <= i < j < |imports| ==> StrLt(imports[i].deck, imports[j].deck)
    ensures (set k | 0 <= k < |imports| :: imports[k].deck) == DecksOf(entries)
    ensures forall k :: 0 <= k < |imports| ==>
      imports[k].notes == Notes(env, fields, OfDeck(entries, imports[k].deck))
  {
    assert (set k | 0 <= k < |imports| :: imports[k].deck) == GroupDecks(groups);
  }

  /**
   * Groups the entries by deck and, for each group in ascending deck order,
   * converts its entries into notes. A missing deck key aborts the import
   * before any note is produced.
   */
  method ImportFromJson(env: MediaEnv, fields: seq<string>, entries: seq<Entry>)
    returns (r: Result<seq<DeckImport>, ImportError>)
    ensures r.Failure? <==> exists i :: 0 <= i < |entries| && DeckKey !in entries[i]
    ensures r.Failure? ==> r.error == MissingKey(DeckKey)
    ensures r.Success? ==>
      && AllHaveDeck(entries)
      && (forall i, j :: 0 <= i < j < |r.value| ==> StrLt(r.value[i].deck, r.value[j].deck))
      && (set k | 0 <= k < |r.value| :: r.value[k].deck) == DecksOf(entries)
      && (forall k :: 0 <= k < |r.value| ==>
            r.value[k].notes == Notes(env, fields, OfDeck(entries, r.value[k].deck)))
      && AllNotes(r.value) == Notes(env, fields, SortByDeck(entries))
  {
    var grouped := GroupByDeck(entries);
    if grouped.Failure? {
      return Failure(grouped.error);
    }
    var groups := grouped.value;
    GroupByDeckPartitions(entries);
    var imports := ImportGroups(env, fields, groups);
    ImportsFollowGroups(env, fields, entries, groups, imports);
    r := Success(imports);
  }

  /** The audio file of the two-deck example has extension "mp3". */
  lemma {:induction false} ExampleExtension()
    ensures CandidateExtension("x.mp3") == Some("mp3")
    ensures CandidateExtension("x.MP3") == Some("mp3")
  {
    assert RFind("x.mp3", '.') == 1;
    assert "x.mp3"[2..] == "mp3";
    assert Lower("mp3") == "mp3";
    ExtensionIgnoresCase("x.mp3", "x.MP3");
  }

  /** Two entries bound for different decks, already in deck order, form one group each. */
  lemma {:induction false} TwoDecksTwoGroups(a: Entry, b: Entry)
    requires HasDeck(a) && HasDeck(b)
    requires StrLt(Deck(a), Deck(b))
    ensures GroupByDeck([a, b]) == Success([DeckGroup(Deck(a), [a]), DeckGroup(Deck(b), [b])])
  {
    var s := [a, b];
    assert s[1..] == [b] && s[0] == a;
    assert AllHaveDeck(s);
    assert SortByDeck([b]) == [b] by {
      assert [b][1..] == [];
      assert Insert(b, []) == [b];
    }
    assert Insert(a, [b]) == [a] + [b] == s;
    assert SortByDeck(s) == s;
    var g := DeckGroup(Deck(b), [b]);
    assert GroupRuns([b]) == [g] by {
      assert [b][1..] == [];
    }
    assert GroupRuns(s) == [DeckGroup(Deck(a), [a])] + [g];
    assert GroupByDeck(s) == Success(GroupRuns(SortByDeck(s)));
    var expected := [DeckGroup(Deck(a), [a]), DeckGroup(Deck(b), [b])];
    assert GroupRuns(SortByDeck(s)) == expected;
    assert GroupByDeck(s).value == expected;
    assert GroupByDeck(s) == Success(expected);
  }

  /** The example entries are grouped into deck "A" then deck "B". */
  lemma {:induction false} ExampleGroups(a: Entry, b: Entry)
    requires a == map["deck" := "A", "Front" := "hi", "Back" := "bye"]
    requires b == map["deck" := "B", "Front" := "x.mp3", "Back" := ""]
    ensures GroupByDeck([a, b]) == Success([DeckGroup("A", [a]), DeckGroup("B", [b])])
  {
    assert Deck(a) == "A" && Deck(b) == "B";
    assert StrLe("A", "B") && "A" != "B";
    TwoDecksTwoGroups(a, b);
  }

  /** A plain-text entry yields its values unchanged, in field order. */
  lemma {:induction false} ExamplePlainRow(env: MediaEnv, a: Entry)
    requires a == map["deck" := "A", "Front" := "hi", "Back" := "bye"]
    ensures RowOf(env, ["Front", "Back"], a) == ["hi", "bye"]
  {
    assert FieldValue(a, "Front") == "hi" && FieldValue(a, "Back") == "bye";
    var raw := RawValues(["Front", "Back"], a);
    assert raw == ["hi", "bye"];
    assert !AllEmpty(raw) by { assert raw[0] != ""; }
    assert '.' !in "hi" && '.' !in "bye";
    assert RewriteMedia(env, "hi") == "hi" && RewriteMedia(env, "bye") == "bye";
  }

  /** An entry naming an existing audio file yields sound markup; its empty back stays empty. */
  lemma {:induction false} ExampleSoundRow(env: MediaEnv, b: Entry)
    requires b == map["deck" := "B", "Front" := "x.mp3", "Back" := ""]
    requires "mp3" in env.audio
    requires env.fileExists(env.PathOf("x.mp3"))
    requires env.addFile(env.PathOf("x.mp3")) == "x.mp3"
    ensures RowOf(env, ["Front", "Back"], b) == ["[sound:x.mp3]", ""]
  {
    assert FieldValue(b, "Front") == "x.mp3" && FieldValue(b, "Back") == "";
    var raw := RawValues(["Front", "Back"], b);
    assert raw == ["x.mp3", ""];
    assert !AllEmpty(raw) by { assert raw[0] != ""; }
    ExampleSoundValue(env);
    assert RewriteMedia(env, "") == "";
  }

  /** The example's audio file name is rewritten to sound markup. */
  lemma {:induction false} ExampleSoundValue(env: MediaEnv)
    requires "mp3" in env.audio
    requires env.fileExists(env.PathOf("x.mp3"))
    requires env.addFile(env.PathOf("x.mp3")) == "x.mp3"
    ensures RewriteMedia(env, "x.mp3") == "[sound:x.mp3]"
  {
    ExampleExtension();
  }
}
