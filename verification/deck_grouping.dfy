/**
 * Deck grouping of `import_from_json`: the entries are sorted by their
 * `deck` value (a stable sort) and then split into runs of equal deck
 * names, as `itertools.groupby` does.
 */
module DeckGrouping {
  import opened Wrappers
  import opened Text
  import opened JsonImporter

  /** The key naming an entry's destination deck. */
  const DeckKey: string := "deck"

  /** The lookup `e['deck']` failing on some entry. */
  datatype ImportError = MissingKey(key: string)

  /** One `groupby` run: a deck name and the entries bound for it. */
  datatype DeckGroup = DeckGroup(deck: string, entries: seq<Entry>)

  predicate HasDeck(e: Entry) {
    DeckKey in e
  }

  predicate AllHaveDeck(s: seq<Entry>) {
    forall i :: 0 <= i < |s| ==> HasDeck(s[i])
  }

  function Deck(e: Entry): string
    requires HasDeck(e)
  {
    e[DeckKey]
  }

  predicate SortedByDeck(s: seq<Entry>)
    requires AllHaveDeck(s)
  {
    forall i, j :: 0 <= i < j < |s| ==> StrLe(Deck(s[i]), Deck(s[j]))
  }

  /** The entries of `s` bound for deck `d`, in their order in `s`. */
  function OfDeck(s: seq<Entry>, d: string): seq<Entry>
    requires AllHaveDeck(s)
  {
    if |s| == 0 then []
    else (if Deck(s[0]) == d then [s[0]] else []) + OfDeck(s[1..], d)
  }

  lemma {:induction false} OfDeckAppend(a: seq<Entry>, b: seq<Entry>, d: string)
    requires AllHaveDeck(a) && AllHaveDeck(b)
    ensures AllHaveDeck(a + b)
    ensures OfDeck(a + b, d) == OfDeck(a, d) + OfDeck(b, d)
  {
    if |a| > 0 {
      assert (a + b)[1..] == a[1..] + b;
      OfDeckAppend(a[1..], b, d);
    } else {
      assert a + b == b;
    }
  }

  /** Every entry of `s` is bound for a deck no smaller than `d`. */
  predicate BoundBelow(d: string, s: seq<Entry>)
    requires AllHaveDeck(s)
  {
    forall j :: 0 <= j < |s| ==> StrLe(d, Deck(s[j]))
  }

  lemma {:induction false} SortedCons(x: Entry, t: seq<Entry>)
    requires HasDeck(x) && AllHaveDeck(t) && SortedByDeck(t) && BoundBelow(Deck(x), t)
    ensures AllHaveDeck([x] + t) && SortedByDeck([x] + t)
  {
    var r := [x] + t;
    assert forall j :: 1 <= j < |r| ==> r[j] == t[j - 1];
  }

  lemma {:induction false} SortedTail(s: seq<Entry>)
    requires AllHaveDeck(s) && SortedByDeck(s) && |s| > 0
    ensures s == [s[0]] + s[1..]
    ensures AllHaveDeck(s[1..]) && SortedByDeck(s[1..]) && BoundBelow(Deck(s[0]), s[1..])
  {
  }

  lemma {:induction false} BoundBelowWeaken(d: string, d': string, s: seq<Entry>)
    requires AllHaveDeck(s) && StrLe(d, d') && BoundBelow(d', s)
    ensures BoundBelow(d, s)
  {
    forall j | 0 <= j < |s|
      ensures StrLe(d, Deck(s[j]))
    {
      StrLeTransitive(d, d', Deck(s[j]));
    }
  }

  /** A bound below holds of a permutation of the entries plus one more entry it also bounds. */
  lemma {:induction false} BoundBelowAdd(d: string, s: seq<Entry>, e: Entry, t: seq<Entry>)
    requires AllHaveDeck(s) && AllHaveDeck(t) && HasDeck(e)
    requires BoundBelow(d, s) && StrLe(d, Deck(e))
    requires multiset(t) == multiset(s) + multiset{e}
    ensures BoundBelow(d, t)
  {
    forall j | 0 <= j < |t|
      ensures StrLe(d, Deck(t[j]))
    {
      assert t[j] in multiset(t);
      if t[j] != e {
        assert t[j] in multiset(s);
        var i :| 0 <= i < |s| && s[i] == t[j];
      }
    }
  }

  /** Inserting `e` in front of the first entry whose deck is not smaller. */
  function Insert(e: Entry, s: seq<Entry>): (r: seq<Entry>)
    requires HasDeck(e) && AllHaveDeck(s) && SortedByDeck(s)
    ensures AllHaveDeck(r) && SortedByDeck(r)
    ensures multiset(r) == multiset(s) + multiset{e}
  {
    if |s| == 0 then [e]
    else
      SortedTail(s);
      if StrLe(Deck(e), Deck(s[0])) then
        BoundBelowWeaken(Deck(e), Deck(s[0]), s[1..]);
        assert BoundBelow(Deck(e), s);
        SortedCons(e, s);
        [e] + s
      else
        StrLeTotal(Deck(e), Deck(s[0]));
        var t := Insert(e, s[1..]);
        BoundBelowAdd(Deck(s[0]), s[1..], e, t);
        SortedCons(s[0], t);
        [s[0]] + t
  }

  lemma {:induction false} OfDeckCons(x: Entry, t: seq<Entry>, d: string)
    requires HasDeck(x) && AllHaveDeck(t)
    ensures AllHaveDeck([x] + t)
    ensures OfDeck([x] + t, d) == (if Deck(x) == d then [x] else []) + OfDeck(t, d)
  {
    assert ([x] + t)[1..] == t;
  }

  /** Inserting keeps the order of every deck's entries and puts `e` before its deck-mates. */
  lemma {:induction false} InsertStable(e: Entry, s: seq<Entry>, d: string)
    requires HasDeck(e) && AllHaveDeck(s) && SortedByDeck(s)
    ensures OfDeck(Insert(e, s), d) == (if Deck(e) == d then [e] else []) + OfDeck(s, d)
  {
    if |s| > 0 {
      if StrLe(Deck(e), Deck(s[0])) {
        OfDeckCons(e, s, d);
      } else {
        StrLeReflexive(Deck(e));
        var t := Insert(e, s[1..]);
        InsertStable(e, s[1..], d);
        OfDeckCons(s[0], t, d);
        OfDeckCons(s[0], s[1..], d);
        assert s == [s[0]] + s[1..];
      }
    }
  }

  /** The stable sort of the entries by deck name (Python's `sorted` with the deck as key). */
  function SortByDeck(s: seq<Entry>): (r: seq<Entry>)
    requires AllHaveDeck(s)
    ensures AllHaveDeck(r) && SortedByDeck(r)
    ensures multiset(r) == multiset(s)
    ensures |r| == |s|
  {
    if |s| == 0 then []
    else
      assert s == [s[0]] + s[1..];
      Insert(s[0], SortByDeck(s[1..]))
  }

  /** The sort is stable: every deck's entries keep their input order. */
  lemma {:induction false} SortStable(s: seq<Entry>, d: string)
    requires AllHaveDeck(s)
    ensures OfDeck(SortByDeck(s), d) == OfDeck(s, d)
  {
    if |s| > 0 {
      SortStable(s[1..], d);
      InsertStable(s[0], SortByDeck(s[1..]), d);
    }
  }

  /** The entries of the groups, one group after the other. */
  function Flatten(gs: seq<DeckGroup>): seq<Entry> {
    if |gs| == 0 then [] else gs[0].entries + Flatten(gs[1..])
  }

  lemma {:induction false} FlattenSnoc(gs: seq<DeckGroup>, g: DeckGroup)
    ensures Flatten(gs + [g]) == Flatten(gs) + g.entries
  {
    if |gs| == 0 {
      assert gs + [g] == [g];
    } else {
      assert (gs + [g])[1..] == gs[1..] + [g];
      FlattenSnoc(gs[1..], g);
    }
  }

  /** A non-empty run of entries all bound for its deck. */
  predicate GoodGroup(g: DeckGroup) {
    && g.entries != []
    && AllHaveDeck(g.entries)
    && forall j :: 0 <= j < |g.entries| ==> Deck(g.entries[j]) == g.deck
  }

  /** Every group is a non-empty run of entries all bound for the group's deck. */
  predicate WellFormed(gs: seq<DeckGroup>) {
    forall k :: 0 <= k < |gs| ==> GoodGroup(gs[k])
  }

  /** Neighbouring groups are bound for different decks. */
  predicate NeighboursDiffer(gs: seq<DeckGroup>) {
    forall k :: 0 <= k < |gs| - 1 ==> gs[k].deck != gs[k + 1].deck
  }

  lemma {:induction false} FlattenCons(g: DeckGroup, gs: seq<DeckGroup>)
    ensures Flatten([g] + gs) == g.entries + Flatten(gs)
  {
    assert ([g] + gs)[1..] == gs;
  }

  lemma {:induction false} JoinRunFlatten(x: Entry, d: string, rest: seq<DeckGroup>)
    requires |rest| > 0
    ensures Flatten([DeckGroup(d, [x] + rest[0].entries)] + rest[1..]) == [x] + Flatten(rest)
  {
    var tail := rest[1..];
    var r0 := rest[0].entries;
    FlattenCons(DeckGroup(d, [x] + r0), tail);
    assert Flatten(rest) == r0 + Flatten(tail);
  }

  lemma {:induction false} JoinRunGood(x: Entry, g: DeckGroup)
    requires HasDeck(x) && GoodGroup(g) && g.deck == Deck(x)
    ensures GoodGroup(DeckGroup(Deck(x), [x] + g.entries))
  {
    var e := [x] + g.entries;
    assert forall j :: 1 <= j < |e| ==> e[j] == g.entries[j - 1];
  }

  /** Prepending an entry to the first run, which is bound for the entry's deck. */
  lemma {:induction false} JoinRun(x: Entry, rest: seq<DeckGroup>)
    requires HasDeck(x) && |rest| > 0 && rest[0].deck == Deck(x)
    requires WellFormed(rest) && NeighboursDiffer(rest)
    ensures var gs := [DeckGroup(Deck(x), [x] + rest[0].entries)] + rest[1..];
            && WellFormed(gs) && NeighboursDiffer(gs)
            && Flatten(gs) == [x] + Flatten(rest)
  {
    var g := DeckGroup(Deck(x), [x] + rest[0].entries);
    var gs := [g] + rest[1..];
    JoinRunGood(x, rest[0]);
    assert forall k :: 1 <= k < |gs| ==> gs[k] == rest[k];
    JoinRunFlatten(x, Deck(x), rest);
  }

  /** Starting a new run with an entry whose deck differs from the first run's. */
  lemma {:induction false} StartRun(x: Entry, rest: seq<DeckGroup>)
    requires HasDeck(x) && (|rest| > 0 ==> rest[0].deck != Deck(x))
    requires WellFormed(rest) && NeighboursDiffer(rest)
    ensures var gs := [DeckGroup(Deck(x), [x])] + rest;
            && WellFormed(gs) && NeighboursDiffer(gs)
            && Flatten(gs) == [x] + Flatten(rest)
  {
    var g := DeckGroup(Deck(x), [x]);
    var gs := [g] + rest;
    assert forall k :: 1 <= k < |gs| ==> gs[k] == rest[k - 1];
    FlattenCons(g, rest);
  }

  /** `itertools.groupby` on the deck: maximal runs of consecutive entries with equal deck names. */
  function GroupRuns(s: seq<Entry>): (gs: seq<DeckGroup>)
    requires AllHaveDeck(s)
    ensures |gs| <= |s|
    ensures |s| > 0 ==> |gs| > 0 && gs[0].deck == Deck(s[0])
    ensures WellFormed(gs)
    ensures NeighboursDiffer(gs)
    ensures Flatten(gs) == s
  {
    if |s| == 0 then []
    else
      var rest := GroupRuns(s[1..]);
      assert s == [s[0]] + s[1..];
      if |rest| > 0 && rest[0].deck == Deck(s[0]) then
        JoinRun(s[0], rest);
        [DeckGroup(Deck(s[0]), [s[0]] + rest[0].entries)] + rest[1..]
      else
        StartRun(s[0], rest);
        [DeckGroup(Deck(s[0]), [s[0]])] + rest
  }

  /** Groups in strictly ascending deck order. */
  predicate Ascending(gs: seq<DeckGroup>) {
    forall i, j :: 0 <= i < j < |gs| ==> StrLt(gs[i].deck, gs[j].deck)
  }

  /** Each group's deck is smaller than the next group's. */
  predicate StepAscending(gs: seq<DeckGroup>) {
    forall k :: 0 <= k < |gs| - 1 ==> StrLt(gs[k].deck, gs[k + 1].deck)
  }

  /** Ascending step by step is ascending throughout. */
  lemma {:induction false} StepAscendingIsAscending(gs: seq<DeckGroup>)
    requires StepAscending(gs)
    ensures Ascending(gs)
  {
    if |gs| > 1 {
      StepAscendingIsAscending(gs[1..]);
      forall i, j | 0 <= i < j < |gs|
        ensures StrLt(gs[i].deck, gs[j].deck)
      {
        if i == 0 && j > 1 {
          assert gs[1..][0] == gs[1] && gs[1..][j - 1] == gs[j];
          StrLtTransitive(gs[0].deck, gs[1].deck, gs[j].deck);
        } else if i > 0 {
          assert gs[1..][i - 1] == gs[i] && gs[1..][j - 1] == gs[j];
        }
      }
    }
  }

  /** On sorted entries each run's deck is smaller than the next run's. */
  lemma {:induction false} GroupRunsStepAscending(s: seq<Entry>)
    requires AllHaveDeck(s) && SortedByDeck(s)
    ensures StepAscending(GroupRuns(s))
  {
    if |s| > 1 {
      var rest := GroupRuns(s[1..]);
      GroupRunsStepAscending(s[1..]);
      var gs := GroupRuns(s);
      if rest[0].deck == Deck(s[0]) {
        assert gs[0].deck == rest[0].deck;
        assert forall j :: 1 <= j < |gs| ==> gs[j] == rest[j];
      } else {
        assert StrLe(Deck(s[0]), Deck(s[1]));
        assert s[1..][0] == s[1];
        assert forall j :: 1 <= j < |gs| ==> gs[j] == rest[j - 1];
      }
    }
  }

  /** On sorted entries the runs come in strictly ascending deck order. */
  lemma {:induction false} GroupRunsAscending(s: seq<Entry>)
    requires AllHaveDeck(s) && SortedByDeck(s)
    ensures Ascending(GroupRuns(s))
  {
    GroupRunsStepAscending(s);
    StepAscendingIsAscending(GroupRuns(s));
  }

  /** A run of entries all bound for deck `d` is its own selection for `d`, and empty for any other deck. */
  lemma {:induction false} OfDeckUniform(s: seq<Entry>, d: string, d': string)
    requires AllHaveDeck(s)
    requires forall j :: 0 <= j < |s| ==> Deck(s[j]) == d
    ensures OfDeck(s, d') == if d == d' then s else []
  {
    if |s| > 0 {
      OfDeckUniform(s[1..], d, d');
      assert s == [s[0]] + s[1..];
    }
  }

  /** Selecting deck `d` from well-formed groups with distinct decks yields the group of `d`. */
  lemma {:induction false} OfDeckFlatten(gs: seq<DeckGroup>, d: string)
    requires WellFormed(gs)
    requires forall i, j :: 0 <= i < j < |gs| ==> gs[i].deck != gs[j].deck
    ensures AllHaveDeck(Flatten(gs))
    ensures forall k :: 0 <= k < |gs| && gs[k].deck == d ==> OfDeck(Flatten(gs), d) == gs[k].entries
    ensures (forall k :: 0 <= k < |gs| ==> gs[k].deck != d) ==> OfDeck(Flatten(gs), d) == []
  {
    if |gs| > 0 {
      OfDeckFlatten(gs[1..], d);
      OfDeckUniform(gs[0].entries, gs[0].deck, d);
      OfDeckAppend(gs[0].entries, Flatten(gs[1..]), d);
      if gs[0].deck == d {
        assert forall k :: 0 <= k < |gs| - 1 ==> gs[1..][k].deck != d by {
          forall k | 0 <= k < |gs| - 1
            ensures gs[1..][k].deck != d
          {
            assert gs[1..][k] == gs[k + 1];
          }
        }
      } else {
        forall k | 0 <= k < |gs| && gs[k].deck == d
          ensures OfDeck(Flatten(gs), d) == gs[k].entries
        {
          assert gs[k] == gs[1..][k - 1];
        }
      }
    } else {
      assert AllHaveDeck(Flatten(gs));
    }
  }

  /** The entries of a group are among the flattened entries. */
  lemma {:induction false} InGroupInFlatten(gs: seq<DeckGroup>, k: nat, x: Entry)
    requires k < |gs| && x in gs[k].entries
    ensures x in Flatten(gs)
  {
    if k > 0 {
      InGroupInFlatten(gs[1..], k - 1, x);
    }
  }

  /** Every entry of the flattened groups lies in some group. */
  lemma {:induction false} InFlattenInGroup(gs: seq<DeckGroup>, x: Entry)
    requires x in Flatten(gs)
    ensures exists k :: 0 <= k < |gs| && x in gs[k].entries
  {
    if x !in gs[0].entries {
      InFlattenInGroup(gs[1..], x);
      var k :| 0 <= k < |gs| - 1 && x in gs[1..][k].entries;
      assert gs[k + 1] == gs[1..][k];
    }
  }

  /**
   * Deck grouping of `import_from_json`: fails when some entry has no deck
   * key (the key of every entry is computed for the sort); otherwise the
   * runs of the deck-sorted entries.
   */
  function GroupByDeck(entries: seq<Entry>): (r: Result<seq<DeckGroup>, ImportError>)
    ensures r.Failure? <==> exists i :: 0 <= i < |entries| && DeckKey !in entries[i]
    ensures r.Failure? ==> r.error == MissingKey(DeckKey)
    ensures r.Success? ==> WellFormed(r.value) && |r.value| <= |entries|
  {
    if AllHaveDeck(entries) then Success(GroupRuns(SortByDeck(entries)))
    else Failure(MissingKey(DeckKey))
  }

  /** Each group holds exactly the entries bound for its deck, in input order. */
  lemma {:induction false} GroupsSelectByDeck(entries: seq<Entry>)
    requires AllHaveDeck(entries)
    ensures var gs := GroupRuns(SortByDeck(entries));
            forall k :: 0 <= k < |gs| ==> gs[k].entries == OfDeck(entries, gs[k].deck)
  {
    var sorted := SortByDeck(entries);
    var gs := GroupRuns(sorted);
    GroupRunsAscending(sorted);
    forall k | 0 <= k < |gs|
      ensures gs[k].entries == OfDeck(entries, gs[k].deck)
    {
      OfDeckFlatten(gs, gs[k].deck);
      SortStable(entries, gs[k].deck);
    }
  }

  /** The entries of the flattened groups are exactly the entries of the groups. */
  lemma {:induction false} FlattenMembers(gs: seq<DeckGroup>)
    ensures forall x :: x in Flatten(gs) ==> exists k :: 0 <= k < |gs| && x in gs[k].entries
    ensures forall k, x :: 0 <= k < |gs| && x in gs[k].entries ==> x in Flatten(gs)
  {
    forall x | x in Flatten(gs)
      ensures exists k :: 0 <= k < |gs| && x in gs[k].entries
    {
      InFlattenInGroup(gs, x);
    }
    forall k, x | 0 <= k < |gs| && x in gs[k].entries
      ensures x in Flatten(gs)
    {
      InGroupInFlatten(gs, k, x);
    }
  }

  /** Well-formed groups in strictly ascending deck order share no entry. */
  lemma {:induction false} AscendingGroupsDisjoint(gs: seq<DeckGroup>)
    requires WellFormed(gs) && Ascending(gs)
    ensures forall j, k, x :: (0 <= j < |gs| && 0 <= k < |gs|
              && x in gs[j].entries && x in gs[k].entries) ==> j == k
  {
    forall j, k, x | 0 <= j < |gs| && 0 <= k < |gs| && x in gs[j].entries && x in gs[k].entries
      ensures j == k
    {
      var a :| 0 <= a < |gs[j].entries| && gs[j].entries[a] == x;
      var b :| 0 <= b < |gs[k].entries| && gs[k].entries[b] == x;
      assert gs[j].deck == gs[k].deck;
    }
  }

  /**
   * Every entry lies in exactly one group: each entry of `entries` is in
   * some group, each group's entries come from `entries`, and no entry is
   * in two groups.
   */
  predicate EachInOneGroup(entries: seq<Entry>, gs: seq<DeckGroup>) {
    && (forall x :: x in entries ==> exists k :: 0 <= k < |gs| && x in gs[k].entries)
    && (forall k, x :: 0 <= k < |gs| && x in gs[k].entries ==> x in entries)
    && (forall j, k, x :: (0 <= j < |gs| && 0 <= k < |gs|
          && x in gs[j].entries && x in gs[k].entries) ==> j == k)
  }

  /**
   * Well-formed groups in strictly ascending deck order whose concatenation
   * is a permutation of `entries` place every entry in exactly one group.
   */
  lemma {:induction false} PartitionMembers(entries: seq<Entry>, gs: seq<DeckGroup>)
    requires WellFormed(gs) && Ascending(gs)
    requires multiset(Flatten(gs)) == multiset(entries)
    ensures EachInOneGroup(entries, gs)
  {
    FlattenMembers(gs);
    forall x | x in entries
      ensures exists k :: 0 <= k < |gs| && x in gs[k].entries
    {
      assert x in multiset(entries);
      assert x in multiset(Flatten(gs));
      assert x in Flatten(gs);
    }
    forall k, x | 0 <= k < |gs| && x in gs[k].entries
      ensures x in entries
    {
      assert x in Flatten(gs);
      assert x in multiset(Flatten(gs));
      assert x in multiset(entries);
    }
    AscendingGroupsDisjoint(gs);
  }

  /** Deck grouping places every entry in exactly one group. */
  lemma {:induction false} EachEntryInOneGroup(entries: seq<Entry>)
    requires AllHaveDeck(entries)
    ensures EachInOneGroup(entries, GroupRuns(SortByDeck(entries)))
  {
    var sorted := SortByDeck(entries);
    GroupRunsAscending(sorted);
    PartitionMembers(entries, GroupRuns(sorted));
  }

  /** The deck names the entries of `s` carry. */
  function DecksOf(s: seq<Entry>): set<string>
    requires AllHaveDeck(s)
  {
    set i | 0 <= i < |s| :: Deck(s[i])
  }

  /** The deck names of the groups. */
  function GroupDecks(gs: seq<DeckGroup>): set<string> {
    set k | 0 <= k < |gs| :: gs[k].deck
  }

  lemma {:induction false} DecksOfPermutation(a: seq<Entry>, b: seq<Entry>)
    requires AllHaveDeck(a) && AllHaveDeck(b)
    requires multiset(a) == multiset(b)
    ensures DecksOf(a) == DecksOf(b)
  {
    forall d | d in DecksOf(a)
      ensures d in DecksOf(b)
    {
      var i :| 0 <= i < |a| && Deck(a[i]) == d;
      assert a[i] in multiset(b);
      var j :| 0 <= j < |b| && b[j] == a[i];
    }
    forall d | d in DecksOf(b)
      ensures d in DecksOf(a)
    {
      var j :| 0 <= j < |b| && Deck(b[j]) == d;
      assert b[j] in multiset(a);
      var i :| 0 <= i < |a| && a[i] == b[j];
    }
  }

  lemma {:induction false} DecksOfAppend(a: seq<Entry>, b: seq<Entry>)
    requires AllHaveDeck(a) && AllHaveDeck(b)
    ensures AllHaveDeck(a + b)
    ensures DecksOf(a + b) == DecksOf(a) + DecksOf(b)
  {
    forall d | d in DecksOf(a + b)
      ensures d in DecksOf(a) + DecksOf(b)
    {
      var i :| 0 <= i < |a + b| && Deck((a + b)[i]) == d;
      if i >= |a| {
        assert (a + b)[i] == b[i - |a|];
      }
    }
    forall d | d in DecksOf(a)
      ensures d in DecksOf(a + b)
    {
      var i :| 0 <= i < |a| && Deck(a[i]) == d;
      assert (a + b)[i] == a[i];
    }
    forall d | d in DecksOf(b)
      ensures d in DecksOf(a + b)
    {
      var j :| 0 <= j < |b| && Deck(b[j]) == d;
      assert (a + b)[|a| + j] == b[j];
    }
  }

  /** The groups' decks are the decks of their entries. */
  lemma {:induction false} GroupDecksAreFlattenDecks(gs: seq<DeckGroup>)
    requires WellFormed(gs)
    ensures AllHaveDeck(Flatten(gs))
    ensures GroupDecks(gs) == DecksOf(Flatten(gs))
  {
    if |gs| == 0 {
    } else {
      var g := gs[0];
      GroupDecksAreFlattenDecks(gs[1..]);
      DecksOfAppend(g.entries, Flatten(gs[1..]));
      assert DecksOf(g.entries) == {g.deck} by {
        assert Deck(g.entries[0]) == g.deck;
      }
      assert GroupDecks(gs) == {g.deck} + GroupDecks(gs[1..]) by {
        forall k | 1 <= k < |gs|
          ensures gs[k] == gs[1..][k - 1]
        {
        }
        forall k | 0 <= k < |gs| - 1
          ensures gs[1..][k] == gs[k + 1]
        {
        }
      }
    }
  }

  /** The decks of the groups are exactly the decks the entries name. */
  lemma {:induction false} GroupDecksAreEntryDecks(entries: seq<Entry>)
    requires AllHaveDeck(entries)
    ensures GroupDecks(GroupRuns(SortByDeck(entries))) == DecksOf(entries)
  {
    var sorted := SortByDeck(entries);
    GroupDecksAreFlattenDecks(GroupRuns(sorted));
    DecksOfPermutation(sorted, entries);
  }

  /**
   * The grouping is a partition of the entries by deck: groups come in
   * strictly ascending deck order; each group holds exactly the entries
   * bound for its deck, in input order; the groups' decks are exactly the
   * decks the entries name; and the groups concatenate to the sorted entries.
   */
  lemma {:induction false} GroupByDeckPartitions(entries: seq<Entry>)
    requires AllHaveDeck(entries)
    ensures GroupByDeck(entries).Success?
    ensures var gs := GroupByDeck(entries).value;
      && Ascending(gs)
      && (forall k :: 0 <= k < |gs| ==> gs[k].entries != [] && gs[k].entries == OfDeck(entries, gs[k].deck))
      && GroupDecks(gs) == DecksOf(entries)
      && Flatten(gs) == SortByDeck(entries)
      && multiset(Flatten(gs)) == multiset(entries)
  {
    GroupRunsAscending(SortByDeck(entries));
    GroupsSelectByDeck(entries);
    GroupDecksAreEntryDecks(entries);
  }
}
