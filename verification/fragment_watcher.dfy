/** The fragment watcher: which fragment ids are expected, and how often each was missing or empty. */
module FragmentWatcher {

  /** The fragments of one collection of an event, by their ids. */
  datatype Collection = Collection(instanceName: string, ids: seq<int>) {

    predicate IsEmptyInstance() {
      Contains(instanceName, "Empty")
    }
  }

  predicate Contains(s: string, word: string)
    decreases |s|
  {
    |word| <= |s| && (s[..|word|] == word || (s != [] && Contains(s[1..], word)))
  }

  /** The word stands in the string at a place. */
  predicate OccursAt(s: string, word: string, at: nat) {
    at + |word| <= |s| && forall i | 0 <= i < |word| :: s[at + i] == word[i]
  }

  lemma {:induction false} ContainsMeans(s: string, word: string)
    ensures Contains(s, word) <==> exists at: nat :: OccursAt(s, word, at)
    decreases |s|
  {
    assert |word| <= |s| && s[..|word|] == word <==> OccursAt(s, word, 0);
    if s != [] {
      ContainsMeans(s[1..], word);
      forall at: nat | OccursAt(s[1..], word, at)
        ensures OccursAt(s, word, at + 1)
      {
        OccursLater(s, word, at);
      }
      forall at: nat | at > 0 && OccursAt(s, word, at)
        ensures OccursAt(s[1..], word, at - 1)
      {
        OccursLater(s, word, at - 1);
      }
    }
  }

  lemma OccursLater(s: string, word: string, at: nat)
    requires s != []
    ensures OccursAt(s[1..], word, at) <==> OccursAt(s, word, at + 1)
  {
    assert s == [s[0]] + s[1..];
  }

  /** The fragments of an instance count as empty exactly when its name has these five letters in a row. */
  lemma {:induction false} EmptyInstances(c: Collection)
    ensures c.IsEmptyInstance() <==> exists at: nat :: OccursAt(c.instanceName, ['E', 'm', 'p', 't', 'y'], at)
  {
    ContainsMeans(c.instanceName, "Empty");
    assert "Empty" == ['E', 'm', 'p', 't', 'y'];
  }

  type Event = seq<Collection>

  function SetOf(ids: seq<int>): set<int> {
    set id | id in ids
  }

  /** The distinct ids in an event. */
  function Ids(event: Event): set<int> {
    if event == [] then {} else Ids(event[..|event| - 1]) + SetOf(event[|event| - 1].ids)
  }

  function Expected(history: seq<Event>): set<int> {
    if history == [] then {} else Expected(history[..|history| - 1]) + Ids(history[|history| - 1])
  }

  /** In how many events an id seen before was absent. */
  function Missing(history: seq<Event>, id: int): nat {
    if history == [] then 0
    else
      var n := |history| - 1;
      Missing(history[..n], id) + if id in Expected(history[..n]) && id !in Ids(history[n]) then 1 else 0
  }

  function Occurrences(ids: seq<int>, id: int): nat {
    if ids == [] then 0 else Occurrences(ids[..|ids| - 1], id) + if ids[|ids| - 1] == id then 1 else 0
  }

  /** How many empty fragments with an id an event has. */
  function EmptyIn(event: Event, id: int): nat {
    if event == [] then 0
    else
      var last := event[|event| - 1];
      EmptyIn(event[..|event| - 1], id) + if last.IsEmptyInstance() then Occurrences(last.ids, id) else 0
  }

  function Empty(history: seq<Event>, id: int): nat {
    if history == [] then 0 else Empty(history[..|history| - 1], id) + EmptyIn(history[|history| - 1], id)
  }

  function EmptyFragments(event: Event): nat {
    if event == [] then 0
    else
      var last := event[|event| - 1];
      EmptyFragments(event[..|event| - 1]) + if last.IsEmptyInstance() then |last.ids| else 0
  }

  ghost predicate NamesEmpty(c: Collection) {
    exists at: nat :: OccursAt(c.instanceName, "Empty", at)
  }

  /** Where the first collections of an event have empty fragments: collection by collection, place by place. */
  ghost function EmptyPlaces(event: Event, n: nat): set<(int, int)>
    requires n <= |event|
  {
    set h, i | 0 <= h < n && 0 <= i < |event[h].ids| && NamesEmpty(event[h]) :: (h, i)
  }

  ghost function PlacesWith(event: Event, n: nat, id: int): set<(int, int)>
    requires n <= |event|
  {
    set h, i | 0 <= h < n && 0 <= i < |event[h].ids| && NamesEmpty(event[h]) && event[h].ids[i] == id :: (h, i)
  }

  ghost function Row(h: int, n: nat): set<(int, int)> {
    set i | 0 <= i < n :: (h, i)
  }

  ghost function RowWith(h: int, ids: seq<int>, id: int): set<(int, int)> {
    set i | 0 <= i < |ids| && ids[i] == id :: (h, i)
  }

  lemma {:induction false} RowIsCounted(h: int, n: nat)
    ensures |Row(h, n)| == n
  {
    if n > 0 {
      RowIsCounted(h, n - 1);
      assert Row(h, n) == Row(h, n - 1) + {(h, n - 1)};
    }
  }

  lemma {:induction false} RowWithIsCounted(h: int, ids: seq<int>, id: int)
    ensures |RowWith(h, ids, id)| == Occurrences(ids, id)
  {
    if ids != [] {
      var n := |ids| - 1;
      RowWithIsCounted(h, ids[..n], id);
      assert RowWith(h, ids, id) == RowWith(h, ids[..n], id) + if ids[n] == id then {(h, n)} else {};
    }
  }

  /** An event's count of empty fragments is that of all in collections named empty. */
  lemma {:induction false} EmptyFragmentsAreCounted(event: Event, n: nat)
    requires n <= |event|
    ensures EmptyFragments(event[..n]) == |EmptyPlaces(event, n)|
  {
    if n > 0 {
      var last := event[n - 1];
      EmptyFragmentsAreCounted(event, n - 1);
      assert event[..n][..n - 1] == event[..n - 1];
      ContainsMeans(last.instanceName, "Empty");
      RowIsCounted(n - 1, |last.ids|);
      PlacesGrow(event, n - 1, 0);
    }
  }

  /** And the count of an id is that of the fragments with it among them. */
  lemma {:induction false} EmptyWithIdAreCounted(event: Event, n: nat, id: int)
    requires n <= |event|
    ensures EmptyIn(event[..n], id) == |PlacesWith(event, n, id)|
  {
    if n > 0 {
      var last := event[n - 1];
      EmptyWithIdAreCounted(event, n - 1, id);
      assert event[..n][..n - 1] == event[..n - 1];
      ContainsMeans(last.instanceName, "Empty");
      RowWithIsCounted(n - 1, last.ids, id);
      PlacesGrow(event, n - 1, id);
    }
  }

  lemma {:induction false} PlacesGrow(event: Event, n: nat, id: int)
    requires n < |event|
    ensures |EmptyPlaces(event, n + 1)|
            == |EmptyPlaces(event, n)| + if NamesEmpty(event[n]) then |Row(n, |event[n].ids|)| else 0
    ensures |PlacesWith(event, n + 1, id)|
            == |PlacesWith(event, n, id)| + if NamesEmpty(event[n]) then |RowWith(n, event[n].ids, id)| else 0
  {
    if NamesEmpty(event[n]) {
      assert EmptyPlaces(event, n + 1) == EmptyPlaces(event, n) + Row(n, |event[n].ids|);
      assert EmptyPlaces(event, n) !! Row(n, |event[n].ids|);
      assert PlacesWith(event, n + 1, id) == PlacesWith(event, n, id) + RowWith(n, event[n].ids, id);
      assert PlacesWith(event, n, id) !! RowWith(n, event[n].ids, id);
    } else {
      assert EmptyPlaces(event, n + 1) == EmptyPlaces(event, n);
      assert PlacesWith(event, n + 1, id) == PlacesWith(event, n, id);
    }
  }

  /** The first event with an id, or the number of events when there is none. */
  function FirstWith(history: seq<Event>, id: int): nat {
    if history == [] || id in Ids(history[0]) then 0 else 1 + FirstWith(history[1..], id)
  }

  /** In how many of some events an id is absent. */
  function Absences(history: seq<Event>, id: int): nat {
    if history == [] then 0
    else
      var n := |history| - 1;
      Absences(history[..n], id) + if id in Ids(history[n]) then 0 else 1
  }

  lemma {:induction false} FirstWithIsFirst(history: seq<Event>, id: int)
    ensures FirstWith(history, id) <= |history|
    ensures FirstWith(history, id) < |history| ==> id in Ids(history[FirstWith(history, id)])
    ensures forall i | 0 <= i < FirstWith(history, id) :: id !in Ids(history[i])
  {
    if history != [] && id !in Ids(history[0]) {
      FirstWithIsFirst(history[1..], id);
      forall i | 0 <= i < FirstWith(history, id)
        ensures id !in Ids(history[i])
      {
        assert i > 0 ==> history[i] == history[1..][i - 1];
      }
    }
  }

  lemma {:induction false} ExpectedIsUnion(history: seq<Event>, id: int)
    ensures id in Expected(history) <==> exists i :: 0 <= i < |history| && id in Ids(history[i])
  {
    if history != [] {
      var n := |history| - 1;
      ExpectedIsUnion(history[..n], id);
      if i :| 0 <= i < |history| && id in Ids(history[i]) {
        assert i < n ==> history[..n][i] == history[i];
      }
      if i :| 0 <= i < n && id in Ids(history[..n][i]) {
        assert history[i] == history[..n][i];
      }
    }
  }

  lemma {:induction false} FirstWithOfPrefix(history: seq<Event>, n: nat, id: int)
    requires n <= |history|
    ensures FirstWith(history[..n], id) == if FirstWith(history, id) < n then FirstWith(history, id) else n
  {
    if n > 0 {
      assert history[..n][0] == history[0] && history[..n][1..] == history[1..][..n - 1];
      if id !in Ids(history[0]) {
        FirstWithOfPrefix(history[1..], n - 1, id);
      }
    }
  }

  /** Main result: an id is counted missing exactly in the events without it after the first one with it. */
  lemma {:induction false} MissingCountsAbsences(history: seq<Event>, id: int)
    ensures FirstWith(history, id) <= |history|
    ensures Missing(history, id) == Absences(history[FirstWith(history, id)..], id)
    decreases |history|
  {
    FirstWithIsFirst(history, id);
    if history != [] {
      var n := |history| - 1;
      MissingCountsAbsences(history[..n], id);
      FirstWithOfPrefix(history, n, id);
      SeenBefore(history, n, id);
      AbsencesNext(history, FirstWith(history, id), id);
      if FirstWith(history, id) >= n {
        assert history[..n][n..] == [];
      }
    }
  }

  /** An id is expected in an event when the first event with it came before. */
  lemma {:induction false} SeenBefore(history: seq<Event>, n: nat, id: int)
    requires n < |history|
    ensures id in Expected(history[..n]) <==> FirstWith(history, id) < n
    ensures FirstWith(history, id) == n ==> id in Ids(history[n])
  {
    FirstWithIsFirst(history, id);
    ExpectedIsUnion(history[..n], id);
    if FirstWith(history, id) < n {
      assert history[..n][FirstWith(history, id)] == history[FirstWith(history, id)];
    }
  }

  lemma {:induction false} AbsencesNext(history: seq<Event>, first: nat, id: int)
    requires history != [] && first <= |history|
    ensures var n := |history| - 1;
            Absences(history[first..], id) ==
              if first > n then 0
              else Absences(history[..n][first..], id) + if id in Ids(history[n]) then 0 else 1
  {
    var n := |history| - 1;
    if first <= n {
      assert history[first..][..n - first] == history[..n][first..];
    }
  }

  /** What is expected after an event, without what it misses, is what it has. */
  lemma {:induction false} PresentIsExpectedLessMissing(expected: set<int>, ids: set<int>)
    ensures |expected + ids| - |expected - ids| == |ids|
  {
    assert expected + ids == (expected - ids) + ids;
    assert |(expected - ids) + ids| == |expected - ids| + |ids| by {
      assert (expected - ids) !! ids;
    }
  }

  function Count(counts: map<int, nat>, id: int): nat {
    if id in counts then counts[id] else 0
  }

  function Increment(counts: map<int, nat>, id: int): map<int, nat> {
    if id !in counts then counts[id := 1] else counts[id := counts[id] + 1]
  }

  /** The map holds the nonzero counts of missing ids, and no other. */
  ghost predicate CountsMissing(counts: map<int, nat>, history: seq<Event>) {
    forall id :: Count(counts, id) == Missing(history, id) && (id in counts <==> Missing(history, id) > 0)
  }

  ghost predicate CountsEmpty(counts: map<int, nat>, history: seq<Event>) {
    forall id :: Count(counts, id) == Empty(history, id) && (id in counts <==> Empty(history, id) > 0)
  }

  lemma {:induction false} HistoryGrows(history: seq<Event>, event: Event, id: int)
    ensures Expected(history + [event]) == Expected(history) + Ids(event)
    ensures Missing(history + [event], id)
        == Missing(history, id) + if id in Expected(history) - Ids(event) then 1 else 0
    ensures Empty(history + [event], id) == Empty(history, id) + EmptyIn(event, id)
  {
    assert (history + [event])[..|history|] == history;
  }

  /** The counts of some ids went up by one. */
  ghost predicate CountedMissing(before: map<int, nat>, after: map<int, nat>, ids: set<int>) {
    forall id :: Count(after, id) == Count(before, id) + (if id in ids then 1 else 0)
                 && (id in after <==> id in before || id in ids)
  }

  /** The counts went up by the empty fragments of an event. */
  ghost predicate CountedEmpty(before: map<int, nat>, after: map<int, nat>, event: Event) {
    forall id :: Count(after, id) == Count(before, id) + EmptyIn(event, id)
                 && (id in after <==> id in before || EmptyIn(event, id) > 0)
  }

  lemma EmptyIfNoElements(s: set<int>)
    ensures (forall x :: x !in s) ==> s == {}
  {
    if forall x :: x !in s {
      assert s == {};
    }
  }

  lemma {:induction false} CountsGrow(missing: map<int, nat>, missing': map<int, nat>, empty: map<int, nat>,
                                      empty': map<int, nat>,
                                      history: seq<Event>, event: Event)
    requires CountsMissing(missing, history) && CountsEmpty(empty, history)
    requires CountedMissing(missing, missing', Expected(history) - Ids(event)) && CountedEmpty(empty, empty', event)
    ensures CountsMissing(missing', history + [event]) && CountsEmpty(empty', history + [event])
    ensures Expected(history + [event]) == Expected(history) + Ids(event)
  {
    HistoryGrows(history, event, 0);
    forall id
      ensures Count(missing', id) == Missing(history + [event], id)
      ensures id in missing' <==> Missing(history + [event], id) > 0
      ensures Count(empty', id) == Empty(history + [event], id)
      ensures id in empty' <==> Empty(history + [event], id) > 0
    {
      HistoryGrows(history, event, id);
    }
  }

  class IcarusFragmentWatcher {
    var eventsProcessed: nat
    var expectedFragmentIDs: set<int>
    var missingFragmentsByID: map<int, nat>
    var emptyFragmentsByID: map<int, nat>
    ghost var history: seq<Event>

    /** The counts state the whole history. */
    ghost predicate Valid()
      reads this
    {
      && eventsProcessed == |history|
      && expectedFragmentIDs == Expected(history)
      && CountsMissing(missingFragmentsByID, history)
      && CountsEmpty(emptyFragmentsByID, history)
    }

    constructor ()
      ensures Valid() && history == []
    {
      eventsProcessed, expectedFragmentIDs, missingFragmentsByID, emptyFragmentsByID := 0, {}, map[], map[];
      history := [];
    }

    /** analyze: the number of distinct ids in the event, of expected ids it misses, and of its empty fragments. */
    method Analyze(event: Event) returns (total: int, missing: nat, empty: nat)
      requires Valid()
      modifies this
      ensures Valid() && history == old(history) + [event]
      ensures total == |Ids(event)| && missing == |Expected(old(history)) - Ids(event)|
          && empty == EmptyFragments(event)
    {
      ghost var past, before, beforeEmpty := history, missingFragmentsByID, emptyFragmentsByID;
      eventsProcessed := eventsProcessed + 1;
      var missingIDs := InsertExpected(event);
      CountMissing(missingIDs);
      empty := CountEmpty(event);
      total, missing := Summary(missingIDs, Expected(past), Ids(event));
      ghost var after, afterEmpty := missingFragmentsByID, emptyFragmentsByID;
      CountsGrow(before, after, beforeEmpty, afterEmpty, past, event);
      history := past + [event];
    }

    /** The counts reported for one event. */
    method Summary(missingIDs: set<int>, ghost expected: set<int>, ghost ids: set<int>)
        returns (total: int, missing: nat)
      requires expectedFragmentIDs == expected + ids && missingIDs == expected - ids
      ensures total == |ids| && missing == |missingIDs|
    {
      PresentIsExpectedLessMissing(expected, ids);
      missing := |missingIDs|;
      total := |expectedFragmentIDs| - missing;
    }

    /** Adds the event's ids to the expected ones; returns the expected ids it lacks. */
    method InsertExpected(event: Event) returns (missingIDs: set<int>)
      modifies `expectedFragmentIDs
      ensures expectedFragmentIDs == old(expectedFragmentIDs) + Ids(event)
      ensures missingIDs == old(expectedFragmentIDs) - Ids(event)
    {
      missingIDs := expectedFragmentIDs;
      for h := 0 to |event|
        invariant expectedFragmentIDs == old(expectedFragmentIDs) + Ids(event[..h])
        invariant missingIDs == old(expectedFragmentIDs) - Ids(event[..h])
      {
        var ids := event[h].ids;
        assert event[..h + 1][..h] == event[..h];
        for i := 0 to |ids|
          invariant expectedFragmentIDs == old(expectedFragmentIDs) + Ids(event[..h]) + SetOf(ids[..i])
          invariant missingIDs == old(expectedFragmentIDs) - Ids(event[..h]) - SetOf(ids[..i])
        {
          assert SetOf(ids[..i + 1]) == SetOf(ids[..i]) + {ids[i]} by {
            assert ids[..i + 1] == ids[..i] + [ids[i]];
          }
          expectedFragmentIDs := expectedFragmentIDs + {ids[i]};
          missingIDs := missingIDs - {ids[i]};
        }
        assert ids[..|ids|] == ids;
      }
      assert event[..|event|] == event;
    }

    method CountMissing(missingIDs: set<int>)
      modifies `missingFragmentsByID
      ensures CountedMissing(old(missingFragmentsByID), missingFragmentsByID, missingIDs)
    {
      var rest := missingIDs;
      while rest != {}
        invariant rest <= missingIDs
        invariant CountedMissing(old(missingFragmentsByID), missingFragmentsByID, missingIDs - rest)
      {
        EmptyIfNoElements(rest);
        var id :| id in rest;
        missingFragmentsByID := Increment(missingFragmentsByID, id);
        rest := rest - {id};
      }
    }

    method CountEmpty(event: Event) returns (empty: nat)
      modifies `emptyFragmentsByID
      ensures empty == EmptyFragments(event)
      ensures CountedEmpty(old(emptyFragmentsByID), emptyFragmentsByID, event)
    {
      empty := 0;
      for h := 0 to |event|
        invariant empty == EmptyFragments(event[..h])
        invariant CountedEmpty(old(emptyFragmentsByID), emptyFragmentsByID, event[..h])
      {
        assert event[..h + 1][..h] == event[..h];
        if event[h].IsEmptyInstance() {
          empty := empty + |event[h].ids|;
          CountEmptyOf(event[h].ids);
        }
      }
      assert event[..|event|] == event;
    }

    method CountEmptyOf(ids: seq<int>)
      modifies `emptyFragmentsByID
      ensures forall id :: Count(emptyFragmentsByID, id) == Count(old(emptyFragmentsByID), id) + Occurrences(ids, id)
      ensures forall id :: id in emptyFragmentsByID <==> id in old(emptyFragmentsByID) || Occurrences(ids, id) > 0
    {
      for i := 0 to |ids|
        invariant forall id ::
                    Count(emptyFragmentsByID, id) == Count(old(emptyFragmentsByID), id) + Occurrences(ids[..i], id)
        invariant forall id ::
                    id in emptyFragmentsByID <==> id in old(emptyFragmentsByID) || Occurrences(ids[..i], id) > 0
      {
        assert ids[..i + 1][..i] == ids[..i];
        emptyFragmentsByID := Increment(emptyFragmentsByID, ids[i]);
      }
      assert ids[..|ids|] == ids;
    }
  }
}
