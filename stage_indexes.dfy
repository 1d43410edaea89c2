/** The two indexes of the timer store, `starterOnStage` and `finishedStarter`, as a
    value; the primitive updates that the actions and the live handlers apply to
    them; and the bulk rebuild from fetched timetable entries. */
module StageIndexes {
  import opened TimerTypes

  /** `onStage` maps a start number to the id of its open entry; `finished` maps a
      start number to the ids of its finished entries. */
  datatype TimingIndex = TimingIndex(onStage: map<StartNumber, EntryId>, finished: map<StartNumber, seq<EntryId>>)

  const Empty: TimingIndex := TimingIndex(map[], map[])

  /** A number that has a key in `finished` has at least one id under it. */
  ghost predicate WellFormed(ix: TimingIndex) {
    forall sn :: sn in ix.finished ==> ix.finished[sn] != []
  }

  /** `finishedStarter[sn]?.length || 0`. */
  function FinishedCount(finished: map<StartNumber, seq<EntryId>>, sn: StartNumber): nat {
    if sn in finished then |finished[sn]| else 0
  }

  /** In a well-formed index a number has a positive finished count exactly when it
      has a finished key. */
  lemma FinishedCountPositiveIffKey(ix: TimingIndex, sn: StartNumber)
    requires WellFormed(ix)
    ensures FinishedCount(ix.finished, sn) > 0 <==> sn in ix.finished
  {
  }

  /** Records `id` as the open entry of `sn`, replacing any earlier one. */
  function SetOpen(ix: TimingIndex, sn: StartNumber, id: EntryId): (r: TimingIndex)
    ensures r.onStage.Keys == ix.onStage.Keys + {sn} && r.onStage[sn] == id
    ensures forall k :: k in ix.onStage && k != sn ==> r.onStage[k] == ix.onStage[k]
    ensures r.finished == ix.finished
  {
    ix.(onStage := ix.onStage[sn := id])
  }

  /** Removes the key `sn` from the on-stage index. */
  function ClearOpen(ix: TimingIndex, sn: StartNumber): (r: TimingIndex)
    ensures r.onStage.Keys == ix.onStage.Keys - {sn}
    ensures forall k :: k in r.onStage ==> r.onStage[k] == ix.onStage[k]
    ensures r.finished == ix.finished
  {
    ix.(onStage := ix.onStage - {sn})
  }

  /** Appends `id` to the finished ids of `sn`, creating the key if absent. */
  function AppendFinished(ix: TimingIndex, sn: StartNumber, id: EntryId): (r: TimingIndex)
    ensures r.finished.Keys == ix.finished.Keys + {sn}
    ensures r.finished[sn] == (if sn in ix.finished then ix.finished[sn] else []) + [id]
    ensures FinishedCount(r.finished, sn) == FinishedCount(ix.finished, sn) + 1
    ensures forall k :: k in ix.finished && k != sn ==> r.finished[k] == ix.finished[k]
    ensures r.onStage == ix.onStage
  {
    var prev := if sn in ix.finished then ix.finished[sn] else [];
    ix.(finished := ix.finished[sn := prev + [id]])
  }

  /** Overwrites the finished ids of `sn` with the single id `id`. */
  function ReplaceFinished(ix: TimingIndex, sn: StartNumber, id: EntryId): (r: TimingIndex)
    ensures r.finished.Keys == ix.finished.Keys + {sn} && r.finished[sn] == [id]
    ensures FinishedCount(r.finished, sn) == 1
    ensures forall k :: k in ix.finished && k != sn ==> r.finished[k] == ix.finished[k]
    ensures r.onStage == ix.onStage
  {
    ix.(finished := ix.finished[sn := [id]])
  }

  // ---------------------------------------------------------------------------
  // Live timetable events and their idempotence

  /** A create event and a delete event leave the same index whether applied once or twice. */
  lemma CreateAndDeleteEventsIdempotent(ix: TimingIndex, sn: StartNumber, id: EntryId)
    ensures SetOpen(SetOpen(ix, sn, id), sn, id) == SetOpen(ix, sn, id)
    ensures ClearOpen(ClearOpen(ix, sn), sn) == ClearOpen(ix, sn)
  {
  }

  /** The update event (append, then clear) is idempotent on the on-stage index but
      not on the finished index: a second delivery appends the same id again. */
  lemma UpdateEventCountsEveryDelivery(ix: TimingIndex, sn: StartNumber, id: EntryId)
    ensures var once := ClearOpen(AppendFinished(ix, sn, id), sn);
            var twice := ClearOpen(AppendFinished(once, sn, id), sn);
            twice.onStage == once.onStage
            && FinishedCount(twice.finished, sn) == FinishedCount(ix.finished, sn) + 2
            && twice != once
  {
    var once := ClearOpen(AppendFinished(ix, sn, id), sn);
    var twice := ClearOpen(AppendFinished(once, sn, id), sn);
    assert FinishedCount(twice.finished, sn) != FinishedCount(once.finished, sn);
  }

  /** Every primitive keeps the index well formed. */
  lemma PrimitivesPreserveWellFormed(ix: TimingIndex, sn: StartNumber, id: EntryId)
    requires WellFormed(ix)
    ensures WellFormed(SetOpen(ix, sn, id)) && WellFormed(ClearOpen(ix, sn))
    ensures WellFormed(AppendFinished(ix, sn, id)) && WellFormed(ReplaceFinished(ix, sn, id))
  {
  }

  // ---------------------------------------------------------------------------
  // Bulk rebuild from fetched entries

  predicate IsOpenFor(e: Entry, sn: StartNumber) {
    e.startNumber == sn && !HasFinish(e)
  }

  predicate IsFinishedFor(e: Entry, sn: StartNumber) {
    e.startNumber == sn && HasFinish(e)
  }

  /** One iteration of the rebuild loop: an unfinished entry becomes the open entry
      of its number unless one is recorded already; a finished entry is appended. */
  function RebuildStep(ix: TimingIndex, e: Entry): TimingIndex {
    if !HasFinish(e) && e.startNumber !in ix.onStage then SetOpen(ix, e.startNumber, e.id)
    else if HasFinish(e) then AppendFinished(ix, e.startNumber, e.id)
    else ix
  }

  /** Both indexes after the rebuild loop has run over `es` from empty maps. */
  function Rebuilt(es: seq<Entry>): (r: TimingIndex)
    ensures WellFormed(r)
    decreases |es|
  {
    if es == [] then Empty else RebuildStep(Rebuilt(es[..|es| - 1]), es[|es| - 1])
  }

  /** Reference definition: the ids of the entries of `sn` that have a finish time,
      in fetch order. */
  function FinishedIds(es: seq<Entry>, sn: StartNumber): (r: seq<EntryId>)
    ensures |r| <= |es|
    ensures forall id :: id in r <==> exists i :: 0 <= i < |es| && IsFinishedFor(es[i], sn) && es[i].id == id
    decreases |es|
  {
    if es == [] then []
    else
      var last := es[|es| - 1];
      var prev := FinishedIds(es[..|es| - 1], sn);
      assert forall i :: 0 <= i < |es| - 1 ==> es[..|es| - 1][i] == es[i];
      if IsFinishedFor(last, sn) then prev + [last.id] else prev
  }

  /** The positions of the finished entries of `sn`. */
  ghost function FinishedPositions(es: seq<Entry>, sn: StartNumber): set<nat> {
    set i: nat | i < |es| && IsFinishedFor(es[i], sn)
  }

  /** After the rebuild, `sn` is on stage exactly when some fetched entry of `sn` has
      no finish time, and its value is the id of the first such entry. */
  lemma {:induction false} RebuiltOnStage(es: seq<Entry>, sn: StartNumber)
    ensures sn in Rebuilt(es).onStage <==> exists i :: 0 <= i < |es| && IsOpenFor(es[i], sn)
    ensures sn in Rebuilt(es).onStage ==>
              exists i :: 0 <= i < |es| && IsOpenFor(es[i], sn) && es[i].id == Rebuilt(es).onStage[sn]
                          && forall j :: 0 <= j < i ==> !IsOpenFor(es[j], sn)
    decreases |es|
  {
    if es != [] {
      var n := |es| - 1;
      var prefix := es[..n];
      RebuiltOnStage(prefix, sn);
      assert forall i :: 0 <= i < n ==> prefix[i] == es[i];
      var before := Rebuilt(prefix);
      if sn in before.onStage {
        var i :| 0 <= i < n && IsOpenFor(prefix[i], sn) && prefix[i].id == before.onStage[sn]
                 && forall j :: 0 <= j < i ==> !IsOpenFor(prefix[j], sn);
        assert Rebuilt(es).onStage[sn] == before.onStage[sn];
        assert IsOpenFor(es[i], sn) && forall j :: 0 <= j < i ==> !IsOpenFor(es[j], sn);
      } else if IsOpenFor(es[n], sn) {
        assert Rebuilt(es).onStage[sn] == es[n].id;
      } else {
        assert sn !in Rebuilt(es).onStage;
        assert forall i :: 0 <= i <= n ==> !IsOpenFor(es[i], sn);
      }
    }
  }

  /** After the rebuild, the finished ids of `sn` are exactly the ids of the fetched
      entries of `sn` that have a finish time, in fetch order; a number with none has
      no key. */
  lemma {:induction false} RebuiltFinished(es: seq<Entry>, sn: StartNumber)
    ensures sn in Rebuilt(es).finished <==> exists i :: 0 <= i < |es| && IsFinishedFor(es[i], sn)
    ensures (if sn in Rebuilt(es).finished then Rebuilt(es).finished[sn] else []) == FinishedIds(es, sn)
    decreases |es|
  {
    if es != [] {
      var n := |es| - 1;
      var prefix := es[..n];
      RebuiltFinished(prefix, sn);
      assert forall i :: 0 <= i < n ==> prefix[i] == es[i];
      if IsFinishedFor(es[n], sn) {
        assert Rebuilt(es).finished[sn] == FinishedIds(es, sn);
      } else {
        assert Rebuilt(es).finished.Keys * {sn} == Rebuilt(prefix).finished.Keys * {sn};
        assert forall i :: 0 <= i < |es| && IsFinishedFor(es[i], sn) ==> i < n;
      }
    }
  }

  /** The number of finished ids is the number of finished entries of `sn`. */
  lemma {:induction false} FinishedIdsCount(es: seq<Entry>, sn: StartNumber)
    ensures |FinishedIds(es, sn)| == |FinishedPositions(es, sn)|
    decreases |es|
  {
    if es == [] {
      assert FinishedPositions(es, sn) == {};
    } else {
      var n := |es| - 1;
      var prefix := es[..n];
      FinishedIdsCount(prefix, sn);
      assert forall i :: 0 <= i < n ==> prefix[i] == es[i];
      if IsFinishedFor(es[n], sn) {
        assert FinishedPositions(es, sn) == FinishedPositions(prefix, sn) + {n};
      } else {
        assert FinishedPositions(es, sn) == FinishedPositions(prefix, sn);
      }
    }
  }

  /** After the rebuild, the finished count of `sn` is the number of fetched entries
      of `sn` that have a finish time. */
  lemma RebuiltFinishedCount(es: seq<Entry>, sn: StartNumber)
    ensures FinishedCount(Rebuilt(es).finished, sn) == |FinishedPositions(es, sn)|
  {
    RebuiltFinished(es, sn);
    FinishedIdsCount(es, sn);
  }
}
