/** The timer store: its fields, the actions that write to the backend and then
    update the indexes locally, the live-feed handlers and the eligibility getter.
    Every remote call is a parameter carrying the backend's reply. */
module Store {
  import opened TimerTypes
  import opened StageIndexes
  import opened Eligibility
  import opened ModePolicy
  import opened SessionCoordination

  /** Reply to the bulk fetch: the timetable entries of the user's scope and, for an
      event user, the event's registrant array. */
  datatype FetchReply = Fetched(entries: seq<Entry>, registrants: seq<Registrant>) | FetchFailed

  /** Reply to creating a record: its new id, or a failed write. */
  datatype CreateReply = Created(id: EntryId) | CreateFailed

  /** Reply to saving, updating or deleting a record. */
  datatype WriteReply = Written | WriteFailed

  /** Reply to the session-observer lookup. */
  datatype LookupReply = Found | NotFound | LookupFailed

  datatype ActionError = NoUser | RemoteFailed | StarterNotOnStage

  /** How an action ended; on `Failed` no field of the store has changed. */
  datatype Outcome = Done | Failed(error: ActionError)

  class TimerStore {
    var user: Option<UserType>
    var starters: seq<Registrant>
    var mode: string
    var selectedStarter: Option<StartNumber>
    var isCounterPartAvailable: Option<bool>
    var starterOnStage: map<StartNumber, EntryId>
    var finishedStarter: map<StartNumber, seq<EntryId>>
    var sessionTakeOver: bool

    /** Both indexes as one value. */
    function Index(): TimingIndex
      reads this
    {
      TimingIndex(starterOnStage, finishedStarter)
    }

    ghost predicate Valid()
      reads this
    {
      WellFormed(Index())
    }

    /** The initial state of the store. */
    constructor ()
      ensures Valid()
      ensures user == None && starters == [] && mode == ModeStartStop
      ensures selectedStarter == None && isCounterPartAvailable == None
      ensures starterOnStage == map[] && finishedStarter == map[] && !sessionTakeOver
    {
      user := None;
      starters := [];
      mode := ModeStartStop;
      selectedStarter := None;
      isCounterPartAvailable := None;
      starterOnStage := map[];
      finishedStarter := map[];
      sessionTakeOver := false;
    }

    // -------------------------------------------------------------------------
    // Bulk fetch

    /** Rebuilds both indexes from the fetched entries (and, for an event user,
        replaces the registrant list). Without a user, or when a remote call fails,
        nothing changes. */
    method FetchData(reply: FetchReply) returns (outcome: Outcome)
      requires Valid()
      modifies this`starters, this`starterOnStage, this`finishedStarter
      ensures Valid()
      ensures outcome == (if user.None? then Failed(NoUser) else if reply.FetchFailed? then Failed(RemoteFailed) else Done)
      ensures outcome.Failed? ==> unchanged(this)
      ensures outcome.Done? ==> Index() == Rebuilt(reply.entries)
      ensures outcome.Done? ==> starters == if user.value.Event? then reply.registrants else old(starters)
    {
      if user.None? {
        return Failed(NoUser);
      }
      if reply.FetchFailed? {
        return Failed(RemoteFailed);
      }
      var entries := reply.entries;
      if user.value.Event? {
        starters := reply.registrants;
      }
      starterOnStage := map[];
      finishedStarter := map[];
      var i := 0;
      while i < |entries|
        invariant 0 <= i <= |entries|
        invariant Index() == Rebuilt(entries[..i])
        invariant starters == if user.value.Event? then reply.registrants else old(starters)
      {
        var cur := entries[i];
        var sn := cur.startNumber;
        if !HasFinish(cur) && sn !in starterOnStage {
          starterOnStage := starterOnStage[sn := cur.id];
        } else if HasFinish(cur) {
          var prev := if sn in finishedStarter then finishedStarter[sn] else [];
          finishedStarter := finishedStarter[sn := prev + [cur.id]];
        }
        assert entries[..i + 1][..i] == entries[..i];
        i := i + 1;
      }
      assert entries[..i] == entries;
      outcome := Done;
    }

    // -------------------------------------------------------------------------
    // Actions with an optimistic local update

    /** Creates an entry for the selected start number; on success records its id as
        the number's open entry and clears the selection. */
    method StartSelectedStarter(reply: CreateReply) returns (outcome: Outcome)
      requires Valid() && selectedStarter.Some?
      modifies this`starterOnStage, this`selectedStarter
      ensures Valid()
      ensures outcome == (if user.None? then Failed(NoUser) else if reply.CreateFailed? then Failed(RemoteFailed) else Done)
      ensures outcome.Failed? ==> unchanged(this)
      ensures outcome.Done? ==> Index() == SetOpen(old(Index()), old(selectedStarter).value, reply.id)
      ensures outcome.Done? ==> selectedStarter == None
      ensures outcome.Done? ==> old(selectedStarter).value in GetStartNumbersOnStage()
      ensures outcome.Done? && mode in [ModeOnlyStartTime, ModeStartStop] ==> ShowResetTimer(mode, starterOnStage)
    {
      if user.None? {
        return Failed(NoUser);
      }
      if reply.CreateFailed? {
        return Failed(RemoteFailed);
      }
      starterOnStage := starterOnStage[selectedStarter.value := reply.id];
      selectedStarter := None;
      outcome := Done;
    }

    /** Creates a result record for the selected start number; on success clears the
        selection. Neither index changes. */
    method SaveResult(reply: WriteReply) returns (outcome: Outcome)
      modifies this`selectedStarter
      ensures outcome == (if user.None? then Failed(NoUser) else if reply.WriteFailed? then Failed(RemoteFailed) else Done)
      ensures outcome.Failed? ==> unchanged(this)
      ensures outcome.Done? ==> selectedStarter == None
    {
      if user.None? {
        return Failed(NoUser);
      }
      if reply.WriteFailed? {
        return Failed(RemoteFailed);
      }
      selectedStarter := None;
      outcome := Done;
    }

    /** Clears the selection; nothing else changes. */
    method RemoveSelectedStarter()
      modifies this`selectedStarter
      ensures selectedStarter == None
    {
      selectedStarter := None;
    }

    /** Deletes the open entry of `sn`; on success removes `sn` from the on-stage index
        and leaves the finished index as it was. */
    method ResetSelectedStarter(sn: StartNumber, reply: WriteReply) returns (outcome: Outcome)
      requires Valid()
      modifies this`starterOnStage
      ensures Valid()
      ensures outcome == (if sn !in old(starterOnStage) then Failed(StarterNotOnStage) else if reply.WriteFailed? then Failed(RemoteFailed) else Done)
      ensures outcome.Failed? ==> unchanged(this)
      ensures outcome.Done? ==> Index() == ClearOpen(old(Index()), sn)
    {
      if sn !in starterOnStage {
        return Failed(StarterNotOnStage);
      }
      if reply.WriteFailed? {
        return Failed(RemoteFailed);
      }
      starterOnStage := starterOnStage - {sn};
      outcome := Done;
    }

    /** Sets the finish time of the open entry of `sn`; on success OVERWRITES the
        finished ids of `sn` with that entry's id alone and removes `sn` from the
        on-stage index. */
    method StopSelectedStarter(sn: StartNumber, reply: WriteReply) returns (outcome: Outcome)
      requires Valid()
      modifies this`starterOnStage, this`finishedStarter
      ensures Valid()
      ensures outcome == (if sn !in old(starterOnStage) then Failed(StarterNotOnStage) else if reply.WriteFailed? then Failed(RemoteFailed) else Done)
      ensures outcome.Failed? ==> unchanged(this)
      ensures outcome.Done? ==> Index() == ClearOpen(ReplaceFinished(old(Index()), sn, old(starterOnStage)[sn]), sn)
    {
      if sn !in starterOnStage {
        return Failed(StarterNotOnStage);
      }
      if reply.WriteFailed? {
        return Failed(RemoteFailed);
      }
      var id := starterOnStage[sn];
      finishedStarter := finishedStarter[sn := [id]];
      starterOnStage := starterOnStage - {sn};
      outcome := Done;
    }

    // -------------------------------------------------------------------------
    // Session coordination

    /** Looks for the counterpart's session marker; records whether one was found.
        Without a user nothing is asked; a failed lookup changes nothing. */
    method CheckForCounterpart(reply: LookupReply) returns (query: Option<SessionQuery>)
      modifies this`isCounterPartAvailable
      ensures query == if user.None? then None else Some(CounterpartQuery(user.value))
      ensures isCounterPartAvailable ==
                if user.None? || reply.LookupFailed? then old(isCounterPartAvailable) else Some(reply.Found?)
    {
      if user.None? {
        return None;
      }
      query := Some(CounterpartQuery(user.value));
      if !reply.LookupFailed? {
        isCounterPartAvailable := Some(reply.Found?);
      }
    }

    /** Decides from a deleted session marker whether this device's session was taken
        over; without a user nothing changes. */
    method CheckForSessionTakeOver(rec: SessionRecord)
      modifies this`sessionTakeOver
      ensures sessionTakeOver == if user.None? then old(sessionTakeOver) else TakenOver(user.value, mode, rec)
    {
      if user.None? {
        return;
      }
      match user.value
      case Popup(_, _, _) =>
        sessionTakeOver := rec.target == Some(mode);
      case Event(_, _, stageName, _, _) =>
        sessionTakeOver := rec.target == Some(mode) && rec.stageName == stageName;
    }

    /** The session-observer delete handler: the takeover check, then the counterpart
        check. */
    method OnSessionDeleted(rec: SessionRecord, reply: LookupReply) returns (query: Option<SessionQuery>)
      modifies this`sessionTakeOver, this`isCounterPartAvailable
      ensures sessionTakeOver == if user.None? then old(sessionTakeOver) else TakenOver(user.value, mode, rec)
      ensures query == if user.None? then None else Some(CounterpartQuery(user.value))
      ensures isCounterPartAvailable ==
                if user.None? || reply.LookupFailed? then old(isCounterPartAvailable) else Some(reply.Found?)
    {
      CheckForSessionTakeOver(rec);
      query := CheckForCounterpart(reply);
    }

    // -------------------------------------------------------------------------
    // Live timetable and registrant events

    /** A created timetable entry becomes the open entry of its number. */
    method OnTimetableCreated(e: Entry)
      requires Valid()
      modifies this`starterOnStage
      ensures Valid()
      ensures Index() == SetOpen(old(Index()), e.startNumber, e.id)
    {
      starterOnStage := starterOnStage[e.startNumber := e.id];
    }

    /** A deleted timetable entry takes its number off stage. */
    method OnTimetableDeleted(e: Entry)
      requires Valid()
      modifies this`starterOnStage
      ensures Valid()
      ensures Index() == ClearOpen(old(Index()), e.startNumber)
    {
      starterOnStage := starterOnStage - {e.startNumber};
    }

    /** An updated timetable entry is a finish: it is appended to the finished ids of
        its number and the number leaves the stage. Only a start-only device handles
        this event; in any other mode it changes nothing. */
    method OnTimetableUpdated(e: Entry)
      requires Valid()
      modifies this`starterOnStage, this`finishedStarter
      ensures Valid()
      ensures mode == ModeOnlyStartTime ==> Index() == ClearOpen(AppendFinished(old(Index()), e.startNumber, e.id), e.startNumber)
      ensures mode != ModeOnlyStartTime ==> unchanged(this)
    {
      if mode == ModeOnlyStartTime {
        var sn := e.startNumber;
        if sn in finishedStarter {
          finishedStarter := finishedStarter[sn := finishedStarter[sn] + [e.id]];
        } else {
          finishedStarter := finishedStarter[sn := [e.id]];
          assert [] + [e.id] == [e.id];
        }
        starterOnStage := starterOnStage - {sn};
      }
    }

    /** An update of the event replaces the registrant list wholesale. */
    method OnRegistrantsUpdated(registrants: seq<Registrant>)
      modifies this`starters
      ensures starters == registrants
    {
      starters := registrants;
    }

    // -------------------------------------------------------------------------
    // Getters

    /** `getStartNumbers`: the registrant start numbers in registrant order without
        those on stage and, for an event user, without those whose finished count has
        reached the stage's try count. Without a user the try-count filter reads the
        missing user type and throws unless no number is left to filter, and then the
        result is empty. */
    function GetStartNumbers(): (r: seq<StartNumber>)
      reads this
      requires user.Some? || NotOnStage(Numbers(starters), starterOnStage) == []
      ensures IsSubsequence(r, Numbers(starters))
      ensures forall sn :: sn in r ==> sn !in starterOnStage
      ensures user.None? ==> r == []
      ensures IsPopup(user) ==> forall sn :: sn in r <==> sn in Numbers(starters) && sn !in starterOnStage
      ensures IsPopup(user) ==> forall sn ::
                multiset(r)[sn] == (if sn in starterOnStage then 0 else multiset(Numbers(starters))[sn])
      ensures IsEvent(user) ==> forall sn :: sn in r <==>
                sn in Numbers(starters) && sn !in starterOnStage && FinishedCount(finishedStarter, sn) < user.value.stageTryCount
      ensures IsEvent(user) ==> forall sn ::
                multiset(r)[sn] == (if sn in starterOnStage || FinishedCount(finishedStarter, sn) >= user.value.stageTryCount then 0
                                    else multiset(Numbers(starters))[sn])
    {
      if user.None? then
        assert IsSubsequence([], Numbers(starters)) by { EmptyIsSubsequence(Numbers(starters)); }
        []
      else
        StartNumbersOrderedAndOffStage(starters, Index(), user.value);
        StartNumbers(starters, Index(), user.value)
    }

    /** `getStartNumbersOnStage`: the numbers that have an open entry. */
    function GetStartNumbersOnStage(): set<StartNumber>
      reads this
    {
      starterOnStage.Keys
    }

    /** No number is both on stage and offered for a start. */
    lemma OnStageNeverEligible()
      requires user.Some? || NotOnStage(Numbers(starters), starterOnStage) == []
      ensures forall sn :: sn in GetStartNumbersOnStage() ==> sn !in GetStartNumbers()
    {
    }

    /** With a try count of 1, a number that has finished once is never offered again
        to an event user: the index being well formed, any finished key counts. */
    lemma SingleTryExcludesFinished(sn: StartNumber)
      requires Valid() && IsEvent(user) && user.value.stageTryCount == 1
      ensures sn in GetStartNumbers() <==> sn in Numbers(starters) && sn !in starterOnStage && sn !in finishedStarter
    {
      SingleTryAdmitsOnlyUnfinished(starters, Index(), user.value, sn);
    }
  }

  /** A client of the store: an event timekeeper starts number 5 and stops it, with
      what the contracts above let a caller conclude about eligibility. */
  method StartStopScenario()
  {
    var store := new TimerStore();
    store.user := Some(Event(ModeStartStop, "event", Some("stage"), "stage", 2));
    store.starters := [Registrant(1), Registrant(5)];
    assert Numbers(store.starters) == [1, 5];

    store.selectedStarter := Some(5);
    var outcome := store.StartSelectedStarter(Created("a"));
    assert store.starterOnStage == map[5 := "a"] && store.selectedStarter == None;
    assert 5 !in store.GetStartNumbers();

    outcome := store.StopSelectedStarter(5, Written);
    assert 5 !in store.starterOnStage && store.finishedStarter[5] == ["a"];
    assert FinishedCount(store.finishedStarter, 5) == 1 && 5 in Numbers(store.starters);
    ghost var eligible := store.GetStartNumbers();
    assert 5 in eligible;
  }

  /** A client of the store: a start that is reset leaves no trace in either index,
      and a second reset of the same number fails. */
  method StartResetScenario()
  {
    var store := new TimerStore();
    store.user := Some(Event(ModeStartStop, "event", Some("stage"), "stage", 2));
    store.selectedStarter := Some(1);
    var outcome := store.StartSelectedStarter(Created("b"));
    outcome := store.ResetSelectedStarter(1, Written);
    assert 1 !in store.starterOnStage && 1 !in store.finishedStarter;

    outcome := store.ResetSelectedStarter(1, Written);
    assert outcome == Failed(StarterNotOnStage);
  }
}
