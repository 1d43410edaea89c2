/** The eligibility getter `getStartNumbers`: the registrants' start numbers, without
    those on stage and, for an event user, without those whose finished count has
    reached the stage's try count. */
module Eligibility {
  import opened TimerTypes
  import opened StageIndexes

  /** `xs` is obtained from `ys` by dropping elements, keeping the order. */
  ghost predicate IsSubsequence<T>(xs: seq<T>, ys: seq<T>)
    decreases |ys|
  {
    if ys == [] then xs == []
    else (xs != [] && xs[0] == ys[0] && IsSubsequence(xs[1..], ys[1..])) || IsSubsequence(xs, ys[1..])
  }

  lemma {:induction false} SubsequenceTransitive<T>(xs: seq<T>, ys: seq<T>, zs: seq<T>)
    requires IsSubsequence(xs, ys) && IsSubsequence(ys, zs)
    ensures IsSubsequence(xs, zs)
    decreases |zs|
  {
    if zs != [] {
      if ys != [] && ys[0] == zs[0] && IsSubsequence(ys[1..], zs[1..]) {
        if xs != [] && xs[0] == ys[0] && IsSubsequence(xs[1..], ys[1..]) {
          SubsequenceTransitive(xs[1..], ys[1..], zs[1..]);
        } else {
          SubsequenceTransitive(xs, ys[1..], zs[1..]);
        }
      } else {
        SubsequenceTransitive(xs, ys, zs[1..]);
      }
    }
  }

  lemma EmptyIsSubsequence<T>(ys: seq<T>)
    ensures IsSubsequence([], ys)
    decreases |ys|
  {
    if ys != [] {
      EmptyIsSubsequence(ys[1..]);
    }
  }

  /** `starters.map((s) => s.startNumber)`. */
  function Numbers(rs: seq<Registrant>): seq<StartNumber> {
    seq(|rs|, i requires 0 <= i < |rs| => rs[i].startNumber)
  }

  /** The first filter: keeps the numbers that are not keys of the on-stage index. */
  function NotOnStage(sns: seq<StartNumber>, onStage: map<StartNumber, EntryId>): (r: seq<StartNumber>)
    ensures IsSubsequence(r, sns)
    ensures forall sn :: sn in r <==> sn in sns && sn !in onStage
    ensures forall sn :: multiset(r)[sn] == if sn in onStage then 0 else multiset(sns)[sn]
    decreases |sns|
  {
    if sns == [] then []
    else
      assert sns == [sns[0]] + sns[1..];
      assert forall sn :: sn in sns <==> sn == sns[0] || sn in sns[1..];
      if sns[0] in onStage then NotOnStage(sns[1..], onStage)
      else [sns[0]] + NotOnStage(sns[1..], onStage)
  }

  /** The second filter: keeps the numbers whose finished count is below `tryCount`. */
  function BelowTryCount(sns: seq<StartNumber>, finished: map<StartNumber, seq<EntryId>>, tryCount: int): (r: seq<StartNumber>)
    ensures IsSubsequence(r, sns)
    ensures forall sn :: sn in r <==> sn in sns && FinishedCount(finished, sn) < tryCount
    ensures forall sn :: multiset(r)[sn] == if FinishedCount(finished, sn) < tryCount then multiset(sns)[sn] else 0
    decreases |sns|
  {
    if sns == [] then []
    else
      assert sns == [sns[0]] + sns[1..];
      assert forall sn :: sn in sns <==> sn == sns[0] || sn in sns[1..];
      if FinishedCount(finished, sns[0]) < tryCount then [sns[0]] + BelowTryCount(sns[1..], finished, tryCount)
      else BelowTryCount(sns[1..], finished, tryCount)
  }

  /** `getStartNumbers` for the user `u`: a popup user skips the try-count filter. */
  function StartNumbers(starters: seq<Registrant>, ix: TimingIndex, u: UserType): seq<StartNumber> {
    var notOnStage := NotOnStage(Numbers(starters), ix.onStage);
    if u.Popup? then notOnStage else BelowTryCount(notOnStage, ix.finished, u.stageTryCount)
  }

  /** The eligible numbers are registrant numbers in registrant order, and none of them
      is on stage. */
  lemma StartNumbersOrderedAndOffStage(starters: seq<Registrant>, ix: TimingIndex, u: UserType)
    ensures IsSubsequence(StartNumbers(starters, ix, u), Numbers(starters))
    ensures forall sn :: sn in StartNumbers(starters, ix, u) ==> sn !in ix.onStage
  {
    var notOnStage := NotOnStage(Numbers(starters), ix.onStage);
    if u.Event? {
      SubsequenceTransitive(BelowTryCount(notOnStage, ix.finished, u.stageTryCount), notOnStage, Numbers(starters));
    }
  }

  /** For an event user a number is eligible exactly when it is registered, not on
      stage and its finished count is below the stage's try count. */
  lemma EventStartNumbers(starters: seq<Registrant>, ix: TimingIndex, u: UserType, sn: StartNumber)
    requires u.Event?
    ensures sn in StartNumbers(starters, ix, u) <==>
              sn in Numbers(starters) && sn !in ix.onStage && FinishedCount(ix.finished, sn) < u.stageTryCount
    ensures multiset(StartNumbers(starters, ix, u))[sn] ==
              if sn in ix.onStage || FinishedCount(ix.finished, sn) >= u.stageTryCount then 0
              else multiset(Numbers(starters))[sn]
  {
  }

  /** For a popup user no try-count filter applies: a number is eligible exactly when
      it is registered and not on stage, whatever its finished count. */
  lemma PopupStartNumbers(starters: seq<Registrant>, ix: TimingIndex, u: UserType, sn: StartNumber)
    requires u.Popup?
    ensures sn in StartNumbers(starters, ix, u) <==> sn in Numbers(starters) && sn !in ix.onStage
    ensures multiset(StartNumbers(starters, ix, u))[sn] == if sn in ix.onStage then 0 else multiset(Numbers(starters))[sn]
  {
  }

  /** With a try count of 1, a well-formed index admits an event user's registrant
      exactly when it is off stage and has no finished key at all. */
  lemma SingleTryAdmitsOnlyUnfinished(starters: seq<Registrant>, ix: TimingIndex, u: UserType, sn: StartNumber)
    requires WellFormed(ix) && u.Event? && u.stageTryCount == 1
    ensures sn in StartNumbers(starters, ix, u) <==> sn in Numbers(starters) && sn !in ix.onStage && sn !in ix.finished
  {
    EventStartNumbers(starters, ix, u, sn);
    FinishedCountPositiveIffKey(ix, sn);
  }

  /** Stop overwrites the finished ids of a number with one id, so after a stop an
      event user's registrant is eligible again whenever the try count exceeds 1,
      however many finishes it had before. */
  lemma StopReadmitsAfterAnyFinishCount(starters: seq<Registrant>, ix: TimingIndex, u: UserType, sn: StartNumber, id: EntryId)
    requires u.Event? && u.stageTryCount > 1 && sn in Numbers(starters)
    ensures sn in StartNumbers(starters, ClearOpen(ReplaceFinished(ix, sn, id), sn), u)
  {
    EventStartNumbers(starters, ClearOpen(ReplaceFinished(ix, sn, id), sn), u, sn);
  }

  /** Fetched records without a finish time, a saved result among them, rebuild as an
      open entry: a number whose fetched records all lack a finish time is on stage
      with a finished count of 0, and so is not eligible whatever the try count. */
  lemma UnfinishedRecordsRebuildOnStage(starters: seq<Registrant>, es: seq<Entry>, u: UserType, sn: StartNumber)
    requires exists i :: 0 <= i < |es| && es[i].startNumber == sn
    requires forall i :: 0 <= i < |es| && es[i].startNumber == sn ==> !HasFinish(es[i])
    ensures sn in Rebuilt(es).onStage && FinishedCount(Rebuilt(es).finished, sn) == 0
    ensures sn !in StartNumbers(starters, Rebuilt(es), u)
  {
    var i :| 0 <= i < |es| && es[i].startNumber == sn;
    assert IsOpenFor(es[i], sn);
    RebuiltOnStage(es, sn);
    RebuiltFinished(es, sn);
    StartNumbersOrderedAndOffStage(starters, Rebuilt(es), u);
  }
}
