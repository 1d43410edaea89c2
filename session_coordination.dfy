/** Coordination between the start and the finish timekeeper: the counterpart mode,
    the session-observer lookup that finds the counterpart, and the decision that
    this device's session was taken over. */
module SessionCoordination {
  import opened TimerTypes
  import opened ModePolicy

  /** The mode of the device this one coordinates with: a start-only device looks for
      a stop-only device, every other device for a start-only one. */
  function CounterMode(mode: string): (r: string)
    ensures r == ModeOnlyStopTime <==> mode == ModeOnlyStartTime
    ensures r == ModeOnlyStartTime <==> mode != ModeOnlyStartTime
    ensures RequiresSubscriptions(r) && r != mode
  {
    if mode == ModeOnlyStartTime then ModeOnlyStopTime else ModeOnlyStartTime
  }

  /** The modes that need live subscriptions are exactly those whose counterpart's
      counterpart is themselves. */
  lemma SubscriptionModesPairUp(mode: string)
    ensures RequiresSubscriptions(mode) <==> CounterMode(CounterMode(mode)) == mode
  {
  }

  /** An equality filter on the session-observer collection. */
  datatype SessionQuery = SessionQuery(wrId: string, target: string, stageName: Option<string>)

  /** A record matches a query when it agrees on every field the query constrains. */
  predicate Matches(q: SessionQuery, rec: SessionRecord) {
    rec.wrId == q.wrId && rec.target == Some(q.target)
    && (q.stageName.Some? ==> rec.stageName == q.stageName)
  }

  /** The lookup of `checkForCounterpart`: same scope id, target the counter mode and,
      for an event user, the user's `stage`. */
  function CounterpartQuery(u: UserType): (q: SessionQuery)
    ensures forall rec :: Matches(q, rec) ==>
              rec.wrId == ScopeId(u) && rec.target == Some(CounterMode(u.mode))
              && (u.Event? ==> rec.stageName == Some(u.stage))
    ensures u.Popup? ==> forall rec :: Matches(q, rec) <==> rec.wrId == ScopeId(u) && rec.target == Some(CounterMode(u.mode))
  {
    SessionQuery(ScopeId(u), CounterMode(u.mode), if u.Event? then Some(u.stage) else None)
  }

  /** The decision of `checkForSessionTakeOver` for a deleted marker `rec`, given the
      store's current `mode`. An absent field compares equal only to an absent field,
      as `undefined === undefined` does. */
  predicate TakenOver(u: UserType, mode: string, rec: SessionRecord) {
    match u
    case Popup(_, _, _) => rec.target == Some(mode)
    case Event(_, _, stageName, _, _) => rec.target == Some(mode) && rec.stageName == stageName
  }

  /** One deleted marker never takes over two event devices in the same mode whose
      records name different stages. */
  lemma DistinctStagesNeverBothTakenOver(u1: UserType, u2: UserType, mode: string, rec: SessionRecord)
    requires u1.Event? && u2.Event? && u1.stageName != u2.stageName
    ensures !(TakenOver(u1, mode, rec) && TakenOver(u2, mode, rec))
  {
  }

  /** An event user whose record lacks `stageName` is taken over only by a marker that
      lacks a stage name too; a marker naming the user's own `stage` never takes it
      over. */
  lemma MissingStageNameNeverMatchesStage(u: UserType, mode: string, rec: SessionRecord)
    requires u.Event? && u.stageName.None?
    ensures TakenOver(u, mode, rec) <==> rec.target == Some(mode) && rec.stageName.None?
    ensures rec.stageName == Some(u.stage) ==> !TakenOver(u, mode, rec)
  {
  }

  /** While the store's mode is the user's mode, a deleted marker that matches the
      counterpart lookup never flags a takeover. */
  lemma CounterpartNeverTakesOver(u: UserType, rec: SessionRecord)
    ensures !(Matches(CounterpartQuery(u), rec) && TakenOver(u, u.mode, rec))
  {
  }
}
