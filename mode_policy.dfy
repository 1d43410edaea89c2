/** The store's mode getters: which timing mode shows which control, which live
    feeds a mode needs, the popup's start-number range and the user-type field that
    holds the scope id. */
module ModePolicy {
  import opened TimerTypes

  const ModeOnlyStartTime: string := "MODE_ONLY_STARTTIME"
  const ModeOnlyStopTime: string := "MODE_ONLY_STOPTIME"
  const ModeStartStop: string := "MODE_STARTSTOP"
  const ModeWidth: string := "MODE_WIDTH"
  const ModePoints: string := "MODE_POINTS"

  predicate ShowSelection(mode: string) {
    mode in [ModeOnlyStartTime, ModeStartStop, ModeWidth, ModePoints]
  }

  /** The source returns the selected start number itself; it is truthy when set. */
  predicate ShowStartTimer(mode: string, selected: Option<StartNumber>) {
    mode in [ModeOnlyStartTime, ModeStartStop] && selected.Some?
  }

  /** The source returns the number of keys on stage; it is truthy when positive. */
  predicate ShowResetTimer<V>(mode: string, onStage: map<StartNumber, V>) {
    mode in [ModeOnlyStartTime, ModeStartStop] && |onStage.Keys| > 0
  }

  predicate ShowStopTime(mode: string) {
    mode in [ModeOnlyStopTime, ModeStartStop]
  }

  predicate ShowValueInput(mode: string) {
    mode in [ModeWidth, ModePoints]
  }

  predicate RequiresSubscriptions(mode: string) {
    mode in [ModeOnlyStartTime, ModeOnlyStopTime]
  }

  /** `!isCounterPartAvailable` holds for `null` and for `false`. */
  predicate ShowCounterPartWarning(mode: string, counterPartAvailable: Option<bool>) {
    RequiresSubscriptions(mode) && counterPartAvailable != Some(true)
  }

  predicate IsPopup(user: Option<UserType>) {
    user.Some? && user.value.Popup?
  }

  predicate IsEvent(user: Option<UserType>) {
    user.Some? && user.value.Event?
  }

  predicate RequiresStartNumberObserver(user: Option<UserType>, mode: string) {
    IsEvent(user) && mode in [ModeStartStop, ModeOnlyStartTime, ModeWidth, ModePoints]
  }

  /** The largest start number a popup offers: 1000 for a "code" popup, 5 for a
      "free5x5" popup, and 1 for any other popup type, for no popup type and for no
      user. */
  function MaxStartNumber(user: Option<UserType>): (n: int)
    ensures n == 1000 <==> user.Some? && user.value.Popup? && user.value.popupType == Some("code")
    ensures n == 5 <==> user.Some? && user.value.Popup? && user.value.popupType == Some("free5x5")
    ensures n == 1 || n == 5 || n == 1000
  {
    if user.None? || user.value.Event? || user.value.popupType.None? then 1
    else if user.value.popupType.value == "code" then 1000
    else if user.value.popupType.value == "free5x5" then 5
    else 1
  }

  /** The user-type fields that can hold the scope id. */
  datatype ScopeField = EventIdField | PopupIdField

  /** Reading field `f` of the user-type record; absent fields read as `None`. */
  function Field(u: UserType, f: ScopeField): Option<string> {
    match (u, f)
    case (Popup(_, popupId, _), PopupIdField) => Some(popupId)
    case (Event(_, eventId, _, _, _), EventIdField) => Some(eventId)
    case _ => None
  }

  /** `getUserTypeEvent`: the popup-id field for a popup user, else the event-id field;
      reading the chosen field always finds the user's scope id. */
  function UserTypeEvent(u: UserType): (f: ScopeField)
    ensures f == PopupIdField <==> u.Popup?
    ensures Field(u, f).Some?
  {
    if u.Popup? then PopupIdField else EventIdField
  }

  /** The user's scope id, `usertype[getUserTypeEvent]`. */
  function ScopeId(u: UserType): string {
    Field(u, UserTypeEvent(u)).value
  }

  // ---------------------------------------------------------------------------
  // Relations between the getters

  /** The registrant-list feed is needed exactly by event users in the modes that show
      the start-number selection. */
  lemma StartNumberObserverIffEventSelection(user: Option<UserType>, mode: string)
    ensures RequiresStartNumberObserver(user, mode) <==> IsEvent(user) && ShowSelection(mode)
  {
  }

  /** Start and reset controls appear only in selection modes; the reset control only
      with something on stage. */
  lemma TimerControlsNeedSelection<V>(mode: string, selected: Option<StartNumber>, onStage: map<StartNumber, V>)
    ensures ShowStartTimer(mode, selected) ==> ShowSelection(mode) && selected.Some?
    ensures ShowResetTimer(mode, onStage) ==> ShowSelection(mode) && onStage != map[]
  {
    if ShowResetTimer(mode, onStage) {
      assert onStage.Keys != {};
    }
  }

  /** Value-input modes show the selection but no timer control and need no
      counterpart coordination. */
  lemma ValueInputExcludesTimers<V>(mode: string, selected: Option<StartNumber>, onStage: map<StartNumber, V>)
    requires ShowValueInput(mode)
    ensures ShowSelection(mode)
    ensures !ShowStartTimer(mode, selected) && !ShowResetTimer(mode, onStage) && !ShowStopTime(mode)
    ensures !RequiresSubscriptions(mode) && !ShowCounterPartWarning(mode, None)
  {
  }

  /** Each known mode offers the operator at least one action. */
  lemma KnownModesOfferAnAction(mode: string)
    requires mode in [ModeOnlyStartTime, ModeOnlyStopTime, ModeStartStop, ModeWidth, ModePoints]
    ensures ShowSelection(mode) || ShowStopTime(mode)
  {
  }
}
