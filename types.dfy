/** The values the timer store works with: start numbers, timetable entries as the
    backend delivers them, registrants, the logged-in user's type record and the
    session-observer markers. */
module TimerTypes {

  datatype Option<+T> = None | Some(value: T)

  /** Start numbers of registrants and the keys of both indexes are one type: the
      store compares them directly (see README, "Left out", for the string keys). */
  type StartNumber = int

  /** Remote record ids are non-empty strings, so an id stored in an index is truthy. */
  type EntryId = s: string | |s| > 0 witness "0"

  /** A timetable record with the fields the store reads from it: its id, its start
      number and its finish timestamp if set. */
  datatype Entry = Entry(id: EntryId, startNumber: StartNumber, finishTime: Option<int>)

  /** A finish timestamp counts only when it is truthy: present and not 0. */
  predicate HasFinish(e: Entry) {
    e.finishTime.Some? && e.finishTime.value != 0
  }

  /** An element of the event's registrant array. */
  datatype Registrant = Registrant(startNumber: StartNumber)

  /** The `usertype` record of the logged-in user, by its `type` tag. An event user
      carries a `stage` field and may carry a `stageName` field; the store reads each
      in different places, and a missing `stageName` reads as `None`. */
  datatype UserType =
    | Popup(mode: string, popupId: string, popupType: Option<string>)
    | Event(mode: string, eventId: string, stageName: Option<string>, stage: string, stageTryCount: int)

  /** A session-observer marker as the live feed delivers it. */
  datatype SessionRecord = SessionRecord(wrId: string, target: Option<string>, stageName: Option<string>)
}
