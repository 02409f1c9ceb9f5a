/**
 * The daily rotation of `hourly_check` (main.py:96-118) as a pure state machine.
 *
 * The state is `last_selected` (main.py:19-22): the id and the date of the last
 * selection. A tick reads the roster and its inputs (the process clock, the
 * random choice, each timezone's wall clock, and whether `fetch_user` and
 * `send` succeed) and yields the new `last_selected` and what it did.
 *
 * The comparison of the candidate's local time with the trigger hour is a
 * parameter `test`: `HourOfDayTest` is the intended check, `SourceTest` is the
 * comparison main.py:110 makes literally (a datetime against the integer 23),
 * which never holds.
 */
module Rotation {
  import opened Wrappers
  import opened Roster

  /** A calendar date, as `datetime.date()` gives it. */
  datatype Date = Date(year: int, month: nat, day: nat)

  /** A wall-clock reading, as `datetime.now(tz)` gives it. */
  datatype LocalTime = LocalTime(date: Date, hour: nat, minute: nat, second: nat)

  /** The local hour at which the picked user is to be messaged. */
  const TriggerHour: nat := 23
  /** The only minute of the process clock at which a tick picks a user. */
  const TriggerMinute: nat := 59

  /** `last_selected`: both fields start as None. */
  datatype Selection = Selection(userId: Option<UserId>, date: Option<Date>)

  const Initial: Selection := Selection(None, None)

  /** What one tick did; a pick, a time lookup and a fetch happen only where the outcome names a user. */
  datatype Outcome =
    | NoUsers                   // empty roster: nothing looked at
    | AlreadySelected           // a selection already happened today
    | Throttled                 // process clock not at minute 59
    | HourMismatch(pick: UserId) // picked, local time looked up, not the trigger hour
    | FetchFailed(pick: UserId)  // `fetch_user` raised: nothing recorded
    | Sent(pick: UserId)         // recorded, then the message went out
    | SendFailed(pick: UserId)   // recorded, then `send` raised
  {
    /** The selection was recorded (and a message was attempted). */
    predicate Committed() { Sent? || SendFailed? }
  }

  /**
   * The inputs of one tick, which the source takes from the outside world:
   * `now` is `datetime.now()`, `choice` stands for `random.choice` (index into
   * the key list, taken modulo its length), `clock` is `datetime.now(pytz.timezone(tz))`,
   * and `fetchOk`/`sendOk` say whether `bot.fetch_user` and `user.send` return normally.
   */
  datatype TickInput = TickInput(now: LocalTime, choice: nat, clock: string -> LocalTime, fetchOk: bool, sendOk: bool)

  /** The result of one tick. */
  datatype Step = Step(last: Selection, outcome: Outcome)

  /** The intended trigger check: the candidate's local hour is the trigger hour. */
  function HourOfDayTest(t: LocalTime): bool
  {
    t.hour == TriggerHour
  }

  /**
   * The check as main.py:110 writes it, `relativeTime == 23`: Python compares a
   * datetime with an int by identity, and a datetime is never the int 23.
   */
  function SourceTest(t: LocalTime): bool
  {
    false
  }

  /** The user picked by `random.choice(list(users.keys()))`. */
  function Pick(users: Users, choice: nat): (id: UserId)
    requires users != []
    ensures id in Keys(users)
  {
    users[choice % |users|].id
  }

  /** One run of `hourly_check` with the trigger comparison `test`. */
  function Tick(users: Users, last: Selection, input: TickInput, test: LocalTime -> bool): (r: Step)
    // An empty roster or a selection already made today: nothing changes, nothing is looked at.
    ensures users == [] ==> r == Step(last, NoUsers)
    ensures users != [] && last.date == Some(input.now.date) ==> r == Step(last, AlreadySelected)
    // Outside minute 59 nothing changes and nobody is picked.
    ensures users != [] && last.date != Some(input.now.date) && input.now.minute != TriggerMinute ==> r == Step(last, Throttled)
    // Any pick is a key of the roster, made only at minute 59 on a day without a selection.
    ensures r.outcome.HourMismatch? || r.outcome.FetchFailed? || r.outcome.Committed() ==>
      && r.outcome.pick in Keys(users)
      && input.now.minute == TriggerMinute
      && last.date != Some(input.now.date)
    // The state changes exactly when a commit happens, and then the id and date are set together.
    ensures r.last != last <==> r.outcome.Committed()
    ensures r.outcome.Committed() ==>
      && r.last == Selection(Some(r.outcome.pick), Some(input.now.date))
      && test(input.clock(Get(users, r.outcome.pick).value.timezone))
      && input.fetchOk
    // A failed fetch records nothing; a failed send keeps the record made before it.
    ensures r.outcome.FetchFailed? ==> !input.fetchOk && r.last == last
    ensures r.outcome.Committed() ==> (r.outcome.Sent? <==> input.sendOk)
  {
    if users == [] then Step(last, NoUsers)
    else if last.date == Some(input.now.date) then Step(last, AlreadySelected)
    else if input.now.minute != TriggerMinute then Step(last, Throttled)
    else
      var pick := Pick(users, input.choice);
      var local := input.clock(Get(users, pick).value.timezone);
      if !test(local) then Step(last, HourMismatch(pick))
      else if !input.fetchOk then Step(last, FetchFailed(pick))
      else
        var recorded := Selection(Some(pick), Some(input.now.date));
        Step(recorded, if input.sendOk then Sent(pick) else SendFailed(pick))
  }
}
