/**
 * The bot's mutable state and the handlers that change it in place: `/add`,
 * `/remove` and the timer task `hourly_check`. The module-level `users` dict and
 * the two fields of the `last_selected` dict become fields of one object.
 * Every handler is tied to the pure definitions of `Roster` and `Rotation`,
 * whose properties are proved there and in `Schedule`.
 */
module NicheBot {
  import opened Wrappers
  import opened Roster
  import opened Rotation
  import Listing
  import Schedule

  class Bot {
    var users: Users
    var lastUserId: Option<UserId>
    var lastDate: Option<Date>

    /** The dictionary's keys are distinct, and `last_selected` is never half set. */
    ghost predicate Valid()
      reads this
    {
      Schedule.Valid(Schedule.State(users, Last()))
    }

    /** `last_selected` as one value. */
    function Last(): Selection
      reads this
    {
      Selection(lastUserId, lastDate)
    }

    /** Process start: an empty roster and `{'user_id': None, 'date': None}`. */
    constructor ()
      ensures Valid()
      ensures users == [] && Last() == Initial
    {
      users := [];
      lastUserId := None;
      lastDate := None;
    }

    /** `/add`: `users[user.id] = {'name': ..., 'timezone': ...}`. */
    method Add(id: UserId, name: string, timezone: string)
      requires Valid()
      modifies this`users
      ensures Valid()
      ensures users == Put(old(users), id, Entry(name, timezone))
      ensures Get(users, id) == Some(Entry(name, timezone))
      ensures forall k :: k != id ==> Get(users, k) == Get(old(users), k)
    {
      users := Put(users, id, Entry(name, timezone));
    }

    /** `/remove`: `users.pop(user.id, None)`; None means the user was not in the rotation. */
    method Remove(id: UserId) returns (removed: Option<Entry>)
      requires Valid()
      modifies this`users
      ensures Valid()
      ensures (removed, users) == Pop(old(users), id)
      ensures removed == Get(old(users), id)
      ensures Get(users, id) == None
      ensures removed.None? ==> users == old(users)
    {
      var popped := Pop(users, id);
      removed := popped.0;
      users := popped.1;
    }

    /** `/list`: the text the command sends back. */
    function ListUsers(): (text: string)
      reads this
      ensures users == [] ==> text == Listing.NoUsersMessage
    {
      Listing.ListText(users)
    }

    /**
     * `hourly_check`, with the trigger comparison as intended (the local hour is
     * 23). The guards run in the source's order and return early; on a commit the
     * id and the date are recorded before the message is sent.
     */
    method HourlyCheck(input: TickInput) returns (outcome: Outcome)
      requires Valid()
      modifies this`lastUserId, this`lastDate
      ensures Valid()
      ensures users == old(users)
      ensures Step(Last(), outcome) == Tick(users, old(Last()), input, HourOfDayTest)
    {
      if users == [] {
        return NoUsers;
      }
      var today := input.now.date;
      if lastDate == Some(today) {
        return AlreadySelected;
      }
      if input.now.minute != TriggerMinute {
        return Throttled;
      }
      var keys := Keys(users);
      var userId := keys[input.choice % |keys|];
      var relativeTime := input.clock(Get(users, userId).value.timezone);
      if !HourOfDayTest(relativeTime) {
        return HourMismatch(userId);
      }
      if !input.fetchOk {
        return FetchFailed(userId);
      }
      lastUserId := Some(userId);
      lastDate := Some(today);
      if !input.sendOk {
        return SendFailed(userId);
      }
      return Sent(userId);
    }
  }

  /**
   * A day of the bot: a user is added, the tick at 23:59 in their zone selects
   * them, and the next tick on the same date does nothing.
   */
  method SameDayTwice(id: UserId, input: TickInput)
    requires input.now.minute == TriggerMinute
    requires input.clock("America/Los_Angeles").hour == TriggerHour
    requires input.fetchOk
  {
    var bot := new Bot();
    bot.Add(id, "alice", "America/Los_Angeles");
    var first := bot.HourlyCheck(input);
    assert first.Committed() && bot.Last() == Selection(Some(id), Some(input.now.date));
    var second := bot.HourlyCheck(input);
    assert second == AlreadySelected && bot.Last() == Selection(Some(id), Some(input.now.date));
  }
}
