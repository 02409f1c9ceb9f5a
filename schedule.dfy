/**
 * Runs of the bot: roster commands and ticks interleaved in any order, each
 * event running to completion before the next starts. The guarantee of the
 * rotation is stated over such runs: among ticks that see the same date, at
 * most one records a selection (and so at most one message goes out), whatever
 * the roster commands do in between.
 *
 * The source does not serialise ticks: `/test` awaits `hourly_check` directly
 * (main.py:91), so it can start while the timer's run is suspended at
 * `await bot.fetch_user` (main.py:112). Both runs then pass the date check
 * (main.py:103) before either records the date (main.py:114), and both can
 * send. The guarantee here holds only for ticks that run one at a time.
 */
module Schedule {
  import opened Wrappers
  import opened Roster
  import opened Rotation

  /** `/add`, `/remove` and one run of `hourly_check` (from the timer or `/test`). */
  datatype Event =
    | AddUser(id: UserId, entry: Entry)
    | RemoveUser(id: UserId)
    | Check(input: TickInput)

  /** The module-level state of main.py: `users` and `last_selected`. */
  datatype State = State(users: Users, last: Selection)

  const Start: State := State([], Initial)

  /** The dictionary keeps its keys distinct; `last_selected` is either unset or fully set. */
  predicate Valid(s: State)
  {
    && DistinctKeys(s.users)
    && (s.last.userId.Some? <==> s.last.date.Some?)
  }

  /** The state after one event, with trigger comparison `test`. */
  function Apply(s: State, ev: Event, test: LocalTime -> bool): (r: State)
    requires Valid(s)
    ensures Valid(r)
    ensures !ev.Check? ==> r.last == s.last
    ensures ev.Check? ==> r.users == s.users
  {
    match ev
    case AddUser(id, e) => State(Put(s.users, id, e), s.last)
    case RemoveUser(id) => State(Pop(s.users, id).1, s.last)
    case Check(input) => State(s.users, Tick(s.users, s.last, input, test).last)
  }

  /** Whether the event is a tick that records a selection. */
  predicate Commits(s: State, ev: Event, test: LocalTime -> bool)
  {
    ev.Check? && Tick(s.users, s.last, ev.input, test).outcome.Committed()
  }

  /** The state after a whole run. */
  function Run(s: State, evs: seq<Event>, test: LocalTime -> bool): (r: State)
    requires Valid(s)
    ensures Valid(r)
    decreases |evs|
  {
    if evs == [] then s else Run(Apply(s, evs[0], test), evs[1..], test)
  }

  /** How many ticks of the run record a selection (each one also attempts a message). */
  function CommitCount(s: State, evs: seq<Event>, test: LocalTime -> bool): nat
    requires Valid(s)
    decreases |evs|
  {
    if evs == [] then 0
    else (if Commits(s, evs[0], test) then 1 else 0) + CommitCount(Apply(s, evs[0], test), evs[1..], test)
  }

  /** Every tick of the run reads `d` as today's date. */
  predicate OnDate(evs: seq<Event>, d: Date)
  {
    forall i :: 0 <= i < |evs| && evs[i].Check? ==> evs[i].input.now.date == d
  }

  /**
   * Once `d` is recorded, every further tick on `d` is a no-op: nothing is
   * recorded, nothing is sent, and `last_selected` stays as it is.
   */
  lemma {:induction false} SelectedDayIsQuiet(s: State, evs: seq<Event>, test: LocalTime -> bool, d: Date)
    requires Valid(s) && s.last.date == Some(d) && OnDate(evs, d)
    ensures CommitCount(s, evs, test) == 0
    ensures Run(s, evs, test).last == s.last
    decreases |evs|
  {
    if evs != [] {
      var s' := Apply(s, evs[0], test);
      assert s'.last == s.last;
      assert OnDate(evs[1..], d) by {
        forall i | 0 <= i < |evs[1..]| && evs[1..][i].Check? ensures evs[1..][i].input.now.date == d {
          assert evs[1..][i] == evs[i + 1];
        }
      }
      SelectedDayIsQuiet(s', evs[1..], test, d);
    }
  }

  /**
   * At most one selection per date: over any run whose ticks all see date `d`,
   * at most one tick records a selection; one does exactly when the recorded
   * date changes, and the date it records is `d`. This holds for any trigger
   * comparison: with ticks run one at a time, the date guard (main.py:103)
   * alone enforces it.
   */
  lemma {:induction false} OncePerDate(s: State, evs: seq<Event>, test: LocalTime -> bool, d: Date)
    requires Valid(s) && OnDate(evs, d)
    ensures CommitCount(s, evs, test) <= 1
    ensures CommitCount(s, evs, test) == 1 <==> Run(s, evs, test).last.date != s.last.date
    ensures CommitCount(s, evs, test) == 1 ==> Run(s, evs, test).last.date == Some(d)
    decreases |evs|
  {
    if evs != [] {
      var s' := Apply(s, evs[0], test);
      assert OnDate(evs[1..], d) by {
        forall i | 0 <= i < |evs[1..]| && evs[1..][i].Check? ensures evs[1..][i].input.now.date == d {
          assert evs[1..][i] == evs[i + 1];
        }
      }
      if Commits(s, evs[0], test) {
        assert s'.last.date == Some(d) != s.last.date;
        SelectedDayIsQuiet(s', evs[1..], test, d);
      } else {
        assert s'.last == s.last;
        OncePerDate(s', evs[1..], test, d);
      }
    }
  }

  /**
   * The source as written (main.py:110 compares a datetime with 23): no run ever
   * records a selection or sends a message, and `last_selected` keeps its initial value.
   */
  lemma {:induction false} SourceNeverSelects(s: State, evs: seq<Event>)
    requires Valid(s)
    ensures CommitCount(s, evs, SourceTest) == 0
    ensures Run(s, evs, SourceTest).last == s.last
    decreases |evs|
  {
    if evs != [] {
      var s' := Apply(s, evs[0], SourceTest);
      assert !Commits(s, evs[0], SourceTest);
      assert s'.last == s.last;
      SourceNeverSelects(s', evs[1..]);
    }
  }

  /**
   * As written, from process start `last_selected` stays `{None, None}` for
   * ever, whatever commands and ticks arrive.
   */
  lemma SourceKeepsInitial(evs: seq<Event>)
    ensures CommitCount(Start, evs, SourceTest) == 0
    ensures Run(Start, evs, SourceTest).last == Initial
  {
    SourceNeverSelects(Start, evs);
  }

  /**
   * With the intended comparison the selection is reachable: a tick at minute 59
   * on a date other than the recorded one, whose candidate's local hour is 23 and
   * whose fetch succeeds, records that candidate and today's date. In particular a
   * new date brings the rotation back from "selected" to "idle".
   */
  lemma TriggerHourCommits(users: Users, last: Selection, input: TickInput)
    requires users != []
    requires last.date != Some(input.now.date)
    requires input.now.minute == TriggerMinute
    requires input.clock(Get(users, Pick(users, input.choice)).value.timezone).hour == TriggerHour
    requires input.fetchOk
    ensures Tick(users, last, input, HourOfDayTest).outcome.Committed()
    ensures Tick(users, last, input, HourOfDayTest).last == Selection(Some(Pick(users, input.choice)), Some(input.now.date))
  {
  }

  /**
   * A failed `fetch_user` leaves the day open: a later tick on the same date
   * that picks the same user and fetches successfully records the selection.
   */
  lemma FetchFailureRetries(users: Users, last: Selection, first: TickInput, test: LocalTime -> bool)
    requires Tick(users, last, first, test).outcome.FetchFailed?
    ensures Tick(users, Tick(users, last, first, test).last, first.(fetchOk := true), test).outcome.Committed()
  {
  }
}
