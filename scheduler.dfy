/**
 * The alarm checker of main.py: one pass over the due rows, in which each alarm is
 * delivered and then deleted (one-time), re-armed (recurring), deleted (delivery raised)
 * or left alone (its channel cannot be found, or storing the new time raised).
 *
 * Delivery is not modelled as messages: a `Delivery` says which channels resolve and
 * which alarms' sends or time updates raise during this tick.
 */
module Scheduler {
  import opened Wrappers
  import opened Clock
  import opened Database

  /** What the outside world does during one tick. */
  datatype Delivery = Delivery(
    channels: set<int>,      // channel ids `bot.get_channel` finds
    sendFails: set<int>,     // alarm ids whose `fetch_user` or `send` raises
    updateFails: set<int>)   // alarm ids whose `update_alarm_time` raises

  /** What happens to one due row. */
  datatype Action = Keep | Remove | Retime(time: int)

  /** `if alarm['repeat']:` is Python truthiness: NULL and the empty string count as one-time. */
  predicate IsRecurring(repeat: Option<string>): (b: bool)
    ensures b ==> repeat.Some?
    ensures repeat == Some("") ==> !b
    ensures repeat == Some("daily") || repeat == Some("weekly") || repeat == Some("monthly") ==> b
  {
    repeat.Some? && repeat.value != ""
  }

  /**
   * The re-arm time: today's UTC date (of `now`) at the stored hour and minute, seconds
   * zeroed, plus one day (`daily`) or one week (`weekly`). Any other repeat value keeps
   * the stored time.
   */
  function NextFireTime(stored: int, now: int, repeat: string): (t: int)
    ensures repeat != "daily" && repeat != "weekly" ==> t == stored
    ensures repeat == "daily" ==> StartOfDay(now) + Day <= t < StartOfDay(now) + 2 * Day
    ensures repeat == "weekly" ==> StartOfDay(now) + Week <= t < StartOfDay(now) + Week + Day
    ensures repeat == "daily" || repeat == "weekly" ==> now < t
  {
    var rebased := StartOfDay(now) + HourOf(stored) * 3600 + MinuteOf(stored) * 60;
    if repeat == "daily" then rebased + Day
    else if repeat == "weekly" then rebased + Week
    else stored
  }

  /** Daily and weekly re-arm land in a fixed one-day window after now's date, strictly after `now`, at the stored hour and minute. */
  lemma NextFireTimeWindow(stored: int, now: int, repeat: string)
    requires repeat == "daily" || repeat == "weekly"
    ensures var days := if repeat == "daily" then 1 else 7;
      var t := NextFireTime(stored, now, repeat);
      && StartOfDay(now) + days * Day <= t < StartOfDay(now) + (days + 1) * Day
      && t > now
      && HourOf(t) == HourOf(stored) && MinuteOf(t) == MinuteOf(stored) && SecondOf(t) == 0
  {
    var days := if repeat == "daily" then 1 else 7;
    var c := HourOf(stored) * 3600 + MinuteOf(stored) * 60;
    ClockFieldsOf(HourOf(stored), MinuteOf(stored));
    var midnight := StartOfDay(now) + days * Day;
    assert NextFireTime(stored, now, repeat) == midnight + c;
    TimeOfDayAfterMidnight(midnight, c);
  }

  /** Re-arming twice at the same instant gives the same time as re-arming once. */
  lemma NextFireTimeIdempotent(stored: int, now: int, repeat: string)
    ensures NextFireTime(NextFireTime(stored, now, repeat), now, repeat) == NextFireTime(stored, now, repeat)
  {
    if repeat == "daily" || repeat == "weekly" {
      NextFireTimeWindow(stored, now, repeat);
    }
  }

  /** The stored date plays no part: two stored times with the same hour and minute re-arm to the same instant. */
  lemma NextFireTimeIgnoresStoredDate(stored1: int, stored2: int, now: int, repeat: string)
    requires repeat == "daily" || repeat == "weekly"
    requires HourOf(stored1) == HourOf(stored2) && MinuteOf(stored1) == MinuteOf(stored2)
    ensures NextFireTime(stored1, now, repeat) == NextFireTime(stored2, now, repeat)
  {
  }

  /** The per-alarm transition of one tick, as the try/except blocks decide it. */
  function Decide(row: Row, now: int, env: Delivery): (act: Action)
    ensures act.Keep? <==> row.alarm.channelId !in env.channels
                           || (row.id !in env.sendFails && IsRecurring(row.alarm.repeat) && row.id in env.updateFails)
    ensures act.Remove? <==> row.alarm.channelId in env.channels
                             && (row.id in env.sendFails || !IsRecurring(row.alarm.repeat))
    ensures act.Retime? ==> row.alarm.repeat.Some? && act.time == NextFireTime(row.alarm.time, now, row.alarm.repeat.value)
  {
    if row.alarm.channelId !in env.channels then Keep
    else if row.id in env.sendFails then Remove
    else if IsRecurring(row.alarm.repeat) then
      if row.id in env.updateFails then Keep
      else Retime(NextFireTime(row.alarm.time, now, row.alarm.repeat.value))
    else Remove
  }

  /** The store table after one row's transition. */
  function Step(m: map<int, Alarm>, row: Row, now: int, env: Delivery): map<int, Alarm>
  {
    match Decide(row, now, env)
    case Keep => m
    case Remove => m - {row.id}
    case Retime(t) => WithTime(m, row.id, t)
  }

  /** The store table after the transitions of `rows`, in order. */
  function ApplyAll(m: map<int, Alarm>, rows: seq<Row>, now: int, env: Delivery): map<int, Alarm>
  {
    if rows == [] then m
    else Step(ApplyAll(m, rows[..|rows| - 1], now, env), rows[|rows| - 1], now, env)
  }

  /** The row an action leaves behind, when it leaves one. */
  function Settle(a: Alarm, act: Action): Alarm
  {
    match act
    case Retime(t) => a.(time := t)
    case _ => a
  }

  /** The table once every row whose id is in `done` has taken its transition, all at once. */
  function TickOn(m: map<int, Alarm>, done: set<int>, now: int, env: Delivery): map<int, Alarm>
  {
    map id | id in m && !(id in done && Decide(Row(id, m[id]), now, env).Remove?) ::
      if id in done then Settle(m[id], Decide(Row(id, m[id]), now, env)) else m[id]
  }

  /** The rows due at `now`. */
  function DueIds(m: map<int, Alarm>, now: int): set<int>
  {
    set id | id in m && m[id].time <= now
  }

  /**
   * The alarms a tick at `now` posts: every due row whose channel is found and whose
   * `fetch_user` and `send` do not raise. A row whose channel is missing is not posted.
   */
  function Posted(m: map<int, Alarm>, now: int, env: Delivery): (ids: set<int>)
    ensures ids <= DueIds(m, now)
    ensures forall id :: id in m && m[id].channelId !in env.channels ==> id !in ids
    ensures forall id :: id in ids ==> id !in env.sendFails
  {
    set id | id in DueIds(m, now) && m[id].channelId in env.channels && id !in env.sendFails
  }

  /** The table after a whole tick at `now`: every due row takes its transition, every other row is untouched. */
  function AfterTick(m: map<int, Alarm>, now: int, env: Delivery): (r: map<int, Alarm>)
    ensures forall id :: id in r ==> id in m && r[id] == m[id].(time := r[id].time)
  {
    TickOn(m, DueIds(m, now), now, env)
  }

  /** One more row's transition on top of those already taken. */
  lemma StepExtendsTickOn(m: map<int, Alarm>, done: set<int>, row: Row, now: int, env: Delivery)
    requires row.id in m && m[row.id] == row.alarm && row.id !in done
    ensures Step(TickOn(m, done, now, env), row, now, env) == TickOn(m, done + {row.id}, now, env)
  {
    var before := TickOn(m, done, now, env);
    var after := TickOn(m, done + {row.id}, now, env);
    assert row.id in before && before[row.id] == row.alarm;
    assert Row(row.id, m[row.id]) == row;
    var s := Step(before, row, now, env);
    assert s.Keys == after.Keys;
    forall id | id in s
      ensures s[id] == after[id]
    {
    }
  }

  /**
   * Taking the transitions one row at a time, as the loop does, gives the all-at-once table:
   * the order of the rows does not matter, because each transition touches only its own row.
   */
  lemma {:induction false} ApplyAllIsTickOn(m: map<int, Alarm>, rows: seq<Row>, now: int, env: Delivery)
    requires DistinctIds(rows)
    requires forall r :: r in rows ==> r.id in m && m[r.id] == r.alarm
    ensures ApplyAll(m, rows, now, env) == TickOn(m, IdsOf(rows), now, env)
  {
    if rows == [] {
      assert IdsOf(rows) == {};
      assert TickOn(m, {}, now, env) == m;
    } else {
      var n := |rows| - 1;
      var front := rows[..n];
      var last := rows[n];
      assert forall r :: r in front ==> r in rows;
      ApplyAllIsTickOn(m, front, now, env);
      assert last.id !in IdsOf(front) by {
        forall r | r in front ensures r.id != last.id {
          var i :| 0 <= i < n && front[i] == r;
        }
      }
      StepExtendsTickOn(m, IdsOf(front), last, now, env);
      assert rows == front + [last];
      assert IdsOf(rows) == IdsOf(front) + {last.id};
    }
  }

  /**
   * `check_alarms`: one tick at instant `now`. The due rows are fetched once and handled in
   * turn; each row's outcome depends on its own channel, send and update only.
   */
  method CheckAlarms(store: Store, now: int, env: Delivery) returns (posted: set<int>)
    requires store.Valid()
    modifies store
    ensures store.Valid()
    ensures posted == Posted(old(store.alarms), now, env)
    ensures store.alarms == AfterTick(old(store.alarms), now, env)
    ensures store.lastId == old(store.lastId) && store.Issued == old(store.Issued)
    ensures store.timezones == old(store.timezones) && store.logSettings == old(store.logSettings)
  {
    var due := store.GetDueAlarms(now);
    posted := {};
    var i := 0;
    while i < |due|
      invariant 0 <= i <= |due|
      invariant store.Valid()
      invariant posted == set r | r in due[..i] && r.alarm.channelId in env.channels && r.id !in env.sendFails :: r.id
      invariant store.alarms == ApplyAll(old(store.alarms), due[..i], now, env)
      invariant store.lastId == old(store.lastId) && store.Issued == old(store.Issued)
      invariant store.timezones == old(store.timezones) && store.logSettings == old(store.logSettings)
    {
      var row := due[i];
      if row.alarm.channelId in env.channels {
        if row.id in env.sendFails {
          store.DeleteAlarm(row.id);
        } else {
          posted := posted + {row.id};
          if IsRecurring(row.alarm.repeat) {
            var next := NextFireTime(row.alarm.time, now, row.alarm.repeat.value);
            if row.id !in env.updateFails {
              store.UpdateAlarmTime(row.id, next);
            }
          } else {
            store.DeleteAlarm(row.id);
          }
        }
      }
      assert due[..i + 1][..i] == due[..i];
      i := i + 1;
    }
    assert due[..i] == due;
    ApplyAllIsTickOn(old(store.alarms), due, now, env);
    forall id | id in DueIds(old(store.alarms), now)
      ensures id in IdsOf(due)
    {
      assert Row(id, old(store.alarms)[id]) in due;
    }
    forall id | id in Posted(old(store.alarms), now, env)
      ensures id in posted
    {
      assert Row(id, old(store.alarms)[id]) in due;
    }
    assert IdsOf(due) == DueIds(old(store.alarms), now);
  }

  /** The per-alarm outcomes of a tick for a row that is due. */
  lemma DueAlarmOutcome(m: map<int, Alarm>, now: int, env: Delivery, id: int)
    requires id in m && m[id].time <= now
    ensures var r := AfterTick(m, now, env); var a := m[id];
      && (a.channelId !in env.channels ==> id in r && r[id] == a)
      && (a.channelId in env.channels && id in env.sendFails ==> id !in r)
      && (a.channelId in env.channels && id !in env.sendFails && !IsRecurring(a.repeat) ==> id !in r)
      && (a.channelId in env.channels && id !in env.sendFails && IsRecurring(a.repeat) && id in env.updateFails ==>
            id in r && r[id] == a)
      && (a.channelId in env.channels && id !in env.sendFails && IsRecurring(a.repeat) && id !in env.updateFails ==>
            id in r && r[id] == a.(time := NextFireTime(a.time, now, a.repeat.value)))
  {
  }

  /**
   * A delivered alarm whose repeat value is neither `daily` nor `weekly` (such as `monthly`)
   * is written back with its old time, so it is due again and fires again on the next tick.
   */
  lemma OtherRepeatStaysDue(m: map<int, Alarm>, now: int, env: Delivery, id: int)
    requires id in m && m[id].time <= now
    requires m[id].channelId in env.channels && id !in env.sendFails && id !in env.updateFails
    requires IsRecurring(m[id].repeat) && m[id].repeat.value != "daily" && m[id].repeat.value != "weekly"
    ensures id in AfterTick(m, now, env) && AfterTick(m, now, env)[id] == m[id]
    ensures AfterTick(m, now, env)[id].time <= now
  {
  }

  /** A tick never adds rows, and leaves every row that was not due exactly as it was. */
  lemma TickTouchesOnlyDue(m: map<int, Alarm>, now: int, env: Delivery)
    ensures AfterTick(m, now, env).Keys <= m.Keys
    ensures forall id :: id in m && m[id].time > now ==> id in AfterTick(m, now, env) && AfterTick(m, now, env)[id] == m[id]
  {
  }

  /**
   * A tick moves every delivered row past `now`, except when storing the new time raised or
   * the repeat value is neither `daily` nor `weekly`; those rows, and rows whose channel was
   * missing, are left untouched and are delivered again on the next tick.
   */
  lemma StillDueAfterTick(m: map<int, Alarm>, now: int, env: Delivery, id: int)
    requires id in AfterTick(m, now, env) && AfterTick(m, now, env)[id].time <= now
    ensures id in m && AfterTick(m, now, env)[id] == m[id]
    ensures || m[id].channelId !in env.channels
            || id in env.updateFails
            || (m[id].repeat.Some? && m[id].repeat.value != "daily" && m[id].repeat.value != "weekly")
  {
    var a := m[id];
    if a.time <= now && a.channelId in env.channels && id !in env.sendFails && IsRecurring(a.repeat)
       && id !in env.updateFails && (a.repeat.value == "daily" || a.repeat.value == "weekly") {
      NextFireTimeWindow(a.time, now, a.repeat.value);
    }
  }
}
