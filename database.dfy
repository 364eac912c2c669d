/**
 * The bot's SQLite database as an in-memory store: the `alarms`, `user_timezones` and
 * `log_settings` tables, each a map keyed by its primary key, and the AUTOINCREMENT
 * counter of `alarms`. Every operation is one atomic step; `add_alarm` and
 * `toggle_delete_logging` each run two statements, taken here as one.
 *
 * Times are UTC instants in whole seconds; the database keeps them as ISO-8601 text and
 * compares that text, which this model takes to order exactly as the instants do.
 */
module Database {
  import opened Wrappers
  import opened Clock

  /** One row of `alarms`, without its key. `repeat` is NULL (None) for a one-time alarm. */
  datatype Alarm = Alarm(
    userId: int,
    channelId: int,
    time: int,
    message: string,
    timezone: string,
    repeat: Option<string>)

  /** A row as a query returns it: the key together with the columns. */
  datatype Row = Row(id: int, alarm: Alarm)

  /** One row of `log_settings`, without its key (the guild id). */
  datatype LogSetting = LogSetting(channelId: int, logDeletes: bool)

  /** What `get_user_timezone` answers for a user who never set one. */
  const DefaultTimezone: string := "UTC"

  predicate SortedByTime(rows: seq<Row>)
  {
    forall i, j :: 0 <= i < j < |rows| ==> rows[i].alarm.time <= rows[j].alarm.time
  }

  predicate DistinctIds(rows: seq<Row>)
  {
    forall i, j :: 0 <= i < j < |rows| ==> rows[i].id != rows[j].id
  }

  /** The ids a query result holds. */
  function IdsOf(rows: seq<Row>): set<int>
  {
    set r | r in rows :: r.id
  }

  /** `UPDATE alarms SET time = t WHERE id = id`: only the `time` column of that one row; no row, no change. */
  function WithTime(m: map<int, Alarm>, id: int, t: int): (m': map<int, Alarm>)
    ensures m'.Keys == m.Keys
    ensures forall k :: k in m && k != id ==> m'[k] == m[k]
    ensures id in m ==> m'[id] == m[id].(time := t)
  {
    if id in m then m[id := m[id].(time := t)] else m
  }

  /** The answer of `get_user_timezone`: the stored name, or UTC when the user has no row. */
  function TimezoneOf(m: map<int, string>, userId: int): (timezone: string)
    ensures timezone == DefaultTimezone || timezone in m.Values
  {
    if userId in m then m[userId] else DefaultTimezone
  }

  /** `INSERT ... ON CONFLICT(guild_id) DO UPDATE SET channel_id`: a new guild starts with delete logging on. */
  function WithLogChannel(m: map<int, LogSetting>, guildId: int, channelId: int): (m': map<int, LogSetting>)
    ensures m'.Keys == m.Keys + {guildId}
    ensures forall g :: g in m && g != guildId ==> m'[g] == m[g]
    ensures guildId in m ==> m'[guildId] == LogSetting(channelId, m[guildId].logDeletes)
    ensures guildId !in m ==> m'[guildId] == LogSetting(channelId, true)
  {
    if guildId in m then m[guildId := m[guildId].(channelId := channelId)]
    else m[guildId := LogSetting(channelId, true)]
  }

  /** The table after `toggle_delete_logging`; a guild without a row is left alone. */
  function WithToggledLogging(m: map<int, LogSetting>, guildId: int): (m': map<int, LogSetting>)
    ensures m'.Keys == m.Keys
    ensures forall g :: g in m && g != guildId ==> m'[g] == m[g]
    ensures guildId in m ==> m'[guildId] == LogSetting(m[guildId].channelId, !m[guildId].logDeletes)
  {
    if guildId in m then m[guildId := m[guildId].(logDeletes := !m[guildId].logDeletes)] else m
  }

  /** A row `cleanup_expired_alarms` removes: older than the cutoff and with a NULL repeat. */
  predicate Expired(a: Alarm, cutoff: int)
  {
    a.time < cutoff && a.repeat.None?
  }

  /** `DELETE FROM alarms WHERE time < cutoff AND repeat IS NULL`. */
  function WithoutExpired(m: map<int, Alarm>, cutoff: int): (m': map<int, Alarm>)
    ensures m'.Keys <= m.Keys
    ensures forall id :: id in m' ==> m'[id] == m[id]
    ensures forall id :: id in m && m[id].time >= cutoff ==> id in m'
  {
    map id | id in m && !Expired(m[id], cutoff) :: m[id]
  }

  /** Where `ORDER BY time ASC` places a row of time `t` among sorted rows: after every row not later than `t`. */
  function InsertionPoint(rows: seq<Row>, t: int): (k: nat)
    ensures k <= |rows|
    ensures forall i :: 0 <= i < k ==> rows[i].alarm.time <= t
    ensures k < |rows| ==> t < rows[k].alarm.time
  {
    if rows == [] || t < rows[0].alarm.time then 0 else 1 + InsertionPoint(rows[1..], t)
  }

  /** `rows` with `r` placed at index `k`. */
  function Splice(rows: seq<Row>, r: Row, k: nat): (res: seq<Row>)
    requires k <= |rows|
    ensures |res| == |rows| + 1
    ensures forall i :: 0 <= i < k ==> res[i] == rows[i]
    ensures res[k] == r
    ensures forall i :: k < i < |res| ==> res[i] == rows[i - 1]
  {
    rows[..k] + [r] + rows[k..]
  }

  lemma SpliceSorted(rows: seq<Row>, r: Row, k: nat)
    requires SortedByTime(rows) && k <= |rows|
    requires forall i :: 0 <= i < k ==> rows[i].alarm.time <= r.alarm.time
    requires k < |rows| ==> r.alarm.time < rows[k].alarm.time
    ensures SortedByTime(Splice(rows, r, k))
  {
    var res := Splice(rows, r, k);
    forall i, j | 0 <= i < j < |res|
      ensures res[i].alarm.time <= res[j].alarm.time
    {
      if j > k && i != k {
        assert rows[if i < k then i else i - 1].alarm.time <= rows[j - 1].alarm.time;
      } else if i == k {
        assert k < |rows| && rows[k].alarm.time <= rows[j - 1].alarm.time;
      }
    }
  }

  lemma SpliceMembers(rows: seq<Row>, r: Row, k: nat)
    requires k <= |rows|
    ensures forall x :: x in Splice(rows, r, k) <==> x in rows || x == r
  {
    var res := Splice(rows, r, k);
    forall x | x in rows
      ensures x in res
    {
      var i :| 0 <= i < |rows| && rows[i] == x;
      assert res[if i < k then i else i + 1] == x;
    }
  }

  lemma SpliceDistinct(rows: seq<Row>, r: Row, k: nat)
    requires k <= |rows|
    ensures DistinctIds(rows) && r.id !in IdsOf(rows) ==> DistinctIds(Splice(rows, r, k))
  {
    var res := Splice(rows, r, k);
    forall i, j | 0 <= i < j < |res| && DistinctIds(rows) && r.id !in IdsOf(rows)
      ensures res[i].id != res[j].id
    {
      if i == k {
        assert rows[j - 1] in rows;
      } else if j == k {
        assert rows[i] in rows;
      }
    }
  }

  /** Adds one row to a result kept in `ORDER BY time ASC` order. */
  function InsertByTime(rows: seq<Row>, r: Row): (res: seq<Row>)
    requires SortedByTime(rows)
    ensures |res| == |rows| + 1
    ensures SortedByTime(res)
    ensures forall x :: x in res <==> x in rows || x == r
    ensures DistinctIds(rows) && r.id !in IdsOf(rows) ==> DistinctIds(res)
  {
    var k := InsertionPoint(rows, r.alarm.time);
    SpliceSorted(rows, r, k);
    SpliceMembers(rows, r, k);
    SpliceDistinct(rows, r, k);
    Splice(rows, r, k)
  }

  class Store {
    /** `alarms`, by `id`. */
    var alarms: map<int, Alarm>
    /** The AUTOINCREMENT counter of `alarms`: the largest id ever handed out, 0 before the first insert. */
    var lastId: nat
    /** `user_timezones`, by `user_id`. */
    var timezones: map<int, string>
    /** `log_settings`, by `guild_id`. */
    var logSettings: map<int, LogSetting>
    /** Every id ever handed out by `add_alarm`, deleted rows included. */
    ghost var Issued: set<int>

    ghost predicate Valid()
      reads this
    {
      && alarms.Keys <= Issued
      && (forall id :: id in Issued ==> 1 <= id <= lastId)
    }

    /** `init_db` on a fresh database file: three empty tables. */
    constructor ()
      ensures Valid()
      ensures alarms == map[] && timezones == map[] && logSettings == map[]
      ensures lastId == 0 && Issued == {}
    {
      alarms, lastId, timezones, logSettings := map[], 0, map[], map[];
      Issued := {};
    }

    /** `add_alarm`: inserts one row under a fresh key, larger than every key ever issued, and returns that key. */
    method AddAlarm(userId: int, time: int, message: string, channelId: int, timezone: string, repeat: Option<string>)
      returns (id: int)
      requires Valid()
      modifies this
      ensures Valid()
      ensures id == old(lastId) + 1 && lastId == id
      ensures id !in old(Issued) && forall k :: k in old(Issued) ==> k < id
      ensures Issued == old(Issued) + {id}
      ensures alarms == old(alarms)[id := Alarm(userId, channelId, time, message, timezone, repeat)]
      ensures timezones == old(timezones) && logSettings == old(logSettings)
    {
      lastId := lastId + 1;
      id := lastId;
      alarms := alarms[id := Alarm(userId, channelId, time, message, timezone, repeat)];
      Issued := Issued + {id};
    }

    /** `get_user_alarms`: exactly the user's rows, each once, earliest time first. */
    method GetUserAlarms(userId: int) returns (rows: seq<Row>)
      requires Valid()
      ensures SortedByTime(rows)
      ensures DistinctIds(rows)
      ensures forall r :: r in rows ==> r.id in alarms && alarms[r.id] == r.alarm && r.alarm.userId == userId
      ensures forall id :: id in alarms && alarms[id].userId == userId ==> Row(id, alarms[id]) in rows
    {
      rows := [];
      var id := 1;
      while id <= lastId
        invariant 1 <= id <= lastId + 1
        invariant SortedByTime(rows) && DistinctIds(rows)
        invariant forall r :: r in rows ==> 1 <= r.id < id && r.id in alarms && alarms[r.id] == r.alarm && r.alarm.userId == userId
        invariant forall k :: 1 <= k < id && k in alarms && alarms[k].userId == userId ==> Row(k, alarms[k]) in rows
      {
        if id in alarms && alarms[id].userId == userId {
          rows := InsertByTime(rows, Row(id, alarms[id]));
        }
        id := id + 1;
      }
    }

    /** `get_due_alarms` at instant `now`: exactly the rows whose time is not after `now`, each once, whatever their repeat. */
    method GetDueAlarms(now: int) returns (rows: seq<Row>)
      requires Valid()
      ensures DistinctIds(rows)
      ensures forall r :: r in rows ==> r.id in alarms && alarms[r.id] == r.alarm && r.alarm.time <= now
      ensures forall id :: id in alarms && alarms[id].time <= now ==> Row(id, alarms[id]) in rows
    {
      rows := [];
      var id := 1;
      while id <= lastId
        invariant 1 <= id <= lastId + 1
        invariant DistinctIds(rows)
        invariant forall r :: r in rows ==> 1 <= r.id < id && r.id in alarms && alarms[r.id] == r.alarm && r.alarm.time <= now
        invariant forall k :: 1 <= k < id && k in alarms && alarms[k].time <= now ==> Row(k, alarms[k]) in rows
      {
        if id in alarms && alarms[id].time <= now {
          rows := rows + [Row(id, alarms[id])];
        }
        id := id + 1;
      }
    }

    /** `update_alarm_time`: sets the time of one row; nothing else changes. */
    method UpdateAlarmTime(id: int, time: int)
      requires Valid()
      modifies this
      ensures Valid()
      ensures alarms == WithTime(old(alarms), id, time)
      ensures lastId == old(lastId) && Issued == old(Issued)
      ensures timezones == old(timezones) && logSettings == old(logSettings)
    {
      alarms := WithTime(alarms, id, time);
    }

    /** `delete_alarm`: removes one row, if present; nothing else changes. */
    method DeleteAlarm(id: int)
      requires Valid()
      modifies this
      ensures Valid()
      ensures alarms == old(alarms) - {id}
      ensures lastId == old(lastId) && Issued == old(Issued)
      ensures timezones == old(timezones) && logSettings == old(logSettings)
    {
      alarms := alarms - {id};
    }

    /** `set_user_timezone`: an upsert of the user's row. */
    method SetUserTimezone(userId: int, timezone: string)
      requires Valid()
      modifies this
      ensures Valid()
      ensures timezones == old(timezones)[userId := timezone]
      ensures alarms == old(alarms) && lastId == old(lastId) && Issued == old(Issued)
      ensures logSettings == old(logSettings)
    {
      timezones := timezones[userId := timezone];
    }

    /** `get_user_timezone`: the stored name, or "UTC" when the user has none. */
    method GetUserTimezone(userId: int) returns (timezone: string)
      requires Valid()
      ensures timezone == TimezoneOf(timezones, userId)
    {
      timezone := if userId in timezones then timezones[userId] else DefaultTimezone;
    }

    /** `set_log_channel`: a new guild gets delete logging on; an existing one keeps its flag. */
    method SetLogChannel(guildId: int, channelId: int)
      requires Valid()
      modifies this
      ensures Valid()
      ensures logSettings == WithLogChannel(old(logSettings), guildId, channelId)
      ensures alarms == old(alarms) && lastId == old(lastId) && Issued == old(Issued)
      ensures timezones == old(timezones)
    {
      logSettings := WithLogChannel(logSettings, guildId, channelId);
    }

    /** `get_log_settings`: the guild's row, if any. */
    method GetLogSettings(guildId: int) returns (settings: Option<LogSetting>)
      requires Valid()
      ensures settings.Some? <==> guildId in logSettings
      ensures settings.Some? ==> settings.value == logSettings[guildId]
    {
      settings := if guildId in logSettings then Some(logSettings[guildId]) else None;
    }

    /** `toggle_delete_logging`: negates and returns the flag; None and no change when the guild has no row. */
    method ToggleDeleteLogging(guildId: int) returns (enabled: Option<bool>)
      requires Valid()
      modifies this
      ensures Valid()
      ensures enabled.None? <==> guildId !in old(logSettings)
      ensures enabled.Some? ==> enabled.value == !old(logSettings)[guildId].logDeletes
      ensures logSettings == WithToggledLogging(old(logSettings), guildId)
      ensures alarms == old(alarms) && lastId == old(lastId) && Issued == old(Issued)
      ensures timezones == old(timezones)
    {
      if guildId !in logSettings {
        return None;
      }
      var flag := !logSettings[guildId].logDeletes;
      logSettings := logSettings[guildId := logSettings[guildId].(logDeletes := flag)];
      enabled := Some(flag);
    }

    /** `cleanup_expired_alarms(days)` at instant `now`: drops one-time rows older than `days` days. */
    method CleanupExpiredAlarms(now: int, days: int)
      requires Valid()
      modifies this
      ensures Valid()
      ensures alarms == WithoutExpired(old(alarms), now - days * Day)
      ensures lastId == old(lastId) && Issued == old(Issued)
      ensures timezones == old(timezones) && logSettings == old(logSettings)
    {
      alarms := WithoutExpired(alarms, now - days * Day);
    }
  }

  /** Reading a user's timezone gives the last name written for that user, and UTC if none was. */
  lemma TimezoneIsLastWrite(m: map<int, string>, writer: int, timezone: string, reader: int)
    ensures TimezoneOf(m[writer := timezone], reader) == if reader == writer then timezone else TimezoneOf(m, reader)
    ensures TimezoneOf(map[], reader) == "UTC"
  {
  }

  /** Two toggles restore the table. */
  lemma ToggleTwiceRestores(m: map<int, LogSetting>, guildId: int)
    ensures WithToggledLogging(WithToggledLogging(m, guildId), guildId) == m
  {
  }

  /** Cleanup removes exactly the expired one-time rows: every recurring row and every recent row survives unchanged. */
  lemma CleanupRemovesExactlyExpired(m: map<int, Alarm>, cutoff: int, id: int)
    requires id in m
    ensures id in WithoutExpired(m, cutoff) <==> !(m[id].time < cutoff && m[id].repeat.None?)
    ensures id in WithoutExpired(m, cutoff) ==> WithoutExpired(m, cutoff)[id] == m[id]
    ensures m[id].repeat.Some? ==> id in WithoutExpired(m, cutoff)
  {
  }

  /** Deleting a row twice is the same as deleting it once. */
  lemma DeleteIdempotent(m: map<int, Alarm>, id: int)
    ensures (m - {id}) - {id} == m - {id}
  {
  }
}
