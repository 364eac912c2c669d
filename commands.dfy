/**
 * The alarm commands of main.py: `!setalarm` (the past-time rule and the repeat
 * normalisation around `add_alarm`) and `!deletealarm` (the ownership check around
 * `delete_alarm`). Parsing the time text is done by a foreign library; its answer is an
 * input here.
 */
module Commands {
  import opened Wrappers
  import opened Clock
  import opened Database

  /** A timezone-aware datetime: a UTC instant and the UTC offset of its zone at that instant. */
  datatype Moment = Moment(instant: int, utcOffset: int)
  {
    /** The naive wall-clock reading, as seconds since the epoch. */
    function Wall(): int { instant + utcOffset }

    /** `.time()`: the wall-clock time of day, in seconds since midnight. */
    function ClockTime(): int { TimeOfDay(Wall()) }
  }

  function LowerChar(c: char): char
  {
    if 'A' <= c <= 'Z' then (c as int + 32) as char else c
  }

  /** `str.lower()` on ASCII letters; other characters are kept. */
  function Lower(s: string): (r: string)
    ensures |r| == |s|
    ensures forall i :: 0 <= i < |s| ==> r[i] == LowerChar(s[i])
  {
    seq(|s|, i requires 0 <= i < |s| => LowerChar(s[i]))
  }

  /** `pattern` occurs in `text` starting at index `i`. */
  predicate OccursAt(text: string, pattern: string, i: int)
  {
    0 <= i && i + |pattern| <= |text| && text[i..i + |pattern|] == pattern
  }

  /** Python's `pattern in text` for strings, as a left-to-right scan. */
  function Contains(text: string, pattern: string): (b: bool)
    ensures b ==> |pattern| <= |text|
    ensures pattern == [] ==> b
    decreases |text|
  {
    pattern <= text || (text != [] && Contains(text[1..], pattern))
  }

  lemma SliceOfTail(text: string, i: nat, n: nat)
    requires 1 + i + n <= |text|
    ensures text[1..][i..i + n] == text[i + 1..i + 1 + n]
  {
    var a, b := text[1..][i..i + n], text[i + 1..i + 1 + n];
    assert |a| == |b|;
    forall j | 0 <= j < n ensures a[j] == b[j] {
      assert a[j] == text[1 + i + j];
    }
  }

  /** The scan finds a pattern exactly when it occurs at some index. */
  lemma {:induction false} ContainsIffOccurs(text: string, pattern: string)
    ensures Contains(text, pattern) <==> exists i :: OccursAt(text, pattern, i)
    decreases |text|
  {
    if pattern <= text {
      assert OccursAt(text, pattern, 0);
    } else if text != [] {
      ContainsIffOccurs(text[1..], pattern);
      if exists i :: OccursAt(text[1..], pattern, i) {
        var i :| OccursAt(text[1..], pattern, i);
        SliceOfTail(text, i, |pattern|);
        assert OccursAt(text, pattern, i + 1);
      }
      if exists i :: OccursAt(text, pattern, i) {
        var i :| OccursAt(text, pattern, i);
        if i > 0 {
          SliceOfTail(text, i - 1, |pattern|);
          assert OccursAt(text[1..], pattern, i - 1);
        }
      }
    }
  }

  /** `"tomorrow" in time_str.lower()`: true exactly when the word occurs somewhere in the lower-cased text. */
  predicate MentionsTomorrow(text: string): (b: bool)
    ensures b <==> exists i :: OccursAt(Lower(text), "tomorrow", i)
  {
    ContainsIffOccurs(Lower(text), "tomorrow");
    Contains(Lower(text), "tomorrow")
  }

  /**
   * The past-time rule of `set_alarm`, giving the UTC instant to store: a parsed time after
   * `now` is kept; one at or before `now` moves one day ahead when the text says "tomorrow"
   * (in any case) or when its clock time is earlier than now's, and is kept otherwise.
   */
  function AdjustPastTime(parsed: Moment, now: Moment, text: string): (t: int)
    ensures t == parsed.instant || t == parsed.instant + Day
    ensures parsed.instant > now.instant ==> t == parsed.instant
    ensures t == parsed.instant + Day <==>
              parsed.instant <= now.instant && (MentionsTomorrow(text) || parsed.ClockTime() < now.ClockTime())
  {
    if parsed.instant <= now.instant then
      if MentionsTomorrow(text) then parsed.instant + Day
      else parsed.instant + (if parsed.ClockTime() < now.ClockTime() then Day else 0)
    else parsed.instant
  }

  /**
   * A clock time earlier today (same zone offset, same local date, strictly before now)
   * is moved to the same clock time tomorrow, which is in the future and less than a day away.
   */
  lemma EarlierTodayMovesToTomorrow(parsed: Moment, now: Moment, text: string)
    requires parsed.utcOffset == now.utcOffset
    requires StartOfDay(parsed.Wall()) == StartOfDay(now.Wall())
    requires parsed.instant < now.instant
    ensures now.instant < AdjustPastTime(parsed, now, text) < now.instant + Day
  {
    assert parsed.ClockTime() < now.ClockTime();
  }

  /** Lower-casing a slice is slicing the lower-cased text. */
  lemma LowerSlice(text: string, i: nat, j: nat)
    requires i <= j <= |text|
    ensures Lower(text[i..j]) == Lower(text)[i..j]
  {
  }

  /** The eight characters of `text` from index `i` spell "tomorrow" in some mix of cases. */
  predicate SpellsTomorrowAt(text: string, i: int)
  {
    0 <= i && i + 8 <= |text| && Lower(text[i..i + 8]) == "tomorrow"
  }

  /**
   * The test ignores case: the text mentions "tomorrow" exactly when some eight of its
   * consecutive characters spell the word in any mix of upper and lower case.
   */
  lemma MentionsTomorrowAnyCase(text: string)
    ensures MentionsTomorrow(text) <==> exists i :: SpellsTomorrowAt(text, i)
  {
    if MentionsTomorrow(text) {
      var i :| OccursAt(Lower(text), "tomorrow", i);
      LowerSlice(text, i, i + 8);
      assert SpellsTomorrowAt(text, i);
    }
    if exists i :: SpellsTomorrowAt(text, i) {
      var i :| SpellsTomorrowAt(text, i);
      LowerSlice(text, i, i + 8);
      assert OccursAt(Lower(text), "tomorrow", i);
    }
  }

  /**
   * `repeat.lower() if repeat in ['daily', 'weekly'] else None`: membership is tested on the
   * text as typed, so only the exact lower-case words survive.
   */
  function NormalizeRepeat(repeat: Option<string>): (r: Option<string>)
    ensures r == None || r == Some("daily") || r == Some("weekly")
    ensures r.Some? <==> repeat == Some("daily") || repeat == Some("weekly")
    ensures r.Some? ==> r == repeat
  {
    if repeat == Some("daily") || repeat == Some("weekly") then
      assert Lower(repeat.value) == repeat.value;
      Some(Lower(repeat.value))
    else None
  }

  /**
   * `!setalarm`: reads the caller's timezone and stores one alarm for the adjusted time.
   * `parsed` is what the time parser made of `timeText` in that timezone (None when it
   * raised), `now` the current time in that timezone.
   */
  method SetAlarm(store: Store, userId: int, channelId: int, timeText: string, parsed: Option<Moment>,
                  now: Moment, repeat: Option<string>, message: string)
    returns (id: Option<int>)
    requires store.Valid()
    modifies store
    ensures store.Valid()
    ensures parsed.None? ==> id.None? && store.alarms == old(store.alarms) && store.lastId == old(store.lastId)
                             && store.Issued == old(store.Issued)
    ensures parsed.Some? ==>
      && id == Some(old(store.lastId) + 1)
      && store.lastId == old(store.lastId) + 1
      && store.Issued == old(store.Issued) + {old(store.lastId) + 1}
      && store.alarms == old(store.alarms)[old(store.lastId) + 1 := Alarm(
           userId, channelId, AdjustPastTime(parsed.value, now, timeText), message,
           TimezoneOf(old(store.timezones), userId), NormalizeRepeat(repeat))]
    ensures store.timezones == old(store.timezones) && store.logSettings == old(store.logSettings)
  {
    var timezone := store.GetUserTimezone(userId);
    if parsed.None? {
      return None;
    }
    var time := AdjustPastTime(parsed.value, now, timeText);
    var repeatStr := NormalizeRepeat(repeat);
    var newId := store.AddAlarm(userId, time, message, channelId, timezone, repeatStr);
    id := Some(newId);
  }

  /** `any(alarm['id'] == alarm_id for alarm in user_alarms)`. */
  predicate HasId(rows: seq<Row>, id: int): (b: bool)
    ensures b <==> id in IdsOf(rows)
  {
    exists i :: 0 <= i < |rows| && rows[i].id == id
  }

  /**
   * `!deletealarm`: deletes the alarm only when it is one of the caller's own; otherwise
   * the store is unchanged.
   */
  method DeleteAlarmCommand(store: Store, callerId: int, alarmId: int) returns (deleted: bool)
    requires store.Valid()
    modifies store
    ensures store.Valid()
    ensures deleted <==> alarmId in old(store.alarms) && old(store.alarms)[alarmId].userId == callerId
    ensures store.alarms == if deleted then old(store.alarms) - {alarmId} else old(store.alarms)
    ensures store.lastId == old(store.lastId) && store.Issued == old(store.Issued)
    ensures store.timezones == old(store.timezones) && store.logSettings == old(store.logSettings)
  {
    var mine := store.GetUserAlarms(callerId);
    deleted := HasId(mine, alarmId);
    if deleted {
      var i :| 0 <= i < |mine| && mine[i].id == alarmId;
      assert mine[i] in mine;
      store.DeleteAlarm(alarmId);
    }
  }
}
