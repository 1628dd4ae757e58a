/** Which transactions a search for payments or earnings takes: all, those
    between two dates, or those between two times of day. */
module Searches {
  const ONE_DAY: int := 86400

  function HourOf(t: int): (h: int)
    ensures 0 <= h < 24
  {
    t % ONE_DAY / 3600
  }

  function MinuteOf(t: int): (m: int)
    ensures 0 <= m < 60
  {
    t % 3600 / 60
  }

  /** The test of a search. No start asks for everything; a start on the first
      day of the epoch, the default date, asks for times of day. */
  predicate Selects(start: int, end: int, dateTime: int) {
    if start == 0 then true
    else if 0 < start < ONE_DAY then SelectsTime(start, end, HourOf(dateTime), MinuteOf(dateTime))
    else start < dateTime < end
  }

  /** Hours are compared first; in the hour of the start, the minute is compared
      with that hour instead of with the minute of the start. */
  predicate SelectsTime(start: int, end: int, hour: int, minute: int) {
    if start > end then
      || (hour < HourOf(start) && hour < HourOf(end))
      || (hour == HourOf(start) && minute > HourOf(start))
      || (hour == HourOf(end) && minute < MinuteOf(end))
    else
      && start < end
      && (|| (HourOf(start) < hour < HourOf(end))
          || (hour == HourOf(start) && minute > HourOf(start))
          || (hour == HourOf(end) && minute < MinuteOf(end)))
  }

  /** What such a search is for: the minutes of the day strictly between two
      times, over midnight if the first is the later one. */
  predicate BetweenTimes(start: int, end: int, dateTime: int) {
    if start < end then MinuteOfDay(start) < MinuteOfDay(dateTime) < MinuteOfDay(end)
    else MinuteOfDay(dateTime) > MinuteOfDay(start) || MinuteOfDay(dateTime) < MinuteOfDay(end)
  }

  function MinuteOfDay(t: int): int {
    t % ONE_DAY / 60
  }

  lemma Clock(t: int)
    ensures MinuteOfDay(t) == 60 * HourOf(t) + MinuteOf(t)
  {
    assert t % 3600 == t % ONE_DAY % 3600;
  }

  lemma ClockAt(hour: int, minute: int)
    requires 0 <= hour < 24 && 0 <= minute < 60
    ensures HourOf(3600 * hour + 60 * minute) == hour && MinuteOf(3600 * hour + 60 * minute) == minute
  {
    assert 0 <= 3600 * hour + 60 * minute < ONE_DAY;
  }

  /** Where a search goes wrong: in the hour of the start, whose minutes are
      compared with that hour, and over midnight in the hours after it; if both
      times are in one hour and in this order, at the minutes outside them. */
  predicate GoesWrong(start: int, end: int, t: int) {
    var hour, minute := HourOf(t), MinuteOf(t);
    if start < end && HourOf(start) == HourOf(end) then
      hour == HourOf(start) && (minute > HourOf(start) || minute < MinuteOf(end))
      && !(MinuteOf(start) < minute < MinuteOf(end))
    else
      || (start > end && hour > HourOf(start))
      || (hour == HourOf(start) && (minute > HourOf(start)) != (minute > MinuteOf(start))
          && !(hour == HourOf(end) && minute < MinuteOf(end)))
  }

  /** A search between two different times of day is wrong about a transaction
      exactly there. */
  lemma TimeSearchWrongIff(start: int, end: int, t: int)
    requires 0 < start < 86400 && 0 <= end < 86400 && start != end
    ensures Selects(start, end, t) != BetweenTimes(start, end, t) <==> GoesWrong(start, end, t)
  {
    Clock(start);
    Clock(end);
    Clock(t);
  }

  /** The hour and minute at which a search goes wrong, if it does. */
  function WrongHour(start: int, end: int): int {
    if start == 0 then 0 else if start > end then 23 else HourOf(start)
  }

  function WrongMinute(start: int, end: int): int {
    if start == 0 then 0
    else if start < end then
      if HourOf(start) == HourOf(end) then 59
      else if MinuteOf(start) < HourOf(start) then HourOf(start) else MinuteOf(start)
    else if HourOf(start) < 23 then 59
    else if MinuteOf(start) < 23 then 23 else MinuteOf(start)
  }

  /** A search between two times of day that is right about all transactions. */
  ghost predicate AlwaysRight(start: int, end: int) {
    forall t :: Selects(start, end, t) <==> BetweenTimes(start, end, t)
  }

  /** The starts and ends for which it is. */
  predicate RightTimes(start: int, end: int) {
    && start > 0 && MinuteOf(start) == HourOf(start)
    && if start < end then HourOf(start) < HourOf(end) else HourOf(start) == 23
  }

  lemma RightAt(start: int, end: int, t: int)
    requires 0 <= start < ONE_DAY && 0 <= end < ONE_DAY && start != end && RightTimes(start, end)
    ensures Selects(start, end, t) <==> BetweenTimes(start, end, t)
  {
    Clock(start);
    Clock(end);
    Clock(t);
  }

  lemma WrongAt(start: int, end: int, hour: int, minute: int)
    requires 0 <= start < ONE_DAY && 0 <= end < ONE_DAY && start != end && !RightTimes(start, end)
    requires hour == WrongHour(start, end) && minute == WrongMinute(start, end)
    ensures Selects(start, end, 3600 * hour + 60 * minute) != BetweenTimes(start, end, 3600 * hour + 60 * minute)
  {
    Clock(start);
    Clock(end);
    ClockAt(hour, minute);
    Clock(3600 * hour + 60 * minute);
  }

  /** A search between two different times of day finds what it should if and
      only if the minute of its start equals the hour and, within one day, the end
      is in a later hour or, over midnight, the start is 23:23. */
  lemma TimeSearchRightIff(start: int, end: int)
    requires 0 <= start < 86400 && 0 <= end < 86400 && start != end
    ensures AlwaysRight(start, end) <==> RightTimes(start, end)
  {
    if RightTimes(start, end) {
      forall t ensures Selects(start, end, t) <==> BetweenTimes(start, end, t) {
        RightAt(start, end, t);
      }
    } else {
      WrongAt(start, end, WrongHour(start, end), WrongMinute(start, end));
    }
  }
}
