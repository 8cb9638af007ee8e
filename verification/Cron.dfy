/** The daemon's own cron entry: the schedule moved back by three minutes, and the crontab rewritten around it. */
module Cron {
  import opened Wrappers
  import opened IniFile
  import opened Decimal

  /*** Splitting the schedule ***/

  function WordEnd(s: string): (k: nat)
    ensures k <= |s|
  {
    if s == "" || IsSpace(s[0]) then 0 else 1 + WordEnd(s[1..])
  }

  lemma SkipShrinks(s: string)
    ensures |SkipSpaces(s)| <= |s|
    ensures SkipSpaces(s) != "" ==> WordEnd(SkipSpaces(s)) > 0
  {
  }

  function Words(s: string): seq<string>
    decreases |s|
  {
    SkipShrinks(s);
    var t := SkipSpaces(s);
    if t == "" then [] else [t[..WordEnd(t)]] + Words(t[WordEnd(t)..])
  }

  lemma WordsUnfold(s: string)
    ensures var t := SkipSpaces(s);
            Words(s) == if t == "" then [] else [t[..WordEnd(t)]] + Words(t[WordEnd(t)..])
  {
    hide SkipSpaces, WordEnd;
    SkipShrinks(s);
  }

  /** A schedule has five parts; what follows them is ignored. */
  /** The reading loop: it stops at the end of the text or once it holds five parts. */
  method ReadParts(cron: string) returns (parts: seq<string>)
    ensures parts == if |Words(cron)| < 5 then Words(cron) else Words(cron)[..5]
  {
    hide Words, SkipSpaces;
    var rest := cron;
    parts := [];
    while |parts| < 5
      invariant |parts| <= 5
      invariant parts + Words(rest) == Words(cron)
      decreases 5 - |parts|
    {
      var t := SkipSpaces(rest);
      WordsUnfold(rest);
      if t == "" {
        assert parts + [] == parts;
        return;
      }
      var k := WordEnd(t);
      assert parts + ([t[..k]] + Words(t[k..])) == parts + [t[..k]] + Words(t[k..]);
      parts := parts + [t[..k]];
      rest := t[k..];
    }
  }

  /*** Adjusting it ***/

  const DEFAULTS: seq<int> := [0, 0, 1, 1, 0]

  predicate Convertible(part: string) {
    part == "*" || Stoi(part).Some?
  }

  function ValueOfPart(part: string, default: int): int
    requires Convertible(part)
  {
    if part == "*" then default else Stoi(part).value
  }

  /** One part that is no number sends all five back to their defaults. */
  function Values(parts: seq<string>): (r: seq<int>)
    requires |parts| == 5
    ensures |r| == 5
  {
    if forall i :: 0 <= i < 5 ==> Convertible(parts[i])
    then seq(5, i requires 0 <= i < 5 => ValueOfPart(parts[i], DEFAULTS[i]))
    else DEFAULTS
  }

  function Shifted(v: seq<int>): (r: seq<int>)
    requires |v| == 5
    ensures |r| == 5
  {
    if v[0] > 2 then v[0 := v[0] - 3]
    else v[0 := v[0] + 57][1 := if v[1] == 0 then 23 else v[1] - 1]
  }

  function Adjusted(parts: seq<string>): (r: seq<string>)
    requires |parts| == 5
    ensures |r| == 5
  {
    var v := Shifted(Values(parts));
    seq(5, i requires 0 <= i < 5 => if parts[i] == "*" then "*" else ToString(v[i]))
  }

  function Joined(parts: seq<string>): string {
    if parts == [] then ""
    else if |parts| == 1 then parts[0]
    else Joined(parts[..|parts| - 1]) + " " + parts[|parts| - 1]
  }

  method ResetValues(values: array<int>)
    requires values.Length == 5
    modifies values
    ensures values[..] == DEFAULTS
  {
    values[0], values[1], values[2], values[3], values[4] := 0, 0, 1, 1, 0;
  }

  method ParseValues(parts: seq<string>, values: array<int>)
    requires |parts| == 5 && values.Length == 5
    modifies values
    ensures values[..] == Values(parts)
  {
    hide Stoi, DEFAULTS;
    ResetValues(values);
    assert forall j :: 0 <= j < 5 ==> values[j] == DEFAULTS[j];
    for i := 0 to 5
      invariant forall j :: 0 <= j < i ==> Convertible(parts[j]) && values[j] == ValueOfPart(parts[j], DEFAULTS[j])
      invariant forall j :: i <= j < 5 ==> values[j] == DEFAULTS[j]
    {
      if parts[i] != "*" {
        var n := Stoi(parts[i]);
        if n.None? {
          assert !Convertible(parts[i]);
          ResetValues(values);
          return;
        }
        values[i] := n.value;
      }
    }
    assert values[..] == Values(parts);
  }

  method AdjustSchedule(parts: seq<string>) returns (adjusted: string)
    requires |parts| == 5
    ensures adjusted == Joined(Adjusted(parts))
  {
    hide Values;
    var values := new int[5];
    ParseValues(parts, values);
    if values[0] > 2 {
      values[0] := values[0] - 3;
    } else {
      values[0] := values[0] + 57;
      values[1] := if values[1] == 0 then 23 else values[1] - 1;
    }
    assert values[..] == Shifted(Values(parts));
    ghost var all := Adjusted(parts);
    adjusted := "";
    for i := 0 to 5
      invariant adjusted == Joined(all[..i])
    {
      assert all[..i + 1][..i] == all[..i];
      if i > 0 {
        adjusted := adjusted + " ";
      }
      if parts[i] == "*" {
        adjusted := adjusted + "*";
      } else {
        adjusted := adjusted + ToString(values[i]);
      }
    }
    assert all[..5] == all;
  }

  /*** What a schedule means ***/

  datatype CronField = Any | At(n: nat)

  function FieldOf(part: string): Option<CronField> {
    if part == "*" then Some(Any)
    else if part != "" && AllDigits(part) then Some(At(ValueOf(part)))
    else None
  }

  predicate Matches(f: CronField, v: nat) {
    f.Any? || f.n == v
  }

  /** Five parts, each a star or a number. */
  predicate Plain(parts: seq<string>) {
    |parts| == 5 && forall i :: 0 <= i < 5 ==> PlainPart(parts[i])
  }

  predicate PlainPart(part: string) {
    FieldOf(part).Some? && (FieldOf(part).value.At? ==> FieldOf(part).value.n <= INT_MAX)
  }

  /** A plain schedule whose minute and hour are in range. */
  predicate Timed(parts: seq<string>) {
    && Plain(parts)
    && (Minute(parts).At? ==> Minute(parts).n < 60)
    && (Hour(parts).At? ==> Hour(parts).n < 24)
  }

  function Minute(parts: seq<string>): CronField
    requires Plain(parts)
  {
    FieldOf(parts[0]).value
  }

  function Hour(parts: seq<string>): CronField
    requires Plain(parts)
  {
    FieldOf(parts[1]).value
  }

  /** Whether a day fits the day, month and weekday of a schedule: any calendar at all. */
  type Calendar = (CronField, CronField, CronField, nat) -> bool

  predicate OnDay(cal: Calendar, parts: seq<string>, day: nat)
    requires Plain(parts)
  {
    cal(FieldOf(parts[2]).value, FieldOf(parts[3]).value, FieldOf(parts[4]).value, day)
  }

  predicate AtTime(minute: CronField, hour: CronField, t: nat) {
    Matches(minute, t % 60) && Matches(hour, t / 60)
  }

  /** Firing at a minute of a day, and at a minute counted from the first day. */
  predicate Fires(parts: seq<string>, t: nat)
    requires Plain(parts)
  {
    AtTime(Minute(parts), Hour(parts), t)
  }

  predicate FiresAt(cal: Calendar, parts: seq<string>, time: nat)
    requires Plain(parts)
  {
    OnDay(cal, parts, time / 1440) && Fires(parts, time % 1440)
  }

  /*** The adjusted schedule, part by part ***/

  lemma {:induction false} StoiOfDigits(s: string)
    requires s != "" && AllDigits(s)
    ensures Stoi(s) == if ValueOf(s) <= INT_MAX then Some(ValueOf(s)) else None
  {
    assert IsDigit(s[0]);
    assert SkipSpaces(s) == s;
    DigitPrefixOfDigits(s);
  }

  lemma FieldOfPrinted(n: nat)
    ensures FieldOf(ToString(n)) == Some(At(n))
  {
    var s := NatToString(n);
    assert IsDigit(s[0]);
    ValueOfPrinted(n);
  }

  lemma PlainValue(part: string, default: int)
    requires PlainPart(part)
    ensures Convertible(part)
    ensures ValueOfPart(part, default) == if FieldOf(part).value.Any? then default else FieldOf(part).value.n
  {
    hide Stoi;
    if part != "*" {
      StoiOfDigits(part);
    }
  }

  lemma PlainValues(parts: seq<string>)
    requires Plain(parts)
    ensures forall i :: 0 <= i < 5 ==>
      Values(parts)[i] == if FieldOf(parts[i]).value.Any? then DEFAULTS[i] else FieldOf(parts[i]).value.n
  {
    hide Convertible, ValueOfPart, FieldOf;
    forall i | 0 <= i < 5
      ensures Convertible(parts[i])
      ensures ValueOfPart(parts[i], DEFAULTS[i]) == if FieldOf(parts[i]).value.Any? then DEFAULTS[i] else FieldOf(parts[i]).value.n
    {
      PlainValue(parts[i], DEFAULTS[i]);
    }
  }

  function HourBefore(hour: CronField): CronField {
    if hour.Any? then Any else if hour.n == 0 then At(23) else At(hour.n - 1)
  }

  lemma StarIsAny(part: string)
    ensures FieldOf(part) == Some(Any) <==> part == "*"
  {
  }

  predicate IsEarly(parts: seq<string>)
    requires Plain(parts)
  {
    Minute(parts).Any? || Minute(parts).n <= 2
  }

  function MinuteBefore(minute: CronField): CronField {
    if minute.Any? then Any else if minute.n <= 2 then At(minute.n + 57) else At(minute.n - 3)
  }

  /** The part a value is printed to. */
  lemma AdjustedPart(parts: seq<string>, i: nat)
    requires Plain(parts) && i < 5 && (FieldOf(parts[i]).value.At? ==> 0 <= Shifted(Values(parts))[i] <= INT_MAX)
    ensures PlainPart(Adjusted(parts)[i])
    ensures FieldOf(Adjusted(parts)[i])
         == if FieldOf(parts[i]).value.Any? then Some(Any) else Some(At(Shifted(Values(parts))[i]))
  {
    hide Values, Shifted, FieldOf, ToString;
    assert PlainPart(parts[i]);
    StarIsAny(parts[i]);
    StarIsAny("*");
    if FieldOf(parts[i]).value.At? {
      FieldOfPrinted(Shifted(Values(parts))[i]);
    }
  }

  lemma AdjustedMinute(parts: seq<string>)
    requires Timed(parts)
    ensures PlainPart(Adjusted(parts)[0]) && FieldOf(Adjusted(parts)[0]) == Some(MinuteBefore(Minute(parts)))
  {
    hide Values, FieldOf, Adjusted;
    PlainValues(parts);
    AdjustedPart(parts, 0);
  }

  lemma AdjustedHour(parts: seq<string>)
    requires Timed(parts)
    ensures PlainPart(Adjusted(parts)[1])
    ensures FieldOf(Adjusted(parts)[1]) == Some(if IsEarly(parts) then HourBefore(Hour(parts)) else Hour(parts))
  {
    hide Values, FieldOf, Adjusted;
    PlainValues(parts);
    AdjustedPart(parts, 1);
  }

  lemma AdjustedDays(parts: seq<string>, i: nat)
    requires Plain(parts) && 2 <= i < 5
    ensures PlainPart(Adjusted(parts)[i]) && FieldOf(Adjusted(parts)[i]) == FieldOf(parts[i])
  {
    hide Values, FieldOf, Adjusted, DEFAULTS;
    PlainValues(parts);
    assert PlainPart(parts[i]);
    AdjustedPart(parts, i);
  }

  lemma AdjustedFields(parts: seq<string>)
    requires Timed(parts)
    ensures Timed(Adjusted(parts))
    ensures Minute(Adjusted(parts)) == MinuteBefore(Minute(parts))
    ensures Hour(Adjusted(parts)) == if IsEarly(parts) then HourBefore(Hour(parts)) else Hour(parts)
    ensures forall i :: 2 <= i < 5 ==> FieldOf(Adjusted(parts)[i]) == FieldOf(parts[i])
  {
    hide Adjusted, FieldOf, PlainPart;
    AdjustedMinute(parts);
    AdjustedHour(parts);
    forall i | 2 <= i < 5
      ensures PlainPart(Adjusted(parts)[i]) && FieldOf(Adjusted(parts)[i]) == FieldOf(parts[i])
    {
      AdjustedDays(parts, i);
    }
    forall i | 0 <= i < 5
      ensures PlainPart(Adjusted(parts)[i])
    {
      assert i == 0 || i == 1 || 2 <= i;
    }
  }

  /*** The shift ***/

  /** Three minutes later on the clock: the same hour, or the next one. */
  lemma ThreeLater(t: nat)
    requires t < 1440
    ensures var u := (t + 3) % 1440;
            && (t % 60 < 57 ==> u % 60 == t % 60 + 3 && u / 60 == t / 60)
            && (t % 60 >= 57 ==> u % 60 == t % 60 - 57 && u / 60 == (if t / 60 == 23 then 0 else t / 60 + 1))
            && t / 60 < 24 && u < 1440
  {
    var h, m := t / 60, t % 60;
    assert t == 60 * h + m;
    if m >= 57 && h == 23 {
      assert t + 3 == 1440 + (m - 57);
    } else if m >= 57 {
      assert t + 3 == 60 * (h + 1) + (m - 57);
    } else {
      assert t + 3 == 60 * h + (m + 3);
    }
  }

  lemma EarlyShift(m: nat, hour: CronField, t: nat)
    requires m <= 2 && t < 1440 && (hour.At? ==> hour.n < 24)
    ensures AtTime(At(m + 57), HourBefore(hour), t) <==> AtTime(At(m), hour, (t + 3) % 1440)
  {
    ThreeLater(t);
  }

  lemma LateShift(m: nat, hour: CronField, t: nat)
    requires 2 < m < 60 && t < 1440 && (hour.At? ==> hour.n < 24)
    ensures AtTime(At(m - 3), hour, t) <==> AtTime(At(m), hour, (t + 3) % 1440)
  {
    ThreeLater(t);
  }

  ghost predicate ShiftsTheDay(parts: seq<string>)
    requires Timed(parts)
  {
    AdjustedFields(parts);
    forall t :: 0 <= t < 1440 ==> Fires(Adjusted(parts), t) == Fires(parts, (t + 3) % 1440)
  }

  lemma FixedMinuteShifts(parts: seq<string>, t: nat)
    requires Timed(parts) && Minute(parts).At? && t < 1440
    ensures Timed(Adjusted(parts)) && Fires(Adjusted(parts), t) == Fires(parts, (t + 3) % 1440)
  {
    hide Adjusted, AtTime, HourBefore, FieldOf;
    AdjustedFields(parts);
    if Minute(parts).n <= 2 {
      EarlyShift(Minute(parts).n, Hour(parts), t);
    } else {
      LateShift(Minute(parts).n, Hour(parts), t);
    }
  }

  /** The firing minutes of the day move back by three, around midnight too, exactly unless every minute of one hour is meant. */
  lemma ShiftExactly(parts: seq<string>)
    requires Timed(parts)
    ensures ShiftsTheDay(parts) <==> !(Minute(parts).Any? && Hour(parts).At?)
  {
    hide Adjusted, FieldOf;
    AdjustedFields(parts);
    if Minute(parts).At? {
      forall t | 0 <= t < 1440
        ensures Fires(Adjusted(parts), t) == Fires(parts, (t + 3) % 1440)
      {
        FixedMinuteShifts(parts, t);
      }
    } else if Hour(parts).At? {
      var t := 60 * HourBefore(Hour(parts)).n;
      assert Fires(Adjusted(parts), t);
      assert !Fires(parts, (t + 3) % 1440);
    }
  }

  ghost predicate ShiftsInTime(cal: Calendar, parts: seq<string>)
    requires Timed(parts)
  {
    AdjustedFields(parts);
    forall time: nat :: FiresAt(cal, Adjusted(parts), time) == FiresAt(cal, parts, time + 3)
  }

  /** Fires in one of the first three minutes of a day. */
  predicate NearMidnight(parts: seq<string>)
    requires Timed(parts)
  {
    Minute(parts).At? && Minute(parts).n <= 2 && Matches(Hour(parts), 0)
  }

  /** All days are alike to the schedule. */
  ghost predicate DaysAlike(cal: Calendar, parts: seq<string>)
    requires Plain(parts)
  {
    forall day: nat :: OnDay(cal, parts, day) == OnDay(cal, parts, day + 1)
  }

  /** No day fits the schedule. */
  ghost predicate NoDay(cal: Calendar, parts: seq<string>)
    requires Plain(parts)
  {
    forall day: nat :: !OnDay(cal, parts, day)
  }

  /**
   * The shift in absolute time, for every calendar. With a fixed minute it holds exactly unless it takes the schedule over
   * midnight into days it was not meant for; with every minute of every hour exactly if all days are alike; with every
   * minute of one hour only if the schedule never fires.
   */
  lemma ShiftAcrossDays(cal: Calendar, parts: seq<string>)
    requires Timed(parts)
    ensures ShiftsInTime(cal, parts)
        <==> if Minute(parts).At? then !NearMidnight(parts) || DaysAlike(cal, parts)
             else if Hour(parts).Any? then DaysAlike(cal, parts)
             else NoDay(cal, parts)
  {
    hide ShiftsInTime, NearMidnight, DaysAlike, NoDay, FieldOf;
    if Minute(parts).At? {
      FixedMinuteAcrossDays(cal, parts);
    } else if Hour(parts).Any? {
      EveryMinuteAcrossDays(cal, parts);
    } else {
      OneHourAcrossDays(cal, parts);
    }
  }

  lemma FixedMinuteAcrossDays(cal: Calendar, parts: seq<string>)
    requires Timed(parts) && Minute(parts).At?
    ensures ShiftsInTime(cal, parts) <==> !NearMidnight(parts) || DaysAlike(cal, parts)
  {
    hide Adjusted, FieldOf, AtTime;
    AdjustedFields(parts);
    if !NearMidnight(parts) || DaysAlike(cal, parts) {
      forall time: nat
        ensures FiresAt(cal, Adjusted(parts), time) == FiresAt(cal, parts, time + 3)
      {
        ShiftOneMinute(cal, parts, time);
      }
    } else {
      var day: nat :| OnDay(cal, parts, day) != OnDay(cal, parts, day + 1);
      MidnightMatters(cal, parts, day);
    }
  }

  /** A schedule of every minute fires on its days, and its adjusted form is the same. */
  lemma EveryMinuteFires(cal: Calendar, parts: seq<string>, time: nat)
    requires Timed(parts) && Minute(parts).Any? && Hour(parts).Any?
    ensures Timed(Adjusted(parts))
    ensures FiresAt(cal, parts, time) == OnDay(cal, parts, time / 1440)
    ensures FiresAt(cal, Adjusted(parts), time) == OnDay(cal, parts, time / 1440)
  {
    hide Adjusted, FieldOf;
    AdjustedFields(parts);
  }

  lemma EveryMinuteAcrossDays(cal: Calendar, parts: seq<string>)
    requires Timed(parts) && Minute(parts).Any? && Hour(parts).Any?
    ensures ShiftsInTime(cal, parts) <==> DaysAlike(cal, parts)
  {
    hide Adjusted, FieldOf, FiresAt, OnDay;
    AdjustedFields(parts);
    if DaysAlike(cal, parts) {
      forall time: nat
        ensures FiresAt(cal, Adjusted(parts), time) == FiresAt(cal, parts, time + 3)
      {
        EveryMinuteFires(cal, parts, time);
        EveryMinuteFires(cal, parts, time + 3);
        TimeOfDay(time);
        assert OnDay(cal, parts, time / 1440) == OnDay(cal, parts, time / 1440 + 1);
      }
    } else {
      var day: nat :| OnDay(cal, parts, day) != OnDay(cal, parts, day + 1);
      var time := 1440 * day + 1437;
      EveryMinuteFires(cal, parts, time);
      EveryMinuteFires(cal, parts, time + 3);
      assert time / 1440 == day && (time + 3) / 1440 == day + 1;
      assert FiresAt(cal, Adjusted(parts), time) != FiresAt(cal, parts, time + 3);
    }
  }

  lemma OneHourAcrossDays(cal: Calendar, parts: seq<string>)
    requires Timed(parts) && Minute(parts).Any? && Hour(parts).At?
    ensures ShiftsInTime(cal, parts) <==> NoDay(cal, parts)
  {
    hide Adjusted, FieldOf;
    AdjustedFields(parts);
    if NoDay(cal, parts) {
      forall time: nat
        ensures FiresAt(cal, Adjusted(parts), time) == FiresAt(cal, parts, time + 3)
      {
        assert !OnDay(cal, parts, time / 1440) && !OnDay(cal, parts, (time + 3) / 1440);
      }
    } else {
      var day: nat :| OnDay(cal, parts, day);
      var t := 60 * HourBefore(Hour(parts)).n;
      var time := 1440 * day + t;
      assert time / 1440 == day && time % 1440 == t;
      TimeOfDay(time);
      assert Fires(Adjusted(parts), t) && !Fires(parts, (t + 3) % 1440);
      assert FiresAt(cal, Adjusted(parts), time) != FiresAt(cal, parts, time + 3);
    }
  }

  lemma TimeOfDay(time: nat)
    ensures (time + 3) % 1440 == (time % 1440 + 3) % 1440
    ensures (time + 3) / 1440 == if time % 1440 < 1437 then time / 1440 else time / 1440 + 1
  {
  }

  lemma EarlyOnly(parts: seq<string>, t: nat)
    requires Timed(parts) && Minute(parts).At? && 1437 <= t < 1440 && Fires(parts, (t + 3) % 1440)
    ensures NearMidnight(parts)
  {
  }

  lemma ShiftOneMinute(cal: Calendar, parts: seq<string>, time: nat)
    requires Timed(parts) && Minute(parts).At?
    requires !NearMidnight(parts) || DaysAlike(cal, parts)
    ensures Timed(Adjusted(parts)) && FiresAt(cal, Adjusted(parts), time) == FiresAt(cal, parts, time + 3)
  {
    hide Adjusted, FieldOf, Fires, NearMidnight;
    AdjustedFields(parts);
    var t := time % 1440;
    FixedMinuteShifts(parts, t);
    TimeOfDay(time);
    if t >= 1437 && Fires(parts, (t + 3) % 1440) {
      EarlyOnly(parts, t);
      assert OnDay(cal, parts, time / 1440) == OnDay(cal, parts, time / 1440 + 1);
    }
  }

  lemma MidnightMatters(cal: Calendar, parts: seq<string>, day: nat)
    requires Timed(parts) && NearMidnight(parts)
    requires OnDay(cal, parts, day) != OnDay(cal, parts, day + 1)
    ensures Timed(Adjusted(parts)) && !ShiftsInTime(cal, parts)
  {
    hide Adjusted, FieldOf;
    AdjustedFields(parts);
    var t := 1437 + Minute(parts).n;
    var time := 1440 * day + t;
    assert time / 1440 == day && time % 1440 == t;
    TimeOfDay(time);
    assert Fires(parts, (t + 3) % 1440);
    FixedMinuteShifts(parts, t);
    assert FiresAt(cal, Adjusted(parts), time) != FiresAt(cal, parts, time + 3);
  }

  /*** The adjusted schedule as text ***/

  /** A part as it stands between blanks. */
  predicate IsWord(w: string) {
    w != "" && forall i :: 0 <= i < |w| ==> !IsSpace(w[i])
  }

  lemma {:induction false} WordEndOf(w: string, rest: string)
    requires forall i :: 0 <= i < |w| ==> !IsSpace(w[i])
    ensures WordEnd(w + " " + rest) == |w| && WordEnd(w) == |w|
  {
    if w == "" {
      assert w + " " + rest == " " + rest;
    } else {
      assert (w + " " + rest)[1..] == w[1..] + " " + rest;
      WordEndOf(w[1..], rest);
    }
  }

  lemma SkipNothing(s: string)
    requires s != "" && !IsSpace(s[0])
    ensures SkipSpaces(s) == s
  {
  }

  lemma WordsOfWord(w: string, rest: string)
    requires IsWord(w)
    ensures Words(w) == [w]
    ensures Words(w + " " + rest) == [w] + Words(rest)
  {
    hide Words, SkipSpaces, WordEnd;
    var s := w + " " + rest;
    WordEndOf(w, rest);
    SkipNothing(w);
    SkipNothing(s);
    WordsUnfold(w);
    WordsUnfold(s);
    assert w[..|w|] == w && w[|w|..] == "";
    assert s[..|w|] == w && s[|w|..] == " " + rest;
    NoWords();
    BlankInFront(rest);
  }

  lemma NoWords()
    ensures Words("") == []
  {
  }

  lemma BlankInFront(rest: string)
    ensures Words(" " + rest) == Words(rest)
  {
    hide Words;
    assert (" " + rest)[1..] == rest;
    WordsUnfold(" " + rest);
    WordsUnfold(rest);
  }

  lemma {:induction false} JoinedFront(parts: seq<string>)
    requires |parts| > 1
    ensures Joined(parts) == parts[0] + " " + Joined(parts[1..])
    decreases |parts|
  {
    var n := |parts| - 1;
    if n == 1 {
      assert Joined(parts[..1]) == parts[0] && Joined(parts[1..]) == parts[1];
    } else {
      JoinedFront(parts[..n]);
      assert parts[..n][1..] == parts[1..][..n - 1];
    }
  }

  lemma {:induction false} WordsOfJoined(parts: seq<string>)
    requires forall i :: 0 <= i < |parts| ==> IsWord(parts[i])
    ensures Words(Joined(parts)) == parts
    decreases |parts|
  {
    if |parts| == 0 {
      NoWords();
    } else if |parts| == 1 {
      WordsOfWord(parts[0], "");
    } else {
      hide Words, Joined;
      JoinedFront(parts);
      WordsOfJoined(parts[1..]);
      WordsOfWord(parts[0], Joined(parts[1..]));
    }
  }

  lemma PrintedIsWord(n: int)
    ensures IsWord(ToString(n))
  {
    var digits := NatToString(if n < 0 then -n else n);
    hide NatToString;
    assert forall i :: 0 <= i < |digits| ==> IsDigit(digits[i]);
  }

  /** The adjusted text splits into the five adjusted parts again. */
  lemma AdjustedReads(parts: seq<string>)
    requires |parts| == 5
    ensures Words(Joined(Adjusted(parts))) == Adjusted(parts)
  {
    hide Words, Joined, Values, Shifted, ToString;
    forall i | 0 <= i < 5
      ensures IsWord(Adjusted(parts)[i])
    {
      PrintedIsWord(Shifted(Values(parts))[i]);
    }
    WordsOfJoined(Adjusted(parts));
  }

  /** One part that is no number: every part that is no star comes from the defaults, three minutes before midnight. */
  lemma DefaultsTaken(parts: seq<string>, i: nat)
    requires |parts| == 5 && i < 5 && parts[i] != "*" && Stoi(parts[i]).None?
    ensures forall j :: 0 <= j < 5 ==> Adjusted(parts)[j] == if parts[j] == "*" then "*" else ["57", "23", "1", "1", "0"][j]
  {
    hide Stoi;
    assert !Convertible(parts[i]);
    assert Values(parts) == [0, 0, 1, 1, 0];
    assert Shifted(Values(parts)) == [57, 23, 1, 1, 0];
    SmallNumbers();
    hide ToString, Values, Shifted;
  }

  lemma SmallNumbers()
    ensures ToString(57) == "57" && ToString(23) == "23" && ToString(1) == "1" && ToString(0) == "0"
  {
    assert NatToString(5) == "5" && NatToString(2) == "2";
  }
}
