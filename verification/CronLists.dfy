/** Schedules with lists, ranges and steps: what the program takes them for, and when that is a shift. */
module CronLists {
  import opened Wrappers
  import opened IniFile
  import opened Decimal
  import opened Cron

  /**
   * What the program takes a schedule for, whatever its parts are: a star stays, any other part is its leading number, and if
   * one part has none all become their defaults.
   */
  function TakenFor(parts: seq<string>): (r: seq<string>)
    requires |parts| == 5
    ensures |r| == 5
  {
    seq(5, i requires 0 <= i < 5 => if parts[i] == "*" then "*" else ToString(Values(parts)[i]))
  }

  lemma PrintedConverts(n: int)
    requires INT_MIN <= n <= INT_MAX
    ensures ToString(n) != "*" && Stoi(ToString(n)) == Some(n)
  {
    StoiOfToString(n);
    var digits := NatToString(if n < 0 then -n else n);
    hide NatToString, Stoi;
    assert IsDigit(digits[0]);
    assert ToString(n)[0] == if n < 0 then '-' else digits[0];
  }

  lemma ValuesInRange(parts: seq<string>, i: nat)
    requires |parts| == 5 && i < 5
    ensures INT_MIN <= Values(parts)[i] <= INT_MAX
    ensures parts[i] == "*" ==> Values(parts)[i] == DEFAULTS[i]
  {
    hide Stoi;
  }

  lemma TakenValue(parts: seq<string>, i: nat)
    requires |parts| == 5 && i < 5
    ensures var part := TakenFor(parts)[i];
            Convertible(part) && ValueOfPart(part, DEFAULTS[i]) == Values(parts)[i] && (part == "*" <==> parts[i] == "*")
  {
    hide Values, DEFAULTS, ToString, Stoi;
    ValuesInRange(parts, i);
    PrintedConverts(Values(parts)[i]);
  }

  /** The adjusted schedule is that of what it was taken for. */
  lemma AdjustedAsTaken(parts: seq<string>)
    requires |parts| == 5
    ensures Adjusted(parts) == Adjusted(TakenFor(parts))
  {
    var taken := TakenFor(parts);
    hide TakenFor, Convertible, ValueOfPart, DEFAULTS, Shifted, ToString;
    forall i | 0 <= i < 5
      ensures Convertible(taken[i]) && ValueOfPart(taken[i], DEFAULTS[i]) == Values(parts)[i] && (taken[i] == "*" <==> parts[i] == "*")
    {
      TakenValue(parts, i);
    }
    assert Values(taken) == Values(parts);
  }

  /** How a schedule with lists, ranges and steps fires: any meaning of its minute and hour parts. */
  datatype Meaning = Meaning(minute: nat -> bool, hour: nat -> bool)

  predicate Means(m: Meaning, t: nat) {
    m.minute(t % 60) && m.hour(t / 60)
  }

  ghost predicate ShiftsMeaning(m: Meaning, parts: seq<string>)
    requires |parts| == 5 && Timed(TakenFor(parts))
  {
    AdjustedAsTaken(parts);
    AdjustedFields(TakenFor(parts));
    forall t :: 0 <= t < 1440 ==> Fires(Adjusted(parts), t) == Means(m, (t + 3) % 1440)
  }

  /**
   * Any schedule is moved back by three minutes exactly when it fires as what it is taken for, provided that this one is
   * shifted itself.
   */
  lemma ShiftsAsTaken(m: Meaning, parts: seq<string>)
    requires |parts| == 5 && Timed(TakenFor(parts)) && ShiftsTheDay(TakenFor(parts))
    ensures ShiftsMeaning(m, parts) <==> forall u :: 0 <= u < 1440 ==> Means(m, u) == Fires(TakenFor(parts), u)
  {
    var taken := TakenFor(parts);
    hide TakenFor, Adjusted, FieldOf, Means, AtTime;
    AdjustedAsTaken(parts);
    AdjustedFields(taken);
    if ShiftsMeaning(m, parts) {
      forall u | 0 <= u < 1440
        ensures Means(m, u) == Fires(taken, u)
      {
        var t := (u + 1437) % 1440;
        ThreeBack(u);
        assert Fires(Adjusted(parts), t) == Means(m, (t + 3) % 1440);
      }
    } else {
      var t :| 0 <= t < 1440 && Fires(Adjusted(parts), t) != Means(m, (t + 3) % 1440);
      assert Fires(Adjusted(taken), t) == Fires(taken, (t + 3) % 1440);
    }
  }

  lemma ThreeBack(u: nat)
    requires u < 1440
    ensures var t := (u + 1437) % 1440; t < 1440 && (t + 3) % 1440 == u
  {
  }

  lemma OnTheClock(h: nat, m: nat)
    requires h < 24 && m < 60
    ensures (60 * h + m) % 60 == m && (60 * h + m) / 60 == h && 60 * h + m < 1440
  {
  }

  /** A fixed minute is one minute of an hour. */
  lemma OneMinuteOnly(parts: seq<string>, u: nat, w: nat)
    requires Plain(parts) && Minute(parts).At? && u % 60 != w % 60
    ensures !(Fires(parts, u) && Fires(parts, w))
  {
    hide FieldOf;
  }

  /** So no schedule whose minute part means two minutes of an hour, as lists, ranges and steps do, is shifted. */
  lemma TwoMinutesAreNoShift(m: Meaning, parts: seq<string>, a: nat, b: nat, h: nat)
    requires |parts| == 5 && Timed(TakenFor(parts)) && parts[0] != "*"
    requires a < b < 60 && h < 24 && m.minute(a) && m.minute(b) && m.hour(h)
    ensures !ShiftsMeaning(m, parts)
  {
    hide TakenFor, FieldOf, ShiftsMeaning, ShiftsTheDay, Fires;
    var taken, u, w := TakenFor(parts), 60 * h + a, 60 * h + b;
    TakenMinute(parts);
    ShiftExactly(taken);
    ShiftsAsTaken(m, parts);
    OnTheClock(h, a);
    OnTheClock(h, b);
    assert Means(m, u) && Means(m, w);
    OneMinuteOnly(taken, u, w);
  }

  lemma TakenMinute(parts: seq<string>)
    requires |parts| == 5 && Timed(TakenFor(parts)) && parts[0] != "*"
    ensures Minute(TakenFor(parts)).At?
  {
    hide Values, ToString, Convertible, ValueOfPart;
    TakenValue(parts, 0);
    StarIsAny(TakenFor(parts)[0]);
  }

  /** The days of a schedule with lists and ranges: any meaning of its last three parts. */
  type Days = nat -> bool

  ghost predicate ShiftsDays(cal: Calendar, days: Days, parts: seq<string>)
    requires |parts| == 5 && Timed(TakenFor(parts))
  {
    AdjustedAsTaken(parts);
    AdjustedFields(TakenFor(parts));
    forall time: nat :: FiresAt(cal, Adjusted(parts), time) == (days((time + 3) / 1440) && Fires(TakenFor(parts), (time + 3) % 1440))
  }

  /** Where minute and hour are what they were taken for, away from midnight, the shift holds exactly if the days are, too. */
  lemma DaysAsTaken(cal: Calendar, days: Days, parts: seq<string>)
    requires |parts| == 5 && Timed(TakenFor(parts)) && Minute(TakenFor(parts)).At? && !NearMidnight(TakenFor(parts))
    ensures ShiftsDays(cal, days, parts) <==> forall d: nat :: days(d) == OnDay(cal, TakenFor(parts), d)
  {
    var taken := TakenFor(parts);
    hide TakenFor, Adjusted, FieldOf, AtTime, NearMidnight;
    AdjustedAsTaken(parts);
    AdjustedFields(taken);
    if forall d: nat :: days(d) == OnDay(cal, taken, d) {
      forall time: nat
        ensures FiresAt(cal, Adjusted(parts), time) == (days((time + 3) / 1440) && Fires(taken, (time + 3) % 1440))
      {
        ShiftOneMinute(cal, taken, time);
        assert days((time + 3) / 1440) == OnDay(cal, taken, (time + 3) / 1440);
      }
    } else {
      var d: nat :| days(d) != OnDay(cal, taken, d);
      var t := FiringMinute(taken);
      var time := 1440 * d + t - 3;
      assert (time + 3) / 1440 == d && (time + 3) % 1440 == t;
      ShiftOneMinute(cal, taken, time);
    }
  }

  /** Away from midnight a timed schedule with a fixed minute fires at some minute past the third. */
  lemma FiringMinute(parts: seq<string>) returns (t: nat)
    requires Timed(parts) && Minute(parts).At? && !NearMidnight(parts)
    ensures 3 <= t < 1440 && Fires(parts, t)
  {
    hide FieldOf;
    var h := if Hour(parts).At? then Hour(parts).n else 23;
    t := 60 * h + Minute(parts).n;
    assert t % 60 == Minute(parts).n && t / 60 == h;
  }
}
