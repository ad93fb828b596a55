/**
 * The todo card's pure logic: the 12-hour time and `MM/DD/YYYY` creation
 * stamp it prints, and the overdue and has-time badges it decides on.
 */
module TodoItem {
  import opened Wrappers
  import opened Text
  import opened WallClock
  import Todos
  import TodoForm

  /** `n.toString().padStart(2, '0')`. */
  function TwoDigits(n: nat): string {
    PadStart(NatToString(n), 2, '0')
  }

  lemma TwoDigitsValue(n: nat)
    requires n < 100
    ensures |TwoDigits(n)| == 2 && AllDigits(TwoDigits(n)) && DigitsValue(TwoDigits(n)) == n
  {
    ParsePadded(n);
  }

  lemma TwoDigitsLength(n: nat)
    requires n < 100
    ensures |TwoDigits(n)| == 2
  {
    TwoDigitsValue(n);
  }

  function Suffix(hours: nat): string {
    if hours >= 12 then "PM" else "AM"
  }

  /**
   * `formatTime(date)`: the clock-face hour, a colon, the minutes padded to
   * two digits, a blank and the half of the day.
   */
  function FormatTime(hours: nat, minutes: nat): (r: string)
    ensures |r| >= 7
    ensures r[|r| - 2..] == "PM" <==> hours >= 12
    ensures r[|r| - 2..] == "AM" <==> hours < 12
  {
    var r := NatToString(Hour12(hours)) + ":" + TwoDigits(minutes) + " " + Suffix(hours);
    PiecesOf(NatToString(Hour12(hours)) + ":", TwoDigits(minutes), " ", Suffix(hours));
    assert "PM" != "AM" by {
      assert "PM"[0] != "AM"[0];
    }
    r
  }

  /**
   * Reads `h:mm AM` or `h:mm PM` back into a 24-hour hour and a minute. Only
   * a clock-face hour (1 to 12, no leading zero) is read; anything else is None.
   */
  function ReadTime(s: string): Option<(nat, nat)> {
    var k := LeadingDigits(s);
    if k == 0 || |s| != k + 6 || s[k] != ':' || s[k + 3] != ' ' || !AllDigits(s[k + 1..k + 3]) then None
    else if (k > 1 && s[0] == '0') || !(1 <= DigitsValue(s[..k]) <= 12) then None
    else if s[k + 4..] == "AM" then Some((To24(DigitsValue(s[..k]), AM), DigitsValue(s[k + 1..k + 3])))
    else if s[k + 4..] == "PM" then Some((To24(DigitsValue(s[..k]), PM), DigitsValue(s[k + 1..k + 3])))
    else None
  }

  /** `h:mm AM` built from a clock-face hour reads back to its hour, minutes and half of the day. */
  lemma {:induction false} ReadTimeOf(h: string, mm: string, half: string)
    requires |h| > 0 && AllDigits(h) && (|h| > 1 ==> h[0] != '0') && 1 <= DigitsValue(h) <= 12
    requires |mm| == 2 && AllDigits(mm)
    requires half == "AM" || half == "PM"
    ensures ReadTime(h + ":" + mm + " " + half)
            == Some((To24(DigitsValue(h), if half == "PM" then PM else AM), DigitsValue(mm)))
  {
    var s := h + ":" + mm + " " + half;
    var k := LeadingDigits(s);
    assert k == |h| && |s| == k + 6 && s[..k] == h && s[0] == h[0] && s[k] == ':' && s[k + 3] == ' '
           && s[k + 1..k + 3] == mm && s[k + 4..] == half by {
      var rest := ":" + mm + " " + half;
      assert s == h + rest;
      LeadingDigitsOfPrefix(h, rest);
      PiecesOf(h + ":", mm, " ", half);
    }
    assert "PM" != "AM" by {
      assert "PM"[0] != "AM"[0];
    }
  }

  /** Two digits are the two-digit padding of the number they spell. */
  lemma TwoDigitsOf(d: string)
    requires |d| == 2 && AllDigits(d)
    ensures TwoDigits(DigitsValue(d)) == d
  {
    if d[0] == '0' {
      var t := d[1..];
      assert d == ['0'] + t;
      DigitsValueLeadingZero(t);
      NatToStringOfDigits(t);
    } else {
      NatToStringOfDigits(d);
    }
  }

  /**
   * The only text `ReadTime` accepts is what `FormatTime` prints: together
   * with `FormatTimeRoundTrip` this fixes the printed text completely.
   */
  lemma {:induction false} ReadTimeOnlyFormatted(s: string)
    requires ReadTime(s).Some?
    ensures s == FormatTime(ReadTime(s).value.0, ReadTime(s).value.1)
  {
    var k := LeadingDigits(s);
    var h, mm, half := s[..k], s[k + 1..k + 3], s[k + 4..];
    var hour, minute := ReadTime(s).value.0, ReadTime(s).value.1;
    assert s == h + ":" + mm + " " + half;
    NatToStringOfDigits(h);
    TwoDigitsOf(mm);
    var m := if half == "PM" then PM else AM;
    assert hour == To24(DigitsValue(h), m);
    Hour12OfTo24(DigitsValue(h), m);
    assert Suffix(hour) == half;
  }

  /** The printed time of any moment of the day reads back to that moment. */
  lemma {:induction false} FormatTimeRoundTrip(hours: nat, minutes: nat)
    requires hours < 24 && minutes < 60
    ensures ReadTime(FormatTime(hours, minutes)) == Some((hours, minutes))
  {
    var h, mm, half := NatToString(Hour12(hours)), TwoDigits(minutes), Suffix(hours);
    assert FormatTime(hours, minutes) == h + ":" + mm + " " + half;
    TwoDigitsValue(minutes);
    DigitsValueOfNatToString(Hour12(hours));
    ReadTimeOf(h, mm, half);
    assert (if half == "PM" then PM else AM) == MeridiemOf(hours);
    To24OfHour12(hours);
  }

  /**
   * `formatCreatedAt(s)`: the local month (one-based) and day padded to two
   * digits, the year, and the time, as `MM/DD/YYYY h:mm AM`.
   */
  function FormatCreatedAt(createdAt: string, toLocalTime: TodoForm.Reader): (r: string)
    ensures var t := toLocalTime(createdAt);
            InRange(t) ==> |r| > 6 && r[..2] == TwoDigits(t.month + 1) && r[2] == '/' && r[3..5] == TwoDigits(t.date) && r[5] == '/'
  {
    var t := toLocalTime(createdAt);
    var r := TwoDigits(t.month + 1) + "/" + TwoDigits(t.date) + "/" + NatToString(t.year) + " " + FormatTime(t.hour, t.minute);
    assert InRange(t) ==> |r| > 6 && r[..2] == TwoDigits(t.month + 1) && r[2] == '/' && r[3..5] == TwoDigits(t.date) && r[5] == '/' by {
      if InRange(t) {
        TwoDigitsLength(t.month + 1);
        TwoDigitsLength(t.date);
        StampPieces(TwoDigits(t.month + 1), TwoDigits(t.date), NatToString(t.year), FormatTime(t.hour, t.minute));
      }
    }
    r
  }

  lemma StampPieces(mm: string, dd: string, year: string, time: string)
    requires |mm| == 2 && |dd| == 2
    ensures var s := mm + "/" + dd + "/" + year + " " + time;
            && |s| == 6 + |year| + 1 + |time|
            && s[..2] == mm && s[2] == '/' && s[3..5] == dd && s[5] == '/'
            && s[6..] == year + " " + time
  {
    PiecesOf(mm + "/", dd, "/", year + " " + time);
    var s := mm + "/" + dd + "/" + year + " " + time;
    assert s == mm + "/" + dd + "/" + (year + " " + time);
    assert s[..2] == mm by {
      assert forall i | 0 <= i < 2 :: s[..2][i] == mm[i];
    }
  }

  /** Reads an `MM/DD/YYYY h:mm AM` stamp back into local time fields. */
  function ReadCreatedAt(s: string): Option<LocalTime> {
    if |s| < 6 || !AllDigits(s[..2]) || s[2] != '/' || !AllDigits(s[3..5]) || s[5] != '/' then None
    else
      match ReadYearAndTime(s[6..])
      case None => None
      case Some((year, time)) =>
        var month := DigitsValue(s[..2]);
        if month == 0 then None
        else Some(LocalTime(year, month - 1, DigitsValue(s[3..5]), time.0, time.1))
  }

  /** Reads the `YYYY h:mm AM` tail of a stamp: the year, then the time. */
  function ReadYearAndTime(rest: string): Option<(nat, (nat, nat))> {
    var k := LeadingDigits(rest);
    if k == 0 || k >= |rest| || rest[k] != ' ' || (k > 1 && rest[0] == '0') then None
    else
      match ReadTime(rest[k + 1..])
      case None => None
      case Some(time) => Some((DigitsValue(rest[..k]), time))
  }

  lemma {:induction false} ReadYearAndTimeOf(year: string, time: string)
    requires |year| > 0 && AllDigits(year) && (|year| > 1 ==> year[0] != '0')
    requires ReadTime(time).Some?
    ensures ReadYearAndTime(year + " " + time) == Some((DigitsValue(year), ReadTime(time).value))
  {
    var rest := year + " " + time;
    var k := LeadingDigits(rest);
    assert k == |year| && rest[..k] == year && rest[k] == ' ' && rest[0] == year[0] && rest[k + 1..] == time by {
      assert rest == year + (" " + time);
      LeadingDigitsOfPrefix(year, " " + time);
      SliceOfAppend(year, " " + time, 1, |" " + time|);
      assert (" " + time)[1..] == time;
    }
  }

  /** A stamp built from any digit runs and a readable time reads back to its parts. */
  lemma {:induction false} ReadCreatedAtOf(mm: string, dd: string, year: string, time: string)
    requires |mm| == 2 && AllDigits(mm) && DigitsValue(mm) > 0
    requires |dd| == 2 && AllDigits(dd)
    requires |year| > 0 && AllDigits(year) && (|year| > 1 ==> year[0] != '0')
    requires ReadTime(time).Some?
    ensures ReadCreatedAt(mm + "/" + dd + "/" + year + " " + time)
            == Some(LocalTime(DigitsValue(year), DigitsValue(mm) - 1, DigitsValue(dd),
                              ReadTime(time).value.0, ReadTime(time).value.1))
  {
    var s := mm + "/" + dd + "/" + year + " " + time;
    StampPieces(mm, dd, year, time);
    ReadYearAndTimeOf(year, time);
  }

  /** A creation stamp reads back to the local date and time it was printed from. */
  lemma {:induction false} FormatCreatedAtRoundTrip(createdAt: string, toLocalTime: TodoForm.Reader)
    requires InRange(toLocalTime(createdAt))
    ensures ReadCreatedAt(FormatCreatedAt(createdAt, toLocalTime)) == Some(toLocalTime(createdAt))
  {
    var t := toLocalTime(createdAt);
    TwoDigitsValue(t.month + 1);
    TwoDigitsValue(t.date);
    DigitsValueOfNatToString(t.year);
    FormatTimeRoundTrip(t.hour, t.minute);
    ReadCreatedAtOf(TwoDigits(t.month + 1), TwoDigits(t.date), NatToString(t.year), FormatTime(t.hour, t.minute));
  }
  /**
   * The only text `ReadCreatedAt` accepts for a moment is the stamp
   * `formatCreatedAt` prints for it: with `FormatCreatedAtRoundTrip` this
   * fixes the stamp completely.
   */
  lemma {:induction false} ReadCreatedAtOnlyFormatted(s: string, createdAt: string, toLocalTime: TodoForm.Reader)
    requires ReadCreatedAt(s) == Some(toLocalTime(createdAt))
    ensures s == FormatCreatedAt(createdAt, toLocalTime)
  {
    var t := toLocalTime(createdAt);
    var mm, dd, rest := s[..2], s[3..5], s[6..];
    assert s == mm + "/" + dd + "/" + rest by {
      SplitStamp(s);
    }
    assert rest == NatToString(t.year) + " " + FormatTime(t.hour, t.minute) by {
      assert ReadYearAndTime(rest) == Some((t.year, (t.hour, t.minute)));
      ReadYearAndTimeOnlyFormatted(rest);
    }
    assert mm == TwoDigits(t.month + 1) && dd == TwoDigits(t.date) by {
      assert DigitsValue(mm) == t.month + 1 && DigitsValue(dd) == t.date;
      TwoDigitsOf(mm);
      TwoDigitsOf(dd);
    }
    StampTail(mm, dd, NatToString(t.year), FormatTime(t.hour, t.minute));
  }

  /** Concatenation regrouped: the year and time of a stamp form one tail. */
  lemma StampTail(mm: string, dd: string, year: string, time: string)
    ensures mm + "/" + dd + "/" + year + " " + time == mm + "/" + dd + "/" + (year + " " + time)
  {
  }

  /** A stamp is its month digits, a slash, its day digits, a slash and the rest. */
  lemma SplitStamp(s: string)
    requires |s| >= 6 && s[2] == '/' && s[5] == '/'
    ensures s == s[..2] + "/" + s[3..5] + "/" + s[6..]
  {
    var r := s[..2] + "/" + s[3..5] + "/" + s[6..];
    forall i | 0 <= i < |s| ensures r[i] == s[i] {
      if i < 2 {
        assert r[i] == s[..2][i];
      } else if 2 < i < 5 {
        assert r[i] == s[3..5][i - 3];
      } else if 5 < i {
        assert r[i] == s[6..][i - 6];
      }
    }
  }

  lemma {:induction false} ReadYearAndTimeOnlyFormatted(rest: string)
    requires ReadYearAndTime(rest).Some?
    ensures var (year, time) := ReadYearAndTime(rest).value;
            rest == NatToString(year) + " " + FormatTime(time.0, time.1)
  {
    var k := LeadingDigits(rest);
    var year, time := rest[..k], rest[k + 1..];
    assert rest == year + " " + time;
    NatToStringOfDigits(year);
    ReadTimeOnlyFormatted(time);
  }

  /** `dueDateTime && !todo.completed && dueDateTime < new Date()`. */
  function IsOverdue(todo: Todos.Todo, clock: Todos.Clock): (b: bool)
    ensures b <==> !todo.completed && Todos.PastDue(todo, clock)
  {
    Todos.Truthy(todo.dueDate) && !todo.completed && clock.instantOf(todo.dueDate.value) < clock.now
  }

  /**
   * The card marks an unfinished todo overdue exactly when the server's
   * `active` listing leaves it out, and never marks a finished one.
   */
  lemma OverdueIffNotActive(todo: Todos.Todo, clock: Todos.Clock)
    ensures IsOverdue(todo, clock) <==>
              !todo.completed && !Todos.HasStatus(Todos.TodoQuery(Some(Todos.Active), None, None, None), clock, todo)
    ensures todo.completed ==> !IsOverdue(todo, clock)
  {
  }

  /** A local time other than midnight: the card then prints the time next to the day. */
  predicate ShowsTime(t: LocalTime) {
    t.hour != 0 || t.minute != 0
  }

  /**
   * `hasTime`: a due date whose local time is not midnight. For a time in
   * range this is exactly when the card would print something other than
   * `12:00 AM`.
   */
  function HasTime(todo: Todos.Todo, toLocalTime: TodoForm.Reader): (b: bool)
    ensures !Todos.Truthy(todo.dueDate) ==> !b
    ensures Todos.Truthy(todo.dueDate) && toLocalTime(todo.dueDate.value).hour < 24
            && toLocalTime(todo.dueDate.value).minute < 60 ==>
              (b <==> FormatTime(toLocalTime(todo.dueDate.value).hour, toLocalTime(todo.dueDate.value).minute) != "12:00 AM")
  {
    if !Todos.Truthy(todo.dueDate) then false
    else
      var t := toLocalTime(todo.dueDate.value);
      assert t.hour < 24 && t.minute < 60 ==> (ShowsTime(t) <==> FormatTime(t.hour, t.minute) != "12:00 AM") by {
        if t.hour < 24 && t.minute < 60 {
          MidnightPrint(t.hour, t.minute);
        }
      }
      ShowsTime(t)
  }

  /** Only midnight prints as `12:00 AM`. */
  lemma {:induction false} MidnightPrint(hours: nat, minutes: nat)
    requires hours < 24 && minutes < 60
    ensures FormatTime(hours, minutes) == "12:00 AM" <==> hours == 0 && minutes == 0
  {
    assert FormatTime(0, 0) == "12:00 AM" by {
      assert NatToString(12) == "12" && TwoDigits(0) == "00";
    }
    FormatTimeRoundTrip(hours, minutes);
    FormatTimeRoundTrip(0, 0);
  }

  /**
   * A due time built in the form shows no time exactly when the selects read
   * 12 AM and minute 0, which is what the form starts with.
   */
  lemma {:induction false} BuiltTimeShown(day: TodoForm.Day, hour: string, minute: string, amPm: Meridiem)
    requires TodoForm.HourValue(hour) <= 12
    ensures var t := TodoForm.BuildDateTime(Some(day), hour, minute, amPm).value;
            !ShowsTime(t) <==> TodoForm.HourValue(hour) == 12 && amPm == AM && TodoForm.MinuteValue(minute) == 0
    ensures var b := TodoForm.Blank;
            !ShowsTime(TodoForm.BuildDateTime(Some(day), b.hour, b.minute, b.amPm).value)
  {
    var t := TodoForm.BuildDateTime(Some(day), hour, minute, amPm).value;
    Hour12OfTo24(TodoForm.HourValue(hour), amPm);
    ParseNatToString(12);
    ParseNatToString(0);
    assert NatToString(12) == "12" && NatToString(0) == "0";
    var b := TodoForm.Blank;
    Hour12OfTo24(TodoForm.HourValue(b.hour), b.amPm);
  }
}
