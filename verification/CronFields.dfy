/** Reading a cron expression: splitting it into fields, and what the fields become. */
module CronFields {
  import opened Results
  import opened Calendars
  import opened CronSchedules

  datatype CronError = InvalidCronExpr

  predicate Word(w: string) {
    w != [] && forall i :: 0 <= i < |w| ==> w[i] != ' '
  }

  /** The words of `s`, given that `pending` was read just before it without a space. */
  function Words(pending: string, s: string): seq<string>
    decreases s
  {
    if s == [] then (if pending == [] then [] else [pending])
    else if s[0] != ' ' then Words(pending + [s[0]], s[1..])
    else (if pending == [] then [] else [pending]) + Words([], s[1..])
  }

  method SplitFields(expr: string) returns (fields: seq<string>)
    ensures fields == Words([], expr)
  {
    fields := [];
    var start := 0;
    for i := 0 to |expr|
      invariant 0 <= start <= i
      invariant fields + Words(expr[start..i], expr[i..]) == Words([], expr)
    {
      assert expr[i..][1..] == expr[i + 1..];
      if expr[i] == ' ' {
        if i > start {
          fields := fields + [expr[start..i]];
        }
        start := i + 1;
      } else {
        assert expr[start..i] + [expr[i]] == expr[start..i + 1];
      }
    }
    assert expr[|expr|..] == [] && expr[start..|expr|] == expr[start..];
    if start < |expr| {
      fields := fields + [expr[start..]];
    }
  }

  function Spaces(n: nat): string {
    if n == 0 then "" else " " + Spaces(n - 1)
  }

  /** Fields written with at least one space between neighbours. */
  function Separated(fields: seq<string>, gaps: seq<nat>): string
    requires |gaps| == |fields|
  {
    if fields == [] then ""
    else if |fields| == 1 then fields[0]
    else fields[0] + " " + Spaces(gaps[0]) + Separated(fields[1..], gaps[1..])
  }

  lemma {:induction false} SkipSpaces(n: nat, s: string)
    ensures Words([], Spaces(n) + s) == Words([], s)
  {
    if n == 0 {
      assert Spaces(n) + s == s;
    } else {
      SkipSpaces(n - 1, s);
      assert (Spaces(n) + s)[1..] == Spaces(n - 1) + s;
    }
  }

  lemma {:induction false} TakeWord(pending: string, w: string, s: string)
    requires forall i :: 0 <= i < |w| ==> w[i] != ' '
    ensures Words(pending, w + s) == Words(pending + w, s)
    decreases |w|
  {
    if w == [] {
      assert w + s == s && pending + w == pending;
    } else {
      assert (w + s)[1..] == w[1..] + s && pending + [w[0]] + w[1..] == pending + w;
      TakeWord(pending + [w[0]], w[1..], s);
    }
  }

  /** Reading a whole field, and then the rest of the text if there is any. */
  lemma TakeField(w: string, s: string)
    requires Word(w) && (s != [] ==> s[0] == ' ')
    ensures Words([], w + s) == [w] + Words([], s)
  {
    TakeWord([], w, s);
    assert [] + w == w;
    if s != [] {
      assert Words(w, s) == [w] + Words([], s[1..]);
      assert Words([], s) == [] + Words([], s[1..]);
    }
  }

  lemma FirstOfMany(fields: seq<string>, gaps: seq<nat>, s: string)
    requires |gaps| == |fields| > 1
    ensures Separated(fields, gaps) + s == fields[0] + (Spaces(gaps[0] + 1) + (Separated(fields[1..], gaps[1..]) + s))
  {
    var rest := Separated(fields[1..], gaps[1..]);
    assert Separated(fields, gaps) == fields[0] + " " + Spaces(gaps[0]) + rest;
    assert Spaces(gaps[0] + 1) == " " + Spaces(gaps[0]);
    Regroup(fields[0], " ", Spaces(gaps[0]), rest, s);
  }

  lemma Regroup(a: string, b: string, c: string, d: string, e: string)
    ensures a + b + c + d + e == a + (b + c + (d + e))
  {
  }

  lemma OnlySpaces(n: nat)
    ensures Words([], Spaces(n)) == []
  {
    SkipSpaces(n, []);
    assert Spaces(n) + [] == Spaces(n);
  }

  /** Splitting undoes joining: any number of spaces may stand in front, behind, and in addition to the
      one between two fields. */
  lemma {:induction false} SplitJoin(lead: nat, fields: seq<string>, gaps: seq<nat>, last: nat)
    requires |gaps| == |fields|
    requires forall i :: 0 <= i < |fields| ==> Word(fields[i])
    ensures Words([], Spaces(lead) + (Separated(fields, gaps) + Spaces(last))) == fields
    decreases |fields|
  {
    SkipSpaces(lead, Separated(fields, gaps) + Spaces(last));
    OnlySpaces(last);
    if last > 0 {
      assert Spaces(last)[0] == ' ';
    }
    hide Words;
    if fields == [] {
      assert "" + Spaces(last) == Spaces(last);
    } else if |fields| == 1 {
      TakeField(fields[0], Spaces(last));
    } else {
      var rest := Separated(fields[1..], gaps[1..]) + Spaces(last);
      var tail := Spaces(gaps[0] + 1) + rest;
      SplitJoin(gaps[0] + 1, fields[1..], gaps[1..], last);
      FirstOfMany(fields, gaps, Spaces(last));
      assert tail[0] == ' ';
      hide Separated, Spaces;
      TakeField(fields[0], tail);
      assert fields == [fields[0]] + fields[1..];
    }
  }

  function Range(min: int, max: int): (r: set<int>)
    ensures forall i :: i in r <==> min <= i <= max
    decreases max - min
  {
    if min > max then {} else Range(min, max - 1) + {max}
  }

  /** Both branches of the field parser fill in the whole range. */
  method ParseField(field: string, min: int, max: int) returns (values: set<int>)
    ensures values == Range(min, max)
  {
    values := {};
    var i := min;
    if field == "*" || field == "?" {
      while i <= max
        invariant min <= i && (i <= max + 1 || i == min)
        invariant values == Range(min, i - 1)
      {
        values := values + {i};
        i := i + 1;
      }
      return;
    }
    while i <= max
      invariant min <= i && (i <= max + 1 || i == min)
      invariant values == Range(min, i - 1)
    {
      values := values + {i};
      i := i + 1;
    }
  }

  const EVERY_SECOND: CronSchedule :=
    CronSchedule(Range(0, 59), Range(0, 59), Range(0, 23), Range(1, 31), Range(1, 12), Range(0, 6))

  /** The parser accepts exactly the texts of six fields, and gives all of them one schedule. */
  method ParseCron(expr: string) returns (r: Result<CronSchedule, CronError>)
    ensures r == if |Words([], expr)| == 6 then Ok(EVERY_SECOND) else Err(InvalidCronExpr)
  {
    var fields := SplitFields(expr);
    if |fields| != 6 {
      return Err(InvalidCronExpr);
    }
    var second := ParseField(fields[0], 0, 59);
    var minute := ParseField(fields[1], 0, 59);
    var hour := ParseField(fields[2], 0, 23);
    var dayOfMonth := ParseField(fields[3], 1, 31);
    var month := ParseField(fields[4], 1, 12);
    var dayOfWeek := ParseField(fields[5], 0, 6);
    return Ok(CronSchedule(second, minute, hour, dayOfMonth, month, dayOfWeek));
  }

  /** So a parsed schedule fires at every second, whatever its text asked for. */
  lemma ParsedFiresEverySecond(t: int)
    ensures EVERY_SECOND.Satisfiable() && EVERY_SECOND.Matches(t)
    ensures forall i :: (i in EVERY_SECOND.second <==> 0 <= i < 60) && (i in EVERY_SECOND.minute <==> 0 <= i < 60)
    ensures forall i :: (i in EVERY_SECOND.hour <==> 0 <= i < 24) && (i in EVERY_SECOND.dayOfMonth <==> 1 <= i < 32)
    ensures forall i :: (i in EVERY_SECOND.month <==> 1 <= i < 13) && (i in EVERY_SECOND.dayOfWeek <==> 0 <= i < 7)
  {
    hide Range, Civil, DayNumber, YearStart, MonthStart;
    assert 0 in EVERY_SECOND.second && 0 in EVERY_SECOND.minute && 0 in EVERY_SECOND.hour;
    assert 1 in EVERY_SECOND.month && 0 in EVERY_SECOND.dayOfWeek;
    assert 0 <= SecondOf(t) <= 59 && 0 <= MinuteOf(t) <= 59 && 0 <= HourOf(t) <= 23;
    assert MonthNumber(t) in EVERY_SECOND.month && DayInMonth(t) in EVERY_SECOND.dayOfMonth;
    hide *;
    AllFieldsMatch(EVERY_SECOND, t);
  }
}
