/**
 * What a task's prompts accept and what they do with it. Input is the
 * sequence of lines still to be read; every prompt returns a `Reply`
 * giving the task as it is afterwards, whether the prompt finished, how
 * many lines it read and the lines it printed.
 *
 * Each Kotlin setter retries by calling itself; the functions here
 * follow the same recursion, one line per call. Running out of input
 * makes `readln` throw, which ends the program: such a reply is not
 * `complete`, keeps whatever had already been stored, and has read every
 * line.
 */
module Prompts {
  import opened Optional
  import opened Text
  import opened Calendar
  import Render

  /** The fields of a `Task`; `priority` is `None` until first set (`lateinit`). */
  datatype TaskState = TaskState(content: seq<string>, priority: Option<string>, dateTime: DateTime)

  datatype Reply<T> = Reply(value: T, complete: bool, used: nat, out: seq<string>)

  const PriorityPrompt: string := "Input the task priority (C, H, N, L):"
  const DatePrompt: string := "Input the date (yyyy-mm-dd):"
  const DateInvalid: string := "The input date is invalid"
  const TimePrompt: string := "Input the time (hh:mm):"
  const TimeInvalid: string := "The input time is invalid"
  const TaskBlank: string := "The task is blank"
  const ContentPrompt: string := "Input a new task (enter a blank line to end):"
  const FieldPrompt: string := "Input a field to edit (priority, date, time, task):"
  const FieldInvalid: string := "Invalid field"
  const TaskChanged: string := "The task is changed"

  /** `block` printed `n` times over. */
  function Repeat(block: seq<string>, n: nat): seq<string> {
    if n == 0 then [] else Repeat(block, n - 1) + block
  }

  /** A reply preceded by `n` rejected lines, each of which printed `block`. */
  function Retried<T>(r: Reply<T>, n: nat, block: seq<string>): Reply<T> {
    Reply(r.value, r.complete, r.used + n, Repeat(block, n) + r.out)
  }

  /** Equal parts make equal concatenations; stated on any element type. */
  lemma ConcatOf<T>(x: seq<T>, y: seq<T>, a: seq<T>, b: seq<T>)
    requires x == a && y == b
    ensures x + y == a + b
  {
  }

  lemma RetriedOnce<T>(r: Reply<T>, n: nat, block: seq<string>)
    ensures Retried(Retried(r, n, block), 1, block) == Retried(r, n + 1, block)
  {
    assert Repeat(block, 1) == block;
    RepeatSplit(block, n);
  }

  /** The parts of a reply preceded by `n` rejected lines. */
  lemma RetriedFields<T>(r: Reply<T>, inner: Reply<T>, n: nat, block: seq<string>)
    requires r == Retried(inner, n, block)
    ensures r.value == inner.value && r.complete == inner.complete
    ensures r.used == n + inner.used && r.out == Repeat(block, n) + inner.out
  {
  }

  lemma {:induction false} RepeatSplit(block: seq<string>, n: nat)
    ensures Repeat(block, n) + block == block + Repeat(block, n)
  {
    if n > 0 {
      RepeatSplit(block, n - 1);
    }
  }

  // ------------------------------------------------------------- parsing

  predicate IsPriorityCode(p: string) {
    p in ["c", "h", "n", "l"]
  }

  /** `map { it.toInt() }`: every field must be an `Int`. */
  function ParseInts(fields: seq<string>): (r: Option<seq<int>>)
    ensures r.Some? <==> forall i :: 0 <= i < |fields| ==> ParseInt(fields[i]).Some?
    ensures r.Some? ==> |r.value| == |fields|
    ensures r.Some? ==> forall i :: 0 <= i < |fields| ==> ParseInt(fields[i]) == Some(r.value[i])
  {
    if fields == [] then Some([])
    else
      match (ParseInt(fields[0]), ParseInts(fields[1..]))
      case (Some(n), Some(ns)) => Some([n] + ns)
      case _ => None
  }

  /** Fields that each read as a number read together as those numbers. */
  lemma ParseIntsOf(fields: seq<string>, v: seq<int>)
    requires |fields| == |v|
    requires forall i :: 0 <= i < |fields| ==> ParseInt(fields[i]) == Some(v[i])
    ensures ParseInts(fields) == Some(v)
  {
    assert ParseInts(fields).Some?;
    assert ParseInts(fields).value == v;
  }

  lemma {:induction false} ParseIntsAppend(a: seq<string>, b: seq<string>)
    ensures ParseInts(a + b).Some? <==> ParseInts(a).Some? && ParseInts(b).Some?
    ensures ParseInts(a + b).Some? ==> ParseInts(a + b).value == ParseInts(a).value + ParseInts(b).value
    decreases |a|
  {
    if a == [] {
      assert a + b == b;
    } else {
      ConsAppend(a, b);
      ParseIntsAppend(a[1..], b);
      ParseIntsAppendStep(a, b);
    }
  }

  /** One step of `ParseIntsAppend`: from the tail of `a` to all of `a`. */
  lemma ParseIntsAppendStep(a: seq<string>, b: seq<string>)
    requires a != [] && (a + b)[0] == a[0] && (a + b)[1..] == a[1..] + b
    requires ParseInts(a[1..] + b).Some? <==> ParseInts(a[1..]).Some? && ParseInts(b).Some?
    requires ParseInts(a[1..] + b).Some? ==> ParseInts(a[1..] + b).value == ParseInts(a[1..]).value + ParseInts(b).value
    ensures ParseInts(a + b).Some? <==> ParseInts(a).Some? && ParseInts(b).Some?
    ensures ParseInts(a + b).Some? ==> ParseInts(a + b).value == ParseInts(a).value + ParseInts(b).value
  {
    if ParseInts(a + b).Some? {
      AppendAssoc([ParseInt(a[0]).value], ParseInts(a[1..]).value, ParseInts(b).value);
    }
  }

  /**
   * `setDate`'s test of one line: split on `-`, every field an `Int`, at
   * least three of them, and the first three a valid calendar date.
   */
  function ParseDate(line: string): (r: Option<Date>)
    ensures r.Some? ==> ValidDate(r.value)
  {
    match ParseInts(Split(Lowercase(line), '-'))
    case None => None
    case Some(v) =>
      if |v| < 3 then None
      else if ValidDate(Date(v[0], v[1], v[2])) then Some(Date(v[0], v[1], v[2]))
      else None
  }

  /**
   * A line of three digit groups joined by `-` is accepted exactly when
   * their values form a valid date, and gives that date.
   */
  lemma ParseDigitGroups(y: string, m: string, d: string)
    requires y != [] && m != [] && d != []
    requires AllDigits(y) && AllDigits(m) && AllDigits(d)
    requires DigitsValue(y) <= MaxInt && DigitsValue(m) <= MaxInt && DigitsValue(d) <= MaxInt
    ensures var date := Date(DigitsValue(y), DigitsValue(m), DigitsValue(d));
      ParseDate(y + "-" + m + "-" + d) == if ValidDate(date) then Some(date) else None
  {
    DateText(y, m, d);
    assert Unsigned(y) == y && Unsigned(m) == m && Unsigned(d) == d;
    ParseIntMeaning(y);
    ParseIntMeaning(m);
    ParseIntMeaning(d);
    ParseDateFields(y + "-" + m + "-" + d);
  }

  /** February 2024 has 29 days: its 29th is accepted and its 30th rejected. */
  lemma ParseDateLeapDay()
    ensures ParseDate("2024" + "-" + "02" + "-" + "29") == Some(Date(2024, 2, 29))
    ensures ParseDate("2024" + "-" + "02" + "-" + "30") == None
  {
    DigitsOfLiteral();
    ParseDigitGroups("2024", "02", "29");
    ParseDigitGroups("2024", "02", "30");
    assert DaysInMonth(2024, 2) == 29;
  }

  /** The values of the digit groups used by `ParseDateLeapDay`. */
  lemma DigitsOfLiteral()
    ensures DigitsValue("2024") == 2024 && DigitsValue("02") == 2
    ensures DigitsValue("29") == 29 && DigitsValue("30") == 30
  {
    assert DigitsValue("2") == 2 && DigitsValue("20") == 20 && DigitsValue("202") == 202;
    assert "2024"[..3] == "202" && "202"[..2] == "20" && "20"[..1] == "2";
    assert DigitsValue("0") == 0 && "02"[..1] == "0";
    assert "29"[..1] == "2" && "30"[..1] == "3";
  }

  /** A line of three digit groups joined by `-` splits into those groups. */
  lemma DateText(y: string, m: string, d: string)
    requires AllDigits(y) && AllDigits(m) && AllDigits(d)
    ensures Split(Lowercase(y + "-" + m + "-" + d), '-') == [y, m, d]
  {
    var line := y + "-" + m + "-" + d;
    assert forall i :: 0 <= i < |line| ==> IsDigit(line[i]) || line[i] == '-';
    LowercaseOfDigits(line, '-');
    assert '-' !in y && '-' !in m && '-' !in d;
    SplitThree(y, m, d, '-');
  }

  /**
   * `setTime`'s test of one line: split on `:`, every field an `Int`, at
   * least two of them, forming a valid hour and minute on `date`.
   */
  function ParseTime(line: string, date: Date): (r: Option<DateTime>)
    ensures r.Some? ==> ValidDateTime(r.value) && r.value.date == date
  {
    match ParseInts(Split(Lowercase(line), ':'))
    case None => None
    case Some(v) =>
      if |v| < 2 then None
      else if ValidDate(date) && ValidTime(v[0], v[1]) then Some(DateTime(date, v[0], v[1]))
      else None
  }

  /**
   * A date line is accepted exactly when every `-`-separated field is an
   * `Int`, there are at least three, and the first three are a valid
   * year, month and day; the date stored is those three.
   */
  lemma ParseDateFields(line: string)
    ensures var f := Split(Lowercase(line), '-');
      ParseDate(line).Some? <==>
        && 3 <= |f| && (forall i :: 0 <= i < |f| ==> ParseInt(f[i]).Some?)
        && ValidDate(Date(ParseInt(f[0]).value, ParseInt(f[1]).value, ParseInt(f[2]).value))
    ensures var f := Split(Lowercase(line), '-');
      ParseDate(line).Some? ==> ParseDate(line).value == Date(ParseInt(f[0]).value, ParseInt(f[1]).value, ParseInt(f[2]).value)
  {
  }

  /**
   * A time line is accepted exactly when every `:`-separated field is an
   * `Int`, there are at least two, and the first two are a valid hour and
   * minute; the time stored is those two, on the date already stored.
   */
  lemma ParseTimeFields(line: string, date: Date)
    ensures var f := Split(Lowercase(line), ':');
      ParseTime(line, date).Some? <==>
        && ValidDate(date) && 2 <= |f| && (forall i :: 0 <= i < |f| ==> ParseInt(f[i]).Some?)
        && ValidTime(ParseInt(f[0]).value, ParseInt(f[1]).value)
    ensures var f := Split(Lowercase(line), ':');
      ParseTime(line, date).Some? ==> ParseTime(line, date).value == DateTime(date, ParseInt(f[0]).value, ParseInt(f[1]).value)
  {
  }

  /** Hour 24 is not a time of day, so "24:00" is rejected. */
  lemma ParseTimeRejectsHour24(date: Date)
    ensures ParseTime("24" + ":" + "00", date) == None
  {
    TimeText("24", "00");
    assert "24"[..1] == "2" && DigitsValue("24") == 24;
    ParseIntMeaning("24");
    ParseTimeFields("24" + ":" + "00", date);
  }

  /** Text of digits and separators is its own lower case. */
  lemma LowercaseOfDigits(s: string, sep: char)
    requires forall i :: 0 <= i < |s| ==> IsDigit(s[i]) || s[i] == sep
    requires !('A' <= sep <= 'Z')
    ensures Lowercase(s) == s
  {
    LowercaseFixed(s);
  }

  /** The three digit groups of a rendered date, as `split("-")` sees them. */
  lemma SplitThree(a: string, b: string, c: string, sep: char)
    requires sep !in a && sep !in b && sep !in c
    ensures Split(a + [sep] + b + [sep] + c, sep) == [a, b, c]
  {
    SplitAppend(a, sep, b + [sep] + c);
    assert a + [sep] + b + [sep] + c == a + [sep] + (b + [sep] + c);
    SplitAppend(b, sep, c);
    SplitWhole(a, sep);
    SplitWhole(b, sep);
    SplitWhole(c, sep);
  }

  /**
   * A date of a year from 1000 on, as the table prints it, is accepted
   * again by the date prompt and gives back the same date.
   */
  lemma DateRoundTrip(d: Date)
    requires ValidDate(d) && 1000 <= d.year
    ensures Render.DateField(d).Some?
    ensures ParseDate(Render.DateField(d).value) == Some(d)
  {
    DateTextFields(d);
    Render.AddZeroDigits(d.month);
    Render.AddZeroDigits(d.day);
    ParseDecimal(d.year);
    ParseIntsOf([DecimalString(d.year), Render.AddZero(d.month), Render.AddZero(d.day)], [d.year, d.month, d.day]);
  }

  /** The printed date of a year from 1000 on splits into year, month and day. */
  lemma DateTextFields(d: Date)
    requires ValidDate(d) && 1000 <= d.year
    ensures Render.DateField(d).Some?
    ensures Split(Lowercase(Render.DateField(d).value), '-') ==
              [DecimalString(d.year), Render.AddZero(d.month), Render.AddZero(d.day)]
  {
    DateFieldText(d);
    DigitGroups(DecimalString(d.year), Render.AddZero(d.month), Render.AddZero(d.day), '-');
  }

  /** The printed date of a year from 1000 on is its three digit groups joined by `-`. */
  lemma DateFieldText(d: Date)
    requires ValidDate(d) && 1000 <= d.year
    ensures var y, m, dd := DecimalString(d.year), Render.AddZero(d.month), Render.AddZero(d.day);
      && AllDigits(y) && AllDigits(m) && AllDigits(dd)
      && Render.DateField(d) == Some(y + ['-'] + m + ['-'] + dd)
  {
    Render.DigitCountBelow(d.year);
    Render.AddZeroDigits(d.month);
    Render.AddZeroDigits(d.day);
    assert Render.YearField(d.year).value == DecimalString(d.year);
  }

  /**
   * The printed date of a year from 1 to 999 is not accepted again: its
   * year column starts with a padding space, which `toInt` rejects.
   */
  lemma ShortYearRejected(d: Date)
    requires ValidDate(d) && 1 <= d.year <= 999
    ensures Render.DateField(d).Some?
    ensures ParseDate(Render.DateField(d).value) == None
  {
    Render.DigitCountBelow(d.year);
    var text := Lowercase(Render.DateField(d).value);
    assert text[0] == ' ';
    var first := Split(text, '-')[0];
    assert first[0] == ' ';
    assert ParseInt(first) == None;
  }

  /** Three groups of digits joined by a separator split back into the groups. */
  lemma DigitGroups(a: string, b: string, c: string, sep: char)
    requires AllDigits(a) && AllDigits(b) && AllDigits(c)
    requires !IsDigit(sep) && !('A' <= sep <= 'Z')
    ensures Split(Lowercase(a + [sep] + b + [sep] + c), sep) == [a, b, c]
  {
    JoinedDigits(a, b, c, sep);
    LowercaseOfDigits(a + [sep] + b + [sep] + c, sep);
    SplitThree(a, b, c, sep);
  }

  /** Every character of three digit groups joined by `sep` is a digit or `sep`. */
  lemma JoinedDigits(a: string, b: string, c: string, sep: char)
    requires AllDigits(a) && AllDigits(b) && AllDigits(c)
    ensures var t := a + [sep] + b + [sep] + c;
      forall i :: 0 <= i < |t| ==> IsDigit(t[i]) || t[i] == sep
  {
    var t := a + [sep] + b + [sep] + c;
    forall i | 0 <= i < |t|
      ensures IsDigit(t[i]) || t[i] == sep
    {
      if i < |a| {
        assert t[i] == a[i];
      } else if |a| < i < |a| + 1 + |b| {
        assert t[i] == b[i - |a| - 1];
      } else if |a| + 1 + |b| < i {
        assert t[i] == c[i - |a| - |b| - 2];
      }
    }
  }

  /** A valid time, as the table prints it, is accepted again by the time prompt. */
  lemma TimeRoundTrip(date: Date, hour: int, minute: int)
    requires ValidDate(date) && ValidTime(hour, minute)
    ensures ParseTime(Render.TimeField(hour, minute), date) == Some(DateTime(date, hour, minute))
  {
    Render.AddZeroDigits(hour);
    Render.AddZeroDigits(minute);
    var h, m := Render.AddZero(hour), Render.AddZero(minute);
    TimeText(h, m);
    ParseIntsOf([h, m], [hour, minute]);
  }

  /** Two digit groups joined by `:` split into those groups. */
  lemma TimeText(h: string, m: string)
    requires AllDigits(h) && AllDigits(m)
    ensures Split(Lowercase(h + ":" + m), ':') == [h, m]
  {
    var line := h + ":" + m;
    assert forall i :: 0 <= i < |line| ==> IsDigit(line[i]) || line[i] == ':';
    LowercaseOfDigits(line, ':');
    assert ':' !in h && ':' !in m;
    assert line == h + [':'] + m;
    SplitAppend(h, ':', m);
    SplitWhole(h, ':');
    SplitWhole(m, ':');
  }

  /**
   * Fields after the third are read but not used: a date line followed by
   * more `-`-separated fields is judged as the line alone when those
   * fields are all `Int`s, and rejected otherwise.
   */
  lemma DateExtraFields(line: string, extra: string)
    requires |Split(Lowercase(line), '-')| >= 3
    ensures ParseDate(line + "-" + extra) ==
              if ParseInts(Split(Lowercase(extra), '-')).Some? then ParseDate(line) else None
  {
    SplitExtra(line, extra);
    ParseIntsAppend(Split(Lowercase(line), '-'), Split(Lowercase(extra), '-'));
  }

  /** The fields of `line-extra` are those of `line`, then those of `extra`. */
  lemma SplitExtra(line: string, extra: string)
    ensures Split(Lowercase(line + "-" + extra), '-') == Split(Lowercase(line), '-') + Split(Lowercase(extra), '-')
  {
    LowercaseAppend(line + "-", extra);
    LowercaseAppend(line, "-");
    assert Lowercase("-") == "-";
    SplitAppend(Lowercase(line), '-', Lowercase(extra));
  }

  // ------------------------------------------------------------- prompts

  /**
   * `setPriority`: reads a line and, when its lower case is not one of the
   * four codes, retries first. Every level stores its own line after the
   * retry returns, so the outermost level, holding the first line, has
   * the last word.
   */
  function PriorityReply(st: TaskState, input: seq<string>): (r: Reply<TaskState>)
    ensures r.used <= |input|
    ensures r.complete ==> 1 <= r.used
    ensures !r.complete ==> r.used == |input| && r.value == st
    ensures r.value.content == st.content && r.value.dateTime == st.dateTime
    decreases |input|
  {
    if input == [] then Reply(st, false, 0, [PriorityPrompt])
    else
      var p := Lowercase(input[0]);
      if IsPriorityCode(p) then Reply(st.(priority := Some(p)), true, 1, [PriorityPrompt])
      else
        var r := PriorityReply(st, input[1..]);
        Reply(if r.complete then r.value.(priority := Some(p)) else r.value,
              r.complete, r.used + 1, [PriorityPrompt] + r.out)
  }

  /** The index of the first line whose lower case is a priority code, or `|input|`. */
  function FirstPriority(input: seq<string>): (k: nat)
    ensures k <= |input|
    ensures forall i :: 0 <= i < k ==> !IsPriorityCode(Lowercase(input[i]))
    ensures k < |input| ==> IsPriorityCode(Lowercase(input[k]))
  {
    if input == [] || IsPriorityCode(Lowercase(input[0])) then 0 else 1 + FirstPriority(input[1..])
  }

  /**
   * The prompt ends at the first line that is a priority code and prints
   * one prompt per line read, but what it stores is the lower case of the
   * FIRST line, valid or not.
   */
  lemma {:induction false} PriorityReplyStoresFirstLine(st: TaskState, input: seq<string>)
    ensures var r := PriorityReply(st, input); var k := FirstPriority(input);
      && (r.complete <==> k < |input|)
      && (r.complete ==> r.used == k + 1 && r.value == st.(priority := Some(Lowercase(input[0]))))
      && r.out == Repeat([PriorityPrompt], k + 1)
    decreases |input|
  {
    if input != [] && !IsPriorityCode(Lowercase(input[0])) {
      var tail := input[1..];
      PriorityReplyStoresFirstLine(st, tail);
      RepeatSplit([PriorityPrompt], FirstPriority(tail) + 1);
    }
  }

  /** An invalid first line is what stays stored, and it has no swatch. */
  lemma PriorityKeepsInvalidLine(st: TaskState)
    ensures PriorityReply(st, ["x", "h"]).complete
    ensures PriorityReply(st, ["x", "h"]).value.priority == Some("x")
    ensures Render.PriorityColor("x") == ""
  {
    assert Lowercase("x") == "x";
    assert Lowercase("h") == "h";
    assert ["x", "h"][1..] == ["h"];
  }

  /** `setDate`: retries until a line is a valid date, then sets it at 00:00. */
  function DateReply(st: TaskState, input: seq<string>): (r: Reply<TaskState>)
    ensures r.used <= |input|
    ensures r.complete ==> 1 <= r.used
    ensures !r.complete ==> r.used == |input| && r.value == st
    ensures r.value.content == st.content && r.value.priority == st.priority
    ensures r.complete ==> ValidDateTime(r.value.dateTime)
    decreases |input|
  {
    if input == [] then Reply(st, false, 0, [DatePrompt])
    else
      match ParseDate(input[0])
      case Some(d) => Reply(st.(dateTime := DateTime(d, 0, 0)), true, 1, [DatePrompt])
      case None => Retried(DateReply(st, input[1..]), 1, [DatePrompt, DateInvalid])
  }

  /** Skipping `k` rejected lines is `k` rounds of "invalid date". */
  lemma DateReplyStep(st: TaskState, input: seq<string>)
    requires input != [] && ParseDate(input[0]).None?
    ensures DateReply(st, input) == Retried(DateReply(st, input[1..]), 1, [DatePrompt, DateInvalid])
  {
  }

  lemma {:induction false} DateReplySkips(st: TaskState, input: seq<string>, k: nat)
    requires k <= |input|
    requires forall i :: 0 <= i < k ==> ParseDate(input[i]).None?
    ensures DateReply(st, input) == Retried(DateReply(st, input[k..]), k, [DatePrompt, DateInvalid])
  {
    if k > 0 {
      var tail := input[1..];
      DateReplyStep(st, input);
      DateReplySkips(st, tail, k - 1);
      assert tail[k - 1..] == input[k..];
      RetriedOnce(DateReply(st, input[k..]), k - 1, [DatePrompt, DateInvalid]);
    }
  }


  /**
   * The date prompt takes the first line that parses as a valid date,
   * reports every earlier line as invalid, and sets that date at 00:00.
   */
  lemma DateReplyFirstValid(st: TaskState, input: seq<string>)
    ensures var r := DateReply(st, input); var k := FirstDate(input);
      && (r.complete <==> k < |input|)
      && (r.complete ==> r.used == k + 1 && r.value == st.(dateTime := DateTime(ParseDate(input[k]).value, 0, 0)))
      && r.out == Repeat([DatePrompt, DateInvalid], k) + [DatePrompt]
  {
    var k := FirstDate(input);
    DateReplySkips(st, input, k);
    if k < |input| {
      assert input[k..][0] == input[k];
    }
  }

  /** The index of the first line that is a valid date, or `|input|`. */
  function FirstDate(input: seq<string>): (k: nat)
    ensures k <= |input|
    ensures forall i :: 0 <= i < k ==> ParseDate(input[i]).None?
    ensures k < |input| ==> ParseDate(input[k]).Some?
  {
    FirstWhere(input, line => ParseDate(line).Some?)
  }

  /** `setTime`: retries until a line is a valid time, then sets it on the stored date. */
  function TimeReply(st: TaskState, input: seq<string>): (r: Reply<TaskState>)
    ensures r.used <= |input|
    ensures r.complete ==> 1 <= r.used
    ensures !r.complete ==> r.used == |input| && r.value == st
    ensures r.value.content == st.content && r.value.priority == st.priority
    ensures r.value.dateTime.date == st.dateTime.date
    ensures r.complete ==> ValidDateTime(r.value.dateTime)
    decreases |input|
  {
    if input == [] then Reply(st, false, 0, [TimePrompt])
    else
      match ParseTime(input[0], st.dateTime.date)
      case Some(t) => Reply(st.(dateTime := t), true, 1, [TimePrompt])
      case None => Retried(TimeReply(st, input[1..]), 1, [TimePrompt, TimeInvalid])
  }

  lemma TimeReplyStep(st: TaskState, input: seq<string>)
    requires input != [] && ParseTime(input[0], st.dateTime.date).None?
    ensures TimeReply(st, input) == Retried(TimeReply(st, input[1..]), 1, [TimePrompt, TimeInvalid])
  {
  }

  lemma {:induction false} TimeReplySkips(st: TaskState, input: seq<string>, k: nat)
    requires k <= |input|
    requires forall i :: 0 <= i < k ==> ParseTime(input[i], st.dateTime.date).None?
    ensures TimeReply(st, input) == Retried(TimeReply(st, input[k..]), k, [TimePrompt, TimeInvalid])
  {
    if k > 0 {
      var tail := input[1..];
      TimeReplyStep(st, input);
      TimeReplySkips(st, tail, k - 1);
      assert tail[k - 1..] == input[k..];
      RetriedOnce(TimeReply(st, input[k..]), k - 1, [TimePrompt, TimeInvalid]);
    }
  }


  /** The index of the first line that is a valid time on `date`, or `|input|`. */
  function FirstTime(input: seq<string>, date: Date): (k: nat)
    ensures k <= |input|
    ensures forall i :: 0 <= i < k ==> ParseTime(input[i], date).None?
    ensures k < |input| ==> ParseTime(input[k], date).Some?
  {
    FirstWhere(input, line => ParseTime(line, date).Some?)
  }

  /**
   * The time prompt takes the first line that parses as a valid time,
   * reports every earlier line as invalid, and keeps year, month and day.
   */
  lemma TimeReplyFirstValid(st: TaskState, input: seq<string>)
    ensures var r := TimeReply(st, input); var k := FirstTime(input, st.dateTime.date);
      && (r.complete <==> k < |input|)
      && (r.complete ==> r.used == k + 1 && r.value == st.(dateTime := ParseTime(input[k], st.dateTime.date).value))
      && r.value.dateTime.date == st.dateTime.date
      && r.out == Repeat([TimePrompt, TimeInvalid], k) + [TimePrompt]
  {
    var k := FirstTime(input, st.dateTime.date);
    TimeReplySkips(st, input, k);
    if k < |input| {
      assert input[k..][0] == input[k];
    }
  }

  /**
   * `setContentData`: appends lines until a blank one; at the blank line it
   * reports "The task is blank" when the content is still empty.
   */
  function ContentReply(st: TaskState, input: seq<string>): (r: Reply<TaskState>)
    ensures r.used <= |input|
    ensures r.complete ==> 1 <= r.used
    ensures !r.complete ==> r.used == |input|
    ensures r.value.priority == st.priority && r.value.dateTime == st.dateTime
    decreases |input|
  {
    if input == [] then Reply(st, false, 0, [])
    else if IsBlank(input[0]) then Reply(st, true, 1, if st.content == [] then [TaskBlank] else [])
    else
      var r := ContentReply(st.(content := st.content + [input[0]]), input[1..]);
      Reply(r.value, r.complete, r.used + 1, r.out)
  }

  /** The index of the first blank line, or `|input|`. */
  function FirstBlank(input: seq<string>): (k: nat)
    ensures k <= |input|
    ensures forall i :: 0 <= i < k ==> !IsBlank(input[i])
    ensures k < |input| ==> IsBlank(input[k])
  {
    if input == [] || IsBlank(input[0]) then 0 else 1 + FirstBlank(input[1..])
  }

  /**
   * The content prompt appends, in order, the lines before the first blank
   * one (all of them non-blank), ends at that blank line, and prints "The
   * task is blank" (once) only when the content is still empty there.
   */
  lemma {:induction false} ContentReplyLines(st: TaskState, input: seq<string>)
    ensures var r := ContentReply(st, input); var k := FirstBlank(input);
      && (r.complete <==> k < |input|)
      && r.used == (if r.complete then k + 1 else k)
      && r.value == st.(content := st.content + input[..k])
      && r.out == (if r.complete && r.value.content == [] then [TaskBlank] else [])
    decreases |input|
  {
    if input != [] && !IsBlank(input[0]) {
      var st' := st.(content := st.content + [input[0]]);
      ContentReplyLines(st', input[1..]);
      var k := FirstBlank(input[1..]);
      assert input[..k + 1] == [input[0]] + input[1..][..k];
    }
  }

  /** Two prompts in turn: `b` ran on the lines after those `a` read. */
  function Chain(a: Reply<TaskState>, b: Reply<TaskState>): Reply<TaskState> {
    Reply(b.value, b.complete, a.used + b.used, a.out + b.out)
  }

  /** `setDate`, then `setTime` once a date is set. */
  function DateTimeReply(st: TaskState, input: seq<string>): (r: Reply<TaskState>)
    ensures r.used <= |input|
    ensures r.value.content == st.content && r.value.priority == st.priority
    ensures r.complete ==> ValidDateTime(r.value.dateTime)
    ensures ValidDateTime(st.dateTime) ==> ValidDateTime(r.value.dateTime)
  {
    var d := DateReply(st, input);
    if !d.complete then d else Chain(d, TimeReply(d.value, input[d.used..]))
  }

  /** `setNonContentData`: priority, then date, then time. */
  function NonContentReply(st: TaskState, input: seq<string>): (r: Reply<TaskState>)
    ensures r.used <= |input|
    ensures r.value.content == st.content
    ensures r.complete ==> ValidDateTime(r.value.dateTime)
    ensures ValidDateTime(st.dateTime) ==> ValidDateTime(r.value.dateTime)
  {
    var p := PriorityReply(st, input);
    if !p.complete then p else Chain(p, DateTimeReply(p.value, input[p.used..]))
  }

  /** What `PriorityReplyStoresFirstLine` says, without the lines printed. */
  lemma PriorityStores(st: TaskState, input: seq<string>)
    ensures var r := PriorityReply(st, input); var k := FirstPriority(input);
      && (r.complete <==> k < |input|)
      && (r.complete ==> r.used == k + 1 && r.value == st.(priority := Some(Lowercase(input[0]))))
  {
    PriorityReplyStoresFirstLine(st, input);
  }

  /** What `DateReplyFirstValid` says, without the lines printed. */
  lemma DateReplyStores(st: TaskState, input: seq<string>)
    ensures var r := DateReply(st, input); var k := FirstDate(input);
      && (r.complete <==> k < |input|)
      && (r.complete ==> r.used == k + 1 && r.value == st.(dateTime := DateTime(ParseDate(input[k]).value, 0, 0)))
  {
    DateReplyFirstValid(st, input);
  }

  /** What `TimeReplyFirstValid` says, without the lines printed. */
  lemma TimeReplyStores(st: TaskState, input: seq<string>)
    ensures var r := TimeReply(st, input); var k := FirstTime(input, st.dateTime.date);
      && (r.complete <==> k < |input|)
      && (r.complete ==> r.used == k + 1 && r.value == st.(dateTime := ParseTime(input[k], st.dateTime.date).value))
  {
    TimeReplyFirstValid(st, input);
  }

  /**
   * With `kd` the first line that is a valid date (`|input|` when none is):
   * the date prompt takes that line; the time prompt then takes, from the
   * line after it, the first line that is a valid time on that date. Both
   * are stored, and each prompt's rounds are printed one after the other.
   */
  lemma DateTimeFirstValid(st: TaskState, input: seq<string>, kd: nat)
    requires kd <= |input|
    requires forall j :: 0 <= j < kd ==> ParseDate(input[j]).None?
    requires kd < |input| ==> ParseDate(input[kd]).Some?
    ensures var r := DateTimeReply(st, input);
      && (kd == |input| ==> !r.complete)
      && (kd < |input| ==>
            var d := ParseDate(input[kd]).value; var rest := input[kd + 1..]; var kt := FirstTime(rest, d);
            && (r.complete <==> kt < |rest|)
            && (r.complete ==>
                  && r.used == kd + kt + 2
                  && r.value == st.(dateTime := ParseTime(rest[kt], d).value)
                  && r.out == (Repeat([DatePrompt, DateInvalid], kd) + [DatePrompt])
                              + (Repeat([TimePrompt, TimeInvalid], kt) + [TimePrompt])))
  {
    FirstDateIs(input, kd);
    if kd < |input| {
      DateTimeStores(st, input, kd);
      DateTimeOutput(st, input, kd);
    } else {
      DateReplyStores(st, input);
    }
  }

  /** The first line that is a valid date is the one `FirstDate` finds. */
  lemma FirstDateIs(input: seq<string>, k: nat)
    requires k <= |input|
    requires forall j :: 0 <= j < k ==> ParseDate(input[j]).None?
    requires k < |input| ==> ParseDate(input[k]).Some?
    ensures FirstDate(input) == k
  {
  }

  /** The date prompt ends on the first valid date and stores it at midnight. */
  lemma DateFound(st: TaskState, input: seq<string>, kd: nat)
    requires kd == FirstDate(input) && kd < |input|
    ensures var dr := DateReply(st, input); var d := ParseDate(input[kd]).value;
      && dr.complete && dr.used == kd + 1
      && dr.value == st.(dateTime := DateTime(d, 0, 0)) && dr.value.dateTime.date == d
  {
    DateReplyStores(st, input);
  }

  /** What `DateTimeFirstValid` says of finishing, lines read and the task, once a date is found. */
  lemma DateTimeStores(st: TaskState, input: seq<string>, kd: nat)
    requires kd == FirstDate(input) && kd < |input|
    ensures var r := DateTimeReply(st, input);
      var d := ParseDate(input[kd]).value; var rest := input[kd + 1..]; var kt := FirstTime(rest, d);
      && (r.complete <==> kt < |rest|)
      && (r.complete ==> r.used == kd + kt + 2 && r.value == st.(dateTime := ParseTime(rest[kt], d).value))
  {
    DateFound(st, input, kd);
    TimeReplyStores(DateReply(st, input).value, input[kd + 1..]);
  }

  /** The lines the date prompt prints: one retry block per line before the first date. */
  lemma DateReplyOutput(st: TaskState, input: seq<string>)
    ensures DateReply(st, input).out == Repeat([DatePrompt, DateInvalid], FirstDate(input)) + [DatePrompt]
  {
    DateReplyFirstValid(st, input);
  }

  /** The lines the time prompt prints: one retry block per line before the first time. */
  lemma TimeReplyOutput(st: TaskState, input: seq<string>)
    ensures TimeReply(st, input).out == Repeat([TimePrompt, TimeInvalid], FirstTime(input, st.dateTime.date)) + [TimePrompt]
  {
    TimeReplyFirstValid(st, input);
  }

  /** Once a date is found, the lines printed are the date prompt's, then the time prompt's. */
  lemma DateTimeOutJoin(st: TaskState, input: seq<string>, kd: nat)
    requires kd == FirstDate(input) && kd < |input|
    ensures var dr := DateReply(st, input);
      DateTimeReply(st, input).out == dr.out + TimeReply(dr.value, input[kd + 1..]).out
  {
    DateFound(st, input, kd);
  }

  /** The time prompt after a date retries until the first time valid on that date. */
  lemma TimeAfterDateOutput(st: TaskState, input: seq<string>, kd: nat)
    requires kd == FirstDate(input) && kd < |input|
    ensures var dr := DateReply(st, input); var d := ParseDate(input[kd]).value;
      TimeReply(dr.value, input[kd + 1..]).out == Repeat([TimePrompt, TimeInvalid], FirstTime(input[kd + 1..], d)) + [TimePrompt]
  {
    DateFound(st, input, kd);
    TimeOutputOn(DateReply(st, input).value, input[kd + 1..], ParseDate(input[kd]).value);
  }

  /** `TimeReplyOutput` for a task whose stored date is `d`. */
  lemma TimeOutputOn(st: TaskState, input: seq<string>, d: Date)
    requires st.dateTime.date == d
    ensures TimeReply(st, input).out == Repeat([TimePrompt, TimeInvalid], FirstTime(input, d)) + [TimePrompt]
  {
    TimeReplyOutput(st, input);
  }

  /** What `DateTimeFirstValid` says of the lines printed, once both prompts are answered. */
  lemma DateTimeOutput(st: TaskState, input: seq<string>, kd: nat)
    requires kd == FirstDate(input) && kd < |input|
    ensures var r := DateTimeReply(st, input); var d := ParseDate(input[kd]).value;
      var rest := input[kd + 1..]; var kt := FirstTime(rest, d);
      r.complete ==> r.out == (Repeat([DatePrompt, DateInvalid], kd) + [DatePrompt])
                      + (Repeat([TimePrompt, TimeInvalid], kt) + [TimePrompt])
  {
    DateTimeOutJoin(st, input, kd);
    TimeAfterDateOutput(st, input, kd);
    DateReplyOutput(st, input);
  }

  /**
   * The priority prompt ends at the first line that is a priority code and
   * stores the lower case of the first line; the date and time prompts then
   * run on the lines after it.
   */
  lemma NonContentFirstValid(st: TaskState, input: seq<string>)
    ensures var r := NonContentReply(st, input); var kp := FirstPriority(input);
      && (kp == |input| ==> !r.complete)
      && (kp < |input| ==>
            var dt := DateTimeReply(st.(priority := Some(Lowercase(input[0]))), input[kp + 1..]);
            && r.complete == dt.complete
            && r.used == kp + 1 + dt.used
            && r.value == dt.value
            && r.out == Repeat([PriorityPrompt], kp + 1) + dt.out)
  {
    NonContentStores(st, input);
    NonContentOutput(st, input);
  }

  /** What `NonContentFirstValid` says of finishing, lines read and the task. */
  lemma NonContentStores(st: TaskState, input: seq<string>)
    ensures var r := NonContentReply(st, input); var kp := FirstPriority(input);
      && (kp == |input| ==> !r.complete)
      && (kp < |input| ==>
            var dt := DateTimeReply(st.(priority := Some(Lowercase(input[0]))), input[kp + 1..]);
            r.complete == dt.complete && r.used == kp + 1 + dt.used && r.value == dt.value)
  {
    PriorityStores(st, input);
    if FirstPriority(input) < |input| {
      NonContentAfterPriority(st, input);
      DateTimeAt(PriorityReply(st, input).value, input, PriorityReply(st, input).used,
                 st.(priority := Some(Lowercase(input[0]))), FirstPriority(input) + 1);
    }
  }

  /** Once the priority prompt finishes, the date and time prompts run on the lines after it. */
  lemma NonContentAfterPriority(st: TaskState, input: seq<string>)
    requires PriorityReply(st, input).complete
    ensures var r, p := NonContentReply(st, input), PriorityReply(st, input);
      var dt := DateTimeReply(p.value, input[p.used..]);
      r.complete == dt.complete && r.used == p.used + dt.used && r.value == dt.value
  {
  }

  /** The date and time prompts depend on nothing but the task and the line they start at. */
  lemma DateTimeAt(st: TaskState, input: seq<string>, i: nat, st2: TaskState, j: nat)
    requires i <= |input| && st == st2 && i == j
    ensures DateTimeReply(st, input[i..]) == DateTimeReply(st2, input[j..])
  {
  }

  /** What `NonContentFirstValid` says of the lines printed. */
  lemma NonContentOutput(st: TaskState, input: seq<string>)
    ensures var r := NonContentReply(st, input); var kp := FirstPriority(input);
      kp < |input| ==>
        var dt := DateTimeReply(st.(priority := Some(Lowercase(input[0]))), input[kp + 1..]);
        r.out == Repeat([PriorityPrompt], kp + 1) + dt.out
  {
    var r, p, kp := NonContentReply(st, input), PriorityReply(st, input), FirstPriority(input);
    if kp < |input| {
      PriorityReplyStoresFirstLine(st, input);
      var dt := DateTimeReply(p.value, input[kp + 1..]);
      ConcatOf(p.out, dt.out, Repeat([PriorityPrompt], kp + 1), dt.out);
    }
  }

  /** The time prompt only runs once the date prompt found a date. */
  lemma DateTimeNeedsDate(st: TaskState, input: seq<string>)
    ensures DateTimeReply(st, input).complete ==> FirstDate(input) < |input|
  {
    DateReplyStores(st, input);
  }

  /**
   * The due date and time the date and time prompts settle on, with the
   * number of lines they read: the first valid date, then the first time
   * valid on that date after it; `None` when the lines run out first.
   */
  ghost function ReadDateTime(input: seq<string>): (p: Option<(DateTime, nat)>)
    ensures p.Some? ==> p.value.1 <= |input|
  {
    var kd := FirstDate(input);
    if kd == |input| then None else ReadTimeOn(input[kd + 1..], ParseDate(input[kd]).value, kd + 1)
  }

  /**
   * The due time the time prompt settles on for date `d`, with the lines
   * read counting `skipped` lines before `after`: the first time valid on
   * `d`; `None` when the lines run out first.
   */
  ghost function ReadTimeOn(after: seq<string>, d: Date, skipped: nat): (p: Option<(DateTime, nat)>)
    ensures p.Some? ==> p.value.1 <= skipped + |after|
  {
    var kt := FirstTime(after, d);
    if kt == |after| then None else Some((ParseTime(after[kt], d).value, skipped + kt + 1))
  }

  /** The date and time prompts finish exactly when `ReadDateTime` finds both, and store what it finds. */
  lemma DateTimeReads(st: TaskState, input: seq<string>)
    ensures var r, p := DateTimeReply(st, input), ReadDateTime(input);
      && (r.complete <==> p.Some?)
      && (r.complete ==> r.value == st.(dateTime := p.value.0) && r.used == p.value.1)
  {
    if FirstDate(input) < |input| {
      DateTimeReadsDate(st, input, FirstDate(input));
    } else {
      DateTimeNeedsDate(st, input);
    }
  }

  /** `DateTimeReads` once some line is a valid date. */
  lemma DateTimeReadsDate(st: TaskState, input: seq<string>, kd: nat)
    requires kd == FirstDate(input) && kd < |input|
    ensures var r, p := DateTimeReply(st, input), ReadDateTime(input);
      && (r.complete <==> p.Some?)
      && (r.complete ==> r.value == st.(dateTime := p.value.0) && r.used == p.value.1)
  {
    DateTimeStores(st, input, kd);
    ReadDateTimeFound(input, kd);
  }

  /** What `ReadDateTime` finds once some line is a valid date. */
  lemma ReadDateTimeFound(input: seq<string>, kd: nat)
    requires kd == FirstDate(input) && kd < |input|
    ensures var p := ReadDateTime(input);
      var d := ParseDate(input[kd]).value; var after := input[kd + 1..]; var kt := FirstTime(after, d);
      && (p.Some? <==> kt < |after|)
      && (p.Some? ==> p.value.0 == ParseTime(after[kt], d).value && p.value.1 == kd + kt + 2)
  {
    ReadTimeFound(input[kd + 1..], ParseDate(input[kd]).value, kd + 1);
  }

  /** What `ReadTimeOn` finds, in terms of the first line that is a time valid on `d`. */
  lemma ReadTimeFound(after: seq<string>, d: Date, skipped: nat)
    ensures var p, kt := ReadTimeOn(after, d, skipped), FirstTime(after, d);
      && (p.Some? <==> kt < |after|)
      && (p.Some? ==> p.value.0 == ParseTime(after[kt], d).value && p.value.1 == skipped + kt + 1)
  {
  }

  // ---------------------------------------------------------------- edit

  /** The field names `editTask` understands; any other name is retried. */
  predicate IsField(name: string) {
    name in ["priority", "date", "time", "task"]
  }

  /** A field update, after its prompt(s), confirmed when it finished. */
  function Edited(r: Reply<TaskState>, before: seq<string>): (e: Reply<TaskState>)
    ensures |before| <= |e.out| && e.out[..|before|] == before
    ensures e.complete ==> 0 < |e.out| && e.out[|e.out| - 1] == TaskChanged
  {
    Reply(r.value, r.complete, r.used + 1, before + r.out + (if r.complete then [TaskChanged] else []))
  }

  /**
   * `Task.editTask`: reads a field name, retrying after "Invalid field",
   * then runs that field's prompt; "task" first clears the content.
   */
  function EditReply(st: TaskState, input: seq<string>): (r: Reply<TaskState>)
    ensures r.used <= |input|
    ensures r.complete ==> 1 <= r.used
    ensures !r.complete ==> r.used == |input|
    ensures ValidDateTime(st.dateTime) ==> ValidDateTime(r.value.dateTime)
    decreases |input|
  {
    if input == [] then Reply(st, false, 0, [FieldPrompt])
    else
      var rest := input[1..];
      if input[0] == "priority" then Edited(PriorityReply(st, rest), [FieldPrompt])
      else if input[0] == "date" then Edited(DateReply(st, rest), [FieldPrompt])
      else if input[0] == "time" then Edited(TimeReply(st, rest), [FieldPrompt])
      else if input[0] == "task" then Edited(ContentReply(st.(content := []), rest), [FieldPrompt, ContentPrompt])
      else Retried(EditReply(st, rest), 1, [FieldPrompt, FieldInvalid])
  }

  lemma EditReplyStep(st: TaskState, input: seq<string>)
    requires input != [] && !IsField(input[0])
    ensures EditReply(st, input) == Retried(EditReply(st, input[1..]), 1, [FieldPrompt, FieldInvalid])
  {
  }

  lemma {:induction false} EditReplySkips(st: TaskState, input: seq<string>, k: nat)
    requires k <= |input|
    requires forall i :: 0 <= i < k ==> !IsField(input[i])
    ensures EditReply(st, input) == Retried(EditReply(st, input[k..]), k, [FieldPrompt, FieldInvalid])
  {
    if k > 0 {
      var tail := input[1..];
      EditReplyStep(st, input);
      EditReplySkips(st, tail, k - 1);
      assert tail[k - 1..] == input[k..];
      RetriedOnce(EditReply(st, input[k..]), k - 1, [FieldPrompt, FieldInvalid]);
    }
  }


  /** The index of the first line that names a field, or `|input|`. */
  function FirstField(input: seq<string>): (k: nat)
    ensures k <= |input|
    ensures forall i :: 0 <= i < k ==> !IsField(input[i])
    ensures k < |input| ==> IsField(input[k])
  {
    if input == [] || IsField(input[0]) then 0 else 1 + FirstField(input[1..])
  }

  /**
   * Editing reports every line before the first field name as "Invalid
   * field", then runs the prompt of the field named: "priority" only the
   * priority prompt, "date" only the date prompt, "time" only the time
   * prompt, and "task" the content prompt on emptied content. Without a
   * field name the task is unchanged.
   */
  lemma EditReplyNamesField(st: TaskState, input: seq<string>)
    ensures var r := EditReply(st, input); var k := FirstField(input);
      var block := [FieldPrompt, FieldInvalid];
      && (k == |input| ==> r == Reply(st, false, k, Repeat(block, k) + [FieldPrompt]))
      && (k < |input| ==> var name, rest := input[k], input[k + 1..];
            && (name == "priority" ==> r == Retried(Edited(PriorityReply(st, rest), [FieldPrompt]), k, block))
            && (name == "date" ==> r == Retried(Edited(DateReply(st, rest), [FieldPrompt]), k, block))
            && (name == "time" ==> r == Retried(Edited(TimeReply(st, rest), [FieldPrompt]), k, block))
            && (name == "task" ==>
                  r == Retried(Edited(ContentReply(st.(content := []), rest), [FieldPrompt, ContentPrompt]), k, block)))
  {
    var k := FirstField(input);
    EditReplySkips(st, input, k);
    if k < |input| {
      assert input[k..][0] == input[k] && input[k..][1..] == input[k + 1..];
    } else {
      assert input[k..] == [];
    }
  }

  /**
   * An edit changes at most one of the three fields, and a finished edit
   * always ends by printing "The task is changed".
   */
  lemma {:induction false} EditReplyOneField(st: TaskState, input: seq<string>)
    ensures var r := EditReply(st, input);
      && (r.value.priority == st.priority || (r.value.content == st.content && r.value.dateTime == st.dateTime))
      && (r.value.dateTime == st.dateTime || (r.value.content == st.content && r.value.priority == st.priority))
      && (r.value.content == st.content || (r.value.priority == st.priority && r.value.dateTime == st.dateTime))
      && (r.complete ==> |r.out| > 0 && r.out[|r.out| - 1] == TaskChanged)
    decreases |input|
  {
    if input != [] && !IsField(input[0]) {
      EditReplyOneField(st, input[1..]);
    }
  }

  /** Editing the content to nothing leaves the task empty. */
  lemma EditCanEmptyContent(st: TaskState)
    ensures EditReply(st, ["task", ""]).complete
    ensures EditReply(st, ["task", ""]).value.content == []
  {
    assert ["task", ""][1..] == [""];
    assert IsBlank("");
  }
}
