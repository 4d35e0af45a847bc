/**
 * How a task is drawn as a block of table rows: content wrapped into
 * 44-character cells, the due date as `yyyy-mm-dd` with a space-padded
 * year, the time as `hh:mm`, and colour swatches for the priority and the
 * due tag.
 */
module Render {
  import opened Optional
  import opened Text
  import opened Calendar

  /** The width of the content column. */
  const LineWidth: nat := 44

  /** How printing a task can throw. */
  datatype Fault =
    | DivisionByZero          // `addSpaces` on year 0 reaches `year % 0`
    | UninitializedPriority   // the `lateinit` priority was never set
    | IndexOutOfBounds        // a task whose content wraps to no cell at all

  // ------------------------------------------------------ content cells

  /** `s` cut into cells of `LineWidth` characters, the last one space-padded. */
  function Chunks(s: string): (r: seq<string>)
    ensures r == [] <==> s == []
    ensures forall i :: 0 <= i < |r| ==> |r[i]| == LineWidth
    decreases |s|
  {
    if s == [] then []
    else if |s| <= LineWidth then [s + Spaces(LineWidth - |s|)]
    else [s[..LineWidth]] + Chunks(s[LineWidth..])
  }

  function Concat(cells: seq<string>): string {
    if cells == [] then "" else cells[0] + Concat(cells[1..])
  }

  /** The number of cells needed for `n` characters. */
  function CellCount(n: nat): nat {
    (n + LineWidth - 1) / LineWidth
  }

  /**
   * Wrapping gives exactly as many cells as the text needs, each exactly
   * `LineWidth` wide, and reading them in order gives the text followed
   * by padding spaces only.
   */
  lemma {:induction false} ChunksShape(s: string)
    ensures |Chunks(s)| == CellCount(|s|)
    ensures forall i :: 0 <= i < |Chunks(s)| ==> |Chunks(s)[i]| == LineWidth
    ensures Concat(Chunks(s)) == s + Spaces(LineWidth * CellCount(|s|) - |s|)
    decreases |s|
  {
    if s == [] {
    } else if |s| <= LineWidth {
      assert CellCount(|s|) == 1;
    } else {
      var rest := s[LineWidth..];
      ChunksShape(rest);
      assert CellCount(|s|) == CellCount(|rest|) + 1;
      calc {
        Concat(Chunks(s));
        s[..LineWidth] + Concat(Chunks(rest));
        s[..LineWidth] + (rest + Spaces(LineWidth * CellCount(|rest|) - |rest|));
        { assert s[..LineWidth] + rest == s; }
        s + Spaces(LineWidth * CellCount(|s|) - |s|);
      }
    }
  }

  /**
   * `formattedLine`: moves the text character by character into cells of
   * `LineWidth`, padding the last cell with spaces once the text runs out.
   */
  method FormattedLine(s: string) returns (lines: seq<string>)
    ensures lines == Chunks(s)
    ensures |lines| == CellCount(|s|)
    ensures forall i :: 0 <= i < |lines| ==> |lines[i]| == LineWidth
    ensures Concat(lines) == s + Spaces(LineWidth * |lines| - |s|)
  {
    var rest := s;
    lines := [];
    while rest != []
      invariant lines + Chunks(rest) == Chunks(s)
      decreases |rest|
    {
      var line, next := NextCell(rest);
      AppendAssoc(lines, [line], Chunks(next));
      lines, rest := lines + [line], next;
    }
    assert lines + Chunks(rest) == lines;
    ChunksShape(s);
  }

  /** One cell: the next `LineWidth` characters, padded with spaces past the end. */
  method NextCell(start: string) returns (line: string, rest: string)
    requires start != []
    ensures [line] + Chunks(rest) == Chunks(start)
    ensures |rest| < |start|
  {
    rest := start;
    line := "";
    for i := 1 to LineWidth + 1
      invariant |start| < i ==> rest == [] && line == start + Spaces(i - 1 - |start|)
      invariant i <= |start| ==> rest == start[i - 1..] && line == start[..i - 1]
    {
      if rest != [] {
        line := line + [rest[0]];
        rest := rest[1..];
      } else {
        line := line + " ";
      }
    }
  }

  /** The cells of every content line in turn; each line is wrapped on its own. */
  function WrapAll(content: seq<string>): (r: seq<string>)
    ensures forall i :: 0 <= i < |r| ==> |r[i]| == LineWidth
  {
    if content == [] then [] else WrapAll(content[..|content| - 1]) + Chunks(content[|content| - 1])
  }

  /** Content wraps to no cell at all exactly when every line of it is empty. */
  lemma {:induction false} WrapAllEmpty(content: seq<string>)
    ensures WrapAll(content) == [] <==> forall i :: 0 <= i < |content| ==> content[i] == ""
  {
    if content != [] {
      var last := content[|content| - 1];
      WrapAllEmpty(content[..|content| - 1]);
      assert Chunks(last) == [] <==> last == "";
      assert forall i :: 0 <= i < |content| - 1 ==> content[..|content| - 1][i] == content[i];
    }
  }

  /** Wrapping two lines is not wrapping their concatenation. */
  lemma WrapIsPerLine()
    ensures WrapAll(["a", "b"]) != Chunks("ab")
  {
    assert ["a", "b"][..1] == ["a"];
    assert WrapAll(["a"]) == Chunks("a");
    assert Chunks("a")[0][1] == ' ';
    assert Chunks("ab")[0][1] == 'b';
  }

  // ------------------------------------------------------ date and time

  /** `addZero`: numbers below ten get a leading zero. */
  function AddZero(n: int): (r: string)
    ensures 0 <= n ==> 2 <= |r| && AllDigits(r)
    ensures n < 10 ==> 0 < |r| && r[0] == '0'
  {
    if n < 10 then "0" + DecimalString(n) else DecimalString(n)
  }

  /** For the numbers 0 to 99 `AddZero` writes the two decimal digits. */
  lemma AddZeroDigits(n: int)
    requires 0 <= n <= 99
    ensures AddZero(n) == [DigitChar(n / 10), DigitChar(n % 10)]
    ensures ParseInt(AddZero(n)) == Some(n)
  {
    var s := AddZero(n);
    if n >= 10 {
      assert NaturalString(n / 10) == [DigitChar(n / 10)];
    }
    assert s[..1] == [DigitChar(n / 10)];
    assert s[..1][..0] == [];
    assert DigitsValue(s[..1]) == n / 10;
  }

  /** Kotlin's `%` on `Int`: the remainder has the sign of the dividend. */
  function TruncRem(a: int, b: int): int
    requires b != 0
  {
    if a < 0 then -(Abs(a) % Abs(b)) else Abs(a) % Abs(b)
  }

  /**
   * What `addSpaces` is meant to produce: the year right-aligned in four
   * columns. It yields nothing for year 0, whose loop divides by zero.
   */
  function YearField(year: int): (r: Option<string>)
    ensures r.Some? <==> year != 0
    ensures r.Some? ==> 4 <= |r.value|
  {
    if year == 0 then None
    else
      var digits := DigitCount(Abs(year));
      Some(Spaces(if digits < 4 then 4 - digits else 0) + DecimalString(year))
  }

  /** The divisor `addSpaces` has reached after `k` rounds. */
  function Divisor(k: nat): nat
    requires k <= 4
  {
    [1000, 100, 10, 1, 0][k]
  }

  lemma DigitCountBelow(m: nat)
    ensures m < 10 ==> DigitCount(m) == 1
    ensures 10 <= m < 100 ==> DigitCount(m) == 2
    ensures 100 <= m < 1000 ==> DigitCount(m) == 3
    ensures 1000 <= m ==> DigitCount(m) >= 4
  {
    if m >= 10 {
      assert DigitCount(m) == 1 + DigitCount(m / 10);
      DigitCountBelow(m / 10);
    }
  }

  /**
   * `addSpaces`: while the year is its own remainder modulo the divisor,
   * adds a space and divides the divisor by ten. Returns `None` where the
   * Kotlin code throws `ArithmeticException`.
   */
  method AddSpaces(year: int) returns (r: Option<string>)
    ensures r == YearField(year)
  {
    var n := 1000;
    var result := "";
    while n != 0 && TruncRem(year, n) == year
      invariant |result| <= 4 && n == Divisor(|result|)
      invariant result == Spaces(|result|)
      invariant |result| > 0 ==> Abs(year) < Divisor(|result| - 1)
      decreases n
    {
      result := result + " ";
      n := n / 10;
    }
    if n == 0 {
      return None;
    }
    assert Abs(year) >= n;
    DigitCountBelow(Abs(year));
    r := Some(result + DecimalString(year));
  }

  /** For the years 1 to 9999 the year column is exactly four characters. */
  lemma YearFieldWidth(year: int)
    requires 1 <= year <= 9999
    ensures YearField(year).Some?
    ensures |YearField(year).value| == 4
    ensures YearField(year).value == Spaces(4 - DigitCount(year)) + DecimalString(year)
  {
    DigitCountBelow(year);
    if year >= 1000 {
      assert year / 10 / 10 / 10 < 10;
      assert DigitCount(year) == 4;
    }
  }

  /** `getDate`: the date as `yyyy-mm-dd` with a space-padded year. */
  function DateField(d: Date): (r: Option<string>)
    ensures r.Some? <==> d.year != 0
  {
    match YearField(d.year)
    case None => None
    case Some(y) => Some(y + "-" + AddZero(d.month) + "-" + AddZero(d.day))
  }

  /** `getDate`, computing the year column with `AddSpaces`. */
  method GetDate(d: Date) returns (r: Option<string>)
    ensures r == DateField(d)
  {
    var year := AddSpaces(d.year);
    if year.None? {
      return None;
    }
    r := Some(year.value + "-" + AddZero(d.month) + "-" + AddZero(d.day));
  }

  /** `getTime`: the time as `hh:mm`. */
  function TimeField(hour: int, minute: int): string {
    AddZero(hour) + ":" + AddZero(minute)
  }

  /** A valid time is always written in five characters. */
  lemma TimeFieldShape(hour: int, minute: int)
    requires ValidTime(hour, minute)
    ensures |TimeField(hour, minute)| == 5 && TimeField(hour, minute)[2] == ':'
  {
    AddZeroDigits(hour);
    AddZeroDigits(minute);
  }

  /** A valid date of a four-digit year is written in ten characters. */
  lemma DateFieldShape(d: Date)
    requires ValidDate(d) && 1000 <= d.year <= 9999
    ensures DateField(d).Some?
    ensures |DateField(d).value| == 10
    ensures DateField(d).value[4] == '-' && DateField(d).value[7] == '-'
  {
    YearFieldWidth(d.year);
    AddZeroDigits(d.month);
    AddZeroDigits(d.day);
  }

  // ------------------------------------------------------------ swatches

  /** ANSI background-colour cells, one space wide. */
  const RedSwatch: string := "\U{1B}[101m \U{1B}[0m"
  const YellowSwatch: string := "\U{1B}[103m \U{1B}[0m"
  const GreenSwatch: string := "\U{1B}[102m \U{1B}[0m"
  const BlueSwatch: string := "\U{1B}[104m \U{1B}[0m"

  /** `duetag`: today, incoming or overdue, from the days left until the due date. */
  function DueTag(daysLeft: int): (r: string)
    ensures r == "T" <==> daysLeft == 0
    ensures r == "I" <==> daysLeft > 0
    ensures r == "O" <==> daysLeft < 0
  {
    if daysLeft == 0 then "T" else if daysLeft > 0 then "I" else "O"
  }

  /** The due tag of a task due on `due`, seen on `today`. */
  function DueTagOn(today: Date, due: Date): (r: string)
    requires ValidDate(today) && ValidDate(due)
    ensures r == "T" || r == "I" || r == "O"
  {
    DueTag(DaysUntil(today, due))
  }

  /**
   * The tag is "T" exactly when the task is due today, "I" exactly when
   * it is due later and "O" exactly when it was due earlier.
   */
  lemma DueTagMeaning(today: Date, due: Date)
    requires ValidDate(today) && ValidDate(due)
    ensures DueTagOn(today, due) == "T" <==> due == today
    ensures DueTagOn(today, due) == "I" <==> Before(today, due)
    ensures DueTagOn(today, due) == "O" <==> Before(due, today)
  {
    DaysUntilSign(today, due);
  }

  /** `getPriorityColor`: critical red, high yellow, normal green, low blue. */
  function PriorityColor(priority: string): (r: string)
    ensures r != "" <==> Lowercase(priority) in ["c", "h", "n", "l"]
  {
    var p := Lowercase(priority);
    if p == "c" then RedSwatch
    else if p == "h" then YellowSwatch
    else if p == "n" then GreenSwatch
    else if p == "l" then BlueSwatch
    else ""
  }

  /** `getDueTagColor`: incoming green, today yellow, overdue red. */
  function DueTagColor(tag: string): (r: string)
    ensures r != "" <==> Lowercase(tag) in ["i", "t", "o"]
  {
    var t := Lowercase(tag);
    if t == "i" then GreenSwatch
    else if t == "t" then YellowSwatch
    else if t == "o" then RedSwatch
    else ""
  }

  /** Every due tag has a swatch, and the three tags have different ones. */
  lemma DueTagSwatches(days: int, other: int)
    ensures DueTagColor(DueTag(days)) != ""
    ensures DueTag(days) != DueTag(other) ==> DueTagColor(DueTag(days)) != DueTagColor(DueTag(other))
  {
    assert RedSwatch[4] == '1' && YellowSwatch[4] == '3' && GreenSwatch[4] == '2';
  }

  /** The four priority codes have four different swatches. */
  lemma PrioritySwatchesDistinct(p: string, q: string)
    requires p in ["c", "h", "n", "l"] && q in ["c", "h", "n", "l"] && p != q
    ensures PriorityColor(p) != PriorityColor(q)
  {
    assert RedSwatch[4] == '1' && YellowSwatch[4] == '3' && GreenSwatch[4] == '2' && BlueSwatch[4] == '4';
  }

  // ------------------------------------------------------------- rows

  const Rule: string := "+----+------------+-------+---+---+--------------------------------------------+"
  const TitleRow: string := "| N  |    Date    | Time  | P | D |                   Task                     |"

  /** The three lines `printTasks` prints before the first task. */
  const Header: seq<string> := [Rule, TitleRow, Rule]

  /** The numbered row of a task, carrying its first content cell. */
  function FirstRow(index: int, date: string, time: string, priorityColor: string,
                    dueColor: string, cell: string): string
  {
    "| " + DecimalString(index + 1) + "  |"
    + (" " + date + " | " + time + " | " + priorityColor + " | " + dueColor + " |" + cell + "|")
  }

  /** The blank columns left of the content cell on a continuation row. */
  const BlankColumns: string := "|    |            |       |   |   |"

  /** A row with only a content cell, every other column blank. */
  function ContinuationRow(cell: string): string {
    BlankColumns + cell + "|"
  }

  /** The numbered row ends with its content cell and the closing bar. */
  lemma FirstRowEnds(index: int, date: string, time: string, priorityColor: string,
                     dueColor: string, cell: string)
    ensures EndsWith(FirstRow(index, date, time, priorityColor, dueColor, cell), cell + "|")
  {
  }

  /** The numbered row opens with the 1-based number in the first column. */
  lemma FirstRowOpens(index: int, date: string, time: string, priorityColor: string,
                      dueColor: string, cell: string)
    ensures StartsWith(FirstRow(index, date, time, priorityColor, dueColor, cell),
                       "| " + DecimalString(index + 1) + "  |")
  {
    var opening := "| " + DecimalString(index + 1) + "  |";
    var rest := " " + date + " | " + time + " | " + priorityColor + " | " + dueColor + " |" + cell + "|";
    assert (opening + rest)[..|opening|] == opening;
  }

  predicate StartsWith(s: string, prefix: string) {
    |prefix| <= |s| && s[..|prefix|] == prefix
  }

  predicate EndsWith(s: string, suffix: string) {
    |suffix| <= |s| && s[|s| - |suffix|..] == suffix
  }

  /**
   * `printTask`: the numbered row with the first cell, one continuation
   * row for each further cell, then the rule line. The row's columns are
   * computed left to right, so the first of these throws: year 0, a
   * priority never set, content that wraps to no cell.
   */
  function TaskBlock(index: int, due: DateTime, priority: Option<string>, today: Date,
                     content: seq<string>): (r: Result<seq<string>, Fault>)
    requires ValidDate(today) && ValidDate(due.date)
    ensures r.Ok? ==> 2 <= |r.value| && r.value[|r.value| - 1] == Rule
  {
    var cells := WrapAll(content);
    match DateField(due.date)
    case None => Err(DivisionByZero)
    case Some(date) =>
      if priority.None? then Err(UninitializedPriority)
      else if cells == [] then Err(IndexOutOfBounds)
      else
        var first := FirstRow(index, date, TimeField(due.hour, due.minute), PriorityColor(priority.value),
                              DueTagColor(DueTagOn(today, due.date)), cells[0]);
        Ok([first] + ContinuationRows(cells[1..]) + [Rule])
  }

  function ContinuationRows(cells: seq<string>): (rows: seq<string>)
    ensures |rows| == |cells|
    ensures forall i :: 0 <= i < |cells| ==> rows[i] == ContinuationRow(cells[i])
  {
    if cells == [] then [] else [ContinuationRow(cells[0])] + ContinuationRows(cells[1..])
  }

  /**
   * A task prints exactly when its year is not 0, its priority is set and
   * some content line is not empty; otherwise the first of these to fail
   * names the fault.
   */
  lemma TaskBlockFaults(index: int, due: DateTime, priority: Option<string>, today: Date, content: seq<string>)
    requires ValidDate(today) && ValidDate(due.date)
    ensures var r := TaskBlock(index, due, priority, today, content);
      && (r == Err(DivisionByZero) <==> due.date.year == 0)
      && (r == Err(UninitializedPriority) <==> due.date.year != 0 && priority.None?)
      && (r == Err(IndexOutOfBounds) <==>
            due.date.year != 0 && priority.Some? && forall i :: 0 <= i < |content| ==> content[i] == "")
      && (r.Ok? <==> due.date.year != 0 && priority.Some? && exists i :: 0 <= i < |content| && content[i] != "")
  {
    WrapAllEmpty(content);
  }

  /**
   * A printed block has one row per cell plus the rule line: the first
   * row ends with the first cell, row `i` is the continuation row of
   * cell `i`, and the last row is the rule.
   */
  lemma TaskBlockRows(index: int, due: DateTime, priority: Option<string>, today: Date, content: seq<string>)
    requires ValidDate(today) && ValidDate(due.date)
    requires TaskBlock(index, due, priority, today, content).Ok?
    ensures var rows := TaskBlock(index, due, priority, today, content).value;
      var cells := WrapAll(content);
      && |rows| == |cells| + 1
      && rows[|cells|] == Rule
      && (forall i :: 1 <= i < |cells| ==> rows[i] == ContinuationRow(cells[i]))
      && EndsWith(rows[0], cells[0] + "|")
      && DateField(due.date).Some? && priority.Some?
      && rows[0] == "| " + DecimalString(index + 1) + "  |"
                    + (" " + DateField(due.date).value + " | " + TimeField(due.hour, due.minute)
                       + " | " + PriorityColor(priority.value) + " | " + DueTagColor(DueTagOn(today, due.date))
                       + " |" + cells[0] + "|")
  {
    var cells := WrapAll(content);
    var date := DateField(due.date).value;
    var time := TimeField(due.hour, due.minute);
    var pc, dc := PriorityColor(priority.value), DueTagColor(DueTagOn(today, due.date));
    var first := FirstRow(index, date, time, pc, dc, cells[0]);
    assert TaskBlock(index, due, priority, today, content) == Ok([first] + ContinuationRows(cells[1..]) + [Rule]);
    RowsOfBlock(first, cells);
    FirstRowEnds(index, date, time, pc, dc, cells[0]);
  }

  /** The rows of a block: the first row, one continuation row per further cell, the rule. */
  lemma RowsOfBlock(first: string, cells: seq<string>)
    requires |cells| >= 1
    ensures var rows := [first] + ContinuationRows(cells[1..]) + [Rule];
      && |rows| == |cells| + 1 && rows[0] == first && rows[|cells|] == Rule
      && forall i :: 1 <= i < |cells| ==> rows[i] == ContinuationRow(cells[i])
  {
    var rest := ContinuationRows(cells[1..]);
    var rows := [first] + rest + [Rule];
    forall i | 1 <= i < |cells|
      ensures rows[i] == ContinuationRow(cells[i])
    {
      assert rows[i] == rest[i - 1] && cells[1..][i - 1] == cells[i];
    }
  }
}
