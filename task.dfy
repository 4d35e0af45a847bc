/**
 * One task of the list: its content lines, its priority and its due date
 * and time, updated in place by the prompts and printed as a table block.
 * Every prompt method reads the lines still to come from `input` and is
 * proved to leave the task, and to report its reading and printing, as
 * the matching function of `Prompts` describes.
 */
module Tasks {
  import opened Optional
  import opened Text
  import opened Calendar
  import opened Render
  import opened Prompts

  class Task {
    var content: seq<string>
    var priority: Option<string>
    var dateTime: DateTime

    /** The task's fields as a value. */
    function State(): TaskState
      reads this
    {
      TaskState(content, priority, dateTime)
    }

    /** The due date and time is one `LocalDateTime` accepts. */
    predicate Valid()
      reads this
    {
      ValidDateTime(dateTime)
    }

    /** `Task()`: no content, no priority yet, due at the current time. */
    constructor (now: DateTime)
      requires ValidDateTime(now)
      ensures Valid()
      ensures State() == TaskState([], None, now)
    {
      content := [];
      priority := None;
      dateTime := now;
    }

    /** `setPriority`: retries on a line that is not a code, then stores its own line. */
    method SetPriority(input: seq<string>) returns (complete: bool, used: nat, out: seq<string>)
      requires Valid()
      modifies this
      ensures Valid()
      ensures Reply(State(), complete, used, out) == PriorityReply(old(State()), input)
      decreases |input|
    {
      if input == [] {
        return false, 0, [PriorityPrompt];
      }
      var line := Lowercase(input[0]);
      if !IsPriorityCode(line) {
        var c, u, o := SetPriority(input[1..]);
        if !c {
          return false, u + 1, [PriorityPrompt] + o;
        }
        complete, used, out := true, u + 1, [PriorityPrompt] + o;
      } else {
        complete, used, out := true, 1, [PriorityPrompt];
      }
      priority := Some(line);
    }

    /** `setDate`: retries until a line is a valid date, then sets it at 00:00. */
    method SetDate(input: seq<string>) returns (complete: bool, used: nat, out: seq<string>)
      requires Valid()
      modifies this
      ensures Valid()
      ensures Reply(State(), complete, used, out) == DateReply(old(State()), input)
      decreases |input|
    {
      if input == [] {
        return false, 0, [DatePrompt];
      }
      var date := ParseDate(input[0]);
      if date.Some? {
        dateTime := DateTime(date.value, 0, 0);
        return true, 1, [DatePrompt];
      }
      DateReplyStep(State(), input);
      assert Repeat([DatePrompt, DateInvalid], 1) == [DatePrompt, DateInvalid];
      var c, u, o := SetDate(input[1..]);
      complete, used, out := c, u + 1, [DatePrompt, DateInvalid] + o;
    }

    /** `setTime`: retries until a line is a valid time, then sets it on the stored date. */
    method SetTime(input: seq<string>) returns (complete: bool, used: nat, out: seq<string>)
      requires Valid()
      modifies this
      ensures Valid()
      ensures Reply(State(), complete, used, out) == TimeReply(old(State()), input)
      decreases |input|
    {
      if input == [] {
        return false, 0, [TimePrompt];
      }
      var time := ParseTime(input[0], dateTime.date);
      if time.Some? {
        dateTime := time.value;
        return true, 1, [TimePrompt];
      }
      TimeReplyStep(State(), input);
      assert Repeat([TimePrompt, TimeInvalid], 1) == [TimePrompt, TimeInvalid];
      var c, u, o := SetTime(input[1..]);
      complete, used, out := c, u + 1, [TimePrompt, TimeInvalid] + o;
    }

    /** `setNonContentData`: priority, then date, then time. */
    method SetNonContentData(input: seq<string>) returns (complete: bool, used: nat, out: seq<string>)
      requires Valid()
      modifies this
      ensures Valid()
      ensures Reply(State(), complete, used, out) == NonContentReply(old(State()), input)
    {
      var c, u, o := SetPriority(input);
      if !c {
        return false, u, o;
      }
      var c2, u2, o2 := SetDate(input[u..]);
      if !c2 {
        return false, u + u2, o + o2;
      }
      var c3, u3, o3 := SetTime(input[u + u2..]);
      complete, used, out := c3, u + (u2 + u3), o + (o2 + o3);
    }

    /** `setContentData`: appends lines up to a blank one. */
    method SetContentData(input: seq<string>) returns (complete: bool, used: nat, out: seq<string>)
      requires Valid()
      modifies this
      ensures Valid()
      ensures Reply(State(), complete, used, out) == ContentReply(old(State()), input)
      decreases |input|
    {
      if input == [] {
        return false, 0, [];
      }
      if IsBlank(input[0]) {
        out := if content == [] then [TaskBlank] else [];
        return true, 1, out;
      }
      content := content + [input[0]];
      var c, u, o := SetContentData(input[1..]);
      complete, used, out := c, u + 1, o;
    }

    /** `editTask`: reads a field name, retrying on an unknown one, and updates that field. */
    method EditTask(input: seq<string>) returns (complete: bool, used: nat, out: seq<string>)
      requires Valid()
      modifies this
      ensures Valid()
      ensures Reply(State(), complete, used, out) == EditReply(old(State()), input)
      decreases |input|
    {
      if input == [] {
        return false, 0, [FieldPrompt];
      }
      var rest := input[1..];
      var c, u, o;
      if input[0] == "priority" {
        c, u, o := SetPriority(rest);
        o := [FieldPrompt] + o;
      } else if input[0] == "date" {
        c, u, o := SetDate(rest);
        o := [FieldPrompt] + o;
      } else if input[0] == "time" {
        c, u, o := SetTime(rest);
        o := [FieldPrompt] + o;
      } else if input[0] == "task" {
        content := [];
        c, u, o := SetContentData(rest);
        o := [FieldPrompt, ContentPrompt] + o;
      } else {
        EditReplyStep(State(), input);
        assert Repeat([FieldPrompt, FieldInvalid], 1) == [FieldPrompt, FieldInvalid];
        c, u, o := EditTask(rest);
        return c, u + 1, [FieldPrompt, FieldInvalid] + o;
      }
      if c {
        o := o + [TaskChanged];
      }
      complete, used, out := c, u + 1, o;
    }

    /**
     * `printTask`: wraps every content line into cells, then renders the
     * block of rows for the task numbered `index + 1`, `today` being the
     * clock's date.
     */
    method PrintTask(index: int, today: Date) returns (r: Result<seq<string>, Fault>)
      requires Valid() && ValidDate(today)
      ensures r == TaskBlock(index, dateTime, priority, today, content)
    {
      var cells := WrapContent(content);
      var date := GetDate(dateTime.date);
      if date.None? {
        return Err(DivisionByZero);
      }
      if priority.None? {
        return Err(UninitializedPriority);
      }
      if |cells| == 0 {
        return Err(IndexOutOfBounds);
      }
      var first := FirstRow(index, date.value, TimeField(dateTime.hour, dateTime.minute),
                            PriorityColor(priority.value), DueTagColor(DueTagOn(today, dateTime.date)), cells[0]);
      var rows := ContinuationBlock(cells);
      rows := [first] + rows;
      r := Ok(rows + [Rule]);
    }
  }

  /** The cells of all content lines, each line wrapped on its own. */
  method WrapContent(content: seq<string>) returns (cells: seq<string>)
    ensures cells == WrapAll(content)
  {
    cells := [];
    for k := 0 to |content|
      invariant cells == WrapAll(content[..k])
    {
      var lines := FormattedLine(content[k]);
      assert content[..k + 1][..k] == content[..k];
      cells := cells + lines;
    }
    assert content[..|content|] == content;
  }

  /** One continuation row per cell after the first. */
  method ContinuationBlock(cells: seq<string>) returns (rows: seq<string>)
    requires cells != []
    ensures rows == ContinuationRows(cells[1..])
  {
    rows := [];
    for i := 0 to |cells| - 1
      invariant rows == ContinuationRows(cells[1..i + 1])
    {
      assert cells[1..i + 2] == cells[1..i + 1] + [cells[i + 1]];
      ContinuationRowsAppend(cells[1..i + 1], cells[i + 1]);
      rows := rows + [ContinuationRow(cells[i + 1])];
    }
  }

  lemma ContinuationRowsAppend(cells: seq<string>, cell: string)
    ensures ContinuationRows(cells + [cell]) == ContinuationRows(cells) + [ContinuationRow(cell)]
  {
  }
}
