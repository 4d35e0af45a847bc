/**
 * The list of tasks: adding a task through its prompts, deleting or
 * editing the task a number names, and printing the whole table. The
 * functions describe each operation on the tasks' values; the class
 * `TaskList` holds the `Task` objects and is proved to follow them.
 */
module TaskLists {
  import opened Optional
  import opened Text
  import opened Calendar
  import opened Render
  import opened Prompts
  import opened Tasks

  const TaskDeleted: string := "The task is deleted"
  const NumberInvalid: string := "Invalid task number"

  /** The prompt for a task number, naming the current size of the list. */
  function NumberPrompt(size: nat): string {
    "Input the task number (1-" + DecimalString(size) + "):"
  }

  // ----------------------------------------------------------- invariant

  /** Every task's due date and time is valid. */
  predicate Dated(ts: seq<TaskState>) {
    forall i :: 0 <= i < |ts| ==> ValidDateTime(ts[i].dateTime)
  }

  /**
   * What a task in the list always has: a priority, a valid due date and
   * time, and only non-blank content lines.
   */
  predicate Kept(t: TaskState) {
    && t.priority.Some?
    && ValidDateTime(t.dateTime)
    && forall i :: 0 <= i < |t.content| ==> !IsBlank(t.content[i])
  }

  predicate AllKept(ts: seq<TaskState>) {
    forall i :: 0 <= i < |ts| ==> Kept(ts[i])
  }

  // ----------------------------------------------------------------- add

  /**
   * The first half of `TaskList.addTask`: a new task due now runs the
   * priority, date and time prompts, then the content prompt.
   */
  function NewTaskReply(input: seq<string>, now: DateTime): (r: Reply<TaskState>)
    requires ValidDateTime(now)
    ensures r.used <= |input|
    ensures ValidDateTime(r.value.dateTime)
  {
    var n := NonContentReply(TaskState([], None, now), input);
    if !n.complete then n
    else
      var c := ContentReply(n.value, input[n.used..]);
      Reply(c.value, c.complete, n.used + c.used, n.out + [ContentPrompt] + c.out)
  }

  /**
   * `TaskList.addTask`: the new task joins the end of the list only when
   * its prompts finished and its content is not empty.
   */
  function AddReply(ts: seq<TaskState>, input: seq<string>, now: DateTime): (r: Reply<seq<TaskState>>)
    requires ValidDateTime(now)
    ensures r.used <= |input|
    ensures Dated(ts) ==> Dated(r.value)
  {
    var t := NewTaskReply(input, now);
    Reply(if t.complete && t.value.content != [] then ts + [t.value] else ts, t.complete, t.used, t.out)
  }

  /** AddReply in terms of the fields of the new task's reply. */
  lemma AddReplyOf(ts: seq<TaskState>, input: seq<string>, now: DateTime, st: TaskState, complete: bool, used: nat, out: seq<string>)
    requires ValidDateTime(now) && NewTaskReply(input, now) == Reply(st, complete, used, out)
    ensures AddReply(ts, input, now) == Reply(if complete && st.content != [] then ts + [st] else ts, complete, used, out)
  {
  }

  /**
   * A new task is read in this order: the priority prompt, then the date
   * and time prompts on the lines after the first priority code, then the
   * content prompt on the lines after the time; it is finished exactly
   * when all of them are.
   */
  lemma NewTaskOrder(input: seq<string>, now: DateTime)
    requires ValidDateTime(now)
    ensures var t, kp := NewTaskReply(input, now), FirstPriority(input);
      && (kp == |input| ==> !t.complete)
      && (kp < |input| ==>
            var dt := DateTimeReply(TaskState([], Some(Lowercase(input[0])), now), input[kp + 1..]);
            && (!dt.complete ==> !t.complete)
            && (dt.complete ==>
                  var c := ContentReply(dt.value, input[kp + 1 + dt.used..]);
                  t.complete == c.complete && t.value == c.value && t.used == kp + 1 + dt.used + c.used))
  {
    NonContentStores(TaskState([], None, now), input);
  }

  /**
   * For a new task with priority `p`, as `NewTaskOrder` has it: the date
   * and time prompts from line `k` on, followed by a finished content
   * prompt on the lines after them, store the due date and time
   * `ReadDateTime` finds and, as content, the lines after the time up to
   * the first blank one, which ends what they read.
   */
  lemma DateTimeThenContent(p: string, now: DateTime, input: seq<string>, k: nat)
    requires k <= |input| && DateTimeReply(TaskState([], Some(p), now), input[k..]).complete
    requires ContentReply(DateTimeReply(TaskState([], Some(p), now), input[k..]).value,
                          input[k + DateTimeReply(TaskState([], Some(p), now), input[k..]).used..]).complete
    ensures var dt := DateTimeReply(TaskState([], Some(p), now), input[k..]);
      var c := ContentReply(dt.value, input[k + dt.used..]);
      var q := ReadDateTime(input[k..]);
      q.Some? &&
      var lines := input[k + q.value.1..]; var kc := FirstBlank(lines);
      && dt.used == q.value.1
      && kc < |lines|
      && c.value == TaskState(lines[..kc], Some(p), q.value.0)
      && c.used == kc + 1
  {
    DateTimeReads(TaskState([], Some(p), now), input[k..]);
    ContentReplyLines(DateTimeReply(TaskState([], Some(p), now), input[k..]).value,
                      input[k + DateTimeReply(TaskState([], Some(p), now), input[k..]).used..]);
  }

  /** A finished priority prompt always leaves a priority stored. */
  lemma PrioritySet(st: TaskState, input: seq<string>)
    requires PriorityReply(st, input).complete
    ensures PriorityReply(st, input).value.priority.Some?
  {
    PriorityReplyStoresFirstLine(st, input);
  }

  /** The content prompt adds only non-blank lines. */
  lemma ContentNonBlank(st: TaskState, input: seq<string>)
    requires forall i :: 0 <= i < |st.content| ==> !IsBlank(st.content[i])
    ensures var c := ContentReply(st, input).value.content;
      forall i :: 0 <= i < |c| ==> !IsBlank(c[i])
  {
    ContentReplyLines(st, input);
    var k := FirstBlank(input);
    var c := st.content + input[..k];
    assert forall i :: |st.content| <= i < |c| ==> c[i] == input[i - |st.content|];
  }

  /** A task that finishes all its prompts keeps the invariant. */
  lemma AddedTaskKept(input: seq<string>, now: DateTime)
    requires ValidDateTime(now)
    ensures var t := NewTaskReply(input, now); t.complete ==> Kept(t.value)
  {
    var st := TaskState([], None, now);
    var n := NonContentReply(st, input);
    if n.complete {
      PrioritySet(st, input);
      assert n.value.priority.Some? && n.value.content == [];
      ContentNonBlank(n.value, input[n.used..]);
      assert NewTaskReply(input, now).value == ContentReply(n.value, input[n.used..]).value;
    }
  }

  /**
   * Adding either leaves the list as it was or appends exactly one task,
   * which keeps the list's invariant and has content.
   */
  lemma AddKeeps(ts: seq<TaskState>, input: seq<string>, now: DateTime)
    requires AllKept(ts) && ValidDateTime(now)
    ensures var r := AddReply(ts, input, now);
      && AllKept(r.value)
      && (r.value == ts || (|r.value| == |ts| + 1 && r.value[..|ts|] == ts && r.value[|ts|].content != []))
  {
    AddedTaskKept(input, now);
    var t := NewTaskReply(input, now);
    if t.complete && t.value.content != [] {
      var r := ts + [t.value];
      assert r[..|ts|] == ts;
      assert forall i :: 0 <= i < |r| ==> r[i] == if i < |ts| then ts[i] else t.value;
    }
  }

  /**
   * Adding appends exactly when the priority, date and time prompts finish,
   * a blank line later ends the content and some line came before it. The
   * task appended holds what those prompts stored and the lines before the
   * blank one. Otherwise the list is unchanged.
   */
  lemma AddAppendsTypedTask(ts: seq<TaskState>, input: seq<string>, now: DateTime)
    requires ValidDateTime(now)
    ensures var n := NonContentReply(TaskState([], None, now), input);
      var r := AddReply(ts, input, now);
      && (!n.complete ==> !r.complete && r.value == ts)
      && (n.complete ==> var rest := input[n.used..]; var k := FirstBlank(rest);
            && (r.complete <==> k < |rest|)
            && r.value == if 0 < k < |rest| then ts + [n.value.(content := rest[..k])] else ts)
  {
    var n := NonContentReply(TaskState([], None, now), input);
    var t := NewTaskReply(input, now);
    if n.complete {
      var rest := input[n.used..];
      var k := FirstBlank(rest);
      var c := ContentReply(n.value, rest);
      ContentReplyLines(n.value, rest);
      assert c.value.content == [] + rest[..k] == rest[..k];
      assert t.value == c.value && t.complete == c.complete;
      assert t.value.content != [] <==> 0 < k;
    } else {
      assert t == n;
    }
  }

  /**
   * A task whose first content line is blank is not added, and "The task
   * is blank" is the last thing printed.
   */
  lemma AddBlankTask(ts: seq<TaskState>, input: seq<string>, now: DateTime)
    requires ValidDateTime(now)
    requires var n := NonContentReply(TaskState([], None, now), input);
      n.complete && n.used < |input| && IsBlank(input[n.used])
    ensures var r := AddReply(ts, input, now);
      && r.complete && r.value == ts
      && r.out[|r.out| - 1] == TaskBlank
  {
    var n := NonContentReply(TaskState([], None, now), input);
    assert input[n.used..][0] == input[n.used];
  }

  // ------------------------------------------------------ task numbers

  /** `v - 1` on a Kotlin `Int`: it wraps around at the bottom of the range. */
  function Decrement32(v: int): (r: int)
    requires InInt32(v)
    ensures InInt32(r)
    ensures v == MinInt ==> r == MaxInt
    ensures v != MinInt ==> r + 1 == v
  {
    if v == MinInt then MaxInt else v - 1
  }

  /**
   * `input.toInt() - 1` used as a list position: `None` when `toInt`
   * throws or the position is outside the list.
   */
  function ListIndex(size: nat, line: string): (r: Option<nat>)
    ensures r.Some? ==> r.value < size
  {
    PositionOf(size, ParseInt(Lowercase(line)))
  }

  /** The position a parsed task number `n` names in a list of `size` tasks. */
  function PositionOf(size: nat, n: Option<int>): (r: Option<nat>)
    requires n.Some? ==> InInt32(n.value)
    ensures r.Some? ==> r.value < size
  {
    match n
    case None => None
    case Some(v) =>
      var i := Decrement32(v);
      if 0 <= i < size then Some(i) else None
  }

  /** For a list no longer than the `Int` range, number `i + 1` and only it names position `i`. */
  lemma PositionMeaning(size: nat, n: Option<int>, i: nat)
    requires size <= MaxInt && (n.Some? ==> InInt32(n.value))
    ensures PositionOf(size, n) == Some(i) <==> i < size && n == Some(i + 1)
  {
    if n.Some? && n.value == MinInt {
      assert PositionOf(size, n) == None;
    }
  }

  /**
   * For a list no longer than the `Int` range, a line names position `i`
   * exactly when it is the number `i + 1` of a task in the list.
   */
  lemma ListIndexMeaning(size: nat, line: string, i: nat)
    requires size <= MaxInt
    ensures ListIndex(size, line) == Some(i) <==> i < size && ParseInt(Lowercase(line)) == Some(i + 1)
  {
    PositionMeaning(size, ParseInt(Lowercase(line)), i);
  }

  /** The number a row shows, typed back, names that row's task. */
  lemma ListIndexOfNumber(size: nat, i: nat)
    requires i < size <= MaxInt
    ensures ListIndex(size, DecimalString(i + 1)) == Some(i)
  {
    var s := DecimalString(i + 1);
    LowercaseFixed(s);
    ParseDecimal(i + 1);
  }

  /**
   * A block numbered for position `i` opens with the number `i + 1` in its
   * first column, and that number, typed back at a task number prompt,
   * names position `i`.
   */
  lemma BlockNumberNamesTask(size: nat, i: nat, due: DateTime, priority: Option<string>, today: Date,
                           content: seq<string>)
    requires i < size <= MaxInt
    requires ValidDate(today) && ValidDate(due.date)
    requires TaskBlock(i, due, priority, today, content).Ok?
    ensures var row := TaskBlock(i, due, priority, today, content).value[0];
      var n := DecimalString(i + 1);
      && AllDigits(n)
      && StartsWith(row, "| " + n + "  |")
      && ListIndex(size, n) == Some(i)
  {
    TaskBlockRows(i, due, priority, today, content);
    FirstRowOpens(i, DateField(due.date).value, TimeField(due.hour, due.minute), PriorityColor(priority.value),
                  DueTagColor(DueTagOn(today, due.date)), WrapAll(content)[0]);
    ListIndexOfNumber(size, i);
  }

  /** The index of the first line that names a task, or `|input|`. */
  function FirstIndex(size: nat, input: seq<string>): (k: nat)
    ensures k <= |input|
    ensures forall i :: 0 <= i < k ==> ListIndex(size, input[i]).None?
    ensures k < |input| ==> ListIndex(size, input[k]).Some?
  {
    FirstWhere(input, line => ListIndex(size, line).Some?)
  }

  // -------------------------------------------------------------- delete

  /** `TaskList.deleteTask`: retries until a line names a task, then removes it. */
  function DeleteReply(ts: seq<TaskState>, input: seq<string>): (r: Reply<seq<TaskState>>)
    ensures r.used <= |input|
    ensures Dated(ts) ==> Dated(r.value)
    ensures AllKept(ts) ==> AllKept(r.value)
    decreases |input|
  {
    var prompt := NumberPrompt(|ts|);
    if input == [] then Reply(ts, false, 0, [prompt])
    else
      match ListIndex(|ts|, input[0])
      case Some(i) => Reply(ts[..i] + ts[i + 1..], true, 1, [prompt, TaskDeleted])
      case None => Retried(DeleteReply(ts, input[1..]), 1, [prompt, NumberInvalid])
  }

  lemma DeleteReplyStep(ts: seq<TaskState>, input: seq<string>)
    requires input != [] && ListIndex(|ts|, input[0]).None?
    ensures DeleteReply(ts, input) == Retried(DeleteReply(ts, input[1..]), 1, [NumberPrompt(|ts|), NumberInvalid])
  {
  }

  lemma DeleteReplyFound(ts: seq<TaskState>, input: seq<string>)
    requires input != [] && ListIndex(|ts|, input[0]).Some?
    ensures var i := ListIndex(|ts|, input[0]).value;
      DeleteReply(ts, input) == Reply(ts[..i] + ts[i + 1..], true, 1, [NumberPrompt(|ts|), TaskDeleted])
  {
  }

  /** Removing a task keeps the invariant of the others. */
  lemma DeleteKeeps(ts: seq<TaskState>, i: nat)
    requires AllKept(ts) && i < |ts|
    ensures AllKept(ts[..i] + ts[i + 1..])
  {
    var r := ts[..i] + ts[i + 1..];
    assert forall j :: 0 <= j < |r| ==> r[j] == if j < i then ts[j] else ts[j + 1];
  }

  lemma {:induction false} DeleteReplySkips(ts: seq<TaskState>, input: seq<string>, k: nat)
    requires k <= |input|
    requires forall i :: 0 <= i < k ==> ListIndex(|ts|, input[i]).None?
    ensures DeleteReply(ts, input) == Retried(DeleteReply(ts, input[k..]), k, [NumberPrompt(|ts|), NumberInvalid])
  {
    if k > 0 {
      DeleteReplyStep(ts, input);
      DeleteReplySkips(ts, input[1..], k - 1);
      assert input[1..][k - 1..] == input[k..];
      RetriedOnce(DeleteReply(ts, input[k..]), k - 1, [NumberPrompt(|ts|), NumberInvalid]);
    }
  }

  /**
   * Deleting reports every line before the first task number as invalid,
   * then removes exactly the task that number names and keeps the order
   * of the others.
   */
  lemma DeleteRemovesNamedTask(ts: seq<TaskState>, input: seq<string>)
    ensures var r := DeleteReply(ts, input); var k := FirstIndex(|ts|, input);
      var block := [NumberPrompt(|ts|), NumberInvalid];
      && (r.complete <==> k < |input|)
      && (!r.complete ==> r.value == ts && r.out == Repeat(block, k) + [NumberPrompt(|ts|)])
      && (r.complete ==> var i := ListIndex(|ts|, input[k]).value;
            && r.used == k + 1
            && |r.value| == |ts| - 1
            && (forall j :: 0 <= j < i ==> r.value[j] == ts[j])
            && (forall j :: i <= j < |r.value| ==> r.value[j] == ts[j + 1])
            && r.out == Repeat(block, k) + [NumberPrompt(|ts|), TaskDeleted])
  {
    var k := FirstIndex(|ts|, input);
    if k < |input| {
      DeleteReplyAt(ts, input, k);
      RemovedOrder(ts, ListIndex(|ts|, input[k]).value);
    } else {
      DeleteReplySkips(ts, input, k);
      assert input[k..] == [];
    }
  }

  /** Removing the element at `i` keeps the ones before it and shifts the ones after it down by one. */
  lemma RemovedOrder<T>(s: seq<T>, i: nat)
    requires i < |s|
    ensures |s[..i] + s[i + 1..]| == |s| - 1
    ensures forall j :: 0 <= j < i ==> (s[..i] + s[i + 1..])[j] == s[j]
    ensures forall j :: i < j < |s| ==> (s[..i] + s[i + 1..])[j - 1] == s[j]
  {
  }

  /** Deleting when the first task number is on line `k`. */
  lemma DeleteReplyAt(ts: seq<TaskState>, input: seq<string>, k: nat)
    requires k < |input| && ListIndex(|ts|, input[k]).Some?
    requires forall j :: 0 <= j < k ==> ListIndex(|ts|, input[j]).None?
    ensures var i := ListIndex(|ts|, input[k]).value;
      DeleteReply(ts, input) ==
        Reply(ts[..i] + ts[i + 1..], true, k + 1, Repeat([NumberPrompt(|ts|), NumberInvalid], k) + [NumberPrompt(|ts|), TaskDeleted])
  {
    DeleteReplySkips(ts, input, k);
    assert input[k..][0] == input[k];
    DeleteReplyFound(ts, input[k..]);
  }

  // ---------------------------------------------------------------- edit

  /**
   * `TaskList.editTask`: retries until a line names a task, then edits it.
   * The edit runs inside the `try`, so when its input runs out the
   * exception is caught: "Invalid task number" and the number prompt are
   * printed once more before the next read ends the program.
   */
  function EditListReply(ts: seq<TaskState>, input: seq<string>): (r: Reply<seq<TaskState>>)
    ensures r.used <= |input|
    ensures |r.value| == |ts|
    ensures Dated(ts) ==> Dated(r.value)
    decreases |input|
  {
    var prompt := NumberPrompt(|ts|);
    if input == [] then Reply(ts, false, 0, [prompt])
    else
      match ListIndex(|ts|, input[0])
      case Some(i) =>
        var e := EditReply(ts[i], input[1..]);
        Reply(ts[i := e.value], e.complete, e.used + 1,
              [prompt] + e.out + (if e.complete then [] else [NumberInvalid, prompt]))
      case None => Retried(EditListReply(ts, input[1..]), 1, [prompt, NumberInvalid])
  }

  lemma EditListReplyFound(ts: seq<TaskState>, input: seq<string>)
    requires input != [] && ListIndex(|ts|, input[0]).Some?
    ensures var i := ListIndex(|ts|, input[0]).value; var e := EditReply(ts[i], input[1..]);
      EditListReply(ts, input) == Reply(ts[i := e.value], e.complete, e.used + 1,
        [NumberPrompt(|ts|)] + e.out + (if e.complete then [] else [NumberInvalid, NumberPrompt(|ts|)]))
  {
  }

  lemma EditListReplyStep(ts: seq<TaskState>, input: seq<string>)
    requires input != [] && ListIndex(|ts|, input[0]).None?
    ensures EditListReply(ts, input) == Retried(EditListReply(ts, input[1..]), 1, [NumberPrompt(|ts|), NumberInvalid])
  {
  }

  lemma {:induction false} EditListReplySkips(ts: seq<TaskState>, input: seq<string>, k: nat)
    requires k <= |input|
    requires forall i :: 0 <= i < k ==> ListIndex(|ts|, input[i]).None?
    ensures EditListReply(ts, input) == Retried(EditListReply(ts, input[k..]), k, [NumberPrompt(|ts|), NumberInvalid])
  {
    if k > 0 {
      EditListReplyStep(ts, input);
      EditListReplySkips(ts, input[1..], k - 1);
      assert input[1..][k - 1..] == input[k..];
      RetriedOnce(EditListReply(ts, input[k..]), k - 1, [NumberPrompt(|ts|), NumberInvalid]);
    }
  }

  /** Editing when the first task number is on line `k`: the edit reads the lines after it. */
  lemma EditListReplyAt(ts: seq<TaskState>, input: seq<string>, k: nat)
    requires k < |input| && ListIndex(|ts|, input[k]).Some?
    requires forall j :: 0 <= j < k ==> ListIndex(|ts|, input[j]).None?
    ensures var r := EditListReply(ts, input); var prompt := NumberPrompt(|ts|);
      var i := ListIndex(|ts|, input[k]).value; var e := EditReply(ts[i], input[k + 1..]);
      && r.value == ts[i := e.value]
      && r.complete == e.complete
      && r.used == k + (e.used + 1)
      && r.out == Repeat([prompt, NumberInvalid], k) + ([prompt] + e.out + (if e.complete then [] else [NumberInvalid, prompt]))
  {
    EditListReplySkips(ts, input, k);
    EditListReplyFrom(ts, input, k);
    RetriedFields(EditListReply(ts, input), EditListReply(ts, input[k..]), k, [NumberPrompt(|ts|), NumberInvalid]);
  }

  /** The lines from `k` on, when line `k` names a task. */
  lemma EditListReplyFrom(ts: seq<TaskState>, input: seq<string>, k: nat)
    requires k < |input| && ListIndex(|ts|, input[k]).Some?
    ensures var i := ListIndex(|ts|, input[k]).value; var e := EditReply(ts[i], input[k + 1..]);
      var prompt := NumberPrompt(|ts|);
      EditListReply(ts, input[k..]) ==
        Reply(ts[i := e.value], e.complete, e.used + 1, [prompt] + e.out + (if e.complete then [] else [NumberInvalid, prompt]))
  {
    assert input[k..][0] == input[k] && input[k..][1..] == input[k + 1..];
    EditListReplyFound(ts, input[k..]);
  }

  /**
   * With `k` the first line that names a task (`|input|` when none does):
   * editing reports every line before it as invalid, then edits exactly the
   * task that line names, with the lines after it; every other task is left
   * as it was. When no line names a task, the list is unchanged.
   */
  lemma EditChangesNamedTask(ts: seq<TaskState>, input: seq<string>, k: nat)
    requires k <= |input|
    requires forall j :: 0 <= j < k ==> ListIndex(|ts|, input[j]).None?
    requires k < |input| ==> ListIndex(|ts|, input[k]).Some?
    ensures var r := EditListReply(ts, input);
      var prompt := NumberPrompt(|ts|); var block := [prompt, NumberInvalid];
      && (k == |input| ==> r == Reply(ts, false, k, Repeat(block, k) + [prompt]))
      && (k < |input| ==>
            var i := ListIndex(|ts|, input[k]).value; var e := EditReply(ts[i], input[k + 1..]);
            && r.value == ts[i := e.value]
            && r.complete == e.complete
            && r.used == k + (e.used + 1)
            && r.out == Repeat(block, k) + ([prompt] + e.out + (if e.complete then [] else [NumberInvalid, prompt])))
  {
    if k < |input| {
      EditListReplyAt(ts, input, k);
    } else {
      EditNoTaskNamed(ts, input);
    }
  }

  /** When no line names a task, only the prompts and rejections are printed. */
  lemma EditNoTaskNamed(ts: seq<TaskState>, input: seq<string>)
    requires forall j :: 0 <= j < |input| ==> ListIndex(|ts|, input[j]).None?
    ensures EditListReply(ts, input) ==
      Reply(ts, false, |input|, Repeat([NumberPrompt(|ts|), NumberInvalid], |input|) + [NumberPrompt(|ts|)])
  {
    EditListReplySkips(ts, input, |input|);
    assert input[|input|..] == [];
  }

  /** Editing keeps a task's invariant: only the content may become empty. */
  lemma {:induction false} EditKeeps(st: TaskState, input: seq<string>)
    requires Kept(st)
    ensures Kept(EditReply(st, input).value)
    decreases |input|
  {
    if input != [] {
      var rest := input[1..];
      if input[0] == "priority" {
        PriorityReplyStoresFirstLine(st, rest);
      } else if input[0] == "task" {
        ContentNonBlank(st.(content := []), rest);
        assert EditReply(st, input).value == ContentReply(st.(content := []), rest).value;
      } else if !IsField(input[0]) {
        EditKeeps(st, rest);
      }
    }
  }

  /** Editing the list changes at most one task and keeps the invariant of all. */
  lemma {:induction false} EditListKeeps(ts: seq<TaskState>, input: seq<string>)
    requires AllKept(ts)
    ensures var r := EditListReply(ts, input);
      && AllKept(r.value)
      && forall i, j :: 0 <= i < j < |ts| ==> r.value[i] == ts[i] || r.value[j] == ts[j]
    decreases |input|
  {
    if input != [] {
      match ListIndex(|ts|, input[0])
      case Some(i) => EditKeeps(ts[i], input[1..]);
      case None => EditListKeeps(ts, input[1..]);
    }
  }

  // ------------------------------------------------------------ printing

  /** What printing produced, and the exception that stopped it, if any. */
  datatype Printout = Printout(out: seq<string>, fault: Option<Fault>)

  /**
   * The blocks of the tasks in order, numbered from 1, up to the first
   * task whose block throws; nothing of that task is printed.
   */
  function Blocks(ts: seq<TaskState>, today: Date): (p: Printout)
    requires ValidDate(today) && Dated(ts)
    ensures p.fault.None? ==> 2 * |ts| <= |p.out|
    decreases |ts|
  {
    if ts == [] then Printout([], None)
    else
      var before := Blocks(ts[..|ts| - 1], today);
      var t := ts[|ts| - 1];
      if before.fault.Some? then before
      else
        match TaskBlock(|ts| - 1, t.dateTime, t.priority, today, t.content)
        case Err(f) => Printout(before.out, Some(f))
        case Ok(rows) => Printout(before.out + rows, None)
  }

  /** `TaskList.printTasks`: the header, then every task's block. */
  function Listing(ts: seq<TaskState>, today: Date): (p: Printout)
    requires ValidDate(today) && Dated(ts)
    ensures 3 <= |p.out| && p.out[..3] == Header
  {
    var b := Blocks(ts, today);
    Printout(Header + b.out, b.fault)
  }

  /** The listing is the header followed by what the blocks printed. */
  lemma ListingOfBlocks(ts: seq<TaskState>, today: Date, body: seq<string>, fault: Option<Fault>)
    requires ValidDate(today) && Dated(ts)
    requires Blocks(ts, today) == Printout(body, fault)
    ensures Listing(ts, today) == Printout(Header + body, fault)
  {
  }

  /**
   * When the first `n + 1` tasks print, their blocks are those of the first
   * `n` followed by the block of task `n`, numbered `n + 1`.
   */
  lemma BlocksNext(ts: seq<TaskState>, n: nat, today: Date)
    requires ValidDate(today) && Dated(ts) && n < |ts|
    requires Blocks(ts[..n + 1], today).fault.None?
    ensures var t := ts[n];
      && Blocks(ts[..n], today).fault.None?
      && TaskBlock(n, t.dateTime, t.priority, today, t.content).Ok?
      && Blocks(ts[..n + 1], today).out
           == Blocks(ts[..n], today).out + TaskBlock(n, t.dateTime, t.priority, today, t.content).value
  {
    var s := ts[..n + 1];
    assert s[..|s| - 1] == ts[..n] && s[|s| - 1] == ts[n];
  }

  /** What a prefix of the list prints is a prefix of what the whole list prints. */
  lemma {:induction false} BlocksPrefix(ts: seq<TaskState>, n: nat, today: Date)
    requires ValidDate(today) && Dated(ts) && n <= |ts|
    ensures var pre, all := Blocks(ts[..n], today).out, Blocks(ts, today).out;
      |pre| <= |all| && all[..|pre|] == pre
    decreases |ts|
  {
    if n < |ts| {
      var init := ts[..|ts| - 1];
      assert init[..n] == ts[..n];
      BlocksPrefix(init, n, today);
      var mid, all := Blocks(init, today).out, Blocks(ts, today).out;
      assert |mid| <= |all| && all[..|mid|] == mid;
      PrefixTrans(Blocks(ts[..n], today).out, mid, all);
    } else {
      assert ts[..n] == ts;
    }
  }

  lemma PrefixTrans<T>(a: seq<T>, b: seq<T>, c: seq<T>)
    requires |a| <= |b| && b[..|a|] == a
    requires |b| <= |c| && c[..|b|] == b
    ensures |a| <= |c| && c[..|a|] == a
  {
    assert c[..|a|] == c[..|b|][..|a|];
  }

  /**
   * When the first `i + 1` tasks print, the blocks printed show the block of
   * task `i` right after the blocks of the tasks before it.
   */
  lemma BlocksShowTask(ts: seq<TaskState>, i: nat, today: Date)
    requires ValidDate(today) && Dated(ts) && i < |ts|
    requires Blocks(ts[..i + 1], today).fault.None?
    ensures var t := ts[i]; var b := TaskBlock(i, t.dateTime, t.priority, today, t.content);
      b.Ok? && ShowsAt(Blocks(ts, today).out, |Blocks(ts[..i], today).out|, b.value)
  {
    BlocksNext(ts, i, today);
    BlocksPrefix(ts, i + 1, today);
    ShowsAfterPrefix(Blocks(ts, today).out, Blocks(ts[..i + 1], today).out,
                     Blocks(ts[..i], today).out, TaskBlock(i, ts[i].dateTime, ts[i].priority, today, ts[i].content).value);
  }

  /**
   * When the first `i + 1` tasks print, the listing shows the block of task
   * `i`, numbered `i + 1`, right after the header and the blocks of the
   * tasks before it, in list order.
   */
  lemma ListingShowsTask(ts: seq<TaskState>, i: nat, today: Date)
    requires ValidDate(today) && Dated(ts) && i < |ts|
    requires Blocks(ts[..i + 1], today).fault.None?
    ensures var t := ts[i]; var b := TaskBlock(i, t.dateTime, t.priority, today, t.content);
      b.Ok? && ShowsAt(Listing(ts, today).out, |Header| + |Blocks(ts[..i], today).out|, b.value)
  {
    BlocksShowTask(ts, i, today);
    ShowsBehind(Listing(ts, today).out, Header, Blocks(ts, today).out, |Blocks(ts[..i], today).out|,
                TaskBlock(i, ts[i].dateTime, ts[i].priority, today, ts[i].content).value);
  }

  /** `rows` appear in `out`, one after the other, from position `start` on. */
  ghost predicate ShowsAt<T>(out: seq<T>, start: nat, rows: seq<T>) {
    start + |rows| <= |out| && out[start..start + |rows|] == rows
  }

  /** Where `pre + mid` begins `all`, `mid` sits in `all` right after `pre`. */
  lemma ShowsAfterPrefix<T>(all: seq<T>, first: seq<T>, pre: seq<T>, mid: seq<T>)
    requires |first| <= |all| && all[..|first|] == first
    requires first == pre + mid
    ensures ShowsAt(all, |pre|, mid)
  {
    assert all[|pre|..|pre| + |mid|] == all[..|first|][|pre|..];
  }

  /** What `all` shows, `h + all` shows `|h|` positions further on. */
  lemma ShowsBehind<T>(out: seq<T>, h: seq<T>, all: seq<T>, start: nat, rows: seq<T>)
    requires out == h + all
    requires ShowsAt(all, start, rows)
    ensures ShowsAt(out, |h| + start, rows)
  {
    assert out[|h| + start..|h| + start + |rows|] == all[start..start + |rows|];
  }

  /**
   * When the first `i + 1` tasks print, the row of the listing where task
   * `i`'s block starts opens with the number `i + 1`, and that number,
   * typed back at a task number prompt, names task `i`.
   */
  lemma RowNumberNamesTask(ts: seq<TaskState>, i: nat, today: Date)
    requires ValidDate(today) && Dated(ts) && i < |ts| <= MaxInt
    requires Blocks(ts[..i + 1], today).fault.None?
    ensures var start, out := |Header| + |Blocks(ts[..i], today).out|, Listing(ts, today).out;
      var n := DecimalString(i + 1);
      && start < |out|
      && AllDigits(n)
      && StartsWith(out[start], "| " + n + "  |")
      && ListIndex(|ts|, n) == Some(i)
  {
    var t := ts[i];
    ListingShowsTask(ts, i, today);
    BlockNumberNamesTask(|ts|, i, t.dateTime, t.priority, today, t.content);
    ShowsAtFirst(Listing(ts, today).out, |Header| + |Blocks(ts[..i], today).out|,
                 TaskBlock(i, t.dateTime, t.priority, today, t.content).value);
  }

  /** The first of `rows` shown at `start` is the element at `start`. */
  lemma ShowsAtFirst<T>(out: seq<T>, start: nat, rows: seq<T>)
    requires ShowsAt(out, start, rows) && rows != []
    ensures start < |out| && out[start] == rows[0]
  {
    assert out[start] == out[start..start + |rows|][0];
  }

  /** Once a block throws, the tasks after it change nothing. */
  lemma {:induction false} BlocksFaultSticks(ts: seq<TaskState>, n: nat, today: Date)
    requires ValidDate(today) && Dated(ts) && n <= |ts|
    requires Blocks(ts[..n], today).fault.Some?
    ensures Blocks(ts, today) == Blocks(ts[..n], today)
    decreases |ts|
  {
    if n < |ts| {
      var init := ts[..|ts| - 1];
      assert init[..n] == ts[..n];
      BlocksFaultSticks(init, n, today);
    } else {
      assert ts[..n] == ts;
    }
  }

  /**
   * One round of the printing loop: task `i`'s block is appended to what the
   * tasks before it printed, or, when it throws, the listing stops there.
   */
  lemma BlocksStep(ts: seq<TaskState>, i: nat, today: Date, body: seq<string>, r: Result<seq<string>, Fault>)
    requires ValidDate(today) && Dated(ts) && i < |ts|
    requires Blocks(ts[..i], today) == Printout(body, None)
    requires r == TaskBlock(i, ts[i].dateTime, ts[i].priority, today, ts[i].content)
    ensures r.Ok? ==> Blocks(ts[..i + 1], today) == Printout(body + r.value, None)
    ensures r.Err? ==> Listing(ts, today) == Printout(Header + body, Some(r.error))
  {
    var prefix := ts[..i + 1];
    assert prefix[..i] == ts[..i] && prefix[i] == ts[i];
    if r.Err? {
      BlocksFaultSticks(ts, i + 1, today);
      ListingOfBlocks(ts, today, body, Blocks(ts, today).fault);
    }
  }

  /** When every task has printed, the listing is the header and their blocks. */
  lemma ListingOfAll(ts: seq<TaskState>, today: Date, body: seq<string>)
    requires ValidDate(today) && Dated(ts)
    requires Blocks(ts[..|ts|], today) == Printout(body, None)
    ensures Listing(ts, today) == Printout(Header + body, None)
  {
    assert ts[..|ts|] == ts;
    ListingOfBlocks(ts, today, body, None);
  }

  /** The task, its date and its content can each make its block throw. */
  predicate Printable(t: TaskState) {
    t.dateTime.date.year != 0 && t.content != []
  }

  /** A task that keeps the invariant prints exactly when it is printable. */
  lemma BlockPrints(index: int, t: TaskState, today: Date)
    requires ValidDate(today) && Kept(t)
    ensures TaskBlock(index, t.dateTime, t.priority, today, t.content).Ok? <==> Printable(t)
  {
    TaskBlockFaults(index, t.dateTime, t.priority, today, t.content);
    if t.content != [] {
      assert !IsBlank(t.content[0]);
    }
  }

  /** A list prints in full when all but its last task do and the last one's block does. */
  lemma ListingStep(ts: seq<TaskState>, today: Date)
    requires ValidDate(today) && Dated(ts) && ts != []
    ensures var t := ts[|ts| - 1];
      Listing(ts, today).fault.None? <==>
        Listing(ts[..|ts| - 1], today).fault.None? && TaskBlock(|ts| - 1, t.dateTime, t.priority, today, t.content).Ok?
  {
  }

  predicate AllPrintable(ts: seq<TaskState>) {
    forall i :: 0 <= i < |ts| ==> Printable(ts[i])
  }

  lemma PrintableSplit(ts: seq<TaskState>)
    requires ts != []
    ensures AllPrintable(ts) <==> AllPrintable(ts[..|ts| - 1]) && Printable(ts[|ts| - 1])
  {
    assert forall i :: 0 <= i < |ts| - 1 ==> ts[..|ts| - 1][i] == ts[i];
  }

  /**
   * A list that keeps its invariant prints in full exactly when no task
   * is due in year 0 and none has empty content.
   */
  lemma {:induction false} ListingFaults(ts: seq<TaskState>, today: Date)
    requires ValidDate(today) && AllKept(ts)
    ensures Listing(ts, today).fault.None? <==> AllPrintable(ts)
    decreases |ts|
  {
    if ts != [] {
      var init, t := ts[..|ts| - 1], ts[|ts| - 1];
      assert forall i :: 0 <= i < |init| ==> init[i] == ts[i];
      ListingFaults(init, today);
      BlockPrints(|ts| - 1, t, today);
      ListingStep(ts, today);
      PrintableSplit(ts);
    }
  }

  /**
   * Every task in the list has a priority, so printing a list that keeps
   * its invariant never throws for lack of one.
   */
  lemma {:induction false} ListingKeepsPriority(ts: seq<TaskState>, today: Date)
    requires ValidDate(today) && AllKept(ts)
    ensures Listing(ts, today).fault != Some(UninitializedPriority)
    decreases |ts|
  {
    if ts != [] {
      var init, t := ts[..|ts| - 1], ts[|ts| - 1];
      assert forall i :: 0 <= i < |init| ==> init[i] == ts[i];
      ListingKeepsPriority(init, today);
      TaskBlockFaults(|ts| - 1, t.dateTime, t.priority, today, t.content);
    }
  }

  /** An edit can leave a task empty, and printing then throws at that task. */
  lemma EmptiedTaskBreaksListing(t: TaskState, today: Date)
    requires ValidDate(today) && Kept(t) && t.dateTime.date.year != 0
    ensures var r := EditListReply([t], ["1", "task", ""]);
      && r.complete
      && AllKept(r.value)
      && Listing(r.value, today).fault == Some(IndexOutOfBounds)
  {
    assert Lowercase("1") == "1";
    assert ParseInt("1") == Some(1);
    assert ["1", "task", ""][1..] == ["task", ""];
    EditCanEmptyContent(t);
    EditListKeeps([t], ["1", "task", ""]);
    var ts := EditListReply([t], ["1", "task", ""]).value;
    assert ts[..0] == [];
    assert ts[0].dateTime == t.dateTime && ts[0].priority.Some? && ts[0].content == [];
    TaskBlockFaults(0, ts[0].dateTime, ts[0].priority, today, ts[0].content);
    assert Blocks(ts, today).fault == Some(IndexOutOfBounds);
  }

  // --------------------------------------------------------------- class

  /** The tasks' current values, in list order. */
  function StatesOf(tasks: seq<Task>): (r: seq<TaskState>)
    reads tasks
    ensures |r| == |tasks|
    ensures forall i :: 0 <= i < |tasks| ==> r[i] == tasks[i].State()
  {
    if tasks == [] then [] else StatesOf(tasks[..|tasks| - 1]) + [tasks[|tasks| - 1].State()]
  }

  /** `Task()` and its prompts, as the first half of `addTask` runs them. */
  method NewTask(input: seq<string>, now: DateTime) returns (task: Task, complete: bool, used: nat, out: seq<string>)
    requires ValidDateTime(now)
    ensures fresh(task) && task.Valid()
    ensures Reply(task.State(), complete, used, out) == NewTaskReply(input, now)
  {
    task := new Task(now);
    var c, u, o := task.SetNonContentData(input);
    ghost var n := NonContentReply(TaskState([], None, now), input);
    assert n == Reply(task.State(), c, u, o);
    if !c {
      return task, false, u, o;
    }
    var c2, u2, o2 := task.SetContentData(input[u..]);
    complete, used, out := c2, u + u2, o + [ContentPrompt] + o2;
  }

  lemma StatesOfAppend(tasks: seq<Task>, t: Task)
    ensures StatesOf(tasks + [t]) == StatesOf(tasks) + [t.State()]
  {
    assert (tasks + [t])[..|tasks|] == tasks;
  }

  /** Removing one task from a list without repeats leaves none. */
  lemma DistinctRemove(tasks: seq<Task>, i: nat)
    requires i < |tasks| && forall a, b :: 0 <= a < b < |tasks| ==> tasks[a] != tasks[b]
    ensures var r := tasks[..i] + tasks[i + 1..]; forall a, b :: 0 <= a < b < |r| ==> r[a] != r[b]
  {
    var r := tasks[..i] + tasks[i + 1..];
    forall a, b | 0 <= a < b < |r|
      ensures r[a] != r[b]
    {
      var a', b' := if a < i then a else a + 1, if b < i then b else b + 1;
      assert r[a] == tasks[a'] && r[b] == tasks[b'];
    }
  }

  lemma StatesOfRemove(tasks: seq<Task>, i: nat)
    requires i < |tasks|
    ensures StatesOf(tasks[..i] + tasks[i + 1..]) == StatesOf(tasks)[..i] + StatesOf(tasks)[i + 1..]
  {
    var l, r := StatesOf(tasks[..i] + tasks[i + 1..]), StatesOf(tasks)[..i] + StatesOf(tasks)[i + 1..];
    assert |l| == |r|;
    forall j | 0 <= j < |l| ensures l[j] == r[j] {
      if j < i {
        assert (tasks[..i] + tasks[i + 1..])[j] == tasks[j];
      } else {
        assert (tasks[..i] + tasks[i + 1..])[j] == tasks[j + 1];
      }
    }
  }

  class TaskList {
    var tasks: seq<Task>

    /** No task object is in the list twice, and every task keeps the invariant. */
    predicate Valid()
      reads this, tasks
    {
      && (forall i, j :: 0 <= i < j < |tasks| ==> tasks[i] != tasks[j])
      && AllKept(StatesOf(tasks))
    }

    function States(): seq<TaskState>
      reads this, tasks
    {
      StatesOf(tasks)
    }

    constructor ()
      ensures Valid() && States() == []
    {
      tasks := [];
    }

    /** `addTask`, with `now` the clock's reading when the task is created. */
    method AddTask(input: seq<string>, now: DateTime) returns (complete: bool, used: nat, out: seq<string>)
      requires Valid() && ValidDateTime(now)
      modifies this
      ensures Valid()
      ensures forall t :: t in tasks ==> t in old(tasks) || fresh(t)
      ensures Reply(States(), complete, used, out) == AddReply(old(States()), input, now)
    {
      ghost var before := States();
      var task, c, u, o := NewTask(input, now);
      assert States() == before;
      AddReplyOf(before, input, now, task.State(), c, u, o);
      complete, used, out := c, u, o;
      if c && task.content != [] {
        AddedTaskKept(input, now);
        Append(task);
      }
    }

    /** Puts a new task that keeps the invariant at the end of the list. */
    method Append(task: Task)
      requires Valid() && task !in tasks && Kept(task.State())
      modifies this
      ensures Valid()
      ensures tasks == old(tasks) + [task]
      ensures States() == old(States()) + [task.State()]
    {
      StatesOfAppend(tasks, task);
      tasks := tasks + [task];
    }

    /** `deleteTask`: retries until a line names a task, then removes it. */
    method DeleteTask(input: seq<string>) returns (complete: bool, used: nat, out: seq<string>)
      requires Valid()
      modifies this
      ensures Valid()
      ensures forall t :: t in tasks ==> t in old(tasks)
      ensures Reply(States(), complete, used, out) == DeleteReply(old(States()), input)
      decreases |input|
    {
      var prompt := NumberPrompt(|tasks|);
      if input == [] {
        return false, 0, [prompt];
      }
      var index := ListIndex(|tasks|, input[0]);
      if index.None? {
        DeleteReplyStep(States(), input);
        assert Repeat([prompt, NumberInvalid], 1) == [prompt, NumberInvalid];
        var c, u, o := DeleteTask(input[1..]);
        return c, u + 1, [prompt, NumberInvalid] + o;
      }
      DeleteReplyFound(States(), input);
      RemoveAt(index.value);
      complete, used, out := true, 1, [prompt, TaskDeleted];
    }

    /** Removes the task at position `i`, keeping the order of the others. */
    method RemoveAt(i: nat)
      requires Valid() && i < |tasks|
      modifies this
      ensures Valid()
      ensures forall t :: t in tasks ==> t in old(tasks)
      ensures States() == old(States())[..i] + old(States())[i + 1..]
    {
      ghost var before := States();
      DeleteKeeps(before, i);
      StatesOfRemove(tasks, i);
      DistinctRemove(tasks, i);
      tasks := tasks[..i] + tasks[i + 1..];
    }

    /** `editTask`: retries until a line names a task, then edits that task in place. */
    method EditTask(input: seq<string>) returns (complete: bool, used: nat, out: seq<string>)
      requires Valid()
      modifies tasks
      ensures Valid()
      ensures Reply(States(), complete, used, out) == EditListReply(old(States()), input)
      decreases |input|
    {
      var prompt := NumberPrompt(|tasks|);
      if input == [] {
        return false, 0, [prompt];
      }
      var index := ListIndex(|tasks|, input[0]);
      if index.None? {
        EditListReplyStep(States(), input);
        assert Repeat([prompt, NumberInvalid], 1) == [prompt, NumberInvalid];
        var c, u, o := EditTask(input[1..]);
        return c, u + 1, [prompt, NumberInvalid] + o;
      }
      EditListReplyFound(States(), input);
      var c, u, o := EditAt(index.value, input[1..]);
      complete, used := c, u + 1;
      out := [prompt] + o + (if c then [] else [NumberInvalid, prompt]);
    }

    /** Edits the task at position `i` in place; the others are untouched. */
    method EditAt(i: nat, input: seq<string>) returns (complete: bool, used: nat, out: seq<string>)
      requires Valid() && i < |tasks|
      modifies tasks
      ensures Valid()
      ensures var e := EditReply(old(States())[i], input);
        && complete == e.complete && used == e.used && out == e.out
        && States() == old(States())[i := e.value]
    {
      ghost var before := States();
      EditKeeps(before[i], input);
      var c, u, o := tasks[i].EditTask(input);
      assert States() == before[i := tasks[i].State()];
      complete, used, out := c, u, o;
    }

    /** `printTasks`, with `today` the clock's date. */
    method PrintTasks(today: Date) returns (p: Printout)
      requires Valid() && ValidDate(today)
      ensures p == Listing(States(), today)
    {
      ghost var ts := States();
      assert AllKept(ts) && Dated(ts);
      var body: seq<string> := [];
      for i := 0 to |tasks|
        invariant Blocks(ts[..i], today) == Printout(body, None)
      {
        assert ts[i] == tasks[i].State();
        var r := tasks[i].PrintTask(i, today);
        BlocksStep(ts, i, today, body, r);
        if r.Err? {
          return Printout(Header + body, Some(r.error));
        }
        body := body + r.value;
      }
      ListingOfAll(ts, today, body);
      p := Printout(Header + body, None);
    }
  }
}
