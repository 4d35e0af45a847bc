/**
 * The program's outer loop: `Process.start` reads one action and carries
 * it out, and `main` repeats it for ever. A run therefore ends only by
 * `end` (exit code 1), by running out of input, or by an exception that
 * nothing catches.
 */
module Session {
  import opened Optional
  import opened Calendar
  import opened Render
  import opened Prompts
  import opened TaskLists

  const ActionPrompt: string := "Input an action (add, print, edit, delete, end):"
  const NoTasks: string := "No tasks have been input"
  const Exiting: string := "Tasklist exiting!"
  const ActionInvalid: string := "The input action is invalid"

  /** Where the program stands after an action. */
  datatype Status =
    | Running               // ready for the next action
    | Exited(code: int)     // `exitProcess` was called
    | InputEnded            // `readln` found no more input
    | Crashed(fault: Fault) // an exception reached `main`

  /** The tasks, the status, the lines read and the lines printed. */
  datatype Step = Step(tasks: seq<TaskState>, status: Status, used: nat, out: seq<string>)

  /** A list operation after the action line and whatever was printed before it. */
  function Continue(r: Reply<seq<TaskState>>, before: seq<string>): Step {
    Step(r.value, if r.complete then Running else InputEnded, r.used + 1, before + r.out)
  }

  /** The table printed for an action, ending the program if it threw. */
  function Shown(ts: seq<TaskState>, p: Printout): Step {
    Step(ts, if p.fault.Some? then Crashed(p.fault.value) else Running, 1, [ActionPrompt] + p.out)
  }

  /**
   * `Process.start`: prints the action prompt, reads an action and carries
   * it out; `now` is the clock's reading. `print`, `edit` and `delete` on
   * an empty list only say so; `edit` and `delete` print the table first.
   */
  function Action(ts: seq<TaskState>, input: seq<string>, now: DateTime): (s: Step)
    requires Dated(ts) && ValidDateTime(now)
    ensures s.used <= |input|
    ensures s.status.Running? ==> s.used >= 1
    ensures Dated(s.tasks)
  {
    if input == [] then Step(ts, InputEnded, 0, [ActionPrompt])
    else
      var action, rest := input[0], input[1..];
      if action == "add" then Continue(AddReply(ts, rest, now), [ActionPrompt])
      else if action == "end" then Step(ts, Exited(1), 1, [ActionPrompt, Exiting])
      else if action != "print" && action != "delete" && action != "edit" then
        Step(ts, Running, 1, [ActionPrompt, ActionInvalid])
      else if ts == [] then Step(ts, Running, 1, [ActionPrompt, NoTasks])
      else ListAction(ts, action, rest, now.date)
  }

  /**
   * `print`, `delete` or `edit` on a list that is not empty: the table is
   * printed first, and an exception while printing ends the program.
   */
  function ListAction(ts: seq<TaskState>, action: string, rest: seq<string>, today: Date): (s: Step)
    requires Dated(ts) && ValidDate(today)
    ensures s.used <= |rest| + 1
    ensures s.status.Running? ==> s.used >= 1
    ensures Dated(s.tasks)
  {
    var p := Listing(ts, today);
    if action == "print" || p.fault.Some? then Shown(ts, p)
    else if action == "delete" then Continue(DeleteReply(ts, rest), [ActionPrompt] + p.out)
    else Continue(EditListReply(ts, rest), [ActionPrompt] + p.out)
  }

  /** The three outcomes of a list action, with `p` the table it prints. */
  lemma ListActionCases(ts: seq<TaskState>, action: string, rest: seq<string>, today: Date, p: Printout)
    requires Dated(ts) && ValidDate(today) && p == Listing(ts, today)
    ensures var s := ListAction(ts, action, rest, today);
      && (action == "print" || p.fault.Some? ==> s == Shown(ts, p))
      && (action != "print" && p.fault.None? && action == "delete" ==>
            s == Continue(DeleteReply(ts, rest), [ActionPrompt] + p.out))
      && (action != "print" && p.fault.None? && action != "delete" ==>
            s == Continue(EditListReply(ts, rest), [ActionPrompt] + p.out))
  {
  }

  /**
   * `main`: actions one after another for as long as the program runs,
   * from line `pos` of the input on, after `out` has been printed.
   */
  function Runs(ts: seq<TaskState>, input: seq<string>, pos: nat, out: seq<string>, now: DateTime): (s: Step)
    requires Dated(ts) && ValidDateTime(now) && pos <= |input|
    ensures !s.status.Running?
    ensures pos <= s.used <= |input|
    decreases |input| - pos, 1
  {
    Follow(Action(ts, input[pos..], now), input, pos, out, now)
  }

  /** How a run goes on after the action `a` read from line `pos` on. */
  function Follow(a: Step, input: seq<string>, pos: nat, out: seq<string>, now: DateTime): (s: Step)
    requires Dated(a.tasks) && ValidDateTime(now) && pos + a.used <= |input|
    ensures !s.status.Running?
    ensures pos <= s.used <= |input|
    decreases |input| - pos - a.used, if a.status.Running? then 2 else 0
  {
    if a.status.Running? then Runs(a.tasks, input, pos + a.used, out + a.out, now)
    else Step(a.tasks, a.status, pos + a.used, out + a.out)
  }

  // ------------------------------------------------------------- lemmas

  /**
   * Every action keeps the invariant of every task in the list, and none
   * throws for a priority never set.
   */
  lemma ActionKeeps(ts: seq<TaskState>, input: seq<string>, now: DateTime)
    requires AllKept(ts) && ValidDateTime(now)
    ensures AllKept(Action(ts, input, now).tasks)
    ensures Action(ts, input, now).status != Crashed(UninitializedPriority)
  {
    if input != [] {
      var action, rest := input[0], input[1..];
      if action == "add" {
        AddKeeps(ts, rest, now);
      } else if ts != [] && (action == "print" || action == "delete" || action == "edit") {
        var p := Listing(ts, now.date);
        ListingKeepsPriority(ts, now.date);
        ListActionCases(ts, action, rest, now.date, p);
        if action == "edit" {
          EditListKeeps(ts, rest);
        }
      }
    }
  }

  /**
   * So does a whole run: a run that starts from tasks keeping the
   * invariant can end with an exception only for year 0 or empty content.
   */
  lemma {:induction false} RunsKeep(ts: seq<TaskState>, input: seq<string>, pos: nat, out: seq<string>, now: DateTime)
    requires AllKept(ts) && ValidDateTime(now) && pos <= |input|
    ensures AllKept(Runs(ts, input, pos, out, now).tasks)
    ensures Runs(ts, input, pos, out, now).status != Crashed(UninitializedPriority)
    decreases |input| - pos, 1
  {
    ActionKeeps(ts, input[pos..], now);
    FollowKeeps(Action(ts, input[pos..], now), input, pos, out, now);
  }

  lemma {:induction false} FollowKeeps(a: Step, input: seq<string>, pos: nat, out: seq<string>, now: DateTime)
    requires AllKept(a.tasks) && ValidDateTime(now) && pos + a.used <= |input|
    requires a.status != Crashed(UninitializedPriority)
    ensures AllKept(Follow(a, input, pos, out, now).tasks)
    ensures Follow(a, input, pos, out, now).status != Crashed(UninitializedPriority)
    decreases |input| - pos - a.used, if a.status.Running? then 2 else 0
  {
    if a.status.Running? {
      RunsKeep(a.tasks, input, pos + a.used, out + a.out, now);
    }
  }

  /** What a run prints starts with what was printed before it. */
  lemma {:induction false} RunsExtend(ts: seq<TaskState>, input: seq<string>, pos: nat, out: seq<string>, now: DateTime)
    requires Dated(ts) && ValidDateTime(now) && pos <= |input|
    ensures var s := Runs(ts, input, pos, out, now); |out| <= |s.out| && s.out[..|out|] == out
    decreases |input| - pos, 1
  {
    FollowExtends(Action(ts, input[pos..], now), input, pos, out, now);
  }

  lemma {:induction false} FollowExtends(a: Step, input: seq<string>, pos: nat, out: seq<string>, now: DateTime)
    requires Dated(a.tasks) && ValidDateTime(now) && pos + a.used <= |input|
    ensures var s := Follow(a, input, pos, out, now); |out| <= |s.out| && s.out[..|out|] == out
    decreases |input| - pos - a.used, if a.status.Running? then 2 else 0
  {
    if a.status.Running? {
      RunsExtend(a.tasks, input, pos + a.used, out + a.out, now);
      var s := Runs(a.tasks, input, pos + a.used, out + a.out, now);
      assert s.out[..|out|] == s.out[..|out + a.out|][..|out|];
    } else {
      assert (out + a.out)[..|out|] == out;
    }
  }

  /** A run is its first action followed by the rest. */
  lemma RunsStep(ts: seq<TaskState>, input: seq<string>, pos: nat, out: seq<string>, now: DateTime, a: Step)
    requires Dated(ts) && ValidDateTime(now) && pos <= |input|
    requires a == Action(ts, input[pos..], now)
    ensures Runs(ts, input, pos, out, now) == Follow(a, input, pos, out, now)
  {
  }

  /** After an action that keeps the program running, the run goes on from the next line. */
  lemma FollowRuns(a: Step, input: seq<string>, pos: nat, out: seq<string>, now: DateTime)
    requires Dated(a.tasks) && ValidDateTime(now) && pos + a.used <= |input|
    requires a.status == Running
    ensures Follow(a, input, pos, out, now) == Runs(a.tasks, input, pos + a.used, out + a.out, now)
  {
  }

  /** `end` prints the farewell and exits with code 1, whatever follows. */
  lemma EndExits(ts: seq<TaskState>, rest: seq<string>, now: DateTime)
    requires Dated(ts) && ValidDateTime(now)
    ensures Runs(ts, ["end"] + rest, 0, [], now) == Step(ts, Exited(1), 1, [ActionPrompt, Exiting])
  {
    assert (["end"] + rest)[0..] == ["end"] + rest;
  }

  /**
   * `print` on a list that keeps its invariant ends the program exactly
   * when some task is due in year 0 or has no content.
   */
  lemma PrintCrashes(ts: seq<TaskState>, rest: seq<string>, now: DateTime)
    requires AllKept(ts) && ValidDateTime(now)
    ensures Action(ts, ["print"] + rest, now).status.Crashed? <==>
              exists i :: 0 <= i < |ts| && !Printable(ts[i])
  {
    ListingFaults(ts, now.date);
  }

  /** An unknown action changes nothing and only says so. */
  lemma UnknownAction(ts: seq<TaskState>, input: seq<string>, now: DateTime)
    requires Dated(ts) && ValidDateTime(now)
    requires input != [] && input[0] !in ["add", "print", "edit", "delete", "end"]
    ensures Action(ts, input, now) == Step(ts, Running, 1, [ActionPrompt, ActionInvalid])
  {
  }

  /** `print`, `edit` and `delete` on an empty list only say that there are no tasks. */
  lemma EmptyListActions(input: seq<string>, now: DateTime)
    requires ValidDateTime(now)
    requires input != [] && input[0] in ["print", "edit", "delete"]
    ensures Action([], input, now) == Step([], Running, 1, [ActionPrompt, NoTasks])
  {
  }

  /**
   * `add` creates a task from the lines after the action; `print`, `edit`
   * and `delete` on a list that is not empty print the table and go on
   * with the lines after the action.
   */
  lemma ActionRoutes(ts: seq<TaskState>, input: seq<string>, now: DateTime)
    requires Dated(ts) && ValidDateTime(now) && input != []
    ensures input[0] == "add" ==> Action(ts, input, now) == Continue(AddReply(ts, input[1..], now), [ActionPrompt])
    ensures input[0] in ["print", "edit", "delete"] && ts != [] ==>
      Action(ts, input, now) == ListAction(ts, input[0], input[1..], now.date)
  {
  }

  // -------------------------------------------------------------- class

  /** `object Process`, holding the one task list. */
  class Process {
    const taskList: TaskList

    predicate Valid()
      reads this, taskList, taskList.tasks
    {
      taskList.Valid()
    }

    constructor ()
      ensures Valid() && taskList.States() == []
    {
      taskList := new TaskList();
    }

    /** `start`: one action, with `now` the clock's reading. */
    method Start(input: seq<string>, now: DateTime) returns (status: Status, used: nat, out: seq<string>)
      requires Valid() && ValidDateTime(now)
      modifies taskList, taskList.tasks
      ensures Valid()
      ensures forall t :: t in taskList.tasks ==> t in old(taskList.tasks) || fresh(t)
      ensures Step(taskList.States(), status, used, out) == Action(old(taskList.States()), input, now)
    {
      if input == [] {
        return InputEnded, 0, [ActionPrompt];
      }
      var action, rest := input[0], input[1..];
      if action == "add" {
        var c, u, o := taskList.AddTask(rest, now);
        return if c then Running else InputEnded, u + 1, [ActionPrompt] + o;
      } else if action == "end" {
        return Exited(1), 1, [ActionPrompt, Exiting];
      } else if action != "print" && action != "delete" && action != "edit" {
        return Running, 1, [ActionPrompt, ActionInvalid];
      }
      if taskList.tasks == [] {
        return Running, 1, [ActionPrompt, NoTasks];
      }
      status, used, out := ListStart(action, rest, now.date);
    }

    /** `start` on `print`, `delete` or `edit` with tasks in the list. */
    method ListStart(action: string, rest: seq<string>, today: Date) returns (status: Status, used: nat, out: seq<string>)
      requires Valid() && ValidDate(today)
      modifies taskList, taskList.tasks
      ensures Valid()
      ensures forall t :: t in taskList.tasks ==> t in old(taskList.tasks)
      ensures Step(taskList.States(), status, used, out) == ListAction(old(taskList.States()), action, rest, today)
    {
      ghost var ts := taskList.States();
      var p := taskList.PrintTasks(today);
      ListActionCases(ts, action, rest, today, p);
      if action == "print" || p.fault.Some? {
        status, used, out := if p.fault.Some? then Crashed(p.fault.value) else Running, 1, [ActionPrompt] + p.out;
        assert Step(ts, status, used, out) == Shown(ts, p);
        return;
      }
      status, used, out := ChangeList(action == "delete", rest, [ActionPrompt] + p.out);
    }

    /**
     * `taskList.deleteTask()` or `taskList.editTask()`, after `before` (the
     * action prompt and the table) was printed.
     */
    method ChangeList(delete: bool, rest: seq<string>, before: seq<string>)
      returns (status: Status, used: nat, out: seq<string>)
      requires Valid()
      modifies taskList, taskList.tasks
      ensures Valid()
      ensures forall t :: t in taskList.tasks ==> t in old(taskList.tasks)
      ensures Step(taskList.States(), status, used, out) ==
                Continue(if delete then DeleteReply(old(taskList.States()), rest)
                         else EditListReply(old(taskList.States()), rest), before)
    {
      var complete, u, o;
      if delete {
        complete, u, o := taskList.DeleteTask(rest);
      } else {
        complete, u, o := taskList.EditTask(rest);
      }
      status, used, out := if complete then Running else InputEnded, u + 1, before + o;
    }

    /** `main`: runs actions until the program ends. */
    method Run(input: seq<string>, now: DateTime) returns (status: Status, used: nat, out: seq<string>)
      requires Valid() && ValidDateTime(now)
      modifies taskList, taskList.tasks
      ensures Valid()
      ensures Step(taskList.States(), status, used, out) == Runs(old(taskList.States()), input, 0, [], now)
    {
      ghost var goal := Runs(taskList.States(), input, 0, [], now);
      status, used, out := Running, 0, [];
      // the last action, and the lines read and printed before it
      ghost var last, base, prefix := Step(taskList.States(), Running, 0, []), 0, [];
      while status.Running?
        invariant Valid()
        invariant forall t :: t in taskList.tasks ==> t in old(taskList.tasks) || fresh(t)
        invariant last == Step(taskList.States(), status, last.used, last.out)
        invariant used == base + last.used <= |input| && out == prefix + last.out
        invariant goal == Follow(last, input, base, prefix, now)
        decreases |input| - used, if status.Running? then 1 else 0
      {
        FollowRuns(last, input, base, prefix, now);
        assert forall i :: 0 <= i < |taskList.tasks| ==>
          taskList.tasks[i] in old(taskList.tasks) || fresh(taskList.tasks[i]);
        ghost var before := taskList.States();
        var s, u, o := Start(input[used..], now);
        RunsStep(before, input, used, out, now, Step(taskList.States(), s, u, o));
        last, base, prefix := Step(taskList.States(), s, u, o), used, out;
        status, used, out := s, used + u, out + o;
      }
    }
  }
}
