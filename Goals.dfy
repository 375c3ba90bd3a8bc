/**
 * The goal model: a goal has a name, a point value and a completion flag; a
 * checklist goal also counts its recordings towards a required number. Goals
 * are heap objects because the registry's recording operation updates a goal
 * that the goal list shares.
 */
module Goals {
  import opened Int32

  /** The runtime class of a goal (`SimpleGoal`, `EternalGoal`, `ChecklistGoal`). */
  datatype Kind = SimpleGoal | EternalGoal | ChecklistGoal

  /** The state of one goal as a value: what the save file records about it. */
  datatype GoalData =
    | SimpleData(name: string, value: int32, completed: bool)
    | EternalData(name: string, value: int32, completed: bool)
    | ChecklistData(name: string, value: int32, completed: bool, numRequired: int32, numCompleted: int32)

  /** A checklist goal's recording state: its counter and its completion flag. */
  datatype Progress = Progress(count: int32, done: bool)

  /**
   * One `ChecklistGoal.Record()`: the counter goes up by one (wrapping at the
   * `int` limit) and the goal completes when the new count equals the target;
   * a goal that is already complete stays complete.
   */
  function RecordStep(p: Progress, numRequired: int32): (q: Progress)
    ensures p.count as int < MAX ==> q.count as int == p.count as int + 1
    ensures q.done <==> p.done || q.count == numRequired
  {
    var count := Wrap(p.count as int + 1);
    Progress(count, p.done || count == numRequired)
  }

  /** The progress of a fresh checklist goal after `n` calls of `Record()`. */
  function Recorded(n: nat, numRequired: int32): Progress
  {
    if n == 0 then Progress(0, false) else RecordStep(Recorded(n - 1, numRequired), numRequired)
  }

  /**
   * From a fresh checklist goal, `n` recordings leave the counter at `n`, and the
   * goal is complete exactly when the target is positive and has been reached:
   * incomplete before the target, complete at it and after it, and never
   * complete when the target is zero or negative.
   */
  lemma {:induction false} RecordedFromFresh(n: nat, numRequired: int32)
    requires n <= MAX
    ensures Recorded(n, numRequired).count as int == n
    ensures Recorded(n, numRequired).done <==> 0 < numRequired as int <= n
  {
    if n > 0 {
      RecordedFromFresh(n - 1, numRequired);
    }
  }

  /** The points `RecordEvent` awards for one recording, before `int` wrap-around. */
  function Points(kind: Kind, value: int32): int
  {
    if kind == ChecklistGoal then value as int + value as int * 10 else value as int
  }

  class Goal {
    var name: string
    var value: int32
    var completed: bool
    /** The goal's runtime class, fixed at construction. */
    const kind: Kind
    /** Only meaningful for a checklist goal; zero for the other kinds. */
    var numRequired: int32
    var numCompleted: int32

    constructor Simple(name: string, value: int32)
      ensures kind == SimpleGoal && this.name == name && this.value == value && !completed
      ensures numRequired == 0 && numCompleted == 0
    {
      this.name := name;
      this.value := value;
      this.completed := false;
      this.kind := SimpleGoal;
      this.numRequired := 0;
      this.numCompleted := 0;
    }

    constructor Eternal(name: string, value: int32)
      ensures kind == EternalGoal && this.name == name && this.value == value && !completed
      ensures numRequired == 0 && numCompleted == 0
    {
      this.name := name;
      this.value := value;
      this.completed := false;
      this.kind := EternalGoal;
      this.numRequired := 0;
      this.numCompleted := 0;
    }

    constructor Checklist(name: string, value: int32, numRequired: int32)
      ensures kind == ChecklistGoal && this.name == name && this.value == value && !completed
      ensures this.numRequired == numRequired && numCompleted == 0
    {
      this.name := name;
      this.value := value;
      this.completed := false;
      this.kind := ChecklistGoal;
      this.numRequired := numRequired;
      this.numCompleted := 0;
    }

    /** Sets the completion flag and nothing else. */
    method MarkCompleted()
      modifies this`completed
      ensures completed
    {
      completed := true;
    }

    /** `ChecklistGoal.Record()`: one step of `RecordStep`; name, value and target untouched. */
    method Record()
      requires kind == ChecklistGoal
      modifies this`numCompleted, this`completed
      ensures Progress(numCompleted, completed) == RecordStep(Progress(old(numCompleted), old(completed)), numRequired)
    {
      numCompleted := Wrap(numCompleted as int + 1);
      if numCompleted == numRequired {
        completed := true;
      }
    }

    /** The goal's state as a value, dropping the counters of non-checklist goals. */
    function Data(): (d: GoalData)
      reads this
      ensures d.name == name && d.value == value && d.completed == completed
      ensures d.ChecklistData? <==> kind == ChecklistGoal
      ensures d.EternalData? <==> kind == EternalGoal
      ensures d.ChecklistData? ==> d.numRequired == numRequired && d.numCompleted == numCompleted
    {
      match kind
      case SimpleGoal => SimpleData(name, value, completed)
      case EternalGoal => EternalData(name, value, completed)
      case ChecklistGoal => ChecklistData(name, value, completed, numRequired, numCompleted)
    }
  }
}
