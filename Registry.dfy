/**
 * The goal registry (`GoalTracker`): an ordered list of shared goal objects
 * and a running score, with add, remove-by-reference, record, save and load,
 * plus the first-match lookup by name that the command loop performs before
 * removing or recording.
 */
module Registry {
  import opened Wrappers
  import opened Int32
  import opened Goals
  import opened Codec

  /** `List.IndexOf`: the first position holding `x`, if any. */
  function FirstIndexOf<T(==)>(s: seq<T>, x: T): (r: Option<nat>)
    ensures r.None? <==> x !in s
    ensures r.Some? ==> r.value < |s| && s[r.value] == x && x !in s[..r.value]
  {
    if |s| == 0 then None
    else if s[0] == x then Some(0)
    else match FirstIndexOf(s[1..], x)
      case None => None
      case Some(i) =>
        assert s[..i + 1] == [s[0]] + s[1..][..i];
        Some(i + 1)
  }

  /**
   * Deleting the first occurrence of `x`: everything before it and after it
   * stays in order; an absent `x` leaves the sequence as it was.
   */
  function RemoveFirst<T(==)>(s: seq<T>, x: T): (r: seq<T>)
    ensures x !in s ==> r == s
    ensures x in s ==> |r| == |s| - 1
  {
    if |s| == 0 then []
    else if s[0] == x then s[1..]
    else [s[0]] + RemoveFirst(s[1..], x)
  }

  /** Removal takes away exactly one occurrence of `x` and keeps every other element. */
  lemma {:induction false} RemoveFirstMultiset<T>(s: seq<T>, x: T)
    ensures multiset(RemoveFirst(s, x)) == multiset(s) - multiset{x}
  {
    if |s| > 0 {
      assert s == [s[0]] + s[1..];
      if s[0] != x {
        RemoveFirstMultiset(s[1..], x);
      }
    }
  }

  /** `List.Remove` (index of the first occurrence, then removal there) is `RemoveFirst`. */
  lemma {:induction false} RemoveAtFirstIndex<T>(s: seq<T>, x: T, i: nat)
    requires FirstIndexOf(s, x) == Some(i)
    ensures s[..i] + s[i + 1..] == RemoveFirst(s, x)
  {
    if s[0] == x {
      assert i == 0;
      assert s[..i] + s[i + 1..] == s[1..];
    } else {
      var t := s[1..];
      assert FirstIndexOf(t, x) == Some(i - 1);
      RemoveAtFirstIndex(t, x, i - 1);
      SliceAfterHead(s, i);
    }
  }

  lemma SliceAfterHead<T>(s: seq<T>, i: nat)
    requires 0 < i < |s|
    ensures s[..i] + s[i + 1..] == [s[0]] + (s[1..][..i - 1] + s[1..][i..])
  {
    assert s[..i] == [s[0]] + s[1..][..i - 1];
    assert s[i + 1..] == s[1..][i..];
  }

  /** The names of the goals, in list order. */
  function Names(goals: seq<Goal>): (names: seq<string>)
    reads goals
    ensures |names| == |goals|
    ensures forall i :: 0 <= i < |goals| ==> names[i] == goals[i].name
  {
    if goals == [] then [] else [goals[0].name] + Names(goals[1..])
  }

  /**
   * The command loop's lookup: the position of the first goal called `name`,
   * or none when no goal has that name.
   */
  function FindByName(goals: seq<Goal>, name: string): (r: Option<nat>)
    reads goals
    ensures r.None? <==> forall i :: 0 <= i < |goals| ==> goals[i].name != name
    ensures r.Some? ==>
              r.value < |goals| && goals[r.value].name == name &&
              forall j :: 0 <= j < r.value ==> goals[j].name != name
  {
    var names := Names(goals);
    var r := FirstIndexOf(names, name);
    assert r.Some? ==> forall j :: 0 <= j < r.value ==> names[j] == names[..r.value][j];
    assert r.None? ==> forall i :: 0 <= i < |goals| ==> names[i] in names;
    r
  }

  /**
   * The first goal called `name` is also the first reference to that object:
   * an earlier reference would carry the same name.
   */
  lemma FirstMatchIsFirstReference(goals: seq<Goal>, name: string, i: nat)
    requires FindByName(goals, name) == Some(i)
    ensures FirstIndexOf(goals, goals[i]) == Some(i)
  {
  }

  /**
   * The score after `RecordEvent` on a goal of the given kind and value: the
   * value is added, and for a checklist goal ten times the value again (the
   * goal has just been marked complete, so the bonus test always passes). Each
   * addition wraps like C# `int`.
   */
  function EventScore(score: int32, kind: Kind, value: int32): (r: int32)
    ensures (score as int + Points(kind, value) - r as int) % MODULUS == 0
    ensures InRange(score as int + Points(kind, value)) ==> r as int == score as int + Points(kind, value)
  {
    var s := Wrap(score as int + value as int);
    if kind == ChecklistGoal then
      var bonus := Wrap(value as int * 10);
      var r := Wrap(s as int + bonus as int);
      WrappedSum(score as int + Points(kind, value), score as int + value as int - s as int,
                 value as int * 10 - bonus as int, s as int + bonus as int - r as int, r);
      r
    else
      s
  }

  /** Three wrapped additions leave the wrapped total of the exact sum. */
  lemma WrappedSum(total: int, a: int, b: int, c: int, r: int32)
    requires a % MODULUS == 0 && b % MODULUS == 0 && c % MODULUS == 0
    requires a + b + c == total - r as int
    ensures (total - r as int) % MODULUS == 0
    ensures InRange(total) ==> r as int == total
  {
    CongruentSum(a, b, c);
    if InRange(total) {
      CongruentEqual(r as int, total);
    }
  }

  /** The score after recording the same goal `n` times, starting from `score`. */
  function ScoreAfter(n: nat, score: int32, kind: Kind, value: int32): int32
  {
    if n == 0 then score else EventScore(ScoreAfter(n - 1, score, kind, value), kind, value)
  }

  /**
   * Every recording scores in full, repeats included: `n` recordings of a goal
   * with a non-negative value add `n` times its points, as long as the total
   * stays within `int`.
   */
  lemma {:induction false} RepeatedEventsScore(n: nat, score: int32, kind: Kind, value: int32)
    requires value >= 0
    requires score as int + n * Points(kind, value) <= MAX
    ensures ScoreAfter(n, score, kind, value) as int == score as int + n * Points(kind, value)
  {
    if n > 0 {
      var p := Points(kind, value);
      MultiplyStep(n, p);
      RepeatedEventsScore(n - 1, score, kind, value);
    }
  }

  lemma MultiplyStep(n: nat, p: int)
    requires n > 0 && p >= 0
    ensures 0 <= (n - 1) * p <= n * p && (n - 1) * p + p == n * p
  {
  }

  /**
   * Ten recordings of a checklist goal worth 50, from a score of 0, give 5500:
   * each recording earns 50 plus the bonus of 500.
   */
  lemma TenChecklistEvents()
    ensures ScoreAfter(10, 0, ChecklistGoal, 50) == 5500
  {
    RepeatedEventsScore(10, 0, ChecklistGoal, 50);
  }

  /**
   * Without overflow, recording never lowers the score exactly when the goal's
   * value is not negative.
   */
  lemma ScoreNonDecreasingIff(score: int32, kind: Kind, value: int32)
    requires InRange(score as int + Points(kind, value))
    ensures EventScore(score, kind, value) >= score <==> value >= 0
  {
  }

  /** The goals' states as values, in list order. */
  function Snapshots(goals: seq<Goal>): (ds: seq<GoalData>)
    reads goals
    ensures |ds| == |goals|
    ensures forall i :: 0 <= i < |goals| ==> ds[i] == goals[i].Data()
  {
    if goals == [] then [] else [goals[0].Data()] + Snapshots(goals[1..])
  }

  lemma SnapshotsOf(goals: seq<Goal>, ds: seq<GoalData>)
    requires |goals| == |ds|
    requires forall k :: 0 <= k < |goals| ==> goals[k].Data() == ds[k]
    ensures Snapshots(goals) == ds
  {
  }

  /**
   * The goals a load has created so far: one distinct object per decoded
   * line, each holding that line's goal, all drawn from `created`.
   */
  ghost predicate Built(appended: seq<Goal>, decoded: seq<GoalData>, created: set<Goal>)
    reads appended
  {
    |appended| == |decoded| &&
    (forall k :: 0 <= k < |appended| ==> appended[k] in created) &&
    (forall a, b :: 0 <= a < b < |appended| ==> appended[a] != appended[b]) &&
    (forall k :: 0 <= k < |appended| ==> appended[k].Data() == decoded[k])
  }

  /** A goal object not created before extends what a load has built. */
  lemma BuiltStep(appended: seq<Goal>, decoded: seq<GoalData>, created: set<Goal>, goal: Goal, d: GoalData)
    requires Built(appended, decoded, created)
    requires goal !in created && goal.Data() == d
    ensures Built(appended + [goal], decoded + [d], created + {goal})
  {
  }

  /**
   * A new goal object for a loaded line: built with its kind's constructor,
   * then with the completion flag (and a checklist's count) set directly.
   */
  method NewGoal(d: GoalData) returns (goal: Goal)
    ensures fresh(goal) && goal.Data() == d
  {
    if d.ChecklistData? {
      goal := new Goal.Checklist(d.name, d.value, d.numRequired);
      goal.numCompleted := d.numCompleted;
      goal.completed := d.completed;
    } else if d.EternalData? {
      goal := new Goal.Eternal(d.name, d.value);
      goal.completed := d.completed;
    } else {
      goal := new Goal.Simple(d.name, d.value);
      goal.completed := d.completed;
    }
  }

  class GoalTracker {
    var goals: seq<Goal>
    var score: int32

    constructor ()
      ensures goals == [] && score == 0
    {
      goals := [];
      score := 0;
    }

    /** Appends the goal; duplicates, by reference or by name, are allowed. */
    method AddGoal(goal: Goal)
      modifies this`goals
      ensures goals == old(goals) + [goal]
      ensures score == old(score)
    {
      goals := goals + [goal];
    }

    /** Removes the first reference to this very object; no-op when it is absent. */
    method RemoveGoal(goal: Goal)
      modifies this`goals
      ensures goals == RemoveFirst(old(goals), goal)
      ensures score == old(score)
    {
      var i := FirstIndexOf(goals, goal);
      if i.Some? {
        RemoveAtFirstIndex(goals, goal, i.value);
        goals := goals[..i.value] + goals[i.value + 1..];
      }
    }

    /**
     * Marks the goal complete and adds its points; a checklist goal's counter
     * is not advanced, and no other goal and not the list change.
     */
    method RecordEvent(goal: Goal)
      modifies this`score, goal`completed
      ensures goal.completed
      ensures score == EventScore(old(score), goal.kind, goal.value)
      ensures goal.numCompleted == old(goal.numCompleted) && goals == old(goals)
    {
      goal.MarkCompleted();
      score := Wrap(score as int + goal.value as int);
      if goal.kind == ChecklistGoal && goal.completed {
        score := Wrap(score as int + Wrap(goal.value as int * 10) as int);
      }
    }

    /**
     * The `remove` command: removes the first goal called `name`, which is
     * exactly the goal at that position, or reports that none was found.
     */
    method RemoveByName(name: string) returns (found: bool)
      modifies this`goals
      ensures found <==> old(FindByName(goals, name)).Some?
      ensures found ==>
                var i := old(FindByName(goals, name)).value;
                goals == old(goals[..i] + goals[i + 1..])
      ensures !found ==> goals == old(goals)
      ensures score == old(score)
    {
      var r := FindByName(goals, name);
      found := r.Some?;
      if found {
        var i := r.value;
        FirstMatchIsFirstReference(goals, name, i);
        RemoveAtFirstIndex(goals, goals[i], i);
        RemoveGoal(goals[i]);
      }
    }

    /**
     * The `record` command: records an event on the first goal called `name`,
     * or reports that none was found and changes nothing.
     */
    method RecordByName(name: string) returns (found: bool)
      modifies this`score, goals
      ensures goals == old(goals)
      ensures found <==> old(FindByName(goals, name)).Some?
      ensures !found ==> score == old(score) && forall g :: g in goals ==> unchanged(g)
      ensures found ==>
                var g := goals[old(FindByName(goals, name)).value];
                g.completed && g.numCompleted == old(g.numCompleted) &&
                g.name == old(g.name) && g.value == old(g.value) && g.numRequired == old(g.numRequired) &&
                score == EventScore(old(score), g.kind, g.value) &&
                forall h :: h in goals && h != g ==> unchanged(h)
    {
      var r := FindByName(goals, name);
      found := r.Some?;
      if found {
        RecordEvent(goals[r.value]);
      }
    }

    /** The lines of the save file, one per goal in list order. */
    method SaveGoals() returns (lines: seq<string>)
      ensures lines == EncodeAll(Snapshots(goals))
    {
      lines := [];
      for i := 0 to |goals|
        invariant |lines| == i
        invariant forall k :: 0 <= k < i ==> lines[k] == EncodeLine(goals[k].Data())
      {
        lines := lines + [EncodeLine(goals[i].Data())];
      }
    }

    /**
     * Reads the lines of a save file, appending a fresh goal per line after the
     * existing ones, until a line fails to decode; the goals appended before
     * that line stay. The score is untouched.
     */
    method LoadGoals(lines: seq<string>) returns (error: Option<LoadError>)
      modifies this`goals
      ensures error == DecodeAll(lines).error
      ensures |old(goals)| <= |goals| && goals[..|old(goals)|] == old(goals)
      ensures Snapshots(goals[|old(goals)|..]) == DecodeAll(lines).decoded
      ensures fresh(set g | g in goals[|old(goals)|..])
      ensures forall a, b :: |old(goals)| <= a < b < |goals| ==> goals[a] != goals[b]
      ensures score == old(score)
    {
      ghost var results := DecodeEach(lines);
      ghost var appended: seq<Goal> := [];
      ghost var decoded: seq<GoalData> := [];
      ghost var created: set<Goal> := {};
      var i := 0;
      while i < |lines|
        invariant 0 <= i <= |lines|
        invariant goals == old(goals) + appended
        invariant Collect(results[..i]) == LoadOutcome(decoded, None)
        invariant fresh(created)
        invariant Built(appended, decoded, created)
      {
        var line := DecodeLine(lines[i]);
        assert results[i] == line;
        CollectStep(results, i, decoded);
        if line.Err? {
          assert goals[|old(goals)|..] == appended;
          SnapshotsOf(appended, decoded);
          return Some(line.error);
        }
        var goal := NewGoal(line.value);
        BuiltStep(appended, decoded, created, goal, line.value);
        goals := goals + [goal];
        appended := appended + [goal];
        created := created + {goal};
        decoded := decoded + [line.value];
        i := i + 1;
      }
      assert results[..i] == results;
      assert goals[|old(goals)|..] == appended;
      SnapshotsOf(appended, decoded);
      return None;
    }
  }
}
