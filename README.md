# Goal tracker: a verified model

This project models the core of a small console goal tracker written in C#
(`Program.cs`). The core has four parts.

- **Goals.** A goal has a name, an integer point value and a completion flag.
  Simple and eternal goals have nothing more. A checklist goal also has a
  target count and a counter that advances each time it is recorded.
- **The registry** (`GoalTracker`). It holds an ordered list of goal objects
  and a running score. Goals are added, removed by reference and recorded
  against. Recording marks the goal complete and adds its points.
- **The save file codec.** Saving writes one comma-separated line per goal.
  Loading splits each line on commas, parses the fields and appends a new goal
  per line. It stops at the first line that fails to parse.
- **The command loop's lookup.** The `remove` and `record` commands first look
  up the first goal with a given name.

Modules:

- `Wrappers`: the `Option` and `Result` types.
- `Int32`: C# `int` as a 32-bit two's-complement newtype. Every unchecked
  addition and multiplication in the source goes through `Wrap`.
- `Text`: splitting and joining on a separator, the decimal text of an `int`
  and its parser, and the `True`/`False` literals.
- `Goals`: the `Goal` class, and `GoalData`, a goal's state as a value.
  `RecordStep` and `Recorded` specify the checklist counter.
- `Codec`: the line format written by `SaveGoals` and read by `LoadGoals`, as
  pure functions. `DecodeAll` gives the outcome of a whole load.
- `Registry`: the `GoalTracker` class, the first-match lookup and the scoring
  function `EventScore`.

Goals are heap objects because `RecordEvent` changes a goal that the list also
holds. The registry is a class whose `goals` field is a sequence of references.
`RemoveGoal` removes by reference, like `List.Remove` on a class that does not
override `Equals`.

## Behaviour of the code worth knowing

- **Recording a goal.** `RecordEvent` calls `MarkCompleted()` (Program.cs:83),
  not the goal's own `Record()`. Recording a checklist goal never moves its
  counter, and the `is ChecklistGoal && Completed` test (Program.cs:85) is
  always true by the time it runs. So a checklist goal earns its value plus ten
  times its value on every recording, repeats included. Ten recordings of a
  checklist goal worth 50 give 5500 (`Registry.TenChecklistEvents`).
- **The score can go down.** A goal's value comes from parsing user input, so
  it can be negative. A recording leaves the score no lower exactly when the
  value is not negative, as long as nothing overflows
  (`Registry.ScoreNonDecreasingIff`).
- **Saved checklist goals do not load.** A checklist line is written with the
  target count in field 3 (Program.cs:118), but every line's field 3 is parsed
  as a boolean (Program.cs:139). A saved checklist goal therefore never loads
  (`Codec.ChecklistLineRejected`), and loading a saved file stops at its first
  checklist goal (`Codec.SaveLoadStopsAtChecklist`).
- **Each loaded line gets its own goal object** (Program.cs:144, 151, 157).
  Recording one loaded goal never changes another (`Registry.GoalTracker.LoadGoals`).

## Model

| member | source | states |
|---|---|---|
| Int32.Wrap | Program.cs:84-87 | C# unchecked `int` arithmetic: the result equals the exact value modulo 2^32, and is the exact value whenever that value fits in an `int` |
| Text.FormatInt | Program.cs:122 | the decimal text of an `int` is nonempty, starts with a minus sign or a digit, and holds only a minus sign and digits |
| Text.ParseInt | Program.cs:138 | `int.Parse` as the model reads it: text it accepts is an optional sign and then at least one decimal digit, so a lone sign fails; without a minus sign the result is not negative; digits, alone or after a sign, parse to their signed decimal value when it fits in an `int` and fail when it does not |
| Text.ParseFormatInt | Program.cs:138 | parsing the decimal text that saving writes for any `int` gives back that `int` |
| Text.FormatBool | Program.cs:122 | the literal written for a completion flag parses back to the same flag and holds no comma |
| Text.ParseBool | Program.cs:139 | `bool.Parse` as the model reads it: exactly `True` gives true and exactly `False` gives false; any other text fails |
| Text.Split | Program.cs:135 | splitting a line on commas gives at least one field, and no field holds a comma |
| Text.JoinSplit | Program.cs:135 | splitting loses nothing: joining the fields with the separator gives the line back |
| Text.SplitJoin | Program.cs:135 | splitting undoes joining when no field holds the separator |
| Text.SplitWithoutSeparator | Program.cs:135 | a line without a comma splits into one field, the whole line |
| Goals.Goal.Simple | Program.cs:24-27 | a new simple goal has the given name and value, is not complete, and has zero counters |
| Goals.Goal.Eternal | Program.cs:29-31 | a new eternal goal has the given name and value, is not complete, and has zero counters |
| Goals.Goal.Checklist | Program.cs:44-48 | a new checklist goal has the given name, value and target, is not complete, and has a counter of 0 |
| Goals.Goal.MarkCompleted | Program.cs:18-21 | the goal is complete afterwards, and no other field changes |
| Goals.RecordStep | Program.cs:50-57 | one checklist recording raises the counter by exactly one (below the `int` limit); the goal is complete afterwards exactly when it already was or the new count equals the target |
| Goals.Goal.Record | Program.cs:50-57 | `ChecklistGoal.Record()` performs one `RecordStep` on the counter and flag; name, value and target do not change |
| Goals.Goal.Data | Program.cs:5-58 | a goal's state as a value: the same name, value and flag; the variant follows the goal's class; a checklist goal also carries its target and count |
| Goals.RecordedFromFresh | Program.cs:44-57 | from a new checklist goal, n recordings leave the counter at n; the goal is complete exactly when the target is positive and at most n, so it is incomplete before the target and complete from the target on |
| Codec.DecodeFields | Program.cs:135-160 | a line's fields decode exactly when there are at least four, field 2 is an `int` and field 3 a boolean, and a `ChecklistGoal` line also has `int` fields 4 and 5. The tag picks the variant: `ChecklistGoal` gives a checklist goal, `EternalGoal` an eternal goal, any other tag a simple goal. Name, value, flag and counts are the parsed fields as they stand. A failing line reports the first field, in the order the source reads them, that is missing (`MissingField`) or does not parse (`BadInt` for fields 2, 4 and 5, `BadBool` for field 3) |
| Codec.DecodeLine | Program.cs:135-160 | one line is split on commas and its fields decoded; a goal decoded from a line has a name without a comma |
| Codec.LineWithoutComma | Program.cs:135-137 | a line without a comma fails on field 1, the missing name |
| Codec.TypeName | Program.cs:122 | `GetType().Name`: the tag is `SimpleGoal`, `EternalGoal` or `ChecklistGoal` exactly for a goal of that class, and holds no comma |
| Codec.EncodeFields | Program.cs:113-123 | the fields of a saved line: six for a checklist goal and four for the others, beginning with the tag and the name |
| Codec.EncodeFieldsParse | Program.cs:118-122 | every field after the name reads back as what it was written from: the value and the flag, and for a checklist goal the target and the count |
| Codec.EncodeLine | Program.cs:118-122 | splitting the saved line of a goal whose name holds no comma gives back exactly its fields |
| Codec.EncodeFieldsCommaFree | Program.cs:113-123 | a saved line has at least four fields, and none of them holds a comma when the name does not |
| Codec.RoundTrip | Program.cs:122-159 | a simple or eternal goal whose name holds no comma loads back from its saved line as the same kind, name, value and flag |
| Codec.ChecklistLineRejected | Program.cs:118-139 | the line saved for a checklist goal fails to load, because its field 3, the target count, is not a boolean |
| Codec.UnknownTagIsSimple | Program.cs:155-159 | the line `Foo,X,5,True` loads as a simple goal named X, worth 5 and complete |
| Codec.ChecklistLoadedAsWritten | Program.cs:140-147 | a checklist line's count and flag are stored as read, even when they contradict each other (count 99 of 10, not complete) |
| Codec.ExtraFieldsIgnored | Program.cs:135-159 | on a line whose tag is not `ChecklistGoal`, fields after the fourth do not affect the result |
| Codec.EncodeAll | Program.cs:113-124 | saving writes one line per goal, in list order |
| Codec.Collect | Program.cs:133-161 | the load loop over decoded lines: it keeps at most one goal per line, and it reports no error exactly when it kept a goal for every line |
| Codec.DecodeAll | Program.cs:133-161 | a whole load keeps at most one goal per line, and reports no error exactly when every line gave a goal |
| Codec.DecodeAllSpec | Program.cs:133-161 | each loaded goal is the decoding of its own line, in order, and a reported error is the error of the line after the last loaded goal |
| Codec.CollectSpec | Program.cs:133-161 | the load loop keeps the goal of every line up to the first line that fails; it reports that line's error, or no error when every line decodes |
| Codec.CollectStops | Program.cs:133-161 | the outcome of the load loop is fixed by the lines before the first failure and by that failure |
| Codec.CollectStep | Program.cs:133-161 | after an error-free prefix, a good line extends the loaded goals by its goal, and a bad line ends the whole load with its error |
| Codec.CollectAppend | Program.cs:133-161 | one more line after an error-free run: a good line adds its goal, a bad line ends the load with its error |
| Codec.CollectAfterError | Program.cs:133-161 | once a line has failed, the lines after it change nothing |
| Codec.SaveLoadRoundTrip | Program.cs:109-163 | a file saved from simple and eternal goals with comma-free names loads back without error, as the same goals in the same order |
| Codec.SaveLoadStopsAtChecklist | Program.cs:109-163 | loading a saved file that holds a checklist goal loads exactly the goals before the first checklist goal, then fails on its target count |
| Registry.FirstIndexOf | Program.cs:78 | the search inside `List.Remove`: none exactly when the element is absent; otherwise an index holding the element, with no earlier occurrence |
| Registry.RemoveFirst | Program.cs:78 | removing an absent element changes nothing; removing a present one shortens the list by one |
| Registry.RemoveFirstMultiset | Program.cs:78 | removal takes away exactly one occurrence of the element and keeps every other element |
| Registry.RemoveAtFirstIndex | Program.cs:78 | deleting at the first index of the element is the same as `RemoveFirst`: everything before and after it keeps its order |
| Registry.FindByName | Program.cs:209-216 | the lookup finds nothing exactly when no goal has the name; otherwise it finds a goal with that name, and no earlier goal has it |
| Registry.FirstMatchIsFirstReference | Program.cs:217-219 | the first goal with a name is also the first reference to that object, so `RemoveGoal` deletes the goal at the found position |
| Registry.EventScore | Program.cs:81-89 | the score after one recording equals the old score plus the goal's points (its value, plus ten times its value for a checklist goal) modulo 2^32, and equals it exactly when that sum fits in an `int` |
| Registry.RepeatedEventsScore | Program.cs:81-89 | every recording scores in full, repeats included: n recordings of a goal with a non-negative value add n times its points while the total fits in an `int` |
| Registry.TenChecklistEvents | Program.cs:81-89 | ten recordings of a checklist goal worth 50, from a score of 0, give 5500 |
| Registry.ScoreNonDecreasingIff | Program.cs:84-87 | without overflow, a recording leaves the score no lower exactly when the goal's value is not negative |
| Registry.NewGoal | Program.cs:140-159 | loading builds a fresh goal object whose state is exactly the decoded goal |
| Registry.GoalTracker.constructor | Program.cs:65-69 | a new registry has no goals and a score of 0 |
| Registry.GoalTracker.AddGoal | Program.cs:71-74 | the goal is appended after the existing goals, duplicates allowed, and the score is unchanged |
| Registry.GoalTracker.RemoveGoal | Program.cs:76-79 | the first reference to this very goal is removed and the rest keep their order; an absent goal is a no-op; the score is unchanged |
| Registry.GoalTracker.RecordEvent | Program.cs:81-89 | the goal is complete afterwards, the score becomes `EventScore` of the old score, a checklist counter does not move, and the list is unchanged |
| Registry.GoalTracker.RemoveByName | Program.cs:205-225 | the `remove` command reports whether a goal has the name; if so, exactly the first such goal's position is deleted; otherwise nothing changes; the score never changes |
| Registry.GoalTracker.RecordByName | Program.cs:226-246 | the `record` command reports whether a goal has the name; if so, the first such goal is complete afterwards, its name, value, target and count are kept, the score grows by its points, and no other goal object changes; otherwise no goal and not the score change |
| Registry.GoalTracker.SaveGoals | Program.cs:109-126 | the saved lines are the encodings of the goals' current states, one per goal, in list order |
| Registry.GoalTracker.LoadGoals | Program.cs:128-163 | the existing goals stay, in front. The appended goals are fresh objects, one distinct object per loaded line, whose states are exactly the goals `DecodeAll` reads before the first failing line. The returned error is that line's error, or none. The score is unchanged |

## Left out

- The command loop in `Main` (Program.cs:168-267): prompts, reading commands
  and the `add` command's input parsing are console I/O. Only the lookup used by
  `remove` and `record` is modelled.
- The three starting goals that `Main` adds (Program.cs:171-173) are ordinary
  `AddGoal` calls on constructed goals. They are not modelled separately.
- `DisplayGoals` (Program.cs:91-107) only prints. It is not modelled.
- Files: saving returns the lines and loading takes them as a sequence. Opening,
  writing and closing files, and I/O errors, are not modelled. A name that
  contains a newline, which would split a saved line in two, has no counterpart.
- `EternalGoal.Record()` (Program.cs:33-36) is never called, and it only sets
  the completion flag, as `MarkCompleted` does.
- Registry.GoalTracker.LoadGoals: in the program, a failing line throws an
  exception that nothing catches, so the program ends. The model returns the
  error as a value and keeps the goals loaded before it. The exception types
  become `LoadError` cases:
  - a missing field becomes `MissingField`;
  - an `int` parse failure or overflow becomes `BadInt`;
  - a boolean parse failure becomes `BadBool`.
- Text.ParseInt: accepts only an optional sign followed by ASCII digits, within
  the `int` range. .NET `int.Parse` also accepts surrounding white space and
  culture-specific forms, so such lines load in the program but fail here with
  `BadInt`.
- Text.ParseBool: accepts exactly `True` and `False`. .NET `bool.Parse` also
  ignores case and surrounding white space.
- The source does not compile as written. The model follows its evident intent
  in two places:
  - the call with invalid named arguments at Program.cs:144 is read as a
    positional call with name, value and target;
  - `Main` reads the private `goals` list (Program.cs:209, 230) as if it were
    accessible.
- A null goal passed to `RemoveGoal` or `RecordEvent` has no counterpart:
  Dafny references here are non-null, and the command loop never passes null.
