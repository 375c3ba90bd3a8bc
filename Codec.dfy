/**
 * The save file format: one comma-separated line per goal. Saving writes
 * `ChecklistGoal,name,value,numRequired,numCompleted,completed` for a checklist
 * goal and `Tag,name,value,completed` for the others; loading reads field 3 as
 * the completion flag on every line, so the two checklist layouts disagree.
 */
module Codec {
  import opened Wrappers
  import opened Int32
  import opened Text
  import opened Goals

  /** Why loading a line throws: an index past the last field, or a field that does not parse. */
  datatype LoadError = MissingField(index: nat) | BadInt(text: string) | BadBool(text: string)

  /** `GetType().Name` of the goal a value describes. */
  function TypeName(d: GoalData): (tag: string)
    ensures tag == "ChecklistGoal" <==> d.ChecklistData?
    ensures tag == "EternalGoal" <==> d.EternalData?
    ensures tag == "SimpleGoal" <==> d.SimpleData?
    ensures ',' !in tag
  {
    match d
    case SimpleData(_, _, _) => "SimpleGoal"
    case EternalData(_, _, _) => "EternalGoal"
    case ChecklistData(_, _, _, _, _) => "ChecklistGoal"
  }

  /** The fields `SaveGoals` writes for one goal, in file order. */
  function EncodeFields(d: GoalData): (f: seq<string>)
    ensures |f| == if d.ChecklistData? then 6 else 4
    ensures f[0] == TypeName(d) && f[1] == d.name
  {
    match d
    case ChecklistData(name, value, completed, numRequired, numCompleted) =>
      ["ChecklistGoal", name, FormatInt(value), FormatInt(numRequired), FormatInt(numCompleted), FormatBool(completed)]
    case _ =>
      [TypeName(d), d.name, FormatInt(d.value), FormatBool(d.completed)]
  }

  /** The line `SaveGoals` writes for one goal. */
  function EncodeLine(d: GoalData): (line: string)
    ensures ',' !in d.name ==> Split(line, ',') == EncodeFields(d)
  {
    var line := Join(EncodeFields(d), ',');
    if ',' in d.name then line
    else
      EncodeFieldsCommaFree(d);
      SplitJoin(EncodeFields(d), ',');
      line
  }

  /**
   * One iteration of `LoadGoals` on the fields of a line: field 2 is the value,
   * field 3 the completion flag; a `ChecklistGoal` tag also reads fields 4 and 5
   * as target and count, `EternalGoal` gives an eternal goal and every other tag
   * a simple goal. Fields are read in the source's order, so the first missing
   * or malformed one is the error.
   */
  function DecodeFields(f: seq<string>): (r: Result<GoalData, LoadError>)
    requires |f| >= 1
    ensures r.Ok? <==>
              |f| >= 4 && ParseInt(f[2]).Some? && ParseBool(f[3]).Some? &&
              (f[0] == "ChecklistGoal" ==> |f| >= 6 && ParseInt(f[4]).Some? && ParseInt(f[5]).Some?)
    ensures r.Ok? ==>
              r.value.name == f[1] && r.value.value == ParseInt(f[2]).value &&
              r.value.completed == ParseBool(f[3]).value
    ensures r.Ok? ==>
              (r.value.ChecklistData? <==> f[0] == "ChecklistGoal") &&
              (r.value.EternalData? <==> f[0] == "EternalGoal")
    ensures r.Ok? && r.value.ChecklistData? ==>
              r.value.numRequired == ParseInt(f[4]).value && r.value.numCompleted == ParseInt(f[5]).value
    ensures |f| < 3 ==> r == Err(MissingField(|f|))
    ensures |f| >= 3 && ParseInt(f[2]).None? ==> r == Err(BadInt(f[2]))
    ensures |f| == 3 && ParseInt(f[2]).Some? ==> r == Err(MissingField(3))
    ensures |f| >= 4 && ParseInt(f[2]).Some? && ParseBool(f[3]).None? ==> r == Err(BadBool(f[3]))
    ensures |f| >= 4 && ParseInt(f[2]).Some? && ParseBool(f[3]).Some? && f[0] == "ChecklistGoal" ==>
              (|f| == 4 ==> r == Err(MissingField(4))) &&
              (|f| >= 5 && ParseInt(f[4]).None? ==> r == Err(BadInt(f[4]))) &&
              (|f| == 5 && ParseInt(f[4]).Some? ==> r == Err(MissingField(5))) &&
              (|f| >= 6 && ParseInt(f[4]).Some? && ParseInt(f[5]).None? ==> r == Err(BadInt(f[5])))
  {
    if |f| < 2 then Err(MissingField(1))
    else if |f| < 3 then Err(MissingField(2))
    else match ParseInt(f[2])
      case None => Err(BadInt(f[2]))
      case Some(value) =>
        if |f| < 4 then Err(MissingField(3))
        else match ParseBool(f[3])
          case None => Err(BadBool(f[3]))
          case Some(completed) =>
            if f[0] == "ChecklistGoal" then
              if |f| < 5 then Err(MissingField(4))
              else match ParseInt(f[4])
                case None => Err(BadInt(f[4]))
                case Some(numRequired) =>
                  if |f| < 6 then Err(MissingField(5))
                  else match ParseInt(f[5])
                    case None => Err(BadInt(f[5]))
                    case Some(numCompleted) => Ok(ChecklistData(f[1], value, completed, numRequired, numCompleted))
            else if f[0] == "EternalGoal" then Ok(EternalData(f[1], value, completed))
            else Ok(SimpleData(f[1], value, completed))
  }

  /**
   * Every field after the name reads back as the value it was written from:
   * the value and the completion flag, and a checklist goal's target and count.
   */
  lemma EncodeFieldsParse(d: GoalData)
    ensures ParseInt(EncodeFields(d)[2]) == Some(d.value)
    ensures !d.ChecklistData? ==> ParseBool(EncodeFields(d)[3]) == Some(d.completed)
    ensures d.ChecklistData? ==>
              ParseInt(EncodeFields(d)[3]) == Some(d.numRequired) &&
              ParseInt(EncodeFields(d)[4]) == Some(d.numCompleted) &&
              ParseBool(EncodeFields(d)[5]) == Some(d.completed)
  {
    ParseFormatInt(d.value);
    if d.ChecklistData? {
      ParseFormatInt(d.numRequired);
      ParseFormatInt(d.numCompleted);
    }
  }

  /** One line of the file, split on commas and decoded. */
  function DecodeLine(line: string): (r: Result<GoalData, LoadError>)
    ensures r.Ok? ==> ',' !in r.value.name
  {
    DecodeFields(Split(line, ','))
  }

  /** A line without a comma has no field 1, the name. */
  lemma LineWithoutComma(line: string)
    requires ',' !in line
    ensures DecodeLine(line) == Err(MissingField(1))
  {
    SplitWithoutSeparator(line, ',');
  }

  /** No field that `SaveGoals` writes holds a comma, provided the name does not. */
  lemma EncodeFieldsCommaFree(d: GoalData)
    requires ',' !in d.name
    ensures |EncodeFields(d)| >= 4
    ensures forall i :: 0 <= i < |EncodeFields(d)| ==> ',' !in EncodeFields(d)[i]
  {
  }

  /**
   * A simple or eternal goal whose name holds no comma is read back exactly
   * as it was saved: same kind, name, value and completion flag.
   */
  lemma RoundTrip(d: GoalData)
    requires !d.ChecklistData? && ',' !in d.name
    ensures DecodeLine(EncodeLine(d)) == Ok(d)
  {
    EncodeFieldsCommaFree(d);
    SplitJoin(EncodeFields(d), ',');
    ParseFormatInt(d.value);
  }

  /**
   * A checklist line as `SaveGoals` writes it never loads: field 3 holds the
   * target count, which is not a boolean literal.
   */
  lemma ChecklistLineRejected(d: GoalData)
    requires d.ChecklistData? && ',' !in d.name
    ensures DecodeLine(EncodeLine(d)) == Err(BadBool(FormatInt(d.numRequired)))
  {
    EncodeFieldsCommaFree(d);
    SplitJoin(EncodeFields(d), ',');
    ParseFormatInt(d.value);
    var t := FormatInt(d.numRequired);
    assert t[0] != 'T' && t[0] != 'F';
    assert ParseBool(t) == None;
  }

  /** An unrecognised tag is not an error: the line becomes a simple goal. */
  lemma UnknownTagIsSimple()
    ensures DecodeLine("Foo,X,5,True") == Ok(SimpleData("X", 5, true))
  {
    var fields := ["Foo", "X", "5", "True"];
    JoinUnknownTagSample(fields);
    SplitJoin(fields, ',');
    assert ParseInt("5") == Some(5) by {
      assert AllDigits("5") && DigitsValue("5") == 5;
    }
    assert "Foo" != "ChecklistGoal" && "Foo" != "EternalGoal";
  }

  lemma JoinUnknownTagSample(fields: seq<string>)
    requires fields == ["Foo", "X", "5", "True"]
    ensures Join(fields, ',') == "Foo,X,5,True"
  {
    assert Join(fields[3..], ',') == "True";
    assert Join(fields[2..], ',') == "5,True";
    assert Join(fields[1..], ',') == "X,5,True";
  }

  /**
   * A checklist line is taken as it stands: the count and the flag are stored
   * as read, even when they contradict each other.
   */
  lemma ChecklistLoadedAsWritten()
    ensures DecodeLine("ChecklistGoal,T,50,False,10,99") == Ok(ChecklistData("T", 50, false, 10, 99))
  {
    var fields := ["ChecklistGoal", "T", "50", "False", "10", "99"];
    SplitChecklistSample(fields);
    DecodeChecklistSample(fields);
  }

  lemma SplitChecklistSample(fields: seq<string>)
    requires fields == ["ChecklistGoal", "T", "50", "False", "10", "99"]
    ensures Split("ChecklistGoal,T,50,False,10,99", ',') == fields
  {
    JoinChecklistSample(fields);
    SplitJoin(fields, ',');
  }

  lemma JoinChecklistSample(fields: seq<string>)
    requires fields == ["ChecklistGoal", "T", "50", "False", "10", "99"]
    ensures Join(fields, ',') == "ChecklistGoal,T,50,False,10,99"
  {
    assert Join(fields[5..], ',') == "99";
    assert Join(fields[4..], ',') == "10,99";
    assert Join(fields[3..], ',') == "False,10,99";
    assert Join(fields[2..], ',') == "50,False,10,99";
    assert Join(fields[1..], ',') == "T,50,False,10,99";
  }

  lemma DecodeChecklistSample(fields: seq<string>)
    requires fields == ["ChecklistGoal", "T", "50", "False", "10", "99"]
    ensures DecodeFields(fields) == Ok(ChecklistData("T", 50, false, 10, 99))
  {
    ParseTwoDigits('5', '0');
    ParseTwoDigits('1', '0');
    ParseTwoDigits('9', '9');
  }

  lemma ParseTwoDigits(hi: char, lo: char)
    requires IsDigit(hi) && IsDigit(lo)
    ensures ParseInt([hi, lo]) == Some((DigitValue(hi) * 10 + DigitValue(lo)) as int32)
  {
    var s := [hi, lo];
    assert s[..1] == [hi];
    assert DigitsValue([hi]) == DigitValue(hi);
  }

  /** On a line whose tag is not `ChecklistGoal`, fields after the fourth are ignored. */
  lemma ExtraFieldsIgnored(f: seq<string>, extra: seq<string>)
    requires |f| == 4 && f[0] != "ChecklistGoal"
    ensures DecodeFields(f + extra) == DecodeFields(f)
  {
    var g := f + extra;
    assert g[0] == f[0] && g[1] == f[1] && g[2] == f[2] && g[3] == f[3];
  }

  /** The lines `SaveGoals` writes, one per goal in order. */
  function EncodeAll(ds: seq<GoalData>): (lines: seq<string>)
    ensures |lines| == |ds|
    ensures forall i :: 0 <= i < |ds| ==> lines[i] == EncodeLine(ds[i])
  {
    if ds == [] then [] else [EncodeLine(ds[0])] + EncodeAll(ds[1..])
  }

  /** What `LoadGoals` appends, and the error that stopped it if one did. */
  datatype LoadOutcome = LoadOutcome(decoded: seq<GoalData>, error: Option<LoadError>)

  /** The decoding of every line of a file, on its own. */
  function DecodeEach(lines: seq<string>): (rs: seq<Result<GoalData, LoadError>>)
  {
    seq(|lines|, i requires 0 <= i < |lines| => DecodeLine(lines[i]))
  }

  /**
   * The loop of `LoadGoals` over already decoded lines: keep the goals up to
   * the first line that throws, and report that line's error.
   */
  function Collect(rs: seq<Result<GoalData, LoadError>>): (out: LoadOutcome)
    ensures |out.decoded| <= |rs|
    ensures out.error.None? <==> |out.decoded| == |rs|
  {
    if rs == [] then LoadOutcome([], None)
    else if rs[0].Err? then LoadOutcome([], Some(rs[0].error))
    else
      var rest := Collect(rs[1..]);
      LoadOutcome([rs[0].value] + rest.decoded, rest.error)
  }

  /** `LoadGoals` over the lines of a file. */
  function DecodeAll(lines: seq<string>): (out: LoadOutcome)
    ensures |out.decoded| <= |lines|
    ensures out.error.None? <==> |out.decoded| == |lines|
  {
    Collect(DecodeEach(lines))
  }

  /**
   * What a load yields, line by line: each loaded goal is the decoding of its
   * own line, and the load stops at the end of the file or reports the error
   * of the first line that does not decode.
   */
  lemma DecodeAllSpec(lines: seq<string>)
    ensures forall i :: 0 <= i < |DecodeAll(lines).decoded| ==> DecodeLine(lines[i]) == Ok(DecodeAll(lines).decoded[i])
    ensures DecodeAll(lines).error.Some? ==>
              DecodeLine(lines[|DecodeAll(lines).decoded|]) == Err(DecodeAll(lines).error.value)
  {
    CollectSpec(DecodeEach(lines));
  }

  /**
   * What `Collect` yields: every result before the stopping point is the goal
   * recorded for it, and it stops either at the end or at the first error,
   * reporting that error.
   */
  lemma {:induction false} CollectSpec(rs: seq<Result<GoalData, LoadError>>)
    ensures |Collect(rs).decoded| <= |rs|
    ensures forall i :: 0 <= i < |Collect(rs).decoded| ==> rs[i] == Ok(Collect(rs).decoded[i])
    ensures Collect(rs).error.None? <==> |Collect(rs).decoded| == |rs|
    ensures Collect(rs).error.Some? ==>
              |Collect(rs).decoded| < |rs| && rs[|Collect(rs).decoded|] == Err(Collect(rs).error.value)
  {
    if rs != [] && rs[0].Ok? {
      var t := rs[1..];
      CollectSpec(t);
      var rest := Collect(t);
      var r := Collect(rs);
      assert r.decoded == [rs[0].value] + rest.decoded;
      forall i | 1 <= i < |r.decoded|
        ensures rs[i] == Ok(r.decoded[i])
      {
        assert rs[i] == t[i - 1] && r.decoded[i] == rest.decoded[i - 1];
      }
    }
  }

  /** `Collect` is determined by the results before the first error (or the end). */
  lemma CollectStops(rs: seq<Result<GoalData, LoadError>>, decoded: seq<GoalData>)
    requires |decoded| <= |rs|
    requires forall k :: 0 <= k < |decoded| ==> rs[k] == Ok(decoded[k])
    requires |decoded| < |rs| ==> rs[|decoded|].Err?
    ensures Collect(rs) ==
              LoadOutcome(decoded, if |decoded| < |rs| then Some(rs[|decoded|].error) else None)
  {
    CollectSpec(rs);
    var out := Collect(rs);
    assert |out.decoded| == |decoded|;
  }

  /**
   * The loop of `LoadGoals` one line further, after a prefix without error:
   * a good line extends the loaded goals, a bad one ends the whole load.
   */
  lemma CollectStep(rs: seq<Result<GoalData, LoadError>>, i: nat, decoded: seq<GoalData>)
    requires i < |rs|
    requires Collect(rs[..i]) == LoadOutcome(decoded, None)
    ensures rs[i].Ok? ==> Collect(rs[..i + 1]) == LoadOutcome(decoded + [rs[i].value], None)
    ensures rs[i].Err? ==> Collect(rs) == LoadOutcome(decoded, Some(rs[i].error))
  {
    if rs[i].Ok? {
      CollectGood(rs, i, decoded);
    } else {
      CollectBad(rs, i, decoded);
    }
  }

  lemma CollectGood(rs: seq<Result<GoalData, LoadError>>, i: nat, decoded: seq<GoalData>)
    requires i < |rs| && rs[i].Ok?
    requires Collect(rs[..i]) == LoadOutcome(decoded, None)
    ensures Collect(rs[..i + 1]) == LoadOutcome(decoded + [rs[i].value], None)
  {
    assert rs[..i + 1] == rs[..i] + [rs[i]];
    CollectAppend(rs[..i], rs[i]);
  }

  lemma CollectBad(rs: seq<Result<GoalData, LoadError>>, i: nat, decoded: seq<GoalData>)
    requires i < |rs| && rs[i].Err?
    requires Collect(rs[..i]) == LoadOutcome(decoded, None)
    ensures Collect(rs) == LoadOutcome(decoded, Some(rs[i].error))
  {
    var upTo := rs[..i + 1];
    assert upTo == rs[..i] + [rs[i]];
    CollectAppend(rs[..i], rs[i]);
    assert rs == upTo + rs[i + 1..];
    CollectAfterError(upTo, rs[i + 1..]);
  }

  /** One more result after an error-free run: kept if good, reported if bad. */
  lemma {:induction false} CollectAppend(rs: seq<Result<GoalData, LoadError>>, r: Result<GoalData, LoadError>)
    requires Collect(rs).error.None?
    ensures Collect(rs + [r]) ==
              if r.Ok? then LoadOutcome(Collect(rs).decoded + [r.value], None)
              else LoadOutcome(Collect(rs).decoded, Some(r.error))
  {
    if rs == [] {
      assert rs + [r] == [r];
      assert [r][1..] == [];
    } else {
      assert (rs + [r])[0] == rs[0];
      assert (rs + [r])[1..] == rs[1..] + [r];
      CollectAppend(rs[1..], r);
    }
  }

  /** Nothing after the first error matters. */
  lemma {:induction false} CollectAfterError(rs: seq<Result<GoalData, LoadError>>, rest: seq<Result<GoalData, LoadError>>)
    requires Collect(rs).error.Some?
    ensures Collect(rs + rest) == Collect(rs)
  {
    assert (rs + rest)[0] == rs[0];
    if rs[0].Ok? {
      assert (rs + rest)[1..] == rs[1..] + rest;
      CollectAfterError(rs[1..], rest);
    }
  }

  /**
   * A file saved from simple and eternal goals with comma-free names loads
   * back, without error, as the same goals in the same order.
   */
  lemma {:induction false} SaveLoadRoundTrip(ds: seq<GoalData>)
    requires forall i :: 0 <= i < |ds| ==> !ds[i].ChecklistData? && ',' !in ds[i].name
    ensures DecodeAll(EncodeAll(ds)) == LoadOutcome(ds, None)
  {
    var rs := DecodeEach(EncodeAll(ds));
    forall k | 0 <= k < |ds|
      ensures rs[k] == Ok(ds[k])
    {
      RoundTrip(ds[k]);
    }
    CollectStops(rs, ds);
  }

  /**
   * Saving a list that holds a checklist goal and loading the file back stops
   * at the first checklist goal: the goals before it are loaded, the rest lost.
   */
  lemma SaveLoadStopsAtChecklist(ds: seq<GoalData>, k: nat)
    requires k < |ds| && ds[k].ChecklistData?
    requires forall i :: 0 <= i <= k ==> ',' !in ds[i].name
    requires forall i :: 0 <= i < k ==> !ds[i].ChecklistData?
    ensures DecodeAll(EncodeAll(ds)) == LoadOutcome(ds[..k], Some(BadBool(FormatInt(ds[k].numRequired))))
  {
    var rs := DecodeEach(EncodeAll(ds));
    forall i | 0 <= i < k
      ensures rs[i] == Ok(ds[..k][i])
    {
      RoundTrip(ds[i]);
    }
    ChecklistLineRejected(ds[k]);
    CollectStops(rs, ds[..k]);
  }
}
