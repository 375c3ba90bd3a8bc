/**
 * The string primitives the save/load codec relies on: `String.Split(',')`,
 * the comma-joined interpolation that writes a line, and the textual forms of
 * `int` and `bool` (`ToString` on write, `int.Parse` and `bool.Parse` on read).
 */
module Text {
  import opened Wrappers
  import opened Int32

  predicate IsDigit(c: char) {
    '0' <= c <= '9'
  }

  predicate AllDigits(s: string) {
    forall i :: 0 <= i < |s| ==> IsDigit(s[i])
  }

  function DigitChar(d: nat): (c: char)
    requires d < 10
    ensures IsDigit(c) && c as int - '0' as int == d
  {
    ('0' as int + d) as char
  }

  function DigitValue(c: char): nat
    requires IsDigit(c)
  {
    c as int - '0' as int
  }

  /** Decimal digits of `n`, most significant first, without leading zeros. */
  function FormatNat(n: nat): (s: string)
    ensures |s| > 0 && AllDigits(s)
  {
    if n < 10 then [DigitChar(n)] else FormatNat(n / 10) + [DigitChar(n % 10)]
  }

  /** The number a non-empty run of decimal digits denotes (leading zeros allowed). */
  function DigitsValue(s: string): nat
    requires AllDigits(s)
  {
    if |s| == 0 then 0 else DigitsValue(s[..|s| - 1]) * 10 + DigitValue(s[|s| - 1])
  }

  lemma {:induction false} DigitsValueOfFormatNat(n: nat)
    ensures DigitsValue(FormatNat(n)) == n
  {
    var s := FormatNat(n);
    if n >= 10 {
      DigitsValueOfFormatNat(n / 10);
      assert s[..|s| - 1] == FormatNat(n / 10);
    }
  }

  /** `Int32.ToString()`: an optional minus sign followed by decimal digits. */
  function FormatInt(x: int32): (s: string)
    ensures |s| > 0 && (s[0] == '-' || IsDigit(s[0]))
    ensures forall i :: 0 <= i < |s| ==> s[i] == '-' || IsDigit(s[i])
  {
    if x < 0 then "-" + FormatNat(-(x as int)) else FormatNat(x as int)
  }

  /**
   * `int.Parse`: an optional sign followed by at least one decimal digit, whose
   * value must fit in an `int` (otherwise the source throws, here `None`).
   */
  function ParseInt(s: string): (r: Option<int32>)
    ensures r.Some? ==>
              |s| > 0 && forall i :: 0 <= i < |s| ==> IsDigit(s[i]) || (i == 0 && (s[i] == '-' || s[i] == '+'))
    ensures r.Some? ==> IsDigit(s[|s| - 1])
    ensures r.Some? && s[0] != '-' ==> r.value >= 0
    ensures |s| > 0 && AllDigits(s) && DigitsValue(s) <= MAX ==> r == Some(DigitsValue(s) as int32)
    ensures |s| > 0 && AllDigits(s) && DigitsValue(s) > MAX ==> r.None?
    ensures |s| > 1 && s[0] == '+' && AllDigits(s[1..]) ==>
              (r.Some? <==> DigitsValue(s[1..]) <= MAX) && (r.Some? ==> r.value as int == DigitsValue(s[1..]))
    ensures |s| > 1 && s[0] == '-' && AllDigits(s[1..]) ==>
              (r.Some? <==> DigitsValue(s[1..]) <= -MIN) && (r.Some? ==> r.value as int + DigitsValue(s[1..]) == 0)
  {
    var negative := |s| > 0 && s[0] == '-';
    var digits := if |s| > 0 && (s[0] == '-' || s[0] == '+') then s[1..] else s;
    if |digits| == 0 || !AllDigits(digits) then None
    else
      var magnitude: int := DigitsValue(digits);
      var v := if negative then -magnitude else magnitude;
      if InRange(v) then Some(v as int32) else None
  }

  /** Every `int` the tracker writes is read back as the same `int`. */
  lemma {:induction false} ParseFormatInt(x: int32)
    ensures ParseInt(FormatInt(x)) == Some(x)
  {
    var s := FormatInt(x);
    if x < 0 {
      DigitsValueOfFormatNat(-(x as int));
      assert s[1..] == FormatNat(-(x as int));
    } else {
      DigitsValueOfFormatNat(x as int);
    }
  }

  /** `bool.Parse` over the two literals that `Boolean.ToString()` produces. */
  function ParseBool(s: string): (r: Option<bool>)
    ensures r == Some(true) <==> s == "True"
    ensures r == Some(false) <==> s == "False"
  {
    if s == "True" then Some(true) else if s == "False" then Some(false) else None
  }

  /** `Boolean.ToString()`, which `ParseBool` reads back. */
  function FormatBool(b: bool): (s: string)
    ensures ParseBool(s) == Some(b)
    ensures ',' !in s
  {
    if b then "True" else "False"
  }

  /** `String.Split(sep)`: the pieces between separators; one more piece than separators. */
  function Split(s: string, sep: char): (fields: seq<string>)
    ensures |fields| >= 1
    ensures forall i :: 0 <= i < |fields| ==> sep !in fields[i]
    decreases |s|
  {
    if |s| == 0 then [""]
    else
      var rest := Split(s[1..], sep);
      if s[0] == sep then [""] + rest
      else [[s[0]] + rest[0]] + rest[1..]
  }

  /** The fields written one after another with `sep` between neighbours. */
  function Join(fields: seq<string>, sep: char): string
    requires |fields| >= 1
    decreases |fields|
  {
    if |fields| == 1 then fields[0] else fields[0] + [sep] + Join(fields[1..], sep)
  }

  /** Splitting loses nothing: joining the pieces gives the line back. */
  lemma {:induction false} JoinSplit(s: string, sep: char)
    ensures Join(Split(s, sep), sep) == s
    decreases |s|
  {
    if |s| > 0 {
      JoinSplit(s[1..], sep);
      var rest := Split(s[1..], sep);
      if s[0] == sep {
        assert ([""] + rest)[1..] == rest;
      } else {
        var fields := [[s[0]] + rest[0]] + rest[1..];
        if |rest| == 1 {
          assert s == [s[0]] + s[1..];
        } else {
          assert fields[1..] == rest[1..];
          assert Join(rest, sep) == rest[0] + [sep] + Join(rest[1..], sep);
          assert s == [s[0]] + s[1..];
        }
      }
    }
  }

  /** Splitting a line whose first piece `a` holds no separator. */
  lemma {:induction false} SplitPrefix(a: string, t: string, sep: char)
    requires sep !in a
    ensures Split(a + t, sep) == [a + Split(t, sep)[0]] + Split(t, sep)[1..]
    decreases |a|
  {
    if |a| > 0 {
      SplitPrefix(a[1..], t, sep);
      assert (a + t)[1..] == a[1..] + t;
      assert (a + t)[0] == a[0];
      assert [a[0]] + (a[1..] + Split(t, sep)[0]) == a + Split(t, sep)[0];
    } else {
      var rest := Split(t, sep);
      assert a + t == t;
      assert a + rest[0] == rest[0];
      assert rest == [rest[0]] + rest[1..];
    }
  }

  /** A line without the separator is a single field. */
  lemma SplitWithoutSeparator(s: string, sep: char)
    requires sep !in s
    ensures Split(s, sep) == [s]
  {
    SplitPrefix(s, "", sep);
    assert s + "" == s;
  }

  /** Splitting undoes joining, provided no field holds the separator. */
  lemma {:induction false} SplitJoin(fields: seq<string>, sep: char)
    requires |fields| >= 1
    requires forall i :: 0 <= i < |fields| ==> sep !in fields[i]
    ensures Split(Join(fields, sep), sep) == fields
    decreases |fields|
  {
    if |fields| == 1 {
      SplitPrefix(fields[0], "", sep);
      assert fields[0] + "" == fields[0];
    } else {
      var tail := Join(fields[1..], sep);
      SplitJoin(fields[1..], sep);
      SplitPrefix(fields[0], [sep] + tail, sep);
      assert fields[0] + [sep] + tail == fields[0] + ([sep] + tail);
      assert ([sep] + tail)[1..] == tail;
      assert Split([sep] + tail, sep) == [""] + fields[1..];
      assert fields[0] + "" == fields[0];
      assert ([""] + fields[1..])[1..] == fields[1..];
      assert fields == [fields[0]] + fields[1..];
    }
  }
}
