/** The string primitives the Python code leans on: `str.split`, `str.join`,
    `int(str)` on decimal digits, `str(n)` and two-digit zero padding
    (`f"{n:02}"` and `str(n).zfill(2)` agree on every natural number). */
module Text {
  import opened Results

  predicate IsDigit(c: char) { '0' <= c <= '9' }

  predicate AllDigits(s: string) {
    forall i :: 0 <= i < |s| ==> IsDigit(s[i])
  }

  /** The value of a string of decimal digits, most significant first. */
  function DigitsValue(s: string): nat
    requires AllDigits(s)
  {
    if |s| == 0 then 0
    else 10 * DigitsValue(s[..|s| - 1]) + (s[|s| - 1] as int - '0' as int)
  }

  /** `int(s)` for the strings the timetable feed holds: a non-empty run of
      decimal digits, leading zeros allowed. Anything else is `None`, where
      Python raises `ValueError`. */
  function ParseNat(s: string): (r: Option<nat>)
    ensures r.Some? <==> |s| > 0 && AllDigits(s)
  {
    if |s| > 0 && AllDigits(s) then Some(DigitsValue(s)) else None
  }

  /** `int(s)` with the failure as the `NotANumber` error. */
  function ParseNatOrFail(s: string): (r: Result<nat>)
    ensures r.Ok? <==> ParseNat(s).Some?
    ensures r.Ok? ==> ParseNat(s) == Some(r.value)
    ensures r.Err? ==> r.error == NotANumber(s)
  {
    match ParseNat(s)
    case Some(n) => Ok(n)
    case None => Err(NotANumber(s))
  }

  function DigitChar(d: nat): (c: char)
    requires d < 10
    ensures IsDigit(c) && c as int - '0' as int == d
  {
    ['0', '1', '2', '3', '4', '5', '6', '7', '8', '9'][d]
  }

  /** `str(n)`: decimal digits without leading zeros. */
  function Decimal(n: nat): (s: string)
    ensures |s| > 0 && AllDigits(s)
    ensures ParseNat(s) == Some(n)
    ensures |s| > 1 ==> s[0] != '0'
    ensures n < 10 <==> |s| == 1
  {
    if n < 10 then
      var s := [DigitChar(n)];
      assert s[..0] == [];
      assert DigitsValue(s) == 10 * DigitsValue([]) + (s[0] as int - '0' as int);
      s
    else
      var s := Decimal(n / 10) + [DigitChar(n % 10)];
      assert s[..|s| - 1] == Decimal(n / 10);
      s
  }

  /** A leading zero does not change the value of a digit string. */
  lemma {:induction false} LeadingZero(s: string)
    requires AllDigits(s)
    ensures AllDigits("0" + s) && DigitsValue("0" + s) == DigitsValue(s)
  {
    var z := "0" + s;
    assert AllDigits(z) by {
      forall i | 0 <= i < |z| ensures IsDigit(z[i]) {
        if i > 0 { assert z[i] == s[i - 1]; }
      }
    }
    if |s| > 0 {
      assert z[..|z| - 1] == "0" + s[..|s| - 1];
      LeadingZero(s[..|s| - 1]);
    }
  }

  /** Two-digit zero padding, `f"{n:02}"`: at least two characters, read back
      as the same number. */
  function Pad2(n: nat): (s: string)
    ensures ParseNat(s) == Some(n)
    ensures n < 100 <==> |s| == 2
    ensures |s| >= 2
  {
    if n < 10 then
      LeadingZero(Decimal(n));
      "0" + Decimal(n)
    else
      assert |Decimal(n)| >= 2;
      assert n >= 100 ==> |Decimal(n)| > 2 by {
        if n >= 100 { assert |Decimal(n / 10)| >= 2; }
      }
      assert n < 100 ==> |Decimal(n)| == 2 by {
        if n < 100 { assert n / 10 < 10; }
      }
      Decimal(n)
  }

  /** Python's `s.split(sep)`: the maximal separator-free pieces between
      separators, empty pieces included, never an empty list. */
  function Split(s: string, sep: char): (fields: seq<string>)
    ensures |fields| >= 1
    ensures forall i :: 0 <= i < |fields| ==> sep !in fields[i]
    decreases |s|
  {
    if |s| == 0 then [""]
    else if s[0] == sep then [""] + Split(s[1..], sep)
    else
      var rest := Split(s[1..], sep);
      [[s[0]] + rest[0]] + rest[1..]
  }

  /** Python's `sep.join(fields)`. */
  function Join(fields: seq<string>, sep: char): string
  {
    if |fields| == 0 then ""
    else if |fields| == 1 then fields[0]
    else fields[0] + [sep] + Join(fields[1..], sep)
  }

  /** Joining the pieces of a split restores the string. */
  lemma {:induction false} JoinSplit(s: string, sep: char)
    ensures Join(Split(s, sep), sep) == s
    decreases |s|
  {
    if |s| == 0 {
    } else if s[0] == sep {
      JoinSplit(s[1..], sep);
      var rest := Split(s[1..], sep);
      assert Split(s, sep) == [""] + rest;
      if |rest| == 1 {
        assert Join(Split(s, sep), sep) == "" + [sep] + rest[0];
      } else {
        assert ([""] + rest)[1..] == rest;
      }
    } else {
      JoinSplit(s[1..], sep);
      var rest := Split(s[1..], sep);
      var fs := [[s[0]] + rest[0]] + rest[1..];
      assert Split(s, sep) == fs;
      if |rest| == 1 {
        assert Join(fs, sep) == [s[0]] + rest[0];
      } else {
        assert fs[1..] == rest[1..];
        assert Join(rest, sep) == rest[0] + [sep] + Join(rest[1..], sep);
      }
    }
  }

  /** Splitting a string that starts with a separator-free piece and a
      separator peels that piece off. */
  lemma {:induction false} SplitCons(a: string, sep: char, b: string)
    requires sep !in a
    ensures Split(a + [sep] + b, sep) == [a] + Split(b, sep)
    decreases |a|
  {
    if |a| == 0 {
      assert a + [sep] + b == [sep] + b;
      assert ([sep] + b)[1..] == b;
    } else {
      var s := a + [sep] + b;
      assert s[0] == a[0] && s[1..] == a[1..] + [sep] + b;
      SplitCons(a[1..], sep, b);
      assert [a[0]] + a[1..] == a;
    }
  }

  /** A separator-free string splits into itself alone. */
  lemma {:induction false} SplitSingle(a: string, sep: char)
    requires sep !in a
    ensures Split(a, sep) == [a]
    decreases |a|
  {
    if |a| > 0 {
      SplitSingle(a[1..], sep);
      assert [a[0]] + a[1..] == a;
    }
  }

  /** Splitting a join of separator-free pieces gives the pieces back. */
  lemma {:induction false} SplitJoin(fields: seq<string>, sep: char)
    requires |fields| >= 1
    requires forall i :: 0 <= i < |fields| ==> sep !in fields[i]
    ensures Split(Join(fields, sep), sep) == fields
  {
    if |fields| == 1 {
      SplitSingle(fields[0], sep);
    } else {
      SplitJoin(fields[1..], sep);
      SplitCons(fields[0], sep, Join(fields[1..], sep));
      assert [fields[0]] + fields[1..] == fields;
    }
  }

  /** Python's clamped slice `xs[lo:hi]`, for non-negative bounds. */
  function Slice<T>(xs: seq<T>, lo: nat, hi: nat): (r: seq<T>)
    ensures lo <= hi <= |xs| ==> r == xs[lo..hi]
    ensures lo >= |xs| || hi <= lo ==> r == []
  {
    var h := if hi <= |xs| then hi else |xs|;
    if lo < h then xs[lo..h] else []
  }
}
