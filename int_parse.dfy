/** `<i32 as FromStr>::from_str`, the value parser the test builder uses for
    its `b` option: an optional sign, then decimal digits, read left to right;
    the first bad digit or the first overflow decides the error. */
module IntParse {
  import opened Wrappers

  /** `IntErrorKind` for decimal input. */
  datatype IntErrorKind = Empty | InvalidDigit | PosOverflow | NegOverflow

  const I32Min: int := -0x8000_0000
  const I32Max: int := 0x7FFF_FFFF

  predicate IsDigit(c: char)
  {
    '0' <= c <= '9'
  }

  predicate AllDigits(ds: string)
  {
    forall i :: 0 <= i < |ds| ==> IsDigit(ds[i])
  }

  /** The number a string of decimal digits denotes. */
  function DecimalValue(ds: string): nat
    requires AllDigits(ds)
  {
    if ds == [] then 0
    else DecimalValue(ds[..|ds| - 1]) * 10 + (ds[|ds| - 1] as int - '0' as int)
  }

  function Signed(positive: bool, n: nat): int
  {
    if positive then n as int else -(n as int)
  }

  /** The sign of a numeric string and the digits after it. */
  function SignSplit(s: string): (bool, string)
  {
    if s != [] && (s[0] == '+' || s[0] == '-') then (s[0] == '+', s[1..]) else (true, s)
  }

  /** The accumulating loop over the digits from index `i`, building the
      value towards its sign and failing as soon as it leaves the i32
      range. */
  function ScanDigits(ds: string, i: nat, acc: int, positive: bool): (r: Result<int, IntErrorKind>)
    requires i <= |ds| && I32Min <= acc <= I32Max
    ensures r.Success? ==> I32Min <= r.value <= I32Max
    decreases |ds| - i
  {
    if i == |ds| then Success(acc)
    else if !IsDigit(ds[i]) then Failure(InvalidDigit)
    else
      var d := ds[i] as int - '0' as int;
      var next := if positive then acc * 10 + d else acc * 10 - d;
      if next > I32Max then Failure(PosOverflow)
      else if next < I32Min then Failure(NegOverflow)
      else ScanDigits(ds, i + 1, next, positive)
  }

  /** `i32::from_str`. */
  function ParseI32(s: string): (r: Result<int, IntErrorKind>)
    ensures r.Success? ==> I32Min <= r.value <= I32Max
    ensures s == [] ==> r == Failure(Empty)
  {
    if s == [] then Failure(Empty)
    else if (s[0] == '+' || s[0] == '-') && |s| == 1 then Failure(InvalidDigit)
    else
      var (positive, ds) := SignSplit(s);
      ScanDigits(ds, 0, 0, positive)
  }

  /** A longer digit string never denotes a smaller number. */
  lemma {:induction false} DecimalPrefix(ds: string, j: nat)
    requires AllDigits(ds) && j <= |ds|
    ensures AllDigits(ds[..j]) && DecimalValue(ds[..j]) <= DecimalValue(ds)
    decreases |ds|
  {
    if j < |ds| {
      var init := ds[..|ds| - 1];
      assert ds[..j] == init[..j];
      DecimalPrefix(init, j);
    } else {
      assert ds[..j] == ds;
    }
  }

  /** The digit loop from index `i` succeeds exactly when the whole string
      is digits and its signed value is an i32, and then yields that
      value. */
  lemma {:induction false} ScanDigitsMeaning(ds: string, i: nat, acc: int, positive: bool)
    requires i <= |ds| && AllDigits(ds[..i])
    requires acc == Signed(positive, DecimalValue(ds[..i])) && I32Min <= acc <= I32Max
    ensures ScanDigits(ds, i, acc, positive).Success? <==>
      AllDigits(ds) && I32Min <= Signed(positive, DecimalValue(ds)) <= I32Max
    ensures ScanDigits(ds, i, acc, positive).Success? ==>
      ScanDigits(ds, i, acc, positive).value == Signed(positive, DecimalValue(ds))
    decreases |ds| - i
  {
    if i == |ds| {
      assert ds[..i] == ds;
    } else if IsDigit(ds[i]) {
      DigitStep(ds, i, acc, positive);
      var next := Signed(positive, DecimalValue(ds[..i + 1]));
      if I32Min <= next <= I32Max {
        ScanDigitsMeaning(ds, i + 1, next, positive);
      } else if AllDigits(ds) {
        DecimalPrefix(ds, i + 1);
      }
    }
  }

  /** One more digit: the accumulator times ten, plus or minus the digit,
      is the signed value of the longer prefix. */
  lemma DigitStep(ds: string, i: nat, acc: int, positive: bool)
    requires i < |ds| && AllDigits(ds[..i]) && IsDigit(ds[i])
    requires acc == Signed(positive, DecimalValue(ds[..i]))
    ensures AllDigits(ds[..i + 1])
    ensures var d := ds[i] as int - '0' as int;
      Signed(positive, DecimalValue(ds[..i + 1])) == if positive then acc * 10 + d else acc * 10 - d
  {
    var p := ds[..i + 1];
    assert p[..i] == ds[..i];
  }

  /** `from_str` accepts exactly an optional sign followed by at least one
      digit whose value fits in an i32, and returns that value. */
  lemma ParseI32Meaning(s: string)
    ensures var (positive, ds) := SignSplit(s);
      && (ParseI32(s).Success? <==>
          ds != [] && AllDigits(ds) && I32Min <= Signed(positive, DecimalValue(ds)) <= I32Max)
      && (ParseI32(s).Success? ==> ParseI32(s).value == Signed(positive, DecimalValue(ds)))
  {
    var (positive, ds) := SignSplit(s);
    if s != [] && !((s[0] == '+' || s[0] == '-') && |s| == 1) {
      assert ds[..0] == [];
      ScanDigitsMeaning(ds, 0, 0, positive);
    }
  }
}
