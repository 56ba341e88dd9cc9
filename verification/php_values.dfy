/** The scalar PHP values a caller may put in a variables array, with PHP's
    truthiness (what `array_filter` without a callback keeps) and string
    conversion (what `preg_match`, `strtolower` and string interpolation see). */
module PhpValues {
  import opened PhpStrings

  datatype Scalar = Null | Bool(b: bool) | Int(i: int) | Str(s: string)

  /** The two strings PHP treats as false. */
  predicate IsFalsyString(s: string) {
    s == "" || s == "0"
  }

  /** PHP truthiness: `null`, `false`, `0`, `""` and `"0"` are false. */
  predicate Truthy(v: Scalar) {
    match v
    case Null => false
    case Bool(b) => b
    case Int(i) => i != 0
    case Str(s) => !IsFalsyString(s)
  }

  /** The `(string)` conversion. */
  function ToString(v: Scalar): string {
    match v
    case Null => ""
    case Bool(b) => if b then "1" else ""
    case Int(i) => IntToString(i)
    case Str(s) => s
  }

  /** A value is truthy exactly when its string form is; the conversion loses
      nothing that `array_filter` looks at. */
  lemma TruthyIffStringTruthy(v: Scalar)
    ensures Truthy(v) <==> !IsFalsyString(ToString(v))
  {
    match v
    case Int(i) =>
      if i < 0 {
        assert ToString(v)[0] == '-';
      } else if i > 0 {
        assert ToString(v)[0] != '0';
      } else {
        assert ToString(v) == [DigitChar(0)];
      }
    case _ =>
  }
}
