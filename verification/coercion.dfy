/** What validating a JSON scalar against a field's scalar type gives, in the lax mode models use. */
module Coercion {
  import opened Wrappers
  import opened Text
  import opened JsonValues
  import opened WireTypes

  /** How the validation library spells floats and reads text as numbers and booleans. */
  datatype Lax = Lax(
    showReal: real -> string,
    readInt: string -> Option<int>,
    readReal: string -> Option<real>,
    readBool: string -> Option<bool>)

  function ShowInt(n: int): string { if n < 0 then "-" + Decimal(-n) else Decimal(n) }

  /**
   * The validated value, or nothing where validation raises.  Numbers become text only where the
   * enclosing model asks for it, and a boolean never does.
   */
  function Coerce(lax: Lax, numbersToStr: bool, scalar: Scalar, v: Json): Option<Json> {
    match scalar
    case StrScalar =>
      (match v
       case Str(_) => Some(v)
       case Int(n) => if numbersToStr then Some(Str(ShowInt(n))) else None
       case Real(x) => if numbersToStr then Some(Str(lax.showReal(x))) else None
       case _ => None)
    case IntScalar =>
      (match v
       case Int(_) => Some(v)
       case Bool(b) => Some(Int(if b then 1 else 0))
       case Real(x) => if x == x.Floor as real then Some(Int(x.Floor)) else None
       case Str(s) => if lax.readInt(s).Some? then Some(Int(lax.readInt(s).value)) else None
       case _ => None)
    case FloatScalar =>
      (match v
       case Real(_) => Some(v)
       case Int(n) => Some(Real(n as real))
       case Bool(b) => Some(Real(if b then 1.0 else 0.0))
       case Str(s) => if lax.readReal(s).Some? then Some(Real(lax.readReal(s).value)) else None
       case _ => None)
    case BoolScalar =>
      (match v
       case Bool(_) => Some(v)
       case Int(n) => if n == 0 || n == 1 then Some(Bool(n == 1)) else None
       case Real(x) => if x == 0.0 || x == 1.0 then Some(Bool(x == 1.0)) else None
       case Str(s) => if lax.readBool(s).Some? then Some(Bool(lax.readBool(s).value)) else None
       case _ => None)
  }

  /** The value has the field's own JSON kind. */
  predicate OwnKind(scalar: Scalar, v: Json) {
    match scalar
    case StrScalar => v.Str?
    case IntScalar => v.Int?
    case FloatScalar => v.Real?
    case BoolScalar => v.Bool?
  }

  /** Whatever is accepted comes out in the field's own kind, so only such a value comes out unchanged. */
  lemma CoerceKeepsIff(lax: Lax, numbersToStr: bool, scalar: Scalar, v: Json)
    ensures Coerce(lax, numbersToStr, scalar, v).Some? ==> OwnKind(scalar, Coerce(lax, numbersToStr, scalar, v).value)
    ensures OwnKind(scalar, v) ==> Coerce(lax, numbersToStr, scalar, v) == Some(v)
    ensures (exists w :: Coerce(lax, numbersToStr, scalar, v) == Some(w) && MarkerOf(w) == MarkerOf(v)) <==>
        OwnKind(scalar, v)
  {
    if Coerce(lax, numbersToStr, scalar, v).Some? {
      var w := Coerce(lax, numbersToStr, scalar, v).value;
      assert MarkerOf(w) == MarkerOf(v) ==> OwnKind(scalar, v);
    }
  }

  /**
   * From anything but text to a number or a boolean: accepted exactly where the scalar has a value equal
   * to it as a number, and that value is the result.
   */
  lemma CoerceNumberIff(lax: Lax, numbersToStr: bool, scalar: Scalar, v: Json, w: Json)
    requires !v.Str? && !scalar.StrScalar?
    ensures Coerce(lax, numbersToStr, scalar, v) == Some(w) <==>
      OwnKind(scalar, w) && NumberOf(v).Some? && NumberOf(w) == NumberOf(v)
  {
  }

  /** To text: text itself, and numbers where the enclosing model asks for it, each in its own numeral. */
  lemma CoerceTextIff(lax: Lax, numbersToStr: bool, v: Json, w: Json)
    ensures Coerce(lax, numbersToStr, StrScalar, v) == Some(w) <==>
      || (v.Str? && w == v)
      || (numbersToStr && v.Int? && w.Str? && IntValue(w.s) == Some(v.n) && w.s == ShowInt(v.n))
      || (numbersToStr && v.Real? && w == Str(lax.showReal(v.x)))
  {
    if v.Int? { ShowIntValue(v.n); }
  }

  /** The integer a numeral with an optional sign stands for. */
  function IntValue(s: string): Option<int> {
    if s != "" && AllDigits(s) then Some(DigitsValue(s))
    else if |s| >= 2 && s[0] == '-' && AllDigits(s[1..]) then Some(-(DigitsValue(s[1..]) as int))
    else None
  }

  lemma ShowIntValue(n: int)
    ensures IntValue(ShowInt(n)) == Some(n)
  {
    DecimalValue(if n < 0 then -n else n);
    if n < 0 {
      var s := ShowInt(n);
      assert s[1..] == Decimal(-n) && s[0] in s;
    }
  }
}
