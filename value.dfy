/**
 * The out-of-line value helpers of value.c. They repeat the masks of the
 * lit.h macros as functions; the contracts below state that they agree.
 */
module Values {
  import opened Lit

  /** The object types a heap object's header can carry (the LitObjType enumeration). */
  datatype ObjType =
    | Undefined | NullType | StringType | FunctionType | NativeFunctionType
    | NativePrimitiveType | NativeMethodType | PrimitiveMethodType | FiberType
    | ModuleType | ClosureType | UpvalueType | ClassType | InstanceType
    | BoundMethodType | ArrayType | MapType | UserdataType | RangeType
    | FieldType | ReferenceType | NumberType | BoolType

  /** lit_value_objectvalue_actual */
  function ObjectValueActual(p: Ptr): (v: Value)
    ensures v == Lit.ObjectValue(p)
    ensures Untagged(p) ==> AsObjectValue(v) == p
  {
    SIGN_BIT | QNAN | p
  }

  /** lit_value_asobject */
  function AsObjectValue(v: Value): (p: Ptr)
    ensures p == Lit.AsObject(v)
  {
    v & !(SIGN_BIT | QNAN)
  }

  /** lit_bool_to_value */
  function BoolToValue(b: bool): (v: Value)
    ensures v == (if b then TRUE_VALUE else FALSE_VALUE)
    ensures IsBoolValue(v) && !IsNumberValue(v) && !IsObjectValue(v)
  {
    if b then TRUE_VALUE else FALSE_VALUE
  }

  /** lit_value_isbool */
  function IsBoolValue(v: Value): (b: bool)
    ensures b <==> Lit.IsBool(v)
  {
    v & FALSE_VALUE == FALSE_VALUE
  }

  /** lit_value_isobject */
  function IsObjectValue(v: Value): (b: bool)
    ensures b <==> Lit.IsObject(v)
  {
    v & (QNAN | SIGN_BIT) == (QNAN | SIGN_BIT)
  }

  /** lit_value_isnumber */
  function IsNumberValue(v: Value): (b: bool)
    ensures b <==> Lit.IsNumber(v)
  {
    v & QNAN != QNAN
  }

  /**
   * lit_value_type: the header type of the object a value points to, read
   * through `header`; UNDEFINED for a value that is no object and for a
   * boxed null pointer.
   */
  function ValueType(v: Value, header: Ptr -> ObjType): (t: ObjType)
    ensures !Lit.IsObject(v) ==> t == Undefined
    ensures Lit.IsObject(v) && Lit.AsObject(v) == 0 ==> t == Undefined
    ensures Lit.IsObject(v) && Lit.AsObject(v) != 0 ==> t == header(Lit.AsObject(v))
  {
    if IsObjectValue(v) then
      var o := AsObjectValue(v);
      if o == 0 then Undefined else header(o)
    else
      Undefined
  }

  /** A double, represented by its binary64 bit pattern. */
  datatype Double = Double(bits: bv64)

  /** lit_value_asnumber: a reinterpretation of the word's bits. */
  function AsNumber(v: Value): Double
  {
    Double(v)
  }

  /** lit_value_numbertovalue: a reinterpretation of the double's bits. */
  function NumberToValue(d: Double): Value
  {
    d.bits
  }

  /** The two reinterpretations are mutually inverse. */
  lemma NumberRoundTrip(v: Value, d: Double)
    ensures NumberToValue(AsNumber(v)) == v
    ensures AsNumber(NumberToValue(d)) == d
  {
  }

  /** What calling the `==` method of an instance gave back. */
  datatype CallOutcome = CallOutcome(ok: bool, result: Value)

  /** The truth test BOOL_VALUE applies to a word: any non-zero word is true. */
  function WordAsCondition(w: Value): bool { w != 0 }

  /**
   * lit_compare_values as written (value.c and libarray.c alike): when the
   * instance's `==` method returns normally, its result word is passed
   * through BOOL_VALUE, which tests the word for non-zero.
   */
  function CompareValuesAsWritten(a: Value, b: Value, aIsInstance: bool, call: CallOutcome): (r: bool)
    ensures !aIsInstance || !call.ok ==> (r <==> a == b)
    ensures aIsInstance && call.ok ==> (r <==> call.result != 0)
  {
    if aIsInstance && call.ok then BoolToValue(WordAsCondition(call.result)) == TRUE_VALUE else a == b
  }

  /** An `==` method that answers `false` still makes the two values compare equal. */
  lemma CompareValuesAsWrittenIgnoresFalse(a: Value, b: Value)
    requires a != b
    ensures CompareValuesAsWritten(a, b, true, CallOutcome(true, FALSE_VALUE))
  {
  }

  /**
   * lit_compare_values as evidently intended: an instance's `==` answer
   * decides, read as the boolean it boxes; otherwise (not an instance, or
   * the call failed) the values are equal iff their words are identical.
   */
  function CompareValues(a: Value, b: Value, aIsInstance: bool, call: CallOutcome): (r: bool)
    ensures !aIsInstance || !call.ok ==> (r <==> a == b)
    ensures aIsInstance && call.ok ==> (r <==> call.result == TRUE_VALUE)
  {
    if aIsInstance && call.ok then AsBool(call.result) else a == b
  }

  /** With the correction, an `==` answering false makes the values unequal, whatever they are. */
  lemma CompareValuesHonoursFalse(a: Value, b: Value)
    ensures !CompareValues(a, b, true, CallOutcome(true, FALSE_VALUE))
  {
  }
}
