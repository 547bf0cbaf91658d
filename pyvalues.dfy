/** The Python values a parameter dictionary or a property map can hold, and
    `isinstance` against the four types the parameter code knows about. */
module PyValues {
  import opened Wrappers

  /** A JSON/Python value. `Other` stands for every value of another type
      (`None`, a list, a dictionary), named by its type. Python floats are modelled
      as reals. */
  datatype Value =
    | Int(i: int)
    | Float(f: real)
    | Bool(b: bool)
    | Str(s: string)
    | Other(kind: string)

  datatype PyType = IntType | FloatType | BoolType | StrType

  /** `allowed_types = [int, float, bool, str]` in `make_type_dict`. */
  const AllowedTypes: seq<PyType> := [IntType, FloatType, BoolType, StrType]

  /** `isinstance(v, t)`. In Python `bool` is a subclass of `int`, so a boolean is
      also an instance of `int`. */
  predicate IsInstance(v: Value, t: PyType)
  {
    match t
    case IntType => v.Int? || v.Bool?
    case FloatType => v.Float?
    case BoolType => v.Bool?
    case StrType => v.Str?
  }

  /** The type `make_type_dict` records for a value: the last entry of
      `AllowedTypes` the value is an instance of, or nothing when there is none. */
  function RecordedType(v: Value): (r: Option<PyType>)
    ensures r.Some? ==> IsInstance(v, r.value)
    ensures r.None? <==> forall j :: 0 <= j < |AllowedTypes| ==> !IsInstance(v, AllowedTypes[j])
  {
    match v
    case Int(_) => assert IsInstance(v, AllowedTypes[0]); Some(IntType)
    case Float(_) => assert IsInstance(v, AllowedTypes[1]); Some(FloatType)
    case Bool(_) => assert IsInstance(v, AllowedTypes[2]); Some(BoolType)
    case Str(_) => assert IsInstance(v, AllowedTypes[3]); Some(StrType)
    case Other(_) => None
  }

  /** `RecordedType` is the last match in `AllowedTypes`: it is entry `j` exactly when
      the value is an instance of entry `j` and of no entry after it. */
  lemma RecordedTypeIsLastMatch(v: Value, j: nat)
    requires j < |AllowedTypes|
    ensures RecordedType(v) == Some(AllowedTypes[j]) <==>
              IsInstance(v, AllowedTypes[j]) && forall l :: j < l < |AllowedTypes| ==> !IsInstance(v, AllowedTypes[l])
  {
    assert AllowedTypes[0] == IntType && AllowedTypes[1] == FloatType;
    assert AllowedTypes[2] == BoolType && AllowedTypes[3] == StrType;
  }

  /** A value that is an instance of the type recorded for `w` is an instance of every
      type `w` is an instance of: replacing `w` by it keeps any type constraint `w` met. */
  lemma InstanceOfRecordedType(v: Value, w: Value, t: PyType)
    requires RecordedType(w).Some? && IsInstance(v, RecordedType(w).value)
    requires IsInstance(w, t)
    ensures IsInstance(v, t)
  {
  }
}
