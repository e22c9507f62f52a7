/**
  The names of the GL core data types (scm_gl_core/src/scm/gl_core/data_types.cpp).

  The table is a constant array of strings indexed by the `data_type`
  enumeration. Its contents depend on the OpenGL 4.0 configuration flag:
  with it, the thirteen double-precision names sit between the float block
  and the integer block. The flag is a parameter here (`gl40`).
*/
module DataTypes {

  /** "FLOAT" .. "MAT4X3F": the thirteen single-precision names. */
  const FloatNames: seq<string> := [
    "FLOAT", "VEC2F", "VEC3F", "VEC4F",
    "MAT2F", "MAT3F", "MAT4F",
    "MAT2X3F", "MAT2X4F", "MAT3X2F", "MAT3X4F", "MAT4X2F", "MAT4X3F"]

  /** "DOUBLE" .. "MAT4X3D": the thirteen double-precision names, present only with OpenGL 4.0. */
  const DoubleNames: seq<string> := [
    "DOUBLE", "VEC2D", "VEC3D", "VEC4D",
    "MAT2D", "MAT3D", "MAT4D",
    "MAT2X3D", "MAT2X4D", "MAT3X2D", "MAT3X4D", "MAT4X2D", "MAT4X3D"]

  /** "INT" .. "UBYTE": the integer, boolean and small scalar names that close the table. */
  const IntegerNames: seq<string> := [
    "INT", "VEC2I", "VEC3I", "VEC4I",
    "UINT", "VEC2UI", "VEC3UI", "VEC4UI",
    "BOOL", "VEC2B", "VEC3B", "VEC4B",
    "SHORT",
    "USHORT",
    "BYTE",
    "UBYTE"]

  /** The `type_strings` array for the given configuration. */
  function TypeStrings(gl40: bool): seq<string>
  {
    ["UNKNOWN"] + FloatNames + (if gl40 then DoubleNames else []) + IntegerNames
  }

  /** The number of entries of the table: the valid range of `data_type` ends here (TYPE_COUNT). */
  function TypeCount(gl40: bool): (n: nat)
    ensures n == if gl40 then 43 else 30
    ensures n == |TypeStrings(gl40)|
  {
    |TypeStrings(gl40)|
  }

  /**
    type_string(d): the name of data type d. The source asserts
    TYPE_UNKNOWN <= d < TYPE_COUNT, so the index is a precondition. Only
    TYPE_UNKNOWN is called "UNKNOWN", and only the last type is called "UBYTE".
  */
  function TypeString(gl40: bool, d: int): (s: string)
    requires 0 <= d < TypeCount(gl40)
    ensures s in TypeStrings(gl40)
    ensures s == "UNKNOWN" <==> d == 0
    ensures s == "UBYTE" <==> d == TypeCount(gl40) - 1
  {
    UnknownAndUbyteOnce(gl40, d);
    TypeStrings(gl40)[d]
  }

  /** "UNKNOWN" is the only seven-letter name that starts with 'U'; "UBYTE" the only five-letter one. */
  lemma UnknownAndUbyteOnce(gl40: bool, d: int)
    requires 0 <= d < |TypeStrings(gl40)|
    ensures TypeStrings(gl40)[d] == "UNKNOWN" <==> d == 0
    ensures TypeStrings(gl40)[d] == "UBYTE" <==> d == |TypeStrings(gl40)| - 1
  {
    var s := TypeStrings(gl40)[d];
    if s == "UNKNOWN" || s == "UBYTE" {
      assert s[0] == 'U';
    }
  }

  /** The fixed entries: "UNKNOWN" first, the float block next, "UBYTE" last, in both configurations. */
  lemma TableLayout(gl40: bool)
    ensures TypeString(gl40, 0) == "UNKNOWN"
    ensures forall k :: 0 <= k < 13 ==> TypeString(gl40, 1 + k) == FloatNames[k]
    ensures TypeString(gl40, 13) == "MAT4X3F"
    ensures TypeString(gl40, TypeCount(gl40) - 1) == "UBYTE"
  {
  }

  /**
    Without OpenGL 4.0 "INT" follows "MAT4X3F"; with it the double block
    comes first, so every type after the float block moves up by 13.
  */
  lemma DoubleBlockShift()
    ensures TypeString(false, 14) == "INT"
    ensures TypeString(true, 14) == "DOUBLE"
    ensures forall d :: 0 <= d < 14 ==> TypeString(true, d) == TypeString(false, d)
    ensures forall d :: 14 <= d < 30 ==> TypeString(true, d + 13) == TypeString(false, d)
    ensures forall k :: 0 <= k < 13 ==> TypeString(true, 14 + k) == DoubleNames[k]
  {
    assert TypeStrings(true) == TypeStrings(false)[..14] + DoubleNames + TypeStrings(false)[14..];
  }
}
