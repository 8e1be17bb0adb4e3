/**
 * The D-Bus type tree of dbusapi/types.py.
 *
 * Every class of that file is a value: its constructor sets three constant
 * attributes (the one-character type code, the upper-case name and the
 * marshalling alignment) and, for containers, an empty `members` list that
 * only the signature parser fills.  The abstract bases `Type` and
 * `Container` are never instantiated; here they are the datatype itself.
 */
module Types {
  import opened Wrappers

  datatype DBusType =
    | Byte | Boolean | Int16 | UInt16 | Int32 | UInt32 | Int64 | UInt64
    | Double | String | ObjectPath | Signature | Variant | UnixFD
    | Array(members: seq<DBusType>)
    | Struct(members: seq<DBusType>)
    | DictEntry(members: seq<DBusType>)

  /** An ordered list of top-level types: a whole signature string. */
  datatype TypeSignature = TypeSignature(members: seq<DBusType>)

  predicate IsBasic(t: DBusType) {
    !(t.Array? || t.Struct? || t.DictEntry?)
  }

  /** The `type` attribute. */
  function TypeCode(t: DBusType): char {
    match t
    case Byte => 'y'
    case Boolean => 'b'
    case Int16 => 'n'
    case UInt16 => 'q'
    case Int32 => 'i'
    case UInt32 => 'u'
    case Int64 => 'x'
    case UInt64 => 't'
    case Double => 'd'
    case String => 's'
    case ObjectPath => 'o'
    case Signature => 'g'
    case Variant => 'v'
    case UnixFD => 'h'
    case Array(_) => 'a'
    case Struct(_) => 'r'
    case DictEntry(_) => 'e'
  }

  /** The `name` attribute. */
  function Name(t: DBusType): string {
    match t
    case Byte => "BYTE"
    case Boolean => "BOOLEAN"
    case Int16 => "INT16"
    case UInt16 => "UINT16"
    case Int32 => "INT32"
    case UInt32 => "UINT32"
    case Int64 => "INT64"
    case UInt64 => "UINT64"
    case Double => "DOUBLE"
    case String => "STRING"
    case ObjectPath => "OBJECT_PATH"
    case Signature => "SIGNATURE"
    case Variant => "VARIANT"
    case UnixFD => "UNIX_FD"
    case Array(_) => "ARRAY"
    case Struct(_) => "STRUCT"
    case DictEntry(_) => "DICT_ENTRY"
  }

  /** The `alignment` attribute, in bytes. */
  function Alignment(t: DBusType): nat {
    match t
    case Byte => 1
    case Boolean => 4
    case Int16 => 2
    case UInt16 => 2
    case Int32 => 4
    case UInt32 => 4
    case Int64 => 8
    case UInt64 => 8
    case Double => 8
    case String => 4
    case ObjectPath => 4
    case Signature => 1
    case Variant => 1
    case UnixFD => 4
    case Array(_) => 4
    case Struct(_) => 8
    case DictEntry(_) => 8
  }

  /** The `members` list; a basic type has none. */
  function Members(t: DBusType): seq<DBusType> {
    if IsBasic(t) then [] else t.members
  }

  /** The fourteen basic type codes, in the order the parser tests them. */
  const BasicCodes: string := "ybnqiuxtdsogvh"

  /** The parser's chain of basic-code tests: the leaf `c` stands for, if any. */
  function BasicOfCode(c: char): Option<DBusType> {
    match c
    case 'y' => Some(Byte)
    case 'b' => Some(Boolean)
    case 'n' => Some(Int16)
    case 'q' => Some(UInt16)
    case 'i' => Some(Int32)
    case 'u' => Some(UInt32)
    case 'x' => Some(Int64)
    case 't' => Some(UInt64)
    case 'd' => Some(Double)
    case 's' => Some(String)
    case 'o' => Some(ObjectPath)
    case 'g' => Some(Signature)
    case 'v' => Some(Variant)
    case 'h' => Some(UnixFD)
    case _ => None
  }

  /** A code the chain accepts builds a leaf with that very code. */
  lemma BasicOfCodeSound(c: char)
    ensures BasicOfCode(c).Some? ==>
      IsBasic(BasicOfCode(c).value) && TypeCode(BasicOfCode(c).value) == c
  {
  }

  /** Every basic type is found again from its own code. */
  lemma BasicCodeRoundTrip(t: DBusType)
    requires IsBasic(t)
    ensures TypeCode(t) in BasicCodes
    ensures BasicOfCode(TypeCode(t)) == Some(t)
  {
  }

  /** The chain accepts exactly the fourteen basic codes. */
  lemma BasicCodesAccepted(c: char)
    ensures BasicOfCode(c).Some? <==> c in BasicCodes
  {
    if BasicOfCode(c).Some? {
      BasicCodeRoundTrip(BasicOfCode(c).value);
    }
  }

  /** The basic type codes are pairwise distinct. */
  lemma BasicCodesDistinct(a: DBusType, b: DBusType)
    requires IsBasic(a) && IsBasic(b) && a != b
    ensures TypeCode(a) != TypeCode(b)
  {
    BasicCodeRoundTrip(a);
    BasicCodeRoundTrip(b);
  }

  /**
   * `__eq__` compares the class and the attribute dictionary (type, name,
   * alignment and, for containers, members).  Dafny's structural equality
   * on the datatype is exactly that comparison.
   */
  lemma EqualityIsStructural(a: DBusType, b: DBusType)
    ensures a == b <==>
      TypeCode(a) == TypeCode(b) && Name(a) == Name(b) &&
      Alignment(a) == Alignment(b) && Members(a) == Members(b)
  {
    if TypeCode(a) == TypeCode(b) && Members(a) == Members(b) {
      if IsBasic(a) && IsBasic(b) {
        BasicCodeRoundTrip(a);
        BasicCodeRoundTrip(b);
      }
    }
  }

  /** `str(t)`: the `__str__` of each class. */
  function Render(t: DBusType): string {
    match t
    case Array(ms) => "a" + (if |ms| > 0 then Render(ms[0]) else "?")
    case Struct(ms) => "(" + RenderAll(ms) + ")"
    case DictEntry(ms) =>
      "{" + (if |ms| > 0 then Render(ms[0]) else "?")
          + (if |ms| > 1 then Render(ms[1]) else "?") + "}"
    case _ => [TypeCode(t)]
  }

  /** `"".join(map(str, members))`. */
  function RenderAll(ts: seq<DBusType>): string {
    if ts == [] then "" else Render(ts[0]) + RenderAll(ts[1..])
  }

  /** `str` of a `TypeSignature`. */
  function RenderSignature(sig: TypeSignature): string {
    RenderAll(sig.members)
  }

  /**
   * `str(t)` as written.  The guards of `DictEntry.__str__`,
   * `self.members > 0` and `self.members > 1`, compare a list with an
   * integer; under Python 2 a list always compares greater than a number, so
   * both guards hold and `members[0]`, `members[1]` are read unconditionally.
   * `None` stands for the IndexError raised when an entry anywhere in the
   * tree has fewer than two members; `Array` and `Struct` pass on the error
   * of a member they render.
   */
  function RenderAsWritten(t: DBusType): (r: Option<string>)
    ensures r.Some? ==> r.value == Render(t)
  {
    match t
    case Array(ms) =>
      if |ms| > 0 then
        (var m := RenderAsWritten(ms[0]); if m.Some? then Some("a" + m.value) else None)
      else Some("a?")
    case Struct(ms) =>
      var inner := RenderAllAsWritten(ms);
      if inner.Some? then Some("(" + inner.value + ")") else None
    case DictEntry(ms) =>
      if |ms| < 2 then None
      else
        var key := RenderAsWritten(ms[0]);
        var val := RenderAsWritten(ms[1]);
        if key.Some? && val.Some? then Some("{" + key.value + val.value + "}") else None
    case _ => Some([TypeCode(t)])
  }

  /** `"".join(map(str, members))` with the as-written `__str__`: the first error is passed on. */
  function RenderAllAsWritten(ts: seq<DBusType>): (r: Option<string>)
    ensures r.Some? ==> r.value == RenderAll(ts)
  {
    if ts == [] then Some("")
    else
      var head := RenderAsWritten(ts[0]);
      var tail := RenderAllAsWritten(ts[1..]);
      if head.Some? && tail.Some? then Some(head.value + tail.value) else None
  }

  /** `str` of a `TypeSignature`, with the as-written `DictEntry.__str__`. */
  function RenderSignatureAsWritten(sig: TypeSignature): (r: Option<string>)
    ensures r.Some? ==> r.value == RenderSignature(sig)
  {
    RenderAllAsWritten(sig.members)
  }

  /** A dict entry with fewer than two members renders with `?` placeholders instead of raising. */
  lemma ShortDictEntryRendersPlaceholders(ms: seq<DBusType>)
    requires |ms| < 2
    ensures RenderAsWritten(DictEntry(ms)) == None
    ensures Render(DictEntry(ms)) ==
      if ms == [] then "{??}" else "{" + Render(ms[0]) + "?}"
  {
  }

  lemma {:induction false} RenderAllAppend(a: seq<DBusType>, b: seq<DBusType>)
    ensures RenderAll(a + b) == RenderAll(a) + RenderAll(b)
  {
    if a == [] {
      assert a + b == b;
    } else {
      assert (a + b)[1..] == a[1..] + b;
      RenderAllAppend(a[1..], b);
    }
  }

  /**
   * Shape the parser guarantees: an array holds exactly one member and a
   * dict entry at most two; structs and the signature hold any number.
   */
  predicate Shaped(t: DBusType) {
    match t
    case Array(ms) => |ms| == 1 && AllShaped(ms)
    case Struct(ms) => AllShaped(ms)
    case DictEntry(ms) => |ms| <= 2 && AllShaped(ms)
    case _ => true
  }

  predicate AllShaped(ts: seq<DBusType>) {
    forall i :: 0 <= i < |ts| ==> Shaped(ts[i])
  }

  /** Every dict entry in the tree has exactly a key and a value. */
  predicate DictsPaired(t: DBusType) {
    match t
    case DictEntry(ms) => |ms| == 2 && AllDictsPaired(ms)
    case Array(ms) => AllDictsPaired(ms)
    case Struct(ms) => AllDictsPaired(ms)
    case _ => true
  }

  predicate AllDictsPaired(ts: seq<DBusType>) {
    forall i :: 0 <= i < |ts| ==> DictsPaired(ts[i])
  }

  /**
   * On the trees the parser builds, the as-written rendering succeeds
   * exactly when every dict entry has both a key and a value.
   */
  lemma {:induction false} AsWrittenRendersExactlyPaired(t: DBusType)
    requires Shaped(t)
    ensures RenderAsWritten(t).Some? <==> DictsPaired(t)
  {
    match t
    case Array(ms) =>
      AsWrittenRendersExactlyPaired(ms[0]);
      assert AllDictsPaired(ms) <==> DictsPaired(ms[0]);
    case Struct(ms) =>
      AllAsWrittenRendersExactlyPaired(ms);
    case DictEntry(ms) =>
      if |ms| == 2 {
        AsWrittenRendersExactlyPaired(ms[0]);
        AsWrittenRendersExactlyPaired(ms[1]);
        assert AllDictsPaired(ms) <==> DictsPaired(ms[0]) && DictsPaired(ms[1]);
      }
    case _ =>
  }

  /** The same for a member list. */
  lemma {:induction false} AllAsWrittenRendersExactlyPaired(ts: seq<DBusType>)
    requires AllShaped(ts)
    ensures RenderAllAsWritten(ts).Some? <==> AllDictsPaired(ts)
  {
    if ts != [] {
      AsWrittenRendersExactlyPaired(ts[0]);
      AllAsWrittenRendersExactlyPaired(ts[1..]);
      assert AllShaped(ts[1..]);
      assert AllDictsPaired(ts) <==> DictsPaired(ts[0]) && AllDictsPaired(ts[1..]);
    }
  }

  /**
   * The alignment table of the D-Bus Specification, section "Marshaling
   * (Wire Format)", indexed by signature code (`r` and `e` stand for
   * STRUCT and DICT_ENTRY).
   */
  function WireAlignment(code: char): nat {
    if code in "ygv" then 1
    else if code in "nq" then 2
    else if code in "biusoha" then 4
    else if code in "xtdre" then 8
    else 0
  }

  lemma AlignmentMatchesWireFormat(t: DBusType)
    ensures Alignment(t) == WireAlignment(TypeCode(t))
  {
  }
}
