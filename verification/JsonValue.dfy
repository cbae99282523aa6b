/**
 rapidjson's value tree: what a GenericValue holds in its flags and data.
 */
module JsonValue {
  import opened Widths

  /** kIntFlag, kUintFlag, kInt64Flag, kUint64Flag and kDoubleFlag. */
  datatype NumberFlags = NumberFlags(isInt: bool, isUint: bool, isInt64: bool, isUint64: bool, isDouble: bool)

  /** kConstStringFlag, kCopyStringFlag and kShortStringFlag; only the first lacks the copy bit. */
  datatype StringKind = Const | Copy | Short

  /** A number's `raw` is the eight bytes of the union that int, unsigned, int64, uint64 and double share. */
  datatype Value =
    | Null
    | Bool(b: bool)
    | Number(flags: NumberFlags, raw: nat)
    | String(chars: string, kind: StringKind)
    | Array(elements: seq<Value>)
    | Object(members: seq<Member>)

  datatype Member = Member(name: Value, value: Value)

  // ---------------------------------------------------------------------------
  // Numbers
  // ---------------------------------------------------------------------------

  /** The members of the union, read from the same eight bytes. */
  function AsInt(raw: nat): int { var x := raw % TWO32; if x < TWO31 then x else x - TWO32 }
  function AsUint(raw: nat): nat { raw % TWO32 }
  function AsInt64(raw: nat): int { if raw < TWO63 then raw else raw - TWO64 }

  /** Storing a signed number through the 64-bit member. */
  function RawOf(i: int): nat
    requires -TWO63 <= i < TWO64
  {
    if i < 0 then i + TWO64 else i
  }

  function FromInt(i: int): Value
    requires -TWO31 <= i < TWO31
  {
    Number(NumberFlags(true, i >= 0, true, i >= 0, false), RawOf(i))
  }

  /** The test `u & 0x80000000` looks at bit 31. */
  function FromUint(u: int): Value
    requires 0 <= u < TWO32
  {
    Number(NumberFlags(u / TWO31 == 0, true, true, true, false), RawOf(u))
  }

  /** The masks 0xFFFFFFFF00000000 and 0xFFFFFFFF80000000 keep the bits from 32 and from 31 on. */
  function FromInt64(i: int): Value
    requires -TWO63 <= i < TWO63
  {
    if i >= 0 then
      Number(NumberFlags(i / TWO31 == 0, i / TWO32 == 0, true, true, false), RawOf(i))
    else
      Number(NumberFlags(i >= -TWO31, false, true, false, false), RawOf(i))
  }

  function FromUint64(u: int): Value
    requires 0 <= u < TWO64
  {
    Number(NumberFlags(u / TWO31 == 0, u / TWO32 == 0, u / TWO63 == 0, true, false), RawOf(u))
  }

  function FromDouble(bits: nat): Value { Number(NumberFlags(false, false, false, false, true), bits) }

  /** The value of type kNumberType with default content: zero, with every number flag set. */
  const NUMBER_ANY := Number(NumberFlags(true, true, true, true, true), 0)

  /** An integer as a value: each flag says whether the number fits that type. */
  function Integer(n: int): Value
    requires -TWO63 <= n < TWO64
  {
    Number(NumberFlags(-TWO31 <= n < TWO31, 0 <= n < TWO32, n < TWO63, 0 <= n, false), RawOf(n))
  }

  /** Which of the four integer constructors was used cannot be seen afterwards. */
  lemma ConstructorsAgree(n: int)
    ensures -TWO31 <= n < TWO31 ==> FromInt(n) == Integer(n)
    ensures 0 <= n < TWO32 ==> FromUint(n) == Integer(n)
    ensures -TWO63 <= n < TWO63 ==> FromInt64(n) == Integer(n)
    ensures 0 <= n < TWO64 ==> FromUint64(n) == Integer(n)
  {
  }

  /** The union member that the flags select holds the number that was stored. */
  lemma UnionReads(n: int)
    requires -TWO63 <= n < TWO64
    ensures -TWO31 <= n < TWO31 ==> AsInt(RawOf(n)) == n
    ensures 0 <= n < TWO32 ==> AsUint(RawOf(n)) == n
    ensures n < TWO63 ==> AsInt64(RawOf(n)) == n
    ensures 0 <= n ==> RawOf(n) == n
  {
    if -TWO31 <= n < 0 {
      assert RawOf(n) == (n + TWO32) + TWO32 * (TWO32 - 1);
      assert RawOf(n) % TWO32 == n + TWO32;
    }
  }

  // ---------------------------------------------------------------------------
  // Strings
  // ---------------------------------------------------------------------------

  /** ShortString::MaxSize where pointers are eight bytes wide. */
  const MAX_SIZE: nat := 15

  /** SetStringRaw with an allocator: inline when it fits, else in allocated memory. */
  function CopyOf(s: string): Value { String(s, if |s| <= MAX_SIZE then Short else Copy) }

  // ---------------------------------------------------------------------------
  // Values that the constructors make
  // ---------------------------------------------------------------------------

  ghost predicate ConstructedNumber(v: Value)
    requires v.Number?
  {
    || v == NUMBER_ANY
    || (exists n :: -TWO63 <= n < TWO64 && v == Integer(n))
    || (v.raw < TWO64 && v == FromDouble(v.raw))
  }

  /** Every value that the constructors make, with strings for member names. */
  ghost predicate Constructed(v: Value) {
    match v
    case Null => true
    case Bool(_) => true
    case Number(_, _) => ConstructedNumber(v)
    case String(s, kind) => kind == Const || v == CopyOf(s)
    case Array(es) => forall i :: 0 <= i < |es| ==> Constructed(es[i])
    case Object(ms) =>
      forall i :: 0 <= i < |ms| ==> ms[i].name.String? && Constructed(ms[i].name) && Constructed(ms[i].value)
  }

  /** The numbers in the tree all say what they are: none is kNumberType by default. */
  ghost predicate NoDefaultNumber(v: Value) {
    match v
    case Array(es) => forall i :: 0 <= i < |es| ==> NoDefaultNumber(es[i])
    case Object(ms) => forall i :: 0 <= i < |ms| ==> NoDefaultNumber(ms[i].value)
    case _ => v != NUMBER_ANY
  }
}
