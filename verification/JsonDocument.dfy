/**
 The document that rebuilds a value from the events of Accept, on a stack of values.
 */
module JsonDocument {
  import opened Widths
  import opened JsonValue

  /** Names and values as they lie one after the other on the stack. */
  function Flat(ms: seq<Member>): (r: seq<Value>)
    ensures |r| == 2 * |ms|
  {
    seq(2 * |ms|, i requires 0 <= i < 2 * |ms| => if i % 2 == 0 then ms[i / 2].name else ms[i / 2].value)
  }

  /** The same memory read as members. */
  function Members(vs: seq<Value>): (r: seq<Member>)
    requires |vs| % 2 == 0
    ensures |r| == |vs| / 2
  {
    seq(|vs| / 2, i requires 0 <= i < |vs| / 2 => Member(vs[2 * i], vs[2 * i + 1]))
  }

  lemma MembersOfFlat(ms: seq<Member>)
    ensures Members(Flat(ms)) == ms
  {
  }

  lemma FlatAppends(ms: seq<Member>, m: Member)
    ensures Flat(ms + [m]) == Flat(ms) + [m.name, m.value]
  {
  }

  /** The handler half of GenericDocument. */
  class Document {
    var stack: seq<Value>

    constructor ()
      ensures stack == []
    {
      stack := [];
    }

    method Push(v: Value)
      modifies this
      ensures stack == old(stack) + [v]
    {
      stack := stack + [v];
    }

    method NullEvent()
      modifies this
      ensures stack == old(stack) + [Null]
    {
      Push(Null);
    }

    method BoolEvent(b: bool)
      modifies this
      ensures stack == old(stack) + [Bool(b)]
    {
      Push(Bool(b));
    }

    method IntEvent(i: int)
      requires -TWO31 <= i < TWO31
      modifies this
      ensures stack == old(stack) + [FromInt(i)]
    {
      Push(FromInt(i));
    }

    method UintEvent(u: int)
      requires 0 <= u < TWO32
      modifies this
      ensures stack == old(stack) + [FromUint(u)]
    {
      Push(FromUint(u));
    }

    method Int64Event(i: int)
      requires -TWO63 <= i < TWO63
      modifies this
      ensures stack == old(stack) + [FromInt64(i)]
    {
      Push(FromInt64(i));
    }

    method Uint64Event(u: int)
      requires 0 <= u < TWO64
      modifies this
      ensures stack == old(stack) + [FromUint64(u)]
    {
      Push(FromUint64(u));
    }

    method DoubleEvent(bits: nat)
      modifies this
      ensures stack == old(stack) + [FromDouble(bits)]
    {
      Push(FromDouble(bits));
    }

    method StringEvent(s: string, copy: bool)
      modifies this
      ensures stack == old(stack) + [if copy then CopyOf(s) else String(s, Const)]
    {
      if copy {
        Push(CopyOf(s));
      } else {
        Push(String(s, Const));
      }
    }

    method StartObject()
      modifies this
      ensures stack == old(stack) + [Object([])]
    {
      Push(Object([]));
    }

    /** Pops the members and stores them in the value below. */
    method EndObject(memberCount: nat)
      requires 2 * memberCount < |stack|
      modifies this
      ensures var n := |old(stack)| - 2 * memberCount;
        stack == old(stack)[..n - 1] + [Object(Members(old(stack)[n..]))]
    {
      var n := |stack| - 2 * memberCount;
      var members := Members(stack[n..]);
      stack := stack[..n];
      stack := stack[..n - 1] + [Object(members)];
    }

    method StartArray()
      modifies this
      ensures stack == old(stack) + [Array([])]
    {
      Push(Array([]));
    }

    method EndArray(elementCount: nat)
      requires elementCount < |stack|
      modifies this
      ensures var n := |old(stack)| - elementCount;
        stack == old(stack)[..n - 1] + [Array(old(stack)[n..])]
    {
      var n := |stack| - elementCount;
      var elements := stack[n..];
      stack := stack[..n];
      stack := stack[..n - 1] + [Array(elements)];
    }
  }

  // ---------------------------------------------------------------------------
  // Accept, driving a document
  // ---------------------------------------------------------------------------

  /** The number that the first matching flag reads from the union and sends to the handler. */
  function RebuiltNumber(flags: NumberFlags, raw: nat): Value
    requires raw < TWO64
  {
    if flags.isInt then FromInt(AsInt(raw))
    else if flags.isUint then FromUint(AsUint(raw))
    else if flags.isInt64 then FromInt64(AsInt64(raw))
    else if flags.isUint64 then FromUint64(raw)
    else FromDouble(raw)
  }

  /** What a document holds after the events of `v`. */
  function Rebuilt(v: Value): (r: Value)
    requires RawsFit(v)
  {
    match v
    case Null => Null
    case Bool(b) => Bool(b)
    case Number(flags, raw) => RebuiltNumber(flags, raw)
    case String(s, kind) => if kind == Const then v else CopyOf(s)
    case Array(es) => Array(seq(|es|, i requires 0 <= i < |es| => Rebuilt(es[i])))
    case Object(ms) => Object(seq(|ms|, i requires 0 <= i < |ms| => Member(Rebuilt(ms[i].name), Rebuilt(ms[i].value))))
  }

  /** Numbers are eight bytes and names are strings, which Accept asserts. */
  predicate RawsFit(v: Value) {
    match v
    case Number(_, raw) => raw < TWO64
    case Array(es) => forall i :: 0 <= i < |es| ==> RawsFit(es[i])
    case Object(ms) => forall i :: 0 <= i < |ms| ==> ms[i].name.String? && RawsFit(ms[i].name) && RawsFit(ms[i].value)
    case _ => true
  }

  /** The events of `v`: the stack keeps what it held and gains exactly one value. */
  method Accept(v: Value, d: Document)
    requires RawsFit(v)
    modifies d
    ensures d.stack == old(d.stack) + [Rebuilt(v)]
    decreases v
  {
    match v
    case Null => d.NullEvent();
    case Bool(b) => d.BoolEvent(b);
    case Object(ms) =>
      d.StartObject();
      ghost var start := d.stack;
      ghost var done := Rebuilt(v).members;
      for i := 0 to |ms|
        invariant d.stack == start + Flat(done[..i])
      {
        var name := ms[i].name;
        d.StringEvent(name.chars, name.kind != Const);
        Accept(ms[i].value, d);
        FlatAppends(done[..i], done[i]);
        assert done[..i + 1] == done[..i] + [done[i]];
      }
      assert done[..|ms|] == done;
      MembersOfFlat(done);
      assert d.stack[|start|..] == Flat(done);
      d.EndObject(|ms|);
    case Array(es) =>
      d.StartArray();
      ghost var start := d.stack;
      ghost var done := Rebuilt(v).elements;
      for i := 0 to |es|
        invariant d.stack == start + done[..i]
      {
        Accept(es[i], d);
        assert done[..i + 1] == done[..i] + [done[i]];
      }
      assert done[..|es|] == done;
      assert d.stack[|start|..] == done;
      d.EndArray(|es|);
    case String(s, kind) => d.StringEvent(s, kind != Const);
    case Number(flags, raw) =>
      if flags.isInt {
        d.IntEvent(AsInt(raw));
      } else if flags.isUint {
        d.UintEvent(AsUint(raw));
      } else if flags.isInt64 {
        d.Int64Event(AsInt64(raw));
      } else if flags.isUint64 {
        d.Uint64Event(raw);
      } else {
        d.DoubleEvent(raw);
      }
  }

  lemma {:induction false} ConstructedFits(v: Value)
    requires Constructed(v)
    ensures RawsFit(v)
  {
    match v
    case Array(es) =>
      forall i | 0 <= i < |es| ensures RawsFit(es[i]) { ConstructedFits(es[i]); }
    case Object(ms) =>
      forall i | 0 <= i < |ms| ensures RawsFit(ms[i].value) { ConstructedFits(ms[i].value); }
    case _ =>
  }

  lemma NumberSurvives(v: Value)
    requires v.Number? && ConstructedNumber(v)
    ensures RebuiltNumber(v.flags, v.raw) == v <==> v != NUMBER_ANY
  {
    if n :| -TWO63 <= n < TWO64 && v == Integer(n) {
      UnionReads(n);
      ConstructorsAgree(n);
    }
  }

  /**
   The value on the stack is the one that was sent, except that a number of type kNumberType
   with default content loses its double flag.
   */
  lemma {:induction false} RebuiltIsSameIff(v: Value)
    requires Constructed(v)
    ensures RawsFit(v)
    ensures Rebuilt(v) == v <==> NoDefaultNumber(v)
  {
    ConstructedFits(v);
    match v
    case Number(_, _) => NumberSurvives(v);
    case Array(es) =>
      forall i | 0 <= i < |es| ensures Rebuilt(es[i]) == es[i] <==> NoDefaultNumber(es[i]) { RebuiltIsSameIff(es[i]); }
      if Rebuilt(v) == v {
        forall i | 0 <= i < |es| ensures NoDefaultNumber(es[i]) { assert Rebuilt(v).elements[i] == Rebuilt(es[i]); }
      }
      if NoDefaultNumber(v) { assert Rebuilt(v).elements == es; }
    case Object(ms) =>
      forall i | 0 <= i < |ms| ensures Rebuilt(ms[i].value) == ms[i].value <==> NoDefaultNumber(ms[i].value) {
        RebuiltIsSameIff(ms[i].value);
      }
      if Rebuilt(v) == v {
        forall i | 0 <= i < |ms| ensures NoDefaultNumber(ms[i].value) {
          assert Rebuilt(v).members[i] == Member(Rebuilt(ms[i].name), Rebuilt(ms[i].value));
        }
      }
      if NoDefaultNumber(v) { assert Rebuilt(v).members == ms; }
    case _ =>
  }

  // ---------------------------------------------------------------------------
  // The deep-copy constructor
  // ---------------------------------------------------------------------------

  function Copied(v: Value): Value
    requires RawsFit(v)
  {
    match v
    case Object(_) => Rebuilt(v)
    case Array(_) => Rebuilt(v)
    case String(s, kind) => if kind == Const then v else CopyOf(s)
    case _ => v
  }

  /** Containers are copied through a document of their own, everything else directly. */
  method DeepCopy(v: Value) returns (r: Value)
    requires RawsFit(v)
    ensures r == Copied(v)
  {
    match v
    case Object(_) =>
      var d := new Document();
      Accept(v, d);
      r := d.stack[|d.stack| - 1];
    case Array(_) =>
      var d := new Document();
      Accept(v, d);
      r := d.stack[|d.stack| - 1];
    case String(s, kind) =>
      if kind == Const {
        r := v;
      } else {
        r := CopyOf(s);
      }
    case _ =>
      r := v;
  }

  /** A copy equals its source, unless a default number lies inside a container. */
  lemma CopyIsSameIff(v: Value)
    requires Constructed(v)
    ensures RawsFit(v)
    ensures Copied(v) == v <==> v.Number? || NoDefaultNumber(v)
  {
    RebuiltIsSameIff(v);
  }

  /** The copy of [number 0 by default] is no longer a double. */
  lemma DefaultNumberInArray()
    ensures Constructed(Array([NUMBER_ANY]))
    ensures Copied(Array([NUMBER_ANY])) == Array([Integer(0)])
    ensures NUMBER_ANY.flags.isDouble && !Integer(0).flags.isDouble
  {
    assert Constructed(NUMBER_ANY);
    ConstructedFits(Array([NUMBER_ANY]));
    assert AsInt(0) == 0 && FromInt(0) == Integer(0);
    assert Rebuilt(NUMBER_ANY) == Integer(0);
  }
}
