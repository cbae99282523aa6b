/**
 Socket.IO messages as JSON: binary leaves become numbered placeholders, and the attachments
 travel beside the text.
 */
module SioMessage {
  import opened Widths
  import opened Text
  import opened JsonValue

  /**
   A message tree. An object is its std::map in iteration order: keys and values side by side.
   Absent is the null pointer that from_json returns for what it does not understand.
   */
  datatype Message =
    | MNull
    | MBool(b: bool)
    | MInt(n: int)
    | MDouble(bits: nat)
    | MString(s: string)
    | MBinary(data: string)
    | MArray(elements: seq<Message>)
    | MObject(keys: seq<string>, values: seq<Message>)
    | Absent

  const PLACEHOLDER: string := "_placeholder"

  /** operator< of std::string: by characters, a prefix before what it is a prefix of. */
  predicate Less(a: string, b: string) {
    if b == "" then false
    else if a == "" then true
    else a[0] < b[0] || (a[0] == b[0] && Less(a[1..], b[1..]))
  }

  /** The keys of a std::map in iteration order. */
  ghost predicate Ascending(keys: seq<string>) {
    forall i, j :: 0 <= i < j < |keys| ==> Less(keys[i], keys[j])
  }

  /** The trees a program can build: no null pointers inside, 64-bit numbers, maps in order. */
  ghost predicate Valid(m: Message) {
    match m
    case MInt(n) => -TWO63 <= n < TWO63
    case MDouble(bits) => bits < TWO64
    case MArray(ms) => forall i :: 0 <= i < |ms| ==> Valid(ms[i])
    case MObject(ks, ms) => |ks| == |ms| && Ascending(ks) && forall i :: 0 <= i < |ms| ==> Valid(ms[i])
    case Absent => false
    case _ => true
  }

  // ---------------------------------------------------------------------------
  // Encoding
  // ---------------------------------------------------------------------------

  /** The binary leaves in traversal order. */
  function Leaves(m: Message): seq<string>
    decreases m, 1
  {
    match m
    case MBinary(data) => [data]
    case MArray(ms) => LeavesOf(ms)
    case MObject(_, ms) => LeavesOf(ms)
    case _ => []
  }

  function LeavesOf(ms: seq<Message>): seq<string>
    decreases ms, 0
  {
    if ms == [] then [] else LeavesOf(ms[..|ms| - 1]) + Leaves(ms[|ms| - 1])
  }

  /** The object that stands for attachment number `n`; the number is narrowed to an int. */
  function PlaceholderFor(n: nat): Value {
    Object([Member(String(PLACEHOLDER, Const), Bool(true)), Member(String("num", Const), FromInt(AsInt(n)))])
  }

  /** The JSON of a message when `base` attachments are already in the list. */
  function Encoded(m: Message, base: nat): Value
    requires Sized(m)
  {
    match m
    case MBool(b) => Bool(b)
    case MInt(n) => FromInt64(n)
    case MDouble(bits) => FromDouble(bits)
    case MString(s) => String(s, Const)
    case MBinary(_) => PlaceholderFor(base)
    case MArray(ms) => Array(seq(|ms|, i requires 0 <= i < |ms| => Encoded(ms[i], base + |LeavesOf(ms[..i])|)))
    case MObject(ks, ms) =>
      Object(seq(|ms|, i requires 0 <= i < |ms| => Member(CopyOf(ks[i]), Encoded(ms[i], base + |LeavesOf(ms[..i])|))))
    case _ => Null
  }

  predicate Sized(m: Message) {
    match m
    case MInt(n) => -TWO63 <= n < TWO63
    case MArray(ms) => forall i :: 0 <= i < |ms| ==> Sized(ms[i])
    case MObject(ks, ms) => |ks| == |ms| && forall i :: 0 <= i < |ms| ==> Sized(ms[i])
    case Absent => false
    case _ => true
  }

  /** The accept_* functions with the attachment list they all append to. */
  class Encoder {
    var buffers: seq<string>

    constructor ()
      ensures buffers == []
    {
      buffers := [];
    }

    method AcceptMessage(m: Message) returns (val: Value)
      requires Sized(m)
      modifies this
      ensures buffers == old(buffers) + Leaves(m)
      ensures val == Encoded(m, |old(buffers)|)
      decreases m, 1
    {
      match m
      case MInt(n) => val := FromInt64(n);
      case MDouble(bits) => val := FromDouble(bits);
      case MString(s) => val := String(s, Const);
      case MBool(b) => val := Bool(b);
      case MNull => val := Null;
      case MBinary(data) =>
        val := Object([]);
        val := AddMember(val, String(PLACEHOLDER, Const), Bool(true));
        val := AddMember(val, String("num", Const), FromInt(AsInt(|buffers|)));
        buffers := buffers + [data];
      case MArray(ms) => val := AcceptArray(m, ms);
      case MObject(ks, ms) => val := AcceptObject(m, ks, ms);
    }

    /** The elements one after the other, all appending to the same list. */
    method AcceptArray(m: Message, ms: seq<Message>) returns (val: Value)
      requires m == MArray(ms) && Sized(m)
      modifies this
      ensures buffers == old(buffers) + Leaves(m)
      ensures val == Encoded(m, |old(buffers)|)
      decreases m, 0
    {
      hide Encoded, Leaves, LeavesOf, Sized;
      SizedParts(m);
      ghost var start, want := buffers, EncodedElements(ms, |buffers|);
      var elements: seq<Value> := [];
      NoLeaves(start, ms);
      for i := 0 to |ms|
        invariant buffers == start + LeavesOf(ms[..i])
        invariant |elements| == i && forall j :: 0 <= j < i ==> elements[j] == want[j]
      {
        LeavesOfNext(start, ms, i);
        var child := AcceptMessage(ms[i]);
        elements := elements + [child];
      }
      assert ms[..|ms|] == ms && elements == want;
      EncodedArray(m, |start|);
      val := Array(elements);
    }

    /** The members in the order of their keys, names copied. */
    method AcceptObject(m: Message, ks: seq<string>, ms: seq<Message>) returns (val: Value)
      requires m == MObject(ks, ms) && Sized(m)
      modifies this
      ensures buffers == old(buffers) + Leaves(m)
      ensures val == Encoded(m, |old(buffers)|)
      decreases m, 0
    {
      hide Encoded, Leaves, LeavesOf, Sized;
      SizedParts(m);
      ghost var start, want := buffers, EncodedElements(ms, |buffers|);
      var members: seq<Member> := [];
      NoLeaves(start, ms);
      for i := 0 to |ms|
        invariant buffers == start + LeavesOf(ms[..i])
        invariant |members| == i && forall j :: 0 <= j < i ==> members[j] == Member(CopyOf(ks[j]), want[j])
      {
        LeavesOfNext(start, ms, i);
        var child := AcceptMessage(ms[i]);
        members := members + [Member(CopyOf(ks[i]), child)];
      }
      assert ms[..|ms|] == ms;
      EncodedObject(m, |start|);
      assert members == Encoded(m, |start|).members;
      val := Object(members);
    }
  }

  function EncodedElements(ms: seq<Message>, base: nat): seq<Value>
    requires forall i :: 0 <= i < |ms| ==> Sized(ms[i])
  {
    seq(|ms|, i requires 0 <= i < |ms| => Encoded(ms[i], base + |LeavesOf(ms[..i])|))
  }

  lemma SizedParts(m: Message)
    requires Sized(m)
    ensures m.MArray? ==> forall i :: 0 <= i < |m.elements| ==> Sized(m.elements[i])
    ensures m.MObject? ==> |m.keys| == |m.values| && forall i :: 0 <= i < |m.values| ==> Sized(m.values[i])
  {
  }

  lemma EncodedArray(m: Message, base: nat)
    requires Sized(m) && m.MArray?
    ensures Encoded(m, base) == Array(EncodedElements(m.elements, base))
    ensures Leaves(m) == LeavesOf(m.elements)
  {
    assert Encoded(m, base).elements == EncodedElements(m.elements, base);
  }

  lemma EncodedObject(m: Message, base: nat)
    requires Sized(m) && m.MObject?
    ensures Encoded(m, base).Object? && |Encoded(m, base).members| == |m.values|
    ensures forall i :: 0 <= i < |m.values| ==>
      Encoded(m, base).members[i] == Member(CopyOf(m.keys[i]), EncodedElements(m.values, base)[i])
    ensures Leaves(m) == LeavesOf(m.values)
  {
  }

  lemma NoLeaves(start: seq<string>, ms: seq<Message>)
    ensures start == start + LeavesOf(ms[..0])
  {
  }

  lemma LeavesOfSnoc(ms: seq<Message>, i: nat)
    requires i < |ms|
    ensures LeavesOf(ms[..i + 1]) == LeavesOf(ms[..i]) + Leaves(ms[i])
  {
    assert ms[..i + 1][..i] == ms[..i];
  }

  lemma LeavesOfNext(start: seq<string>, ms: seq<Message>, i: nat)
    requires i < |ms|
    ensures start + LeavesOf(ms[..i + 1]) == start + LeavesOf(ms[..i]) + Leaves(ms[i])
  {
    LeavesOfSnoc(ms, i);
  }

  function AddMember(v: Value, name: Value, value: Value): Value
    requires v.Object?
  {
    Object(v.members + [Member(name, value)])
  }

  // ---------------------------------------------------------------------------
  // Decoding
  // ---------------------------------------------------------------------------

  /** Position of the first member with this name; the number of members when there is none. */
  function FindMember(ms: seq<Member>, name: string): (i: nat)
    ensures i <= |ms|
    ensures i < |ms| ==> ms[i].name.String? && ms[i].name.chars == name
    ensures forall j :: 0 <= j < i ==> !(ms[j].name.String? && ms[j].name.chars == name)
  {
    if ms == [] || (ms[0].name.String? && ms[0].name.chars == name) then 0 else 1 + FindMember(ms[1..], name)
  }

  /** get_map()[key] = m: in its place, or instead of what is there. */
  function Insert(ks: seq<string>, ms: seq<Message>, key: string, m: Message): (r: (seq<string>, seq<Message>))
    requires |ks| == |ms|
    ensures |r.0| == |r.1|
  {
    if ks == [] || Less(key, ks[0]) then ([key] + ks, [m] + ms)
    else if ks[0] == key then (ks, [m] + ms[1..])
    else
      var (ks', ms') := Insert(ks[1..], ms[1..], key, m);
      ([ks[0]] + ks', [ms[0]] + ms')
  }

  /** The members whose names are strings, inserted one after the other. */
  function Inserted(members: seq<Member>, ms: seq<Message>): (r: (seq<string>, seq<Message>))
    requires |members| == |ms|
    ensures |r.0| == |r.1|
  {
    if members == [] then ([], [])
    else
      var n := |members| - 1;
      var (ks', ms') := Inserted(members[..n], ms[..n]);
      if members[n].name.String? then Insert(ks', ms', members[n].name.chars, ms[n]) else (ks', ms')
  }

  function Collected(rs: seq<Option<Message>>): (r: Option<seq<Message>>)
    ensures r.Some? ==> |r.value| == |rs|
  {
    if forall i :: 0 <= i < |rs| ==> rs[i].Some? then Some(seq(|rs|, i requires 0 <= i < |rs| => rs[i].value)) else None
  }

  /** The attachment a placeholder object stands for; None where the code asserts. */
  function Attachment(ms: seq<Member>, buffers: seq<string>): Option<Message> {
    var i := FindMember(ms, "num");
    if i == |ms| || !ms[i].value.Number? || !ms[i].value.flags.isInt then None
    else
      var num := AsInt(ms[i].value.raw);
      if 0 <= num && num < AsInt(|buffers|) then Some(MBinary(buffers[num])) else Some(Absent)
  }

  /** from_json; None where an assertion in GetBool, GetInt or operator[] fails. */
  function FromJson(v: Value, buffers: seq<string>): Option<Message> {
    match v
    case Number(flags, raw) =>
      Some(if flags.isInt64 then MInt(AsInt64(raw)) else if flags.isDouble then MDouble(raw) else Absent)
    case String(s, _) => Some(MString(s))
    case Array(es) =>
      var rs := Collected(seq(|es|, i requires 0 <= i < |es| => FromJson(es[i], buffers)));
      if rs.None? then None else Some(MArray(rs.value))
    case Object(ms) =>
      var p := FindMember(ms, PLACEHOLDER);
      if p < |ms| && !ms[p].value.Bool? then None
      else if p < |ms| && ms[p].value.b then Attachment(ms, buffers)
      else
        var rs := Collected(seq(|ms|, i requires 0 <= i < |ms| => FromJson(ms[i].value, buffers)));
        if rs.None? then None
        else
          var (ks', ms') := Inserted(ms, rs.value);
          Some(MObject(ks', ms'))
    case Bool(b) => Some(MBool(b))
    case Null => Some(MNull)
  }

  // ---------------------------------------------------------------------------
  // The round trip
  // ---------------------------------------------------------------------------

  /** No object in the tree gives the reserved key a value other than false. */
  ghost predicate ReservedKeyFree(m: Message) {
    match m
    case MArray(ms) => forall i :: 0 <= i < |ms| ==> ReservedKeyFree(ms[i])
    case MObject(ks, ms) =>
      && (forall i :: 0 <= i < |ks| && i < |ms| && ks[i] == PLACEHOLDER ==> ms[i] == MBool(false))
      && forall i :: 0 <= i < |ms| ==> ReservedKeyFree(ms[i])
    case _ => true
  }

  /** `own` lies in `all` from position `base` on. */
  ghost predicate Holds(all: seq<string>, base: nat, own: seq<string>) {
    base + |own| <= |all| && all[base..base + |own|] == own
  }

  lemma {:induction false} LessIsAsymmetric(a: string, b: string)
    requires Less(a, b)
    ensures a != b && !Less(b, a)
  {
    if a != "" && a[0] == b[0] {
      LessIsAsymmetric(a[1..], b[1..]);
    }
  }

  /** A key that comes last goes to the end of the map. */
  lemma {:induction false} InsertsLast(ks: seq<string>, ms: seq<Message>, key: string, m: Message)
    requires |ks| == |ms| && forall i :: 0 <= i < |ks| ==> Less(ks[i], key)
    ensures Insert(ks, ms, key, m) == (ks + [key], ms + [m])
  {
    if ks != [] {
      LessIsAsymmetric(ks[0], key);
      InsertsLast(ks[1..], ms[1..], key, m);
      assert [ks[0]] + (ks[1..] + [key]) == ks + [key] && [ms[0]] + (ms[1..] + [m]) == ms + [m];
    } else {
      assert [key] + ks == ks + [key] && [m] + ms == ms + [m];
    }
  }

  /** Members in key order fill the map in that order. */
  lemma {:induction false} InsertedInOrder(members: seq<Member>, ks: seq<string>, ms: seq<Message>)
    requires |members| == |ks| == |ms| && Ascending(ks)
    requires forall i :: 0 <= i < |ks| ==> members[i].name == CopyOf(ks[i])
    ensures Inserted(members, ms) == (ks, ms)
  {
    if members != [] {
      var n := |members| - 1;
      InsertedInOrder(members[..n], ks[..n], ms[..n]);
      InsertsLast(ks[..n], ms[..n], ks[n], ms[n]);
      assert ks[..n] + [ks[n]] == ks && ms[..n] + [ms[n]] == ms;
    }
  }

  lemma {:induction false} ValidIsSized(m: Message)
    requires Valid(m)
    ensures Sized(m)
  {
    match m
    case MArray(ms) =>
      forall i | 0 <= i < |ms| ensures Sized(ms[i]) { ValidIsSized(ms[i]); }
    case MObject(_, ms) =>
      forall i | 0 <= i < |ms| ensures Sized(ms[i]) { ValidIsSized(ms[i]); }
    case _ =>
  }

  lemma {:induction false} LeavesOfPrefix(ms: seq<Message>, i: nat)
    requires i <= |ms|
    ensures LeavesOf(ms[..i]) <= LeavesOf(ms)
    decreases |ms| - i
  {
    if i < |ms| {
      LeavesOfSnoc(ms, i);
      LeavesOfPrefix(ms, i + 1);
    } else {
      assert ms[..i] == ms;
    }
  }

  /** The leaves of one child lie where its base says. */
  lemma PartHolds(all: seq<string>, base: nat, ms: seq<Message>, i: nat)
    requires i < |ms| && Holds(all, base, LeavesOf(ms))
    ensures Holds(all, base + |LeavesOf(ms[..i])|, Leaves(ms[i]))
  {
    hide Leaves, LeavesOf;
    LeavesOfPrefix(ms, i + 1);
    LeavesOfSnoc(ms, i);
    SliceOfSlice(all, base, LeavesOf(ms), LeavesOf(ms[..i]), Leaves(ms[i]));
  }

  lemma SliceOfSlice(all: seq<string>, base: nat, whole: seq<string>, before: seq<string>, own: seq<string>)
    requires Holds(all, base, whole) && before + own <= whole
    ensures Holds(all, base + |before|, own)
  {
    forall k | 0 <= k < |own| ensures all[base + |before| + k] == own[k] {
      assert (before + own)[|before| + k] == own[k];
      assert all[base..base + |whole|][|before| + k] == whole[|before| + k];
    }
  }

  lemma PlaceholderReads(all: seq<string>, n: nat)
    requires n < |all| < TWO31
    ensures FromJson(PlaceholderFor(n), all) == Some(MBinary(all[n]))
  {
    var ms := PlaceholderFor(n).members;
    assert FindMember(ms, PLACEHOLDER) == 0;
    assert ms[0].name.chars != "num" by { assert |ms[0].name.chars| == 12; }
    assert ms[1..][0] == ms[1];
    assert FindMember(ms[1..], "num") == 0;
    UnionReads(n);
    assert AsInt(|all|) == |all|;
  }

  /** What decoding the children gives: all of them or nothing. */
  function DecodedAll(vs: seq<Value>, all: seq<string>): (r: Option<seq<Message>>)
    ensures r.Some? ==> |r.value| == |vs|
  {
    Collected(seq(|vs|, i requires 0 <= i < |vs| => FromJson(vs[i], all)))
  }

  lemma DecodedAllSame(vs: seq<Value>, all: seq<string>, ms: seq<Message>)
    requires |vs| == |ms|
    ensures DecodedAll(vs, all) == Some(ms) <==> forall i :: 0 <= i < |vs| ==> FromJson(vs[i], all) == Some(ms[i])
  {
    hide FromJson;
    var rs := seq(|vs|, i requires 0 <= i < |vs| => FromJson(vs[i], all));
    if forall i :: 0 <= i < |vs| ==> FromJson(vs[i], all) == Some(ms[i]) {
      assert forall i :: 0 <= i < |rs| ==> rs[i] == Some(ms[i]);
      assert Collected(rs).value == ms;
    }
    if DecodedAll(vs, all) == Some(ms) {
      forall i | 0 <= i < |vs| ensures FromJson(vs[i], all) == Some(ms[i]) {
        assert rs[i] == FromJson(vs[i], all) && Collected(rs).value[i] == rs[i].value;
      }
    }
  }

  /** from_json on an object, case by case. */
  lemma FromObject(ms: seq<Member>, vs: seq<Value>, all: seq<string>)
    requires |vs| == |ms| && forall i :: 0 <= i < |ms| ==> ms[i].value == vs[i]
    ensures var p := FindMember(ms, PLACEHOLDER);
      FromJson(Object(ms), all) ==
        if p < |ms| && !vs[p].Bool? then None
        else if p < |ms| && vs[p].b then Attachment(ms, all)
        else
          var rs := DecodedAll(vs, all);
          if rs.None? then None else Some(MObject(Inserted(ms, rs.value).0, Inserted(ms, rs.value).1))
  {
    assert seq(|ms|, i requires 0 <= i < |ms| => FromJson(ms[i].value, all))
        == seq(|vs|, i requires 0 <= i < |vs| => FromJson(vs[i], all));
  }

  lemma AttachmentIsNoObject(ms: seq<Member>, all: seq<string>)
    ensures Attachment(ms, all).Some? ==> !Attachment(ms, all).value.MObject?
  {
  }

  lemma EncodedBool(m: Message, base: nat)
    requires Sized(m)
    ensures Encoded(m, base).Bool? <==> m.MBool?
    ensures m.MBool? ==> Encoded(m, base).b == m.b
  {
  }

  /** Names in key order: the reserved name is found exactly where its key is. */
  lemma ReservedKeyFound(ms: seq<Member>, ks: seq<string>, i: nat)
    requires |ms| == |ks| && Ascending(ks) && forall j :: 0 <= j < |ks| ==> ms[j].name == CopyOf(ks[j])
    requires i < |ks| && ks[i] == PLACEHOLDER
    ensures FindMember(ms, PLACEHOLDER) == i
  {
    var p := FindMember(ms, PLACEHOLDER);
    assert ks[p] == PLACEHOLDER;
    if p < i { LessIsAsymmetric(ks[p], ks[i]); }
  }

  /** The value sent for the reserved key is false exactly when the message says so. */
  lemma ReservedIff(m: Message, ms: seq<Member>, vs: seq<Value>)
    requires Valid(m) && m.MObject? && |ms| == |vs| == |m.keys|
    requires forall i :: 0 <= i < |ms| ==> ms[i].name == CopyOf(m.keys[i])
    requires forall i :: 0 <= i < |vs| ==> (vs[i] == Bool(false) <==> m.values[i] == MBool(false))
    ensures var p := FindMember(ms, PLACEHOLDER);
      ReservedIsFalse(m) <==> (p == |ms| || vs[p] == Bool(false))
  {
    var p := FindMember(ms, PLACEHOLDER);
    hide Valid, FindMember, Less;
    assert Ascending(m.keys) by { AscendingKeys(m); }
    forall i | 0 <= i < |m.keys| && m.keys[i] == PLACEHOLDER ensures i == p {
      ReservedKeyFound(ms, m.keys, i);
    }
  }

  /** What the object gives the reserved key, if anything, is false. */
  ghost predicate ReservedIsFalse(m: Message)
    requires m.MObject? && |m.keys| == |m.values|
  {
    forall i :: 0 <= i < |m.keys| && m.keys[i] == PLACEHOLDER ==> m.values[i] == MBool(false)
  }

  lemma AscendingKeys(m: Message)
    requires Valid(m) && m.MObject?
    ensures Ascending(m.keys)
  {
  }

  lemma EncodedFalse(ms: seq<Message>, base: nat)
    requires forall i :: 0 <= i < |ms| ==> Sized(ms[i])
    ensures forall i :: 0 <= i < |ms| ==> (EncodedElements(ms, base)[i] == Bool(false) <==> ms[i] == MBool(false))
  {
    forall i | 0 <= i < |ms| ensures EncodedElements(ms, base)[i] == Bool(false) <==> ms[i] == MBool(false) {
      EncodedBool(ms[i], base + |LeavesOf(ms[..i])|);
    }
    hide Encoded;
  }

  /** An object decodes to a message when its reserved key says false and its members decode to the message's. */
  lemma ObjectDecodes(m: Message, ms: seq<Member>, vs: seq<Value>, all: seq<string>)
    requires Valid(m) && m.MObject? && |ms| == |vs| == |m.keys| == |m.values|
    requires forall i :: 0 <= i < |ms| ==> ms[i].name == CopyOf(m.keys[i]) && ms[i].value == vs[i]
    requires forall i :: 0 <= i < |vs| ==> (vs[i] == Bool(false) <==> m.values[i] == MBool(false))
    ensures FromJson(Object(ms), all) == Some(m) <==> ReservedIsFalse(m) && DecodedAll(vs, all) == Some(m.values)
  {
    hide FromJson, DecodedAll, Inserted, Attachment, FindMember, Ascending, ReservedIsFalse;
    FromObject(ms, vs, all);
    AscendingKeys(m);
    ReservedIff(m, ms, vs);
    AttachmentIsNoObject(ms, all);
    var rs := DecodedAll(vs, all);
    if rs.Some? {
      InsertedInOrder(ms, m.keys, rs.value);
    }
  }

  lemma ArrayDecodes(vs: seq<Value>, ms: seq<Message>, all: seq<string>)
    ensures FromJson(Array(vs), all) == Some(MArray(ms)) <==> DecodedAll(vs, all) == Some(ms)
  {
    hide Collected;
    assert FromJson(Array(vs), all) == if DecodedAll(vs, all).None? then None
      else Some(MArray(DecodedAll(vs, all).value));
  }

  /**
   A message that was encoded with its leaves at position `base` of the attachment list decodes
   to itself exactly when no object in it uses the reserved key for anything but false.
   */
  lemma {:induction false} RoundTripIff(m: Message, base: nat, all: seq<string>)
    requires Valid(m) && Holds(all, base, Leaves(m)) && |all| < TWO31
    ensures Sized(m)
    ensures FromJson(Encoded(m, base), all) == Some(m) <==> ReservedKeyFree(m)
    decreases m, 1
  {
    hide FromJson, Holds, LeavesOf, DecodedAll;
    ValidIsSized(m);
    match m
    case MArray(ms) =>
      ChildrenReadIff(m, ms, base, all);
      EncodedArray(m, base);
      ArrayDecodes(EncodedElements(ms, base), ms, all);
    case MObject(_, ms) =>
      ChildrenReadIff(m, ms, base, all);
      ObjectReads(m, base, all);
    case _ =>
      LeafReads(m, base, all);
  }

  lemma {:induction false} ChildrenReadIff(m: Message, ms: seq<Message>, base: nat, all: seq<string>)
    requires Valid(m) && (m == MArray(ms) || (m.MObject? && m.values == ms))
    requires Holds(all, base, LeavesOf(ms)) && |all| < TWO31
    requires forall i :: 0 <= i < |ms| ==> Sized(ms[i])
    ensures DecodedAll(EncodedElements(ms, base), all) == Some(ms) <==>
      forall i :: 0 <= i < |ms| ==> ReservedKeyFree(ms[i])
    decreases m, 0
  {
    hide FromJson, Encoded, Holds, LeavesOf, DecodedAll;
    var vs := EncodedElements(ms, base);
    forall i | 0 <= i < |ms| ensures FromJson(vs[i], all) == Some(ms[i]) <==> ReservedKeyFree(ms[i]) {
      PartHolds(all, base, ms, i);
      RoundTripIff(ms[i], base + |LeavesOf(ms[..i])|, all);
    }
    DecodedAllSame(vs, all, ms);
  }

  lemma ObjectReads(m: Message, base: nat, all: seq<string>)
    requires Valid(m) && m.MObject? && Sized(m)
    ensures FromJson(Encoded(m, base), all) == Some(m) <==>
      ReservedIsFalse(m) && DecodedAll(EncodedElements(m.values, base), all) == Some(m.values)
  {
    EncodedObject(m, base);
    EncodedFalse(m.values, base);
    hide Encoded, EncodedElements, FromJson, DecodedAll, ReservedIsFalse, Valid, Sized;
    ObjectDecodes(m, Encoded(m, base).members, EncodedElements(m.values, base), all);
  }

  lemma LeafReads(m: Message, base: nat, all: seq<string>)
    requires Valid(m) && Sized(m) && !m.MArray? && !m.MObject?
    requires Holds(all, base, Leaves(m)) && |all| < TWO31
    ensures FromJson(Encoded(m, base), all) == Some(m)
  {
    match m
    case MInt(n) => UnionReads(n);
    case MBinary(data) =>
      PlaceholderReads(all, base);
      assert all[base..base + 1][0] == all[base];
    case _ =>
  }

  // ---------------------------------------------------------------------------
  // What any JSON decodes to
  // ---------------------------------------------------------------------------

  predicate Named(member: Member, name: string) { member.name.String? && member.name.chars == name }

  /** The map gives `key` this message. */
  ghost predicate Maps(ks: seq<string>, ms: seq<Message>, key: string, m: Message)
    requires |ks| == |ms|
  {
    exists p :: 0 <= p < |ks| && ks[p] == key && ms[p] == m
  }

  /** The last member with this name; later ones overwrite what earlier ones gave. */
  ghost predicate LastNamed(members: seq<Member>, i: int, name: string) {
    && 0 <= i < |members| && Named(members[i], name)
    && forall j :: i < j < |members| ==> !Named(members[j], name)
  }

  ghost predicate FirstNamed(members: seq<Member>, i: int, name: string) {
    && 0 <= i < |members| && Named(members[i], name)
    && forall j :: 0 <= j < i ==> !Named(members[j], name)
  }

  lemma {:induction false} LessIsTotal(a: string, b: string)
    ensures a == b || Less(a, b) || Less(b, a)
  {
    if a != "" && b != "" && a[0] == b[0] {
      LessIsTotal(a[1..], b[1..]);
      assert a == [a[0]] + a[1..] && b == [b[0]] + b[1..];
    }
  }

  lemma {:induction false} LessIsTransitive(a: string, b: string, c: string)
    requires Less(a, b) && Less(b, c)
    ensures Less(a, c)
  {
    if a != "" && a[0] == b[0] == c[0] {
      LessIsTransitive(a[1..], b[1..], c[1..]);
    }
  }

  lemma {:induction false} LessThanAll(key: string, ks: seq<string>)
    requires Ascending(ks) && ks != [] && Less(key, ks[0])
    ensures Ascending([key] + ks)
  {
    forall i | 0 <= i < |ks| ensures Less(key, ks[i]) {
      if i > 0 {
        LessIsTransitive(key, ks[0], ks[i]);
      }
    }
    hide Less;
  }

  lemma MapsCons(k: string, m: Message, ks: seq<string>, ms: seq<Message>, key: string, v: Message)
    requires |ks| == |ms|
    ensures Maps([k] + ks, [m] + ms, key, v) <==> (k == key && m == v) || Maps(ks, ms, key, v)
  {
    if k == key && m == v {
      assert ([k] + ks)[0] == key && ([m] + ms)[0] == v;
    }
    if Maps(ks, ms, key, v) {
      var p :| 0 <= p < |ks| && ks[p] == key && ms[p] == v;
      assert ([k] + ks)[p + 1] == key && ([m] + ms)[p + 1] == v;
    }
    if Maps([k] + ks, [m] + ms, key, v) {
      var p :| 0 <= p < |ks| + 1 && ([k] + ks)[p] == key && ([m] + ms)[p] == v;
      if p > 0 {
        assert ks[p - 1] == key && ms[p - 1] == v;
      }
    }
  }

  lemma NotBefore(ks: seq<string>, ms: seq<Message>, key: string, v: Message)
    requires |ks| == |ms| && forall i :: 0 <= i < |ks| ==> Less(key, ks[i])
    ensures !Maps(ks, ms, key, v)
  {
    if Maps(ks, ms, key, v) {
      var p :| 0 <= p < |ks| && ks[p] == key && ms[p] == v;
      LessIsAsymmetric(key, key);
    }
  }

  /** Inserting gives the key the message and leaves what the map gives any other key. */
  lemma {:induction false} InsertMaps(ks: seq<string>, ms: seq<Message>, key: string, m: Message, k: string, v: Message)
    requires |ks| == |ms| && Ascending(ks)
    ensures var (ks', ms') := Insert(ks, ms, key, m);
      Maps(ks', ms', k, v) <==> if k == key then v == m else Maps(ks, ms, k, v)
  {
    hide Less, Maps;
    if ks == [] || Less(key, ks[0]) {
      MapsCons(key, m, ks, ms, k, v);
      if ks != [] {
        LessThanAll(key, ks);
        assert forall i :: 0 <= i < |ks| ==> ([key] + ks)[0] == key && ([key] + ks)[i + 1] == ks[i];
      }
      NotBefore(ks, ms, key, v);
    } else {
      var k0, m0, ks1, ms1 := ks[0], ms[0], ks[1..], ms[1..];
      assert ks == [k0] + ks1 && ms == [m0] + ms1;
      MapsCons(k0, m0, ks1, ms1, k, v);
      if k0 == key {
        MapsCons(key, m, ks1, ms1, k, v);
        NotBefore(ks1, ms1, key, v);
      } else {
        InsertMaps(ks1, ms1, key, m, k, v);
        var (ks', ms') := Insert(ks1, ms1, key, m);
        MapsCons(k0, m0, ks', ms', k, v);
      }
    }
  }

  lemma {:induction false} InsertAscends(ks: seq<string>, ms: seq<Message>, key: string, m: Message)
    requires |ks| == |ms| && Ascending(ks)
    ensures var (ks', ms') := Insert(ks, ms, key, m);
      Ascending(ks') && ks' != [] && (ks'[0] == key || (ks != [] && ks'[0] == ks[0]))
  {
    hide Less;
    if ks == [] {
    } else if Less(key, ks[0]) {
      LessThanAll(key, ks);
    } else if ks[0] != key {
      InsertAscends(ks[1..], ms[1..], key, m);
      LessIsTotal(key, ks[0]);
      LessThanAll(ks[0], Insert(ks[1..], ms[1..], key, m).0);
    }
  }

  /** The last member with this name has this message. */
  ghost predicate LastHas(members: seq<Member>, ms: seq<Message>, key: string, m: Message)
    requires |members| == |ms|
  {
    exists i :: LastNamed(members, i, key) && ms[i] == m
  }

  /** The members make a map in key order that gives each name what its last member has. */
  lemma {:induction false} InsertedMaps(members: seq<Member>, ms: seq<Message>, k: string, v: Message)
    requires |members| == |ms|
    ensures var (ks', ms') := Inserted(members, ms);
      Ascending(ks') && (Maps(ks', ms', k, v) <==> LastHas(members, ms, k, v))
  {
    hide Insert, Ascending, Maps, LastHas;
    if members == [] {
      NothingMapped(members, ms, k, v);
    } else {
      var n := |members| - 1;
      InsertedMaps(members[..n], ms[..n], k, v);
      var (ks', ms') := Inserted(members[..n], ms[..n]);
      if members[n].name.String? {
        InsertAscends(ks', ms', members[n].name.chars, ms[n]);
        InsertMaps(ks', ms', members[n].name.chars, ms[n], k, v);
      }
      LastOfMore(members, ms, k, v);
    }
  }

  lemma NothingMapped(members: seq<Member>, ms: seq<Message>, k: string, v: Message)
    requires members == [] && ms == []
    ensures Ascending([]) && !Maps([], [], k, v) && !LastHas(members, ms, k, v)
  {
  }

  lemma LastOfMore(members: seq<Member>, ms: seq<Message>, k: string, v: Message)
    requires |members| == |ms| && members != []
    ensures var n := |members| - 1;
      LastHas(members, ms, k, v) <==>
        if Named(members[n], k) then v == ms[n] else LastHas(members[..n], ms[..n], k, v)
  {
    var n := |members| - 1;
    if Named(members[n], k) {
      assert LastNamed(members, n, k);
    } else if LastHas(members, ms, k, v) {
      var i :| LastNamed(members, i, k) && ms[i] == v;
      assert LastNamed(members[..n], i, k) && ms[..n][i] == v;
    } else if LastHas(members[..n], ms[..n], k, v) {
      var i :| LastNamed(members[..n], i, k) && ms[..n][i] == v;
      assert LastNamed(members, i, k);
    }
  }

  /** The last member with this name decodes to this message. */
  ghost predicate LastDecodes(ms: seq<Member>, all: seq<string>, key: string, m: Message) {
    exists i :: LastNamed(ms, i, key) && FromJson(ms[i].value, all) == Some(m)
  }

  /**
   An object that decodes to a map gives it its names as keys, in the order of the map, and each
   of them what its last member decodes to.
   */
  lemma {:induction false} ObjectDecodesTo(ms: seq<Member>, all: seq<string>, ks: seq<string>, vs: seq<Message>)
    requires FromJson(Object(ms), all) == Some(MObject(ks, vs))
    ensures |ks| == |vs| && Ascending(ks)
    ensures forall k, v :: Maps(ks, vs, k, v) <==> LastDecodes(ms, all, k, v)
    ensures forall k :: k in ks <==> exists i :: 0 <= i < |ms| && Named(ms[i], k)
  {
    var rs := ObjectIsInserted(ms, all, ks, vs);
    hide FromJson, Inserted, Ascending, Maps, LastHas, LastDecodes, Named;
    InsertedMaps(ms, rs, "", Absent);
    forall k, v ensures Maps(ks, vs, k, v) <==> LastDecodes(ms, all, k, v) {
      InsertedMaps(ms, rs, k, v);
      SameDecodes(ms, all, rs, k, v);
    }
    forall k ensures k in ks <==> exists i :: 0 <= i < |ms| && Named(ms[i], k) {
      KeysAreNames(ms, ks, vs, rs, k);
    }
  }

  lemma ObjectIsInserted(ms: seq<Member>, all: seq<string>, ks: seq<string>, vs: seq<Message>)
      returns (rs: seq<Message>)
    requires FromJson(Object(ms), all) == Some(MObject(ks, vs))
    ensures |rs| == |ms| && (ks, vs) == Inserted(ms, rs)
    ensures forall i :: 0 <= i < |ms| ==> FromJson(ms[i].value, all) == Some(rs[i])
  {
    var values := seq(|ms|, i requires 0 <= i < |ms| => ms[i].value);
    FromObject(ms, values, all);
    AttachmentIsNoObject(ms, all);
    hide FromJson, DecodedAll, Inserted, FindMember, Attachment;
    rs := DecodedAll(values, all).value;
    DecodedAllSame(values, all, rs);
    assert forall i :: 0 <= i < |ms| ==> values[i] == ms[i].value;
  }

  lemma SameDecodes(ms: seq<Member>, all: seq<string>, rs: seq<Message>, k: string, v: Message)
    requires |rs| == |ms| && forall i :: 0 <= i < |ms| ==> FromJson(ms[i].value, all) == Some(rs[i])
    ensures LastHas(ms, rs, k, v) <==> LastDecodes(ms, all, k, v)
  {
    hide FromJson;
    if LastHas(ms, rs, k, v) {
      var i :| LastNamed(ms, i, k) && rs[i] == v;
      assert FromJson(ms[i].value, all) == Some(v);
    }
    if LastDecodes(ms, all, k, v) {
      var i :| LastNamed(ms, i, k) && FromJson(ms[i].value, all) == Some(v);
      assert rs[i] == v;
    }
  }

  lemma KeysAreNames(ms: seq<Member>, ks: seq<string>, vs: seq<Message>, rs: seq<Message>, k: string)
    requires |ms| == |rs| && (ks, vs) == Inserted(ms, rs)
    ensures k in ks <==> exists i :: 0 <= i < |ms| && Named(ms[i], k)
  {
    hide Inserted, Ascending, Named;
    if k in ks {
      var p :| 0 <= p < |ks| && ks[p] == k;
      assert Maps(ks, vs, k, vs[p]);
      InsertedMaps(ms, rs, k, vs[p]);
    }
    if i :| 0 <= i < |ms| && Named(ms[i], k) {
      var last := LastWith(ms, k, i);
      InsertedMaps(ms, rs, k, rs[last]);
      assert LastHas(ms, rs, k, rs[last]);
    }
  }

  lemma {:induction false} LastWith(ms: seq<Member>, k: string, i: nat) returns (last: nat)
    requires i < |ms| && Named(ms[i], k)
    ensures LastNamed(ms, last, k)
    decreases |ms| - i
  {
    if j :| i < j < |ms| && Named(ms[j], k) {
      last := LastWith(ms, k, j);
    } else {
      last := i;
    }
  }

  /** Which objects decode to a map: the first reserved member, if any, is false, and every member decodes. */
  lemma {:induction false} DecodesToMapIff(ms: seq<Member>, all: seq<string>)
    ensures var r := FromJson(Object(ms), all);
      r.Some? && r.value.MObject? <==>
      && (forall i :: FirstNamed(ms, i, "_placeholder") ==> ms[i].value == Bool(false))
      && (forall i :: 0 <= i < |ms| ==> FromJson(ms[i].value, all).Some?)
  {
    var values := seq(|ms|, i requires 0 <= i < |ms| => ms[i].value);
    FromObject(ms, values, all);
    AttachmentIsNoObject(ms, all);
    AllDecode(ms, values, all);
    FirstFound(ms, "_placeholder");
    hide FromJson, DecodedAll, Inserted, FindMember, Attachment, FirstNamed;
  }

  lemma AllDecode(ms: seq<Member>, values: seq<Value>, all: seq<string>)
    requires |ms| == |values| && forall i :: 0 <= i < |ms| ==> ms[i].value == values[i]
    ensures DecodedAll(values, all).Some? <==> forall i :: 0 <= i < |ms| ==> FromJson(ms[i].value, all).Some?
  {
    hide FromJson;
    var rs := seq(|values|, i requires 0 <= i < |values| => FromJson(values[i], all));
    assert forall i :: 0 <= i < |ms| ==> rs[i] == FromJson(ms[i].value, all);
  }

  lemma FirstFound(ms: seq<Member>, name: string)
    ensures var p := FindMember(ms, name);
      && (p < |ms| ==> FirstNamed(ms, p, name))
      && (forall i :: FirstNamed(ms, i, name) ==> i == p)
  {
    var p := FindMember(ms, name);
    hide FindMember;
    assert p < |ms| ==> Named(ms[p], name);
    forall i | FirstNamed(ms, i, name) ensures i == p {
      assert Named(ms[i], name);
    }
  }

  /** An object with the reserved member true is the attachment that its number names, if there is one. */
  lemma {:induction false} PlaceholderDecodesTo(ms: seq<Member>, i: nat, j: nat, n: int, all: seq<string>)
    requires FirstNamed(ms, i, "_placeholder") && ms[i].value == Bool(true)
    requires -TWO31 <= n < TWO31 && FirstNamed(ms, j, "num") && ms[j].value == Integer(n) && |all| < TWO31
    ensures FromJson(Object(ms), all) == Some(if 0 <= n < |all| then MBinary(all[n]) else Absent)
  {
    FirstFound(ms, "_placeholder");
    FirstFound(ms, "num");
    UnionReads(n);
    assert AsInt(|all|) == |all|;
    hide RawOf, FirstNamed, AsInt;
  }

  /** An element that does not decode is an assertion failure of the whole; so is a bad placeholder. */
  lemma {:induction false} BadPlaceholder(ms: seq<Member>, i: nat, all: seq<string>)
    requires FirstNamed(ms, i, "_placeholder") && ms[i].value != Bool(false)
    requires ms[i].value != Bool(true) || forall j :: FirstNamed(ms, j, "num") ==> !IsInt(ms[j].value)
    ensures FromJson(Object(ms), all) == None
  {
    FirstFound(ms, "_placeholder");
    FirstFound(ms, "num");
    hide AsInt;
    var p := FindMember(ms, "num");
    assert ms[i].value == Bool(true) ==> p == |ms| || !IsInt(ms[p].value);
  }

  /** IsInt() */
  predicate IsInt(v: Value) { v.Number? && v.flags.isInt }

  /** Elements decode in their order. */
  lemma {:induction false} ArrayDecodesTo(es: seq<Value>, all: seq<string>, r: Option<Message>)
    ensures FromJson(Array(es), all) == r <==>
      if exists i :: 0 <= i < |es| && FromJson(es[i], all).None? then r == None else
        r.Some? && r.value.MArray? && |r.value.elements| == |es| &&
        forall i :: 0 <= i < |es| ==> FromJson(es[i], all) == Some(r.value.elements[i])
  {
    var rs := seq(|es|, i requires 0 <= i < |es| => FromJson(es[i], all));
    var c := Collected(rs);
    assert FromJson(Array(es), all) == if c.None? then None else Some(MArray(c.value));
    hide FromJson;
    assert forall i :: 0 <= i < |es| ==> rs[i] == FromJson(es[i], all);
    if r.Some? && r.value.MArray? && c.Some? && |r.value.elements| == |es| &&
        (forall i :: 0 <= i < |es| ==> FromJson(es[i], all) == Some(r.value.elements[i])) {
      assert r.value.elements == c.value;
    }
  }

  /** Scalars: an integer is one while it fits 64 bits with a sign, and understood as nothing above. */
  lemma ScalarsDecodeTo(b: bool, n: int, bits: nat, s: string, kind: StringKind, all: seq<string>)
    requires -TWO63 <= n < TWO64
    ensures FromJson(Null, all) == Some(MNull) && FromJson(Bool(b), all) == Some(MBool(b))
    ensures FromJson(String(s, kind), all) == Some(MString(s))
    ensures FromJson(Integer(n), all) == Some(if n < TWO63 then MInt(n) else Absent)
    ensures FromJson(FromDouble(bits), all) == Some(MDouble(bits))
  {
    UnionReads(n);
  }

  /** What goes out for each scalar, and for the attachment with number `base`. */
  lemma ScalarsEncodeTo(b: bool, n: int, bits: nat, s: string, data: string, base: nat)
    requires -TWO63 <= n < TWO63 && base < TWO31
    ensures Encoded(MNull, base) == Null && Encoded(MBool(b), base) == Bool(b)
    ensures Encoded(MString(s), base) == String(s, Const)
    ensures Encoded(MInt(n), base) == Integer(n) && Encoded(MDouble(bits), base) == FromDouble(bits)
    ensures Encoded(MBinary(data), base) ==
      Object([Member(String("_placeholder", Const), Bool(true)), Member(String("num", Const), Integer(base))])
  {
    ConstructorsAgree(n);
    ConstructorsAgree(base);
  }

  lemma ElementAt(ms: seq<Message>, base: nat, i: nat)
    requires i < |ms| && forall j :: 0 <= j < |ms| ==> Sized(ms[j])
    ensures |EncodedElements(ms, base)| == |ms|
    ensures EncodedElements(ms, base)[i] == Encoded(ms[i], base + |LeavesOf(ms[..i])|)
  {
    hide Encoded, LeavesOf, Sized;
  }

  /** Containers go out in order, each child with the number of attachments before it. */
  lemma ElementsEncodeTo(m: Message, base: nat, i: nat)
    requires Sized(m) && m.MArray? && i < |m.elements|
    ensures Sized(m.elements[i]) && Encoded(m, base).Array? && |Encoded(m, base).elements| == |m.elements|
    ensures Encoded(m, base).elements[i] == Encoded(m.elements[i], base + |LeavesOf(m.elements[..i])|)
  {
    hide *;
    SizedParts(m);
    EncodedArray(m, base);
    ElementAt(m.elements, base, i);
  }

  lemma MembersEncodeTo(m: Message, base: nat, i: nat)
    requires Sized(m) && m.MObject? && i < |m.keys|
    ensures |m.keys| == |m.values| && Sized(m.values[i])
    ensures Encoded(m, base).Object? && |Encoded(m, base).members| == |m.keys|
    ensures Encoded(m, base).members[i].name == CopyOf(m.keys[i])
    ensures Encoded(m, base).members[i].value == Encoded(m.values[i], base + |LeavesOf(m.values[..i])|)
  {
    hide *;
    SizedParts(m);
    EncodedObject(m, base);
    ElementAt(m.values, base, i);
  }

  // ---------------------------------------------------------------------------
  // Numbering
  // ---------------------------------------------------------------------------

  /** What from_json takes for a placeholder. */
  predicate IsPlaceholder(ms: seq<Member>) {
    var p := FindMember(ms, PLACEHOLDER);
    p < |ms| && ms[p].value == Bool(true)
  }

  function NumberIn(ms: seq<Member>): seq<int> {
    var i := FindMember(ms, "num");
    if i < |ms| && ms[i].value.Number? then [AsInt(ms[i].value.raw)] else []
  }

  /** The numbers of all placeholders in a JSON value, in traversal order. */
  function Placeholders(v: Value): seq<int>
    decreases v, 1
  {
    match v
    case Array(es) => PlaceholdersOf(es)
    case Object(ms) => if IsPlaceholder(ms) then NumberIn(ms) else PlaceholdersIn(ms)
    case _ => []
  }

  function PlaceholdersOf(es: seq<Value>): seq<int>
    decreases es, 0
  {
    if es == [] then [] else PlaceholdersOf(es[..|es| - 1]) + Placeholders(es[|es| - 1])
  }

  function PlaceholdersUnder(m: Member): seq<int>
    decreases m, 2
  {
    Placeholders(m.value)
  }

  function PlaceholdersIn(ms: seq<Member>): seq<int>
    decreases ms, 0
  {
    if ms == [] then [] else PlaceholdersIn(ms[..|ms| - 1]) + PlaceholdersUnder(ms[|ms| - 1])
  }

  function Range(from: nat, count: nat): seq<int> { seq(count, i => from + i) }

  lemma RangeAppends(from: nat, a: nat, b: nat)
    ensures Range(from, a) + Range(from + a, b) == Range(from, a + b)
  {
  }

  lemma PlaceholderNumber(n: nat)
    requires n < TWO31
    ensures Placeholders(PlaceholderFor(n)) == [n]
  {
    var ms := PlaceholderFor(n).members;
    assert FindMember(ms, PLACEHOLDER) == 0;
    assert ms[0].name.chars != "num" by { assert |ms[0].name.chars| == 12; }
    assert ms[1..][0] == ms[1];
    assert FindMember(ms[1..], "num") == 0;
    UnionReads(n);
  }

  /** The placeholders of an encoded message are numbered one after the other from its base. */
  lemma {:induction false} Numbering(m: Message, base: nat)
    requires Valid(m) && ReservedKeyFree(m) && base + |Leaves(m)| < TWO31
    ensures Sized(m)
    ensures Placeholders(Encoded(m, base)) == Range(base, |Leaves(m)|)
    decreases m, 2
  {
    ValidIsSized(m);
    match m
    case MBinary(_) =>
      PlaceholderNumber(base);
      assert Range(base, 1) == [base];
    case MArray(ms) =>
      NumberingOf(m, ms, base, |ms|);
      ArrayNumbers(m, base);
    case MObject(ks, ms) =>
      NumberingOf(m, ms, base, |ms|);
      ObjectNumbers(m, base);
    case _ =>
  }

  lemma ArrayNumbers(m: Message, base: nat)
    requires Sized(m) && m.MArray?
    requires PlaceholdersOf(EncodedElements(m.elements, base)[..|m.elements|]) ==
      Range(base, |LeavesOf(m.elements[..|m.elements|])|)
    ensures Placeholders(Encoded(m, base)) == Range(base, |Leaves(m)|)
  {
    EncodedArray(m, base);
    hide Encoded, LeavesOf, EncodedElements, PlaceholdersOf, Range;
    assert m.elements[..|m.elements|] == m.elements;
    assert EncodedElements(m.elements, base)[..|m.elements|] == EncodedElements(m.elements, base);
  }

  lemma ObjectNumbers(m: Message, base: nat)
    requires Valid(m) && Sized(m) && m.MObject? && ReservedKeyFree(m)
    requires PlaceholdersOf(EncodedElements(m.values, base)[..|m.values|]) ==
      Range(base, |LeavesOf(m.values[..|m.values|])|)
    ensures Placeholders(Encoded(m, base)) == Range(base, |Leaves(m)|)
  {
    MemberNumbers(m, base);
    WholeOf(m, base);
    hide *;
  }

  lemma WholeOf(m: Message, base: nat)
    requires Sized(m) && m.MObject?
    ensures EncodedElements(m.values, base)[..|m.values|] == EncodedElements(m.values, base)
    ensures LeavesOf(m.values[..|m.values|]) == Leaves(m)
  {
    assert m.values[..|m.values|] == m.values;
    hide LeavesOf;
  }

  lemma MemberNumbers(m: Message, base: nat)
    requires Valid(m) && Sized(m) && m.MObject? && ReservedKeyFree(m)
    ensures Placeholders(Encoded(m, base)) == PlaceholdersOf(EncodedElements(m.values, base))
  {
    NoPlaceholder(m, base);
    EncodedObject(m, base);
    var ms, vs := Encoded(m, base).members, EncodedElements(m.values, base);
    hide Encoded, EncodedElements, IsPlaceholder, PlaceholdersOf, PlaceholdersIn, Valid, Sized, ReservedKeyFree, Leaves;
    InIsOf(ms, vs);
  }

  lemma NoPlaceholder(m: Message, base: nat)
    requires Valid(m) && Sized(m) && m.MObject? && ReservedKeyFree(m)
    ensures Encoded(m, base).Object? && !IsPlaceholder(Encoded(m, base).members)
  {
    EncodedObject(m, base);
    var ms, vs := Encoded(m, base).members, EncodedElements(m.values, base);
    EncodedFalse(m.values, base);
    ReservedIff(m, ms, vs);
    hide Encoded, EncodedElements, FindMember, Valid, Sized;
  }

  lemma {:induction false} InIsOf(ms: seq<Member>, vs: seq<Value>)
    requires |vs| == |ms| && forall i :: 0 <= i < |ms| ==> ms[i].value == vs[i]
    ensures PlaceholdersIn(ms) == PlaceholdersOf(vs)
  {
    if ms != [] {
      InIsOf(ms[..|ms| - 1], vs[..|ms| - 1]);
    }
  }

  lemma {:induction false} NumberingOf(m: Message, ms: seq<Message>, base: nat, i: nat)
    requires Valid(m) && ReservedKeyFree(m) && (m == MArray(ms) || (m.MObject? && m.values == ms))
    requires i <= |ms| && base + |LeavesOf(ms)| < TWO31
    requires forall j :: 0 <= j < |ms| ==> Sized(ms[j])
    ensures PlaceholdersOf(EncodedElements(ms, base)[..i]) == Range(base, |LeavesOf(ms[..i])|)
    decreases m, 0, i
  {
    hide Encoded, LeavesOf, Placeholders;
    if i == 0 {
      NoLeaves([], ms);
    } else {
      var vs := EncodedElements(ms, base);
      LeavesOfSnoc(ms, i - 1);
      LeavesOfPrefix(ms, i);
      NumberingOf(m, ms, base, i - 1);
      Numbering(ms[i - 1], base + |LeavesOf(ms[..i - 1])|);
      RangeAppends(base, |LeavesOf(ms[..i - 1])|, |Leaves(ms[i - 1])|);
      assert vs[..i][..i - 1] == vs[..i - 1];
    }
  }

  /** Encoding and decoding a whole message: the attachments are its binary leaves, in order. */
  method EncodeThenDecode(m: Message) returns (decoded: Option<Message>, buffers: seq<string>)
    requires Valid(m) && |Leaves(m)| < TWO31
    ensures buffers == Leaves(m)
    ensures decoded == Some(m) <==> ReservedKeyFree(m)
  {
    ValidIsSized(m);
    var e := new Encoder();
    var v := e.AcceptMessage(m);
    hide Encoded, Leaves, FromJson;
    buffers := e.buffers;
    decoded := FromJson(v, buffers);
    RoundTripIff(m, 0, buffers);
  }
}
