/**
 From a message to the wire and back: accept_message, the JSON writer, the packet text, and the
 receiving packet manager, one after the other.
 */
module SioWire {
  import opened Widths
  import opened Text
  import opened JsonValue
  import JsonText
  import opened SioMessage
  import SioPacket
  import SioReassembly

  type NumberText = JsonText.NumberText

  /** What a message is on the wire: its JSON text, and its binary leaves. */
  function BodyOf(m: Message, nt: NumberText): SioPacket.Body
    requires Sized(m)
  {
    EncodedNames(m, 0);
    SioPacket.Body(JsonText.Print(Encoded(m, 0), nt), Leaves(m))
  }

  lemma {:induction false} EncodedNames(m: Message, base: nat)
    requires Sized(m)
    ensures JsonText.NamesAreStrings(Encoded(m, base))
  {
    match m
    case MArray(ms) =>
      forall i | 0 <= i < |ms| ensures JsonText.NamesAreStrings(Encoded(m, base).elements[i]) {
        EncodedNames(ms[i], base + |LeavesOf(ms[..i])|);
      }
    case MObject(ks, ms) =>
      forall i | 0 <= i < |ms|
        ensures Encoded(m, base).members[i].name.String? && JsonText.NamesAreStrings(Encoded(m, base).members[i].value)
      {
        EncodedNames(ms[i], base + |LeavesOf(ms[..i])|);
      }
    case _ =>
  }

  /** The packet of an event (no id) or an acknowledgement. */
  function PacketOf(m: Message, nt: NumberText, nsp: string, packId: int, isAck: bool): SioPacket.Fields
    requires Sized(m)
  {
    var kind := (if isAck then SioPacket.TYPE_ACK else SioPacket.TYPE_EVENT) + SioPacket.TYPE_UNDETERMINED;
    SioPacket.Fields(SioPacket.FRAME_MESSAGE, kind, nsp, packId, Some(BodyOf(m, nt)), 0, [])
  }

  /** Bare numbers, booleans and null cannot be told from an id or from nothing at all. */
  predicate Carried(m: Message) { m.MString? || m.MBinary? || m.MArray? || m.MObject? }

  lemma CarriedStarts(f: SioPacket.Fields, m: Message, nt: NumberText)
    requires Sized(m) && Carried(m) && f.body == Some(BodyOf(m, nt))
    ensures SioPacket.CarriedBody(f)
  {
    EncodedNames(m, 0);
    hide LeavesOf, JsonText.PrintElements, JsonText.PrintMembers, JsonText.Escape;
  }

  lemma CarriedIff(f: SioPacket.Fields, m: Message, nt: NumberText)
    requires Sized(m) && JsonText.Readable(Encoded(m, 0), nt) && f.body == Some(BodyOf(m, nt))
    ensures SioPacket.CarriedBody(f) <==> Carried(m)
  {
    if Carried(m) {
      CarriedStarts(f, m, nt);
    } else if m.MInt? || m.MDouble? {
      EncodedNames(m, 0);
      NumberStarts(Encoded(m, 0), nt);
    }
    hide LeavesOf, JsonText.PrintElements, JsonText.PrintMembers, JsonText.Escape;
  }

  lemma NumberStarts(v: Value, nt: NumberText)
    requires v.Number? && JsonText.Readable(v, nt)
    ensures JsonText.Print(v, nt) != "" && !SioPacket.JsonStart(JsonText.Print(v, nt)[0])
  {
    var s := JsonText.PrintNumber(v.flags, v.raw, nt);
    assert JsonText.IsNumberText(s);
    JsonText.NumberStarts(s);
  }

  /** The number of attachments fits an unsigned, and the namespace can be carried. */
  ghost predicate Sendable(m: Message, nsp: string, packId: int) {
    Carried(m) && |Leaves(m)| < TWO31 && SioPacket.CarriedNsp(nsp) && -1 <= packId < TWO31
  }

  /** The text of an event or an acknowledgement is a header or complete, as its leaves say. */
  lemma TextIsUnderstood(m: Message, nt: NumberText, nsp: string, packId: int, isAck: bool)
    requires Sized(m) && Sendable(m, nsp, packId)
    ensures var f := PacketOf(m, nt, nsp, packId, isAck);
      SioReassembly.SortOf(SioReassembly.Payload(SioPacket.Printed(f))) ==
        if Leaves(m) == [] then SioReassembly.Whole(SioPacket.Received(f))
          else SioReassembly.Header(SioPacket.Received(f))
  {
    var f := PacketOf(m, nt, nsp, packId, isAck);
    CarriedStarts(f, m, nt);
    SioPacket.ParseUndoesAccept(f, SioReassembly.BLANK);
    SioPacket.HeadIsPlain(f);
    hide Leaves, SioPacket.ParseFields, SioPacket.Head, SioPacket.NspText, BodyOf, SioPacket.CarriedBody;
    assert SioPacket.Printed(f)[0] == '4';
  }

  function Arrivals(payloads: seq<string>): seq<SioReassembly.Event> {
    seq(|payloads|, i requires 0 <= i < |payloads| => SioReassembly.Payload(payloads[i]))
  }

  lemma {:induction false} AttachmentsArrive(payloads: seq<string>)
    requires forall i :: 0 <= i < |payloads| ==> SioReassembly.IsAttachment(payloads[i])
    ensures SioReassembly.AttachmentsIn(Arrivals(payloads)) == payloads &&
      SioReassembly.WholesIn(Arrivals(payloads)) == []
    ensures SioReassembly.NoOpening(Arrivals(payloads))
  {
    hide SioReassembly.SortOf, SioReassembly.Opens, SioReassembly.IsAttachment;
    if payloads != [] {
      var n := |payloads| - 1;
      AttachmentsArrive(payloads[..n]);
      assert Arrivals(payloads)[..n] == Arrivals(payloads[..n]);
      assert payloads == payloads[..n] + [payloads[n]];
      forall i | 0 <= i <= n
        ensures SioReassembly.SortOf(Arrivals(payloads)[i]).Attachment? && !SioReassembly.Opens(Arrivals(payloads)[i])
      {
        ArrivesAsAttachment(payloads[i]);
      }
    }
  }

  lemma ArrivesAsAttachment(payload: string)
    requires SioReassembly.IsAttachment(payload)
    ensures var e := SioReassembly.Payload(payload); SioReassembly.SortOf(e).Attachment? && !SioReassembly.Opens(e)
  {
  }

  lemma ArrivalsSplit(text: SioReassembly.Event, payloads: seq<string>)
    requires payloads != []
    ensures var n := |payloads| - 1;
      && payloads[..n] + [payloads[n]] == payloads
      && [text] + Arrivals(payloads) == [text] + Arrivals(payloads[..n]) + [SioReassembly.Payload(payloads[n])]
  {
  }

  /** A header and the attachments it announces, one after the other. */
  lemma HeaderThenAttachments(s: SioReassembly.State, text: SioReassembly.Event, f: SioPacket.Fields,
      payloads: seq<string>)
    requires SioReassembly.Valid(s) && SioReassembly.SortOf(text) == SioReassembly.Header(f)
    requires payloads != [] && f.pending == |payloads|
    requires forall i :: 0 <= i < |payloads| ==> SioReassembly.IsAttachment(payloads[i])
    ensures f.buffers != []
    ensures SioReassembly.Run(s, [text] + Arrivals(payloads)) == SioReassembly.State(None, s.delivered +
      [f.(pending := 0, buffers := [], body := Some(SioPacket.Body(f.buffers[0], payloads)))])
  {
    hide SioReassembly.Run;
    var n := |payloads| - 1;
    var last := SioReassembly.Payload(payloads[n]);
    assert SioReassembly.SortOf(last).Attachment?;
    hide SioReassembly.SortOf;
    ArrivalsSplit(text, payloads);
    AttachmentsArrive(payloads[..n]);
    hide Arrivals;
    SioReassembly.DeliveredWithTheLast(s, text, Arrivals(payloads[..n]), last);
    assert s.delivered + [] == s.delivered;
  }

  /**
   The text of a packet followed by one attachment payload for each binary leaf is delivered as
   one packet: same type, namespace and id, the message's JSON, and the payloads in order.
   */
  lemma {:induction false} SentIsDelivered(s: SioReassembly.State, m: Message, nt: NumberText, nsp: string,
      packId: int, isAck: bool, payloads: seq<string>)
    requires Sized(m) && Sendable(m, nsp, packId) && SioReassembly.Valid(s)
    requires |payloads| == |Leaves(m)| && forall i :: 0 <= i < |payloads| ==> SioReassembly.IsAttachment(payloads[i])
    ensures var f := PacketOf(m, nt, nsp, packId, isAck);
      SioReassembly.Run(s, [SioReassembly.Payload(SioPacket.Printed(f))] + Arrivals(payloads)) ==
      SioReassembly.State(if payloads == [] then s.partial else None, s.delivered + [f.(
        kind := if isAck then (if payloads == [] then 3 else 6) else (if payloads == [] then 2 else 5),
        nsp := if nsp == "" then "/" else nsp,
        body := Some(SioPacket.Body(BodyOf(m, nt).json, payloads)))])
  {
    KindSent(isAck, payloads != []);
    hide Leaves, Sized, SioReassembly.SortOf, SioPacket.Printed, SioReassembly.Step, SioPacket.WireKind,
      JsonText.Print, Sendable;
    var f := PacketOf(m, nt, nsp, packId, isAck);
    TextIsUnderstood(m, nt, nsp, packId, isAck);
    var text := SioReassembly.Payload(SioPacket.Printed(f));
    if payloads == [] {
      assert [text] + Arrivals(payloads) == [text];
      OneEvent(s, text);
    } else {
      hide SioReassembly.Run;
      HeaderThenAttachments(s, text, SioPacket.Received(f), payloads);
    }
  }

  lemma KindSent(isAck: bool, binary: bool)
    ensures SioPacket.WireKind((if isAck then SioPacket.TYPE_ACK else SioPacket.TYPE_EVENT)
        + SioPacket.TYPE_UNDETERMINED, binary) ==
      if isAck then (if binary then 6 else 3) else (if binary then 5 else 2)
  {
  }

  lemma OneEvent(s: SioReassembly.State, e: SioReassembly.Event)
    requires SioReassembly.Valid(s) && SioReassembly.SortOf(e).Whole?
    ensures SioReassembly.Run(s, [e]) == SioReassembly.State(s.partial, s.delivered + [SioReassembly.SortOf(e).fields])
  {
    hide SioReassembly.SortOf;
    assert [e][..0] == [];
  }

  // ---------------------------------------------------------------------------
  // The message rebuilt
  // ---------------------------------------------------------------------------

  type NumberValue = v: Value | v.Number? witness NUMBER_ANY
  type NumberReader = string -> NumberValue

  /** A text reader's value: copied strings, and numbers as the reader makes them of their text. */
  function ValueOf(j: JsonText.Json, num: NumberReader): Value {
    match j
    case JNull => Null
    case JBool(b) => Bool(b)
    case JNumber(text) => num(text)
    case JString(chars) => CopyOf(chars)
    case JArray(es) => Array(seq(|es|, i requires 0 <= i < |es| => ValueOf(es[i], num)))
    case JObject(ms) => Object(seq(|ms|, i requires 0 <= i < |ms| => Member(CopyOf(ms[i].0), ValueOf(ms[i].1, num))))
  }

  /** What a delivered packet's JSON text and attachments are decoded to. */
  function Decoded(body: SioPacket.Body, num: NumberReader): Option<Message> {
    match JsonText.ReadValue(body.json)
    case None => None
    case Some((j, rest)) => if rest == "" then FromJson(ValueOf(j, num), body.attachments) else None
  }

  /** The numbers of the attachments are read as they were printed. */
  ghost predicate CountsRead(count: nat, nt: NumberText, num: NumberReader) {
    forall k: nat :: k < count && k < TWO31 ==> num(nt.ofInt(k)) == Integer(k)
  }

  /** Every number of the message is read from its text as that number. */
  ghost predicate NumbersRead(m: Message, nt: NumberText, num: NumberReader) {
    match m
    case MInt(n) => FromJson(num(nt.ofInt(n)), []) == Some(m)
    case MDouble(bits) => FromJson(num(nt.ofDouble(bits)), []) == Some(m)
    case MArray(ms) => forall i :: 0 <= i < |ms| ==> NumbersRead(ms[i], nt, num)
    case MObject(_, ms) => forall i :: 0 <= i < |ms| ==> NumbersRead(ms[i], nt, num)
    case _ => true
  }

  /** A value as it is read from its own text. */
  function Seen(v: Value, nt: NumberText, num: NumberReader): Value
    requires JsonText.NamesAreStrings(v)
  {
    ValueOf(JsonText.Meaning(v, nt), num)
  }

  function SeenAll(vs: seq<Value>, nt: NumberText, num: NumberReader): seq<Value>
    requires forall i :: 0 <= i < |vs| ==> JsonText.NamesAreStrings(vs[i])
  {
    seq(|vs|, i requires 0 <= i < |vs| => Seen(vs[i], nt, num))
  }

  lemma SeenArray(vs: seq<Value>, nt: NumberText, num: NumberReader)
    requires JsonText.NamesAreStrings(Array(vs))
    ensures Seen(Array(vs), nt, num) == Array(SeenAll(vs, nt, num))
  {
    assert Seen(Array(vs), nt, num).elements == SeenAll(vs, nt, num);
  }

  lemma SeenObject(ms: seq<Member>, nt: NumberText, num: NumberReader)
    requires JsonText.NamesAreStrings(Object(ms))
    ensures Seen(Object(ms), nt, num).Object? && |Seen(Object(ms), nt, num).members| == |ms|
    ensures forall i :: 0 <= i < |ms| ==>
      Seen(Object(ms), nt, num).members[i] == Member(CopyOf(ms[i].name.chars), Seen(ms[i].value, nt, num))
  {
  }

  lemma SeenFalse(v: Value, nt: NumberText, num: NumberReader)
    requires JsonText.NamesAreStrings(v)
    ensures Seen(v, nt, num) == Bool(false) <==> v == Bool(false)
  {
  }

  /** Numbers are decoded the same whatever the attachments. */
  lemma NumberDecodes(v: Value, all: seq<string>)
    requires v.Number?
    ensures FromJson(v, all) == FromJson(v, [])
  {
  }

  lemma IntText(n: int, nt: NumberText)
    requires -TWO63 <= n < TWO63
    ensures JsonText.PrintNumber(FromInt64(n).flags, FromInt64(n).raw, nt) == nt.ofInt(n)
  {
    ConstructorsAgree(n);
    UnionReads(n);
    hide RawOf, AsInt, AsUint, AsInt64;
  }

  /** The object that stands for an attachment is read as that attachment. */
  lemma PlaceholderSeen(n: nat, all: seq<string>, nt: NumberText, num: NumberReader)
    requires n < |all| < TWO31 && num(nt.ofInt(n)) == Integer(n)
    ensures JsonText.NamesAreStrings(PlaceholderFor(n))
    ensures FromJson(Seen(PlaceholderFor(n), nt, num), all) == Some(MBinary(all[n]))
  {
    var ms := PlaceholderFor(n).members;
    SeenObject(ms, nt, num);
    PlaceholderNumbered(n, nt);
    var seen := Seen(Object(ms), nt, num).members;
    assert seen[0] == Member(CopyOf(PLACEHOLDER), Bool(true));
    assert seen[1] == Member(CopyOf("num"), Integer(n));
    hide Seen, Integer;
    AttachmentFound(seen, n, all);
  }

  lemma AttachmentFound(ms: seq<Member>, n: nat, all: seq<string>)
    requires n < |all| < TWO31 && |ms| == 2
    requires ms[0] == Member(CopyOf(PLACEHOLDER), Bool(true)) && ms[1] == Member(CopyOf("num"), Integer(n))
    ensures FromJson(Object(ms), all) == Some(MBinary(all[n]))
  {
    assert FindMember(ms, PLACEHOLDER) == 0;
    assert ms[0].name.chars != "num" by { assert |ms[0].name.chars| == 12; }
    assert ms[1..][0] == ms[1];
    assert FindMember(ms[1..], "num") == 0;
    assert FindMember(ms, "num") == 1;
    UnionReads(n);
    UnionReads(|all|);
    hide FindMember, AsInt, RawOf, Collected, Inserted;
  }

  lemma PlaceholderNumbered(n: nat, nt: NumberText)
    requires n < TWO31
    ensures AsInt(n) == n
    ensures JsonText.PrintNumber(FromInt(n).flags, FromInt(n).raw, nt) == nt.ofInt(n)
  {
    ConstructorsAgree(n);
    UnionReads(n);
  }

  /** A message that is no container is read back exactly when its number, if it is one, is. */
  lemma LeafSeenIff(m: Message, base: nat, all: seq<string>, nt: NumberText, num: NumberReader)
    requires Valid(m) && Sized(m) && !m.MArray? && !m.MObject?
    requires Holds(all, base, Leaves(m)) && |all| < TWO31 && CountsRead(|all|, nt, num)
    ensures JsonText.NamesAreStrings(Encoded(m, base))
    ensures FromJson(Seen(Encoded(m, base), nt, num), all) == Some(m) <==> NumbersRead(m, nt, num)
  {
    EncodedNames(m, base);
    match m
    case MInt(_) => NumberSeenIff(m, base, all, nt, num);
    case MDouble(_) => NumberSeenIff(m, base, all, nt, num);
    case MBinary(data) =>
      BinaryHeld(all, base, data);
      PlaceholderSeen(base, all, nt, num);
      hide FromJson, Seen, Holds, Leaves;
      assert Encoded(m, base) == PlaceholderFor(base);
    case _ =>
      hide Holds, Leaves, CountsRead;
  }

  lemma BinaryHeld(all: seq<string>, base: nat, data: string)
    requires Holds(all, base, [data])
    ensures base < |all| && all[base] == data
  {
    assert all[base..base + 1][0] == all[base];
  }

  lemma NumberSeenIff(m: Message, base: nat, all: seq<string>, nt: NumberText, num: NumberReader)
    requires Valid(m) && Sized(m) && (m.MInt? || m.MDouble?) && JsonText.NamesAreStrings(Encoded(m, base))
    ensures FromJson(Seen(Encoded(m, base), nt, num), all) == Some(m) <==> NumbersRead(m, nt, num)
  {
    match m
    case MInt(n) =>
      IntText(n, nt);
      NumberDecodes(num(nt.ofInt(n)), all);
      hide FromJson, FromInt64;
      assert Seen(Encoded(m, base), nt, num) == num(nt.ofInt(n));
    case MDouble(bits) =>
      NumberDecodes(num(nt.ofDouble(bits)), all);
      hide FromJson;
      assert Seen(Encoded(m, base), nt, num) == num(nt.ofDouble(bits));
  }

  /**
   Read back from its text, with its leaves at position `base` of the attachments, an encoded
   message decodes to itself exactly when the reserved key is free and its numbers are read.
   */
  lemma {:induction false} SeenDecodesIff(m: Message, base: nat, all: seq<string>, nt: NumberText, num: NumberReader)
    requires Valid(m) && Sized(m) && Holds(all, base, Leaves(m)) && |all| < TWO31 && CountsRead(|all|, nt, num)
    ensures JsonText.NamesAreStrings(Encoded(m, base))
    ensures FromJson(Seen(Encoded(m, base), nt, num), all) == Some(m) <==> ReservedKeyFree(m) && NumbersRead(m, nt, num)
    decreases m, 1
  {
    hide FromJson, Holds, LeavesOf, DecodedAll, Seen, SeenAll;
    EncodedNames(m, base);
    match m
    case MArray(ms) =>
      EncodedArray(m, base);
      ChildrenSeenIff(m, ms, base, all, nt, num);
      SeenArray(EncodedElements(ms, base), nt, num);
      ArrayDecodes(SeenAll(EncodedElements(ms, base), nt, num), ms, all);
    case MObject(_, ms) =>
      ChildrenSeenIff(m, ms, base, all, nt, num);
      ObjectSeenIff(m, base, all, nt, num);
    case _ =>
      LeafSeenIff(m, base, all, nt, num);
  }

  lemma ObjectSeenIff(m: Message, base: nat, all: seq<string>, nt: NumberText, num: NumberReader)
    requires Valid(m) && m.MObject? && Sized(m) && JsonText.NamesAreStrings(Encoded(m, base))
    requires forall i :: 0 <= i < |m.values| ==> JsonText.NamesAreStrings(EncodedElements(m.values, base)[i])
    ensures FromJson(Seen(Encoded(m, base), nt, num), all) == Some(m) <==>
      ReservedIsFalse(m) && DecodedAll(SeenAll(EncodedElements(m.values, base), nt, num), all) == Some(m.values)
  {
    EncodedObject(m, base);
    EncodedFalse(m.values, base);
    var ms, vs := Encoded(m, base).members, EncodedElements(m.values, base);
    SeenObject(ms, nt, num);
    hide Encoded, EncodedElements, FromJson, DecodedAll, ReservedIsFalse, Seen, Valid;
    var ms', vs' := Seen(Object(ms), nt, num).members, SeenAll(vs, nt, num);
    forall i | 0 <= i < |vs| ensures vs'[i] == Bool(false) <==> m.values[i] == MBool(false) {
      SeenFalse(vs[i], nt, num);
    }
    ObjectDecodes(m, ms', vs', all);
  }

  lemma {:induction false} ChildrenSeenIff(m: Message, ms: seq<Message>, base: nat, all: seq<string>,
                                           nt: NumberText, num: NumberReader)
    requires Valid(m) && (m == MArray(ms) || (m.MObject? && m.values == ms))
    requires Holds(all, base, LeavesOf(ms)) && |all| < TWO31 && CountsRead(|all|, nt, num)
    requires forall i :: 0 <= i < |ms| ==> Sized(ms[i])
    ensures forall i :: 0 <= i < |ms| ==> JsonText.NamesAreStrings(EncodedElements(ms, base)[i])
    ensures DecodedAll(SeenAll(EncodedElements(ms, base), nt, num), all) == Some(ms) <==>
      forall i :: 0 <= i < |ms| ==> ReservedKeyFree(ms[i]) && NumbersRead(ms[i], nt, num)
    decreases m, 0
  {
    hide FromJson, Encoded, Holds, LeavesOf, DecodedAll, Seen;
    var vs := EncodedElements(ms, base);
    forall i | 0 <= i < |ms|
      ensures JsonText.NamesAreStrings(vs[i])
      ensures FromJson(Seen(vs[i], nt, num), all) == Some(ms[i]) <==>
        ReservedKeyFree(ms[i]) && NumbersRead(ms[i], nt, num)
    {
      PartHolds(all, base, ms, i);
      SeenDecodesIff(ms[i], base + |LeavesOf(ms[..i])|, all, nt, num);
    }
    DecodedAllSame(SeenAll(vs, nt, num), all, ms);
  }

  /**
   The JSON text of a message and its leaves are decoded to the message exactly when the reserved
   key is free and every number is read from its text as that number.
   */
  lemma {:induction false} BodyDecodesIff(m: Message, nt: NumberText, num: NumberReader)
    requires Valid(m) && Sized(m) && |Leaves(m)| < TWO31
    requires JsonText.Readable(Encoded(m, 0), nt) && CountsRead(|Leaves(m)|, nt, num)
    ensures Decoded(BodyOf(m, nt), num) == Some(m) <==> ReservedKeyFree(m) && NumbersRead(m, nt, num)
  {
    var v := Encoded(m, 0);
    SeenDecodesIff(m, 0, Leaves(m), nt, num);
    hide Encoded, Leaves, FromJson, JsonText.ReadValue, JsonText.Print, JsonText.Meaning, Valid, Sized;
    JsonText.PrintedReads(v, nt, "");
    assert JsonText.Print(v, nt) + "" == JsonText.Print(v, nt);
  }

  /** What the writer prints for 0.0 and for -0.0, whose only bit is the sign. */
  ghost predicate PrintsZeros(nt: NumberText) { nt.ofDouble(0) == "0.0" && nt.ofDouble(TWO63) == "0.0" }

  /** Two numbers with one text cannot both come back, whatever the reader. */
  lemma OneTextOneNumber(a: nat, b: nat, nt: NumberText, num: NumberReader)
    requires a != b && nt.ofDouble(a) == nt.ofDouble(b)
    ensures !NumbersRead(MDouble(a), nt, num) || !NumbersRead(MDouble(b), nt, num)
  {
  }

  /** So an array with -0.0 in it does not come back where 0.0 does. */
  lemma NegativeZeroIsLost(nt: NumberText, num: NumberReader)
    requires PrintsZeros(nt) && num("0.0") == FromDouble(0)
    ensures var m := MArray([MDouble(TWO63)]);
      Valid(m) && Sized(m) && ReservedKeyFree(m) && Decoded(BodyOf(m, nt), num) != Some(m)
    ensures var m := MArray([MDouble(0)]);
      Valid(m) && Sized(m) && ReservedKeyFree(m) && Decoded(BodyOf(m, nt), num) == Some(m)
  {
    ZeroIsNumber();
    OneTextOneNumber(0, TWO63, nt, num);
    assert NumbersRead(MDouble(0), nt, num);
    OneDouble(0, nt, num);
    OneDouble(TWO63, nt, num);
  }

  lemma ZeroIsNumber()
    ensures JsonText.IsNumberText("0.0")
  {
    assert "0.0"[1..] == ".0" && "0.0"[0..] == "0.0" && ".0"[1..] == "0" && "0"[1..] == "" && "0.0"[3..] == "";
    assert DigitsAt("0") == 1;
  }

  lemma OneDouble(bits: nat, nt: NumberText, num: NumberReader)
    requires bits < TWO64 && JsonText.IsNumberText(nt.ofDouble(bits))
    ensures var m := MArray([MDouble(bits)]);
      && Valid(m) && Sized(m) && ReservedKeyFree(m)
      && (Decoded(BodyOf(m, nt), num) == Some(m) <==> NumbersRead(MDouble(bits), nt, num))
  {
    var m := MArray([MDouble(bits)]);
    var d := m.elements[0];
    assert Valid(d) && Sized(d) && ReservedKeyFree(d);
    assert LeavesOf([d]) == [] by { assert [d][..0] == []; }
    assert Encoded(m, 0).elements[0] == FromDouble(bits);
    assert JsonText.Readable(Encoded(m, 0), nt);
    BodyDecodesIff(m, nt, num);
    hide Decoded, BodyOf;
    assert NumbersRead(m, nt, num) <==> NumbersRead(d, nt, num);
  }

  /** The payloads that the encode callback was given, as they arrive. */
  function Sent(calls: seq<(bool, string)>): seq<SioReassembly.Event> {
    seq(|calls|, i requires 0 <= i < |calls| => SioReassembly.Payload(calls[i].1))
  }

  lemma SentAre(text: string, payloads: seq<string>)
    ensures Sent(SioReassembly.Sendings(text, payloads)) == [SioReassembly.Payload(text)] + Arrivals(payloads)
  {
  }

  /** The packet as it is delivered. */
  function Delivered(m: Message, nt: NumberText, nsp: string, packId: int, isAck: bool): SioPacket.Fields
    requires Sized(m)
  {
    var binary := Leaves(m) != [];
    SioPacket.Fields(4, if isAck then (if binary then 6 else 3) else (if binary then 5 else 2),
      if nsp == "" then "/" else nsp, packId, Some(BodyOf(m, nt)), 0, [])
  }

  ghost predicate LeavesAreAttachments(m: Message) {
    forall i :: 0 <= i < |Leaves(m)| ==> SioReassembly.IsAttachment(Leaves(m)[i])
  }

  /** The payloads that the encode callback gets for a message. */
  function Encoding(m: Message, nt: NumberText, nsp: string, packId: int, isAck: bool): seq<(bool, string)>
    requires Sized(m)
  {
    SioReassembly.Sendings(SioPacket.Printed(PacketOf(m, nt, nsp, packId, isAck)), Leaves(m))
  }

  lemma EncodingIsDelivered(s: SioReassembly.State, m: Message, nt: NumberText, nsp: string, packId: int, isAck: bool)
    requires Sized(m) && Sendable(m, nsp, packId) && LeavesAreAttachments(m) && SioReassembly.Valid(s)
    ensures SioReassembly.Run(s, Sent(Encoding(m, nt, nsp, packId, isAck))).delivered ==
      s.delivered + [Delivered(m, nt, nsp, packId, isAck)]
  {
    SentIsDelivered(s, m, nt, nsp, packId, isAck, Leaves(m));
    var text := SioPacket.Printed(PacketOf(m, nt, nsp, packId, isAck));
    SentAre(text, Leaves(m));
    hide SioReassembly.Run, SioPacket.Printed, SioPacket.WireKind, Leaves, Sized, Sent, Arrivals,
      SioReassembly.Sendings;
  }

  /**
   What encode sends for a message whose leaves begin with byte 4 is delivered as one packet, and
   from_json rebuilds the message from it exactly when the reserved key is free and every number
   is read from its text as that number.
   */
  lemma {:induction false} MessageArrives(s: SioReassembly.State, m: Message, nt: NumberText, num: NumberReader,
                                          nsp: string, packId: int, isAck: bool)
    requires Valid(m) && Sized(m) && Sendable(m, nsp, packId) && LeavesAreAttachments(m) && SioReassembly.Valid(s)
    requires JsonText.Readable(Encoded(m, 0), nt) && CountsRead(|Leaves(m)|, nt, num)
    ensures var got := Delivered(m, nt, nsp, packId, isAck);
      && SioReassembly.Run(s, Sent(Encoding(m, nt, nsp, packId, isAck))).delivered == s.delivered + [got]
      && (Decoded(got.body.value, num) == Some(m) <==> ReservedKeyFree(m) && NumbersRead(m, nt, num))
  {
    EncodingIsDelivered(s, m, nt, nsp, packId, isAck);
    BodyDecodesIff(m, nt, num);
    hide SioReassembly.Run, Sent, Encoding, Leaves, Decoded, Valid, Sized, ReservedKeyFree, NumbersRead, BodyOf;
  }
}
