/**
 Socket.IO packets as text: a frame digit, a type digit, an attachment count, a namespace, an
 id and the JSON of the message.
 */
module SioPacket {
  import opened Widths
  import opened Text

  // Frame types.
  const FRAME_MESSAGE: int := 4
  const FRAME_NOOP: int := 6

  // Packet types.
  const TYPE_EVENT: int := 2
  const TYPE_ACK: int := 3
  const TYPE_BINARY_EVENT: int := 5
  const TYPE_BINARY_ACK: int := 6
  const TYPE_MAX: int := 6
  const TYPE_UNDETERMINED: int := 0x10

  /** A message by its JSON text and its attachments: what the writer made, or from_json is given. */
  datatype Body = Body(json: string, attachments: seq<string>)

  /** The fields of a packet. An id of -1 is none; `pending` attachments are still to come. */
  datatype Fields = Fields(
    frame: int,
    kind: int,
    nsp: string,
    packId: int,
    body: Option<Body>,
    pending: nat,
    buffers: seq<string>)

  predicate IsBinary(kind: int) { kind == TYPE_BINARY_EVENT || kind == TYPE_BINARY_ACK }

  /** Bytes are signed chars: what `c - '0'` comes to. */
  function Offset(c: char): int {
    (if c as int < 128 then c as int else c as int - 256) - '0' as int
  }

  /** substr(from, to - from) in size_t: everything from `from` on when `to` lies before it. */
  function Between(s: string, from: nat, to: nat): string
    requires from <= |s| && to <= |s|
  {
    if from <= to then s[from..to] else s[from..]
  }

  /** std::stoi; None when it throws. */
  function Stoi(s: string): Option<int> {
    match ReadNumber(s)
    case None => None
    case Some(n) => if -TWO31 <= n < TWO31 then Some(n) else None
  }

  /** std::stoul cast to unsigned; None when it throws. */
  function Stoul(s: string): (r: Option<nat>)
    ensures r.Some? ==> r.value < TWO32
  {
    match ReadNumber(s)
    case None => None
    case Some(n) => if -TWO64 < n < TWO64 then Some(n % TWO32) else None
  }

  // ---------------------------------------------------------------------------
  // Printing
  // ---------------------------------------------------------------------------

  /** The frame type as a digit. */
  function FrameChar(frame: int): char
    requires 0 <= frame < 10
  {
    "0123456789"[frame]
  }

  /** The type without its undetermined bit, raised to its binary form when attachments go along. */
  function WireKind(kind: int, hasBinary: bool): int {
    var k := if kind >= TYPE_UNDETERMINED then kind - TYPE_UNDETERMINED else kind;
    if hasBinary && k == TYPE_EVENT then TYPE_BINARY_EVENT
    else if hasBinary && k == TYPE_ACK then TYPE_BINARY_ACK
    else k
  }

  /** One of the enumerators, possibly with the undetermined bit. */
  predicate LegalKind(kind: int) {
    0 <= kind <= TYPE_MAX || TYPE_UNDETERMINED <= kind <= TYPE_UNDETERMINED + TYPE_MAX
  }

  function Attachments(f: Fields): seq<string> {
    if f.body.Some? then f.body.value.attachments else []
  }

  /** Frame, type and attachment count. */
  function Head(f: Fields): string
    requires LegalKind(f.kind)
  {
    var n := |Attachments(f)|;
    "4" + Decimal(WireKind(f.kind, n > 0)) + if n > 0 then Decimal(n) + "-" else ""
  }

  /** The namespace and the comma after it. */
  function NspText(f: Fields): string {
    if f.nsp == "" || f.nsp == "/" then ""
    else f.nsp + if f.body.Some? || f.packId >= 0 then "," else ""
  }

  function IdText(f: Fields): string { if f.packId >= 0 then Decimal(f.packId) else "" }

  function JsonOf(f: Fields): string { if f.body.Some? then f.body.value.json else "" }

  /** The whole text of a message packet. */
  function Printed(f: Fields): string
    requires LegalKind(f.kind)
  {
    Head(f) + (NspText(f) + (IdText(f) + JsonOf(f)))
  }

  // ---------------------------------------------------------------------------
  // Parsing
  // ---------------------------------------------------------------------------

  datatype Tail = Tail(nsp: string, packId: int, json: Option<string>)

  /** The id before the JSON, if anything is there. */
  function ReadId(s: string, nsp: string, pos: nat, jsonPos: nat): Option<Tail>
    requires pos <= |s| && jsonPos <= |s|
  {
    if pos < jsonPos then
      match Stoi(s[pos..jsonPos])
      case None => None
      case Some(n) => Some(Tail(nsp, n, Some(s[jsonPos..])))
    else Some(Tail(nsp, -1, Some(s[jsonPos..])))
  }

  /** What follows the head: None when a conversion throws. */
  function ReadTail(s: string, pos: nat): Option<Tail>
    requires pos <= |s|
  {
    match FindFirstOf(s, {'{', '[', '\"', '/'}, pos)
    case None => Some(Tail("/", -1, None))
    case Some(at) =>
      if s[at] != '/' then ReadId(s, "/", pos, at)
      else
        match FindFirstOf(s, {','}, 0)
        case None => Some(Tail(s[at..], -1, None))
        case Some(comma) =>
          var nsp := Between(s, at, comma);
          match FindFirstOf(s, {'\"', '[', '{'}, comma + 1)
          case None => Some(Tail(nsp, -1, None))
          case Some(jsonPos) => ReadId(s, nsp, comma + 1, jsonPos)
  }

  /** The attachment count, and where the rest begins: at the front again when there is no '-'. */
  function ReadCount(s: string): Option<(nat, nat)>
    requires |s| >= 2
  {
    var score := FindFirstOf(s, {'-'}, 0);
    match Stoul(Between(s, 2, if score.Some? then score.value else |s|))
    case None => None
    case Some(n) => Some((n, if score.Some? then score.value + 1 else 0))
  }

  /** The fields after parse(), starting from `f`, and whether it asks for attachments. */
  datatype Outcome = Throws | Parsed(fields: Fields, more: bool)

  function WithTail(f: Fields, t: Tail): Outcome {
    var g := f.(nsp := t.nsp, packId := t.packId);
    if t.json.None? then Parsed(g, false)
    else if f.frame == FRAME_MESSAGE && IsBinary(f.kind) then Parsed(g.(buffers := [t.json.value]), true)
    else Parsed(g.(body := Some(Body(t.json.value, []))), false)
  }

  function ParseFields(f: Fields, s: string): Outcome {
    var frame := if s == "" then -('0' as int) else Offset(s[0]);
    var start := f.(frame := frame, packId := -1, body := None, pending := 0, buffers := []);
    if frame == FRAME_MESSAGE then
      var kind := if |s| == 1 then -('0' as int) else Offset(s[1]);
      var typed := start.(kind := kind);
      if kind < 0 || kind > TYPE_MAX then Parsed(typed, false)
      else if IsBinary(kind) then
        match ReadCount(s)
        case None => Throws
        case Some((n, pos)) =>
          match ReadTail(s, pos) case None => Throws case Some(t) => WithTail(typed.(pending := n), t)
      else
        match ReadTail(s, 2) case None => Throws case Some(t) => WithTail(typed, t)
    else
      match ReadTail(s, if s == "" then 0 else 1) case None => Throws case Some(t) => WithTail(start, t)
  }

  // ---------------------------------------------------------------------------
  // The packet object
  // ---------------------------------------------------------------------------

  class Packet {
    var frame: int
    var kind: int
    var nsp: string
    var packId: int
    var body: Option<Body>
    var pending: nat
    var buffers: seq<string>

    /** The packet a message travels in, and the one that parse() fills. */
    constructor (frame: int, kind: int, nsp: string, packId: int, body: Option<Body>)
      ensures View() == Fields(frame, kind, nsp, packId, body, 0, [])
    {
      this.frame, this.kind, this.nsp, this.packId, this.body := frame, kind, nsp, packId, body;
      pending, buffers := 0, [];
    }

    function View(): Fields
      reads this
    {
      Fields(frame, kind, nsp, packId, body, pending, buffers)
    }

    /** Writes the text, hands over the attachments, and settles the type; a control packet is its frame digit. */
    method Accept() returns (text: string, attachments: seq<string>, hasBinary: bool)
      requires 0 <= frame <= FRAME_NOOP && (frame == FRAME_MESSAGE ==> LegalKind(kind))
      modifies this`kind
      ensures attachments == if frame == FRAME_MESSAGE then Attachments(old(View())) else []
      ensures hasBinary == (attachments != [])
      ensures text == if frame == FRAME_MESSAGE then Printed(old(View())) else [FrameChar(frame)]
      ensures kind == if frame == FRAME_MESSAGE then WireKind(old(kind), hasBinary) else old(kind)
    {
      hide Decimal;
      ghost var f := View();
      text := [FrameChar(frame)];
      attachments := [];
      if frame != FRAME_MESSAGE {
        return text, [], false;
      }
      assert text == "4";
      var hasMessage := body.Some?;
      if hasMessage {
        attachments := body.value.attachments;
      }
      hasBinary := |attachments| > 0;
      if kind >= TYPE_UNDETERMINED {
        kind := kind - TYPE_UNDETERMINED;
      }
      if kind == TYPE_EVENT {
        kind := if hasBinary then TYPE_BINARY_EVENT else TYPE_EVENT;
      } else if kind == TYPE_ACK {
        kind := if hasBinary then TYPE_BINARY_ACK else TYPE_ACK;
      }
      var ss := Decimal(kind);
      if hasBinary {
        ss := ss + (Decimal(|attachments|) + "-");
      }
      text := text + ss;
      assert text == Head(f);
      ss := "";
      if |nsp| > 0 && nsp != "/" {
        ss := ss + nsp;
        if hasMessage || packId >= 0 {
          ss := ss + ",";
        }
      }
      assert ss == NspText(f);
      var id := "";
      if packId >= 0 {
        id := Decimal(packId);
      }
      if hasMessage {
        id := id + body.value.json;
      }
      assert id == IdText(f) + JsonOf(f);
      text := text + (ss + id);
    }

    /** Reads a text payload; true when attachments are to follow. The fields are unspecified after a throw. */
    method Parse(payload: string) returns (threw: bool, more: bool)
      modifies this
      ensures match ParseFields(old(View()), payload)
        case Throws => threw
        case Parsed(f, m) => !threw && more == m && View() == f
    {
      ghost var was := View();
      threw, more := false, false;
      frame := if payload == "" then -('0' as int) else Offset(payload[0]);
      body, packId, buffers, pending := None, -1, [], 0;
      var pos := if payload == "" then 0 else 1;
      if frame == FRAME_MESSAGE {
        kind := if |payload| == 1 then -('0' as int) else Offset(payload[pos]);
        if kind < 0 || kind > TYPE_MAX {
          return;
        }
        pos := pos + 1;
        if IsBinary(kind) {
          var score := FindFirstOf(payload, {'-'}, 0);
          match Stoul(Between(payload, pos, if score.Some? then score.value else |payload|)) {
            case None => threw := true; return;
            case Some(n) => pending := n;
          }
          pos := if score.Some? then score.value + 1 else 0;
        }
      }
      threw, more := ParseTail(payload, pos);
    }

    /** The namespace, the id and the message, from `start` on. */
    method ParseTail(payload: string, start: nat) returns (threw: bool, more: bool)
      requires start <= |payload|
      modifies this`nsp, this`packId, this`body, this`buffers
      requires packId == -1 && body == None && buffers == []
      ensures match ReadTail(payload, start)
        case None => threw
        case Some(t) => !threw && WithTail(old(View()), t) == Parsed(View(), more)
    {
      hide FindFirstOf, Stoi, Between;
      threw, more := false, false;
      var pos := start;
      var jsonPos := FindFirstOf(payload, {'{', '[', '\"', '/'}, pos);
      if jsonPos.None? {
        nsp := "/";
        return;
      }
      var nspPos := jsonPos.value;
      if payload[nspPos] == '/' {
        var comma := FindFirstOf(payload, {','}, 0);
        if comma.None? {
          nsp := payload[nspPos..];
          return;
        }
        nsp := Between(payload, nspPos, comma.value);
        pos := comma.value + 1;
        jsonPos := FindFirstOf(payload, {'\"', '[', '{'}, pos);
        if jsonPos.None? {
          return;
        }
      } else {
        nsp := "/";
      }
      var json := payload[jsonPos.value..];
      if pos < jsonPos.value {
        match Stoi(payload[pos..jsonPos.value]) {
          case None => threw := true; return;
          case Some(n) => packId := n;
        }
      }
      if frame == FRAME_MESSAGE && IsBinary(kind) {
        buffers := buffers + [json];
        more := true;
      } else {
        body := Some(Body(json, []));
      }
    }

    /** Takes one attachment; false when the packet needs no more. */
    method ParseBuffer(payload: string) returns (more: bool)
      requires pending > 0 ==> buffers != []
      modifies this
      ensures View() == TakeBuffer(old(View()), payload).0 && more == TakeBuffer(old(View()), payload).1
    {
      if pending > 0 {
        buffers := buffers + [payload];
        pending := pending - 1;
        if pending == 0 {
          var json := buffers[0];
          buffers := buffers[1..];
          assert buffers == old(buffers)[1..] + [payload];
          body := Some(Body(json, buffers));
          buffers := [];
          return false;
        }
        return true;
      }
      return false;
    }
  }

  /** parse_buffer: the last attachment completes the message. */
  function TakeBuffer(f: Fields, payload: string): (Fields, bool)
    requires f.pending > 0 ==> f.buffers != []
  {
    if f.pending == 0 then (f, false)
    else if f.pending > 1 then (f.(pending := f.pending - 1, buffers := f.buffers + [payload]), true)
    else (f.(pending := 0, buffers := [], body := Some(Body(f.buffers[0], f.buffers[1..] + [payload]))), false)
  }

  // ---------------------------------------------------------------------------
  // parse() undoes accept()
  // ---------------------------------------------------------------------------

  /** The default namespace has two spellings. */
  function Canonical(nsp: string): string { if nsp == "" then "/" else nsp }

  /** What the receiver should hold of a packet: everything, but no attachment yet. */
  function Received(f: Fields): Fields
    requires LegalKind(f.kind)
  {
    var attachments := Attachments(f);
    f.(kind := WireKind(f.kind, attachments != []),
       nsp := Canonical(f.nsp),
       body := if attachments == [] then f.body else None,
       pending := |attachments|,
       buffers := if attachments == [] then [] else [f.body.value.json])
  }

  /** The namespaces that the text format can carry. */
  ghost predicate CarriedNsp(nsp: string) {
    nsp == "" || (nsp[0] == '/' && forall i :: 0 <= i < |nsp| ==> nsp[i] != ',')
  }

  predicate JsonStart(c: char) { c == '[' || c == '{' || c == '\"' }

  predicate CarriedBody(f: Fields) {
    if f.body.Some? then f.body.value.json != "" && JsonStart(f.body.value.json[0]) else f.packId < 0
  }

  /** Binary types with attachments, and only they; the count in an unsigned. */
  predicate CarriedKind(f: Fields)
    requires LegalKind(f.kind)
  {
    var n := |Attachments(f)|;
    (IsBinary(WireKind(f.kind, n > 0)) <==> n > 0) && n < TWO32
  }

  ghost predicate Plain(s: string) {
    forall i :: 0 <= i < |s| ==> s[i] !in {'{', '[', '\"', '/', ','}
  }

  lemma DigitsArePlain(s: string)
    requires AllDigits(s)
    ensures Plain(s)
  {
  }

  lemma OneDigit(k: nat)
    requires k < 10
    ensures |Decimal(k)| == 1 && Offset(Decimal(k)[0]) == k && Plain(Decimal(k)) && Decimal(k)[0] != '-'
  {
  }

  lemma HeadIsPlain(f: Fields)
    requires LegalKind(f.kind)
    ensures Plain(Head(f)) && |Head(f)| >= 2
    ensures Head(f)[0] == '4' && Offset(Head(f)[1]) == WireKind(f.kind, Attachments(f) != [])
    ensures Attachments(f) == [] ==> |Head(f)| == 2
  {
    var n := |Attachments(f)|;
    OneDigit(WireKind(f.kind, n > 0));
    DigitsArePlain(Decimal(n));
    hide Decimal;
  }

  /** A printed number, and a minus right after it. */
  lemma {:induction false} StoulDecimal(n: nat)
    requires n < TWO32
    ensures Stoul(Decimal(n)) == Some(n)
  {
    DecimalReads(n);
    hide ReadNumber, Decimal;
  }

  lemma StoiDecimal(n: nat)
    requires n < TWO31
    ensures Stoi(Decimal(n)) == Some(n)
  {
    DecimalReads(n);
    hide ReadNumber, Decimal;
  }

  lemma CountReads(f: Fields, rest: string)
    requires LegalKind(f.kind) && CarriedKind(f) && Attachments(f) != []
    ensures ReadCount(Head(f) + rest) == Some((|Attachments(f)|, |Head(f)|))
  {
    var n := |Attachments(f)|;
    var s, d, k := Head(f) + rest, Decimal(n), Decimal(WireKind(f.kind, n > 0));
    OneDigit(WireKind(f.kind, n > 0));
    StoulDecimal(n);
    hide Decimal, Stoul, WireKind;
    assert Head(f) == "4" + k + (d + "-");
    assert s == "4" + k + d + "-" + rest;
    assert s[2..2 + |d|] == d;
    assert forall i :: 0 <= i < |d| ==> s[2 + i] == d[i];
    FindsAt(s, {'-'}, 0, 2 + |d|);
  }

  /** An id that was printed between `pos` and the JSON text. */
  lemma IdReads(s: string, nsp: string, pos: nat, f: Fields)
    requires pos <= |s| && s[pos..] == IdText(f) + JsonOf(f) && f.body.Some? && f.packId < TWO31
    ensures ReadId(s, nsp, pos, pos + |IdText(f)|) ==
      Some(Tail(nsp, if f.packId >= 0 then f.packId else -1, Some(JsonOf(f))))
  {
    var id := IdText(f);
    assert s[pos..][..|id|] == id && s[pos..][|id|..] == JsonOf(f);
    assert s[pos..pos + |id|] == id && s[pos + |id|..] == JsonOf(f);
    if f.packId >= 0 {
      StoiDecimal(f.packId);
    }
    hide Stoi, Decimal;
  }

  /** The JSON text is found behind the id. */
  lemma JsonFound(s: string, chars: set<char>, pos: nat, f: Fields)
    requires pos <= |s| && s[pos..] == IdText(f) + JsonOf(f) && f.body.Some? && CarriedBody(f)
    requires chars == {'{', '[', '\"', '/'} || chars == {'\"', '[', '{'}
    ensures FindFirstOf(s, chars, pos) == Some(pos + |IdText(f)|)
  {
    var id := IdText(f);
    hide Decimal;
    assert forall i :: 0 <= i < |id| ==> s[pos + i] == s[pos..][i] == id[i];
    assert s[pos + |id|] == s[pos..][|id|] == JsonOf(f)[0];
    FindsAt(s, chars, pos, pos + |id|);
  }

  function TailOf(f: Fields): Tail {
    Tail(Canonical(f.nsp), if f.packId >= 0 then f.packId else -1,
         if f.body.Some? then Some(f.body.value.json) else None)
  }

  /** The text after a head and a printed namespace. */
  lemma AfterNsp(s: string, head: string, nspText: string, rest: string)
    requires s == head + (nspText + rest)
    ensures |head| + |nspText| <= |s| && s[|head| + |nspText|..] == rest
  {
  }

  /** The default namespace is not printed. */
  lemma DefaultTailReads(s: string, head: string, f: Fields)
    requires Plain(head) && s == head + (NspText(f) + (IdText(f) + JsonOf(f)))
    requires f.nsp == "" || f.nsp == "/"
    requires f.body.Some? && CarriedBody(f) && f.packId < TWO31
    ensures ReadTail(s, |head|) == Some(TailOf(f))
  {
    hide ReadId, FindFirstOf, IdText, ReadTail, CarriedBody, Plain;
    AfterNsp(s, head, NspText(f), IdText(f) + JsonOf(f));
    JsonFound(s, {'{', '[', '\"', '/'}, |head|, f);
    IdReads(s, "/", |head|, f);
    JsonFound(s, {'\"', '[', '{'}, |head|, f);
    hide JsonOf;
    JsonAtOnce(s, |head|, |head| + |IdText(f)|);
  }

  lemma JsonAtOnce(s: string, pos: nat, at: nat)
    requires pos <= |s| && FindFirstOf(s, {'{', '[', '\"', '/'}, pos) == Some(at)
    requires FindFirstOf(s, {'{', '[', '\"', '/'}, pos) == FindFirstOf(s, {'\"', '[', '{'}, pos)
    ensures at <= |s| && ReadTail(s, pos) == ReadId(s, "/", pos, at)
  {
    hide ReadId;
  }

  lemma NothingReads(s: string, head: string, f: Fields)
    requires Plain(head) && s == head + (NspText(f) + (IdText(f) + JsonOf(f)))
    requires (f.nsp == "" || f.nsp == "/") && f.body.None? && f.packId < 0
    ensures ReadTail(s, |head|) == Some(TailOf(f))
  {
    assert s == head;
    FindsAt(s, {'{', '[', '\"', '/'}, |head|, |s|);
    hide FindFirstOf;
  }

  lemma NspFound(s: string, head: string, f: Fields)
    requires Plain(head) && s == head + (NspText(f) + (IdText(f) + JsonOf(f)))
    requires f.nsp != "" && f.nsp != "/" && f.nsp[0] == '/'
    ensures FindFirstOf(s, {'{', '[', '\"', '/'}, |head|) == Some(|head|) && |head| < |s| && s[|head|] == '/'
  {
    hide Decimal, IdText, JsonOf;
    assert s[|head|] == f.nsp[0];
  }

  /** Without anything behind it, the namespace ends the text. */
  lemma LoneNspReads(s: string, head: string, f: Fields)
    requires Plain(head) && s == head + (NspText(f) + (IdText(f) + JsonOf(f)))
    requires f.nsp != "" && f.nsp != "/" && CarriedNsp(f.nsp) && f.body.None? && f.packId < 0
    ensures ReadTail(s, |head|) == Some(TailOf(f))
  {
    NspFound(s, head, f);
    assert s == head + f.nsp && s[|head|..] == f.nsp;
    FindsAt(s, {','}, 0, |s|);
    hide FindFirstOf, Decimal;
  }

  lemma CommaFound(s: string, head: string, nsp: string, rest: string)
    requires Plain(head) && nsp != "" && CarriedNsp(nsp) && s == head + (nsp + "," + rest)
    ensures FindFirstOf(s, {','}, 0) == Some(|head| + |nsp|)
    ensures s[|head|..|head| + |nsp|] == nsp && s[|head| + |nsp| + 1..] == rest
  {
    var comma := |head| + |nsp|;
    assert forall i :: 0 <= i < |nsp| ==> s[|head| + i] == nsp[i];
    assert s[comma] == ',';
    FindsAt(s, {','}, 0, comma);
  }

  lemma NspThenJson(s: string, at: nat, comma: nat, jsonPos: nat)
    requires at <= comma <= |s| && FindFirstOf(s, {'{', '[', '\"', '/'}, at) == Some(at) && s[at] == '/'
    requires FindFirstOf(s, {','}, 0) == Some(comma)
    requires FindFirstOf(s, {'\"', '[', '{'}, comma + 1) == Some(jsonPos)
    ensures ReadTail(s, at) == ReadId(s, s[at..comma], comma + 1, jsonPos)
  {
    hide FindFirstOf, ReadId;
  }

  /** The namespace and its comma are found. */
  lemma NspParts(s: string, head: string, nsp: string, rest: string)
    requires Plain(head) && nsp != "" && CarriedNsp(nsp) && s == head + (nsp + "," + rest)
    ensures |head| + |nsp| < |s| && s[|head|] == '/'
    ensures FindFirstOf(s, {'{', '[', '\"', '/'}, |head|) == Some(|head|)
    ensures FindFirstOf(s, {','}, 0) == Some(|head| + |nsp|)
    ensures s[|head|..|head| + |nsp|] == nsp && s[|head| + |nsp| + 1..] == rest
  {
    CommaFound(s, head, nsp, rest);
    hide Plain;
    assert s[|head|] == nsp[0];
  }

  /** The id and the JSON are read where they begin. */
  lemma IdAndJson(s: string, nsp: string, pos: nat, f: Fields)
    requires pos <= |s| && s[pos..] == IdText(f) + JsonOf(f)
    requires f.body.Some? && CarriedBody(f) && f.packId < TWO31
    ensures var at := pos + |IdText(f)|;
      && FindFirstOf(s, {'\"', '[', '{'}, pos) == Some(at) && at <= |s|
      && ReadId(s, nsp, pos, at) == Some(Tail(nsp, if f.packId >= 0 then f.packId else -1, Some(f.body.value.json)))
  {
    hide FindFirstOf, ReadId, IdText;
    JsonFound(s, {'\"', '[', '{'}, pos, f);
    IdReads(s, nsp, pos, f);
  }

  lemma NspTailReads(s: string, head: string, f: Fields)
    requires Plain(head) && s == head + (NspText(f) + (IdText(f) + JsonOf(f)))
    requires f.nsp != "" && f.nsp != "/" && CarriedNsp(f.nsp) && f.body.Some? && CarriedBody(f) && f.packId < TWO31
    ensures ReadTail(s, |head|) == Some(TailOf(f))
  {
    assert NspText(f) == f.nsp + ",";
    hide FindFirstOf, ReadId, ReadTail, IdText, NspText, JsonOf, CarriedBody, CarriedNsp, Plain, TailOf;
    NspRestReads(s, head, f, IdText(f) + JsonOf(f));
  }

  lemma NspRestReads(s: string, head: string, f: Fields, rest: string)
    requires Plain(head) && rest == IdText(f) + JsonOf(f) && s == head + (f.nsp + "," + rest)
    requires f.nsp != "" && CarriedNsp(f.nsp) && f.body.Some? && CarriedBody(f) && f.packId < TWO31
    ensures ReadTail(s, |head|) == Some(TailOf(f))
  {
    hide FindFirstOf, ReadId, ReadTail, IdText, JsonOf, CarriedBody, CarriedNsp, Plain;
    NspParts(s, head, f.nsp, rest);
    var comma := |head| + |f.nsp|;
    IdAndJson(s, f.nsp, comma + 1, f);
    NspThenJson(s, |head|, comma, comma + 1 + |IdText(f)|);
  }

  /** Carried packets come back, their id being -1 when it was any negative number. */
  lemma CarriedReads(f: Fields, blank: Fields)
    requires f.frame == FRAME_MESSAGE && LegalKind(f.kind) && f.packId < TWO31
    requires CarriedKind(f) && CarriedNsp(f.nsp) && CarriedBody(f)
    ensures ParseFields(blank, Printed(f)) ==
      Parsed(Received(f).(packId := if f.packId >= 0 then f.packId else -1), Attachments(f) != [])
  {
    var s, rest := Printed(f), NspText(f) + (IdText(f) + JsonOf(f));
    HeadIsPlain(f);
    if Attachments(f) != [] {
      CountReads(f, rest);
    }
    if f.nsp == "" || f.nsp == "/" {
      if f.body.Some? { DefaultTailReads(s, Head(f), f); } else { NothingReads(s, Head(f), f); }
    } else if f.body.Some? {
      NspTailReads(s, Head(f), f);
    } else {
      LoneNspReads(s, Head(f), f);
    }
    hide ReadTail, ReadCount, Decimal, Head, NspText, IdText;
    assert s[0] == '4' && s[1] == Head(f)[1];
  }

  /** Whatever is read, a namespace begins with '/', JSON with a bracket or a quote, and an id has JSON behind it. */
  lemma TailShape(s: string, pos: nat)
    requires pos <= |s|
    ensures ReadTail(s, pos).Some? ==>
      var t := ReadTail(s, pos).value;
      && t.nsp != "" && t.nsp[0] == '/'
      && (t.json.Some? ==> t.json.value != "" && JsonStart(t.json.value[0]))
      && (t.packId != -1 ==> t.json.Some?)
  {
    hide Stoi;
  }

  lemma ParseShape(blank: Fields, s: string)
    requires s != "" && s[0] == '4' && ParseFields(blank, s).Parsed?
    requires |s| >= 2 && 0 <= Offset(s[1]) <= TYPE_MAX
    ensures var g, more := ParseFields(blank, s).fields, ParseFields(blank, s).more;
      && g.kind == Offset(s[1]) && g.nsp != "" && g.nsp[0] == '/' && g.pending < TWO32
      && (more ==> IsBinary(g.kind))
      && (IsBinary(g.kind) && !more ==> g.body.None? && g.packId == -1)
      && (g.body.Some? ==> g.body.value.json != "" && JsonStart(g.body.value.json[0]))
      && (forall i :: 0 <= i < |g.buffers| ==> g.buffers[i] != "" && JsonStart(g.buffers[i][0]))
      && (!more && g.packId != -1 ==> g.body.Some?)
  {
    hide ReadTail;
    if IsBinary(Offset(s[1])) {
      if ReadCount(s).Some? { TailShape(s, ReadCount(s).value.1); }
    } else {
      TailShape(s, 2);
    }
    hide ReadCount;
  }

  /** A binary type without a count in front of anything but digits cannot be read. */
  lemma CountMissing(s: string)
    requires |s| >= 2 && s[0] != '-' && s[1] != '-' && (|s| == 2 || s[2] == '/')
    ensures ReadCount(s).None?
  {
    var score := FindFirstOf(s, {'-'}, 0);
    var count := Between(s, 2, if score.Some? then score.value else |s|);
    assert count == "" || count[0] == '/';
    assert ReadNumber(count).None?;
  }

  lemma NoCommaAt(s: string, at: nat)
    requires FindFirstOf(s, {'{', '[', '\"', '/'}, at) == Some(at)
    requires s[at] == '/' && forall i :: 0 <= i < at ==> s[i] != ','
    ensures ReadTail(s, at).Some? ==> var nsp := ReadTail(s, at).value.nsp;
      forall i :: 0 <= i < |nsp| ==> nsp[i] != ','
  {
    hide Stoi;
    assert FindFirstOf(s, {','}, 0).Some? ==> at < FindFirstOf(s, {','}, 0).value;
  }

  /** A printed namespace that is read back has no comma. */
  lemma NoCommaRead(s: string, head: string, f: Fields)
    requires Plain(head) && s == head + (NspText(f) + (IdText(f) + JsonOf(f)))
    requires f.nsp != "" && f.nsp != "/" && f.nsp[0] == '/'
    ensures ReadTail(s, |head|).Some? ==> var nsp := ReadTail(s, |head|).value.nsp;
      forall i :: 0 <= i < |nsp| ==> nsp[i] != ','
  {
    NspFound(s, head, f);
    hide FindFirstOf, NspText, IdText, JsonOf, ReadTail;
    assert forall i :: 0 <= i < |head| ==> s[i] == head[i];
    NoCommaAt(s, |head|);
  }

  lemma KindComesBack(f: Fields, blank: Fields)
    requires f.frame == FRAME_MESSAGE && LegalKind(f.kind)
    requires ParseFields(blank, Printed(f)) == Parsed(Received(f), Attachments(f) != [])
    ensures CarriedKind(f) && CarriedBody(f) && Received(f).nsp[..1] == "/"
  {
    var s := Printed(f);
    HeadIsPlain(f);
    hide ParseFields, Head, NspText, IdText;
    assert s[0] == '4' && s[1] == Head(f)[1];
    ParseShape(blank, s);
    if Attachments(f) == [] && IsBinary(WireKind(f.kind, false)) {
      MissingCountThrows(f, blank);
    }
  }

  lemma MissingCountThrows(f: Fields, blank: Fields)
    requires LegalKind(f.kind) && Attachments(f) == [] && IsBinary(WireKind(f.kind, false))
    requires f.body.None? && f.packId < 0 && (f.nsp == "" || f.nsp[0] == '/')
    ensures ParseFields(blank, Printed(f)) == Throws
  {
    HeadIsPlain(f);
    hide Head, ReadCount, ReadTail;
    var s := Printed(f);
    assert s[0] == '4' && s[1] == Head(f)[1];
    assert |s| == 2 || s[2] == f.nsp[0];
    CountMissing(s);
  }

  lemma NspComesBack(f: Fields, blank: Fields)
    requires f.frame == FRAME_MESSAGE && LegalKind(f.kind)
    requires ParseFields(blank, Printed(f)) == Parsed(Received(f), Attachments(f) != [])
    requires CarriedKind(f) && Received(f).nsp[..1] == "/"
    ensures CarriedNsp(f.nsp)
  {
    hide ParseFields, Head, NspText, IdText, ReadTail, Printed;
    if f.nsp != "" && f.nsp != "/" {
      assert f.nsp[..1][0] == f.nsp[0];
      HeadIsPlain(f);
      NspIsTails(f, blank);
      assert Printed(f) == Head(f) + (NspText(f) + (IdText(f) + JsonOf(f))) by { PrintedParts(f); }
      NoCommaRead(Printed(f), Head(f), f);
    }
  }

  lemma PrintedParts(f: Fields)
    requires LegalKind(f.kind)
    ensures Printed(f) == Head(f) + (NspText(f) + (IdText(f) + JsonOf(f)))
  {
  }

  /** The namespace that is parsed comes from what follows the head. */
  lemma NspIsTails(f: Fields, blank: Fields)
    requires f.frame == FRAME_MESSAGE && LegalKind(f.kind) && CarriedKind(f) && ParseFields(blank, Printed(f)).Parsed?
    ensures var t := ReadTail(Printed(f), |Head(f)|);
      t.Some? && ParseFields(blank, Printed(f)).fields.nsp == t.value.nsp
  {
    var s := Printed(f);
    HeadIsPlain(f);
    if Attachments(f) != [] {
      CountReads(f, NspText(f) + (IdText(f) + JsonOf(f)));
    }
    hide Head, ReadTail, ReadCount, NspText, IdText;
    assert s[0] == '4' && s[1] == Head(f)[1];
  }

  /** A control packet comes back with its frame and nothing else. */
  lemma ControlComesBack(frame: int, blank: Fields)
    requires 0 <= frame <= FRAME_NOOP && frame != FRAME_MESSAGE
    ensures ParseFields(blank, [FrameChar(frame)]) == Parsed(Fields(frame, blank.kind, "/", -1, None, 0, []), false)
  {
    FindsAt([FrameChar(frame)], {'{', '[', '\"', '/'}, 1, 1);
  }

  // ---------------------------------------------------------------------------
  // The text, letter by letter
  // ---------------------------------------------------------------------------

  /** Which digits a packet begins with: events and acknowledgements by whether attachments go along. */
  lemma PrintedDigits(f: Fields)
    requires LegalKind(f.kind)
    ensures var binary := f.body.Some? && f.body.value.attachments != [];
      && |Printed(f)| >= 2
      && (f.kind in {2, 0x12} ==> Printed(f)[..2] == if binary then "45" else "42")
      && (f.kind in {3, 0x13} ==> Printed(f)[..2] == if binary then "46" else "43")
      && (f.kind in {0, 0x10} ==> Printed(f)[..2] == "40")
      && (f.kind in {1, 0x11} ==> Printed(f)[..2] == "41")
      && (f.kind in {4, 0x14} ==> Printed(f)[..2] == "44")
      && (f.kind in {5, 0x15} ==> Printed(f)[..2] == "45")
      && (f.kind in {6, 0x16} ==> Printed(f)[..2] == "46")
  {
    FirstTwo(f);
    hide Printed;
  }

  lemma FirstTwo(f: Fields)
    requires LegalKind(f.kind)
    ensures |Printed(f)| >= 2 && Printed(f)[..2] == ['4', "0123456789"[WireKind(f.kind, Attachments(f) != [])]]
  {
    var k := WireKind(f.kind, |Attachments(f)| > 0);
    DigitText(k);
    hide Decimal, NspText, IdText, JsonOf, WireKind;
    assert Printed(f)[..2] == "4" + Decimal(k);
  }

  lemma DigitText(k: nat)
    requires k < 10
    ensures Decimal(k) == ["0123456789"[k]]
  {
    assert k % 10 == k;
    OneOf("0123456789", k, k % 10);
  }

  lemma OneOf(s: string, i: nat, j: nat)
    requires i == j < |s|
    ensures [] + [s[j]] == [s[i]]
  {
  }

  /** The whole text: digits, attachment count, namespace, id and JSON. */
  lemma PrintedText(f: Fields)
    requires LegalKind(f.kind)
    ensures var n := if f.body.Some? then |f.body.value.attachments| else 0;
      Printed(f) == Printed(f)[..2]
        + (if n > 0 then Decimal(n) + "-" else "")
        + (if f.nsp == "" || f.nsp == "/" then "" else if f.body.Some? || f.packId >= 0 then f.nsp + "," else f.nsp)
        + (if f.packId >= 0 then Decimal(f.packId) else "")
        + (if f.body.Some? then f.body.value.json else "")
  {
    var n := |Attachments(f)|;
    DigitText(WireKind(f.kind, n > 0));
    var k := Decimal(WireKind(f.kind, n > 0));
    assert Printed(f) == Head(f) + (NspText(f) + (IdText(f) + JsonOf(f)));
    assert Head(f) == "4" + k + if n > 0 then Decimal(n) + "-" else "";
    hide Decimal, WireKind, Head, Printed;
    FiveParts(Printed(f), k, if n > 0 then Decimal(n) + "-" else "", NspText(f), IdText(f), JsonOf(f));
  }

  lemma FiveParts(s: string, k: string, count: string, nsp: string, id: string, json: string)
    requires |k| == 1 && s == "4" + k + count + (nsp + (id + json))
    ensures s == s[..2] + count + nsp + id + json
  {
    assert s[..2] == "4" + k;
  }

  lemma SignedReads(sign: string, n: nat)
    requires sign in {"", "-"}
    ensures ReadNumber(sign + Decimal(n)) == Some(if sign == "-" then 0 - n else n as int)
  {
    NumberReads("", sign, n, Decimal(n), "");
    hide ReadNumber, Decimal;
    assert "" + (sign + (Decimal(n) + "")) == sign + Decimal(n);
  }

  /** stoi throws outside 32 bits with a sign. */
  lemma StoiLimits(n: nat)
    ensures Stoi("" + Decimal(n)) == if n < 0x8000_0000 then Some(n) else None
    ensures Stoi("-" + Decimal(n)) == if n <= 0x8000_0000 then Some(0 - n) else None
  {
    SignedReads("", n);
    SignedReads("-", n);
    hide ReadNumber, Decimal;
  }

  /** stoul takes 64 bits, turns a minus around, and is cut to 32. */
  lemma StoulLimits(n: nat)
    ensures Stoul("" + Decimal(n)) == if n < 0x1_0000_0000_0000_0000 then Some(n % 0x1_0000_0000) else None
    ensures Stoul("-" + Decimal(n)) ==
      if n < 0x1_0000_0000_0000_0000 then Some((0x1_0000_0000_0000_0000 - n) % 0x1_0000_0000) else None
  {
    SignedReads("", n);
    SignedReads("-", n);
    TurnedAround(n);
    hide ReadNumber, Decimal;
  }

  lemma TurnedAround(n: nat)
    ensures (0x1_0000_0000_0000_0000 - n) % 0x1_0000_0000 == (0 - n) % 0x1_0000_0000
  {
    assert 0x1_0000_0000_0000_0000 - n == (0 - n) + 0x1_0000_0000 * 0x1_0000_0000;
  }

  /**
   The attachment count stands before the first hyphen; without one it is all that follows the
   type, and the rest is read from the front of the text again.
   */
  lemma CountIs(s: string, h: nat)
    requires 2 <= h <= |s| && '-' !in s[..h] && (h < |s| ==> s[h] == '-')
    ensures ReadCount(s) ==
      match Stoul(s[2..h]) case None => None case Some(n) => Some((n, if h < |s| then h + 1 else 0))
  {
    forall i | 0 <= i < h ensures s[i] !in {'-'} {
      assert s[i] == s[..h][i];
    }
    FindsAt(s, {'-'}, 0, h);
    hide Stoul, FindFirstOf;
  }

  /**
   The namespace ends at the first comma of the whole text; when that comes before the namespace,
   the namespace goes on to the end and the JSON is looked for from the comma on.
   */
  lemma NamespaceIs(s: string, pos: nat, at: nat, comma: nat)
    requires pos <= at < |s| && s[at] == '/' && forall i :: pos <= i < at ==> s[i] !in {'{', '[', '\"', '/'}
    requires comma < |s| && s[comma] == ',' && forall i :: 0 <= i < comma ==> s[i] != ','
    ensures ReadTail(s, pos) ==
      var nsp := if at < comma then s[at..comma] else s[at..];
      match FindFirstOf(s, {'\"', '[', '{'}, comma + 1)
      case None => Some(Tail(nsp, -1, None))
      case Some(json) => ReadId(s, nsp, comma + 1, json)
  {
    hide FindFirstOf, ReadId, ReadTail;
    FindsAt(s, {'{', '[', '\"', '/'}, pos, at);
    FindsAt(s, {','}, 0, comma);
    NamespaceFound(s, pos, at, comma);
  }

  lemma NamespaceFound(s: string, pos: nat, at: nat, comma: nat)
    requires pos <= at < |s| && s[at] == '/' && FindFirstOf(s, {'{', '[', '\"', '/'}, pos) == Some(at)
    requires comma < |s| && s[comma] == ',' && FindFirstOf(s, {','}, 0) == Some(comma)
    ensures ReadTail(s, pos) ==
      var nsp := if at < comma then s[at..comma] else s[at..];
      match FindFirstOf(s, {'\"', '[', '{'}, comma + 1)
      case None => Some(Tail(nsp, -1, None))
      case Some(json) => ReadId(s, nsp, comma + 1, json)
  {
    hide FindFirstOf, ReadId;
  }

  /** What stands between the namespace and the JSON is the id; nothing is no id, and no number throws. */
  lemma IdIs(s: string, nsp: string, pos: nat, json: nat)
    requires pos <= |s| && json <= |s|
    ensures ReadId(s, nsp, pos, json) ==
      if json <= pos then Some(Tail(nsp, -1, Some(s[json..])))
      else match Stoi(s[pos..json]) case None => None case Some(id) => Some(Tail(nsp, id, Some(s[json..])))
  {
    hide Stoi;
  }

  /** A control packet with JSON behind its digit, as the handshake has. */
  lemma ControlWithJson(frame: int, json: string, blank: Fields)
    requires 0 <= frame <= 9 && frame != 4
    requires json != "" && json[0] in {'[', '{', '\"'}
    ensures ParseFields(blank, ["0123456789"[frame]] + json) ==
      Parsed(Fields(frame, blank.kind, "/", -1, Some(Body(json, [])), 0, []), false)
  {
    var s := ["0123456789"[frame]] + json;
    FindsAt(s, {'{', '[', '\"', '/'}, 1, 1);
    hide FindFirstOf;
    assert s[1..] == json;
    assert ReadTail(s, 1) == Some(Tail("/", -1, Some(json)));
    hide ReadTail;
  }

  /** A message with a type that is none is left as it is but for its frame and that type. */
  lemma UnknownKindIgnored(s: string, blank: Fields)
    requires s != "" && s[0] == '4' && (|s| == 1 || s[1] < '0' || '6' < s[1] < 256 as char)
    ensures ParseFields(blank, s).Parsed? && !ParseFields(blank, s).more
    ensures var f := ParseFields(blank, s).fields;
      f.frame == 4 && f.nsp == blank.nsp && f.packId == -1 && f.body == None && f.pending == 0 && f.buffers == []
  {
    hide ReadTail, ReadCount;
  }

  /** A message with a known type has that type, and whatever its text, attachments are asked for by 5 and 6 alone. */
  lemma KnownKind(s: string, blank: Fields)
    requires |s| >= 2 && s[0] == '4' && '0' <= s[1] <= '6' && ParseFields(blank, s).Parsed?
    ensures var f := ParseFields(blank, s).fields;
      f.frame == 4 && f.kind == s[1] as int - '0' as int && (ParseFields(blank, s).more ==> s[1] in {'5', '6'})
  {
    hide ReadTail, ReadCount;
  }

  /**
   parse() gives back the type, the attachment count, the namespace, the id and the JSON text that
   accept() wrote exactly when the namespace is empty or begins with '/' and has no comma, the
   JSON begins with a bracket or a quote, no id goes without a message, and a binary type goes
   with attachments.
   */
  lemma {:induction false} ParseUndoesAccept(f: Fields, blank: Fields)
    requires f.frame == FRAME_MESSAGE && LegalKind(f.kind) && -TWO31 <= f.packId < TWO31
    ensures ParseFields(blank, Printed(f)) == Parsed(Received(f), Attachments(f) != []) <==>
      CarriedKind(f) && CarriedNsp(f.nsp) && CarriedBody(f) && f.packId >= -1
  {
    hide ParseFields, Printed, CarriedNsp;
    if ParseFields(blank, Printed(f)) == Parsed(Received(f), Attachments(f) != []) {
      KindComesBack(f, blank);
      NspComesBack(f, blank);
    }
    if CarriedKind(f) && CarriedNsp(f.nsp) && CarriedBody(f) {
      CarriedReads(f, blank);
    }
  }
}
