/**
 The packet manager's receiving side: packets whose attachments arrive in payloads of their own
 are put together again.
 */
module SioReassembly {
  import opened Text
  import opened SioPacket

  predicate IsText(payload: string) { payload != "" && payload[0] == '4' }

  predicate IsAttachment(payload: string) { payload != "" && payload[0] as int == FRAME_MESSAGE }

  /** A packet as its constructor leaves it for parse(); the frame is not set there, and never read. */
  const BLANK := Fields(0, TYPE_UNDETERMINED, "", -1, None, 0, [])

  /** What arrives: a payload, or a call of reset(). */
  datatype Event = Payload(s: string) | Reset

  /** What one payload is by itself. */
  datatype Sort =
    | Whole(fields: Fields)
    | Header(fields: Fields)
    | Attachment
    | Bad
    | Discard

  function SortOf(e: Event): (k: Sort)
    ensures k.Header? ==> |k.fields.buffers| == 1
    ensures k.Attachment? ==> e.Payload?
  {
    match e
    case Reset => Discard
    case Payload(s) =>
      if IsAttachment(s) then Attachment
      else
        match ParseFields(BLANK, s)
        case Throws => Bad
        case Parsed(f, more) => if more && IsText(s) then Header(f) else Whole(f)
  }

  /** The partial packet, and the packets given to the decode callback. */
  datatype State = State(partial: Option<Fields>, delivered: seq<Fields>)

  ghost predicate Valid(s: State) { s.partial.Some? ==> s.partial.value.buffers != [] }

  function Step(s: State, e: Event): (t: State)
    requires Valid(s)
    ensures Valid(t)
  {
    match SortOf(e)
    case Discard => s.(partial := None)
    case Bad => s
    case Whole(f) => s.(delivered := s.delivered + [f])
    case Header(f) => s.(partial := Some(f))
    case Attachment =>
      if s.partial.None? then s
      else
        var (f, more) := TakeBuffer(s.partial.value, e.s);
        if more then s.(partial := Some(f)) else State(None, s.delivered + [f])
  }

  function Sendings(text: string, attachments: seq<string>): seq<(bool, string)> {
    [(false, text)] + seq(|attachments|, i requires 0 <= i < |attachments| => (true, attachments[i]))
  }

  class PacketManager {
    var partial: Packet?
    var delivered: seq<Fields>

    constructor ()
      ensures Inv() && View() == State(None, [])
    {
      partial, delivered := null, [];
    }

    predicate Inv()
      reads this, partial
    {
      partial != null ==> partial.buffers != []
    }

    function View(): State
      reads this, partial
    {
      State(if partial == null then None else Some(partial.View()), delivered)
    }

    method Reset()
      requires Inv()
      modifies this`partial
      ensures Inv() && View() == Step(old(View()), Event.Reset)
    {
      partial := null;
    }

    /** The calls of the encode callback, in order: the text, then each attachment as binary. */
    method Encode(pack: Packet) returns (calls: seq<(bool, string)>)
      requires 0 <= pack.frame <= FRAME_NOOP && (pack.frame == FRAME_MESSAGE ==> LegalKind(pack.kind))
      modifies pack`kind
      ensures pack.frame != FRAME_MESSAGE ==> calls == [(false, [FrameChar(pack.frame)])]
      ensures pack.frame == FRAME_MESSAGE ==>
        calls == Sendings(Printed(old(pack.View())), Attachments(old(pack.View())))
      ensures |calls| >= 1 && calls[0].0 == false
      ensures pack.frame == FRAME_MESSAGE && pack.body.Some? ==>
        && |calls| == 1 + |pack.body.value.attachments|
        && forall i :: 0 <= i < |calls| - 1 ==> calls[i + 1] == (true, pack.body.value.attachments[i])
    {
      var text, buffers, hasBinary := pack.Accept();
      calls := [(false, text)];
      if hasBinary {
        for i := 0 to |buffers|
          invariant calls == Sendings(text, buffers[..i])
        {
          calls := calls + [(true, buffers[i])];
        }
        assert buffers[..|buffers|] == buffers;
      }
    }

    /** An exception of parse() passes through and leaves everything as it was. */
    method PutPayload(payload: string) returns (threw: bool)
      requires Inv()
      modifies this, partial
      ensures Inv() && View() == Step(old(View()), Payload(payload))
      ensures threw <==> SortOf(Payload(payload)).Bad?
    {
      threw := false;
      var more;
      if IsText(payload) {
        var p := new Packet(0, TYPE_UNDETERMINED, "", -1, None);
        threw, more := p.Parse(payload);
        if threw {
          return;
        }
        assert SortOf(Payload(payload)) == if more then Header(p.View()) else Whole(p.View());
        if more {
          partial := p;
          return;
        }
        delivered := delivered + [p.View()];
      } else if IsAttachment(payload) {
        if partial != null {
          more := partial.ParseBuffer(payload);
          if !more {
            var p := partial;
            partial := null;
            delivered := delivered + [p.View()];
          }
        }
      } else {
        var p := new Packet(0, TYPE_UNDETERMINED, "", -1, None);
        threw, more := p.Parse(payload);
        if !threw {
          delivered := delivered + [p.View()];
        }
      }
    }
  }

  // ---------------------------------------------------------------------------
  // Whole runs, told by looking back
  // ---------------------------------------------------------------------------

  const START := State(None, [])

  function Run(s: State, es: seq<Event>): (t: State)
    requires Valid(s)
    ensures Valid(t)
  {
    if es == [] then s else Step(Run(s, es[..|es| - 1]), es[|es| - 1])
  }

  /** Headers and resets throw away what was partial before. */
  predicate Opens(e: Event) { SortOf(e).Header? || SortOf(e).Discard? }

  /** The latest of them. */
  function LastOpening(es: seq<Event>): (r: Option<nat>)
    ensures r.Some? ==> r.value < |es| && Opens(es[r.value])
  {
    if es == [] then None
    else if Opens(es[|es| - 1]) then Some(|es| - 1)
    else LastOpening(es[..|es| - 1])
  }

  lemma {:induction false} NoneOpensAfter(es: seq<Event>, i: nat)
    requires i < |es| && (LastOpening(es).None? || LastOpening(es).value < i)
    ensures !Opens(es[i])
  {
    hide Opens;
    if i < |es| - 1 {
      NoneOpensAfter(es[..|es| - 1], i);
    }
  }

  /** The attachments among the payloads, in order of arrival. */
  function AttachmentsIn(es: seq<Event>): seq<string> {
    if es == [] then [] else AttachmentsIn(es[..|es| - 1]) + AttachmentOf(es[|es| - 1])
  }

  function AttachmentOf(e: Event): seq<string> { if SortOf(e).Attachment? then [e.s] else [] }

  /** The complete packets among the payloads. */
  function WholesIn(es: seq<Event>): seq<Fields> {
    if es == [] then [] else WholesIn(es[..|es| - 1]) + WholeOf(es[|es| - 1])
  }

  function WholeOf(e: Event): seq<Fields> { if SortOf(e).Whole? then [SortOf(e).fields] else [] }

  /** How many attachments it takes until a header is delivered; one that announces none waits for one all the same. */
  function Need(f: Fields): nat { if f.pending == 0 then 1 else f.pending }

  /** The packet that a header and its attachments make. An announced count of zero leaves it without a message. */
  function Completed(f: Fields, got: seq<string>): Fields
    requires |f.buffers| == 1
  {
    if f.pending == 0 then f else f.(pending := 0, buffers := [], body := Some(Body(f.buffers[0], got)))
  }

  /** What the arrival of `e` after `before` delivers. */
  function Delivery(before: seq<Event>, e: Event): seq<Fields> {
    match SortOf(e)
    case Whole(f) => [f]
    case Attachment =>
      (match LastOpening(before)
      case None => []
      case Some(k) =>
        match SortOf(before[k])
        case Header(f) =>
          var got := AttachmentsIn(before[k + 1..]) + [e.s];
          if |got| == Need(f) then [Completed(f, got)] else []
        case _ => [])
    case _ => []
  }

  function Deliveries(es: seq<Event>): seq<Fields> {
    if es == [] then [] else Deliveries(es[..|es| - 1]) + Delivery(es[..|es| - 1], es[|es| - 1])
  }

  /** A header that got these attachments: still waiting, or not any more. */
  function After(f: Fields, got: seq<string>): Option<Fields> {
    if |got| >= Need(f) then None
    else if f.pending == 0 then Some(f)
    else Some(f.(pending := f.pending - |got|, buffers := f.buffers + got))
  }

  /** The packet still waiting: the latest header, if its attachments are not all there. */
  function Waiting(es: seq<Event>): Option<Fields> {
    match LastOpening(es)
    case None => None
    case Some(k) =>
      match SortOf(es[k]) case Header(f) => After(f, AttachmentsIn(es[k + 1..])) case _ => None
  }

  lemma LastOpeningSnoc(p: seq<Event>, e: Event)
    ensures LastOpening(p + [e]) == if Opens(e) then Some(|p|) else LastOpening(p)
  {
    assert (p + [e])[..|p|] == p;
  }

  lemma AttachmentsSnoc(p: seq<Event>, e: Event)
    ensures AttachmentsIn(p + [e]) == AttachmentsIn(p) + AttachmentOf(e)
  {
    assert (p + [e])[..|p|] == p;
  }

  lemma HeaderWaits(f: Fields, got: seq<string>)
    requires |f.buffers| == 1
    ensures After(f, got).Some? ==> After(f, got).value.buffers != []
  {
  }

  lemma JustOpened(f: Fields)
    requires |f.buffers| == 1
    ensures After(f, AttachmentsIn([])) == Some(f)
  {
    assert f.buffers + [] == f.buffers;
  }

  /** parse_buffer keeps the fields in step with the attachments that came. */
  lemma AttachmentTaken(f: Fields, got: seq<string>, a: string)
    requires |f.buffers| == 1 && (After(f, got).Some? ==> After(f, got).value.buffers != [])
    ensures match After(f, got)
      case None => After(f, got + [a]).None? && |got + [a]| != Need(f)
      case Some(w) => if |got + [a]| == Need(f)
        then TakeBuffer(w, a) == (Completed(f, got + [a]), false) && After(f, got + [a]).None?
        else After(f, got + [a]).Some? && TakeBuffer(w, a) == (After(f, got + [a]).value, true)
  {
    assert f.buffers + got + [a] == f.buffers + (got + [a]);
    assert (f.buffers + got)[1..] + [a] == got + [a];
  }

  /** One more event, in terms of what was waiting. */
  lemma WaitingSnoc(p: seq<Event>, e: Event)
    ensures Valid(State(Waiting(p), []))
    ensures State(Waiting(p + [e]), Delivery(p, e)) == Step(State(Waiting(p), []), e)
  {
    hide LastOpening, AttachmentsIn, SortOf, TakeBuffer, After, Completed, Need;
    LastOpeningSnoc(p, e);
    if SortOf(e).Header? {
      JustOpened(SortOf(e).fields);
    }
    assert (p + [e])[|p| + 1..] == [];
    match LastOpening(p)
    case None =>
    case Some(k) =>
      assert (p + [e])[k + 1..] == p[k + 1..] + [e];
      AttachmentsSnoc(p[k + 1..], e);
      assert (p + [e])[k] == p[k];
      if SortOf(p[k]).Header? {
        var f, got := SortOf(p[k]).fields, AttachmentsIn(p[k + 1..]);
        HeaderWaits(f, got);
        if SortOf(e).Attachment? {
          AttachmentTaken(f, got, e.s);
        } else {
          assert got + [] == got;
        }
      }
  }

  /** The log only grows, whatever it holds already. */
  lemma StepAppends(partial: Option<Fields>, log: seq<Fields>, e: Event)
    requires Valid(State(partial, log))
    ensures var t := Step(State(partial, []), e); Step(State(partial, log), e) == State(t.partial, log + t.delivered)
  {
    hide SortOf, TakeBuffer;
  }

  /**
   Whatever arrives in whatever order, the manager delivers exactly the complete packets, each at
   once, and each header with its attachments when the last of them arrives.
   */
  lemma {:induction false} Reassembles(es: seq<Event>)
    ensures Run(START, es) == State(Waiting(es), Deliveries(es))
  {
    hide Step, Delivery, Waiting;
    if es == [] {
      NothingWaits();
    } else {
      var p, e := es[..|es| - 1], es[|es| - 1];
      Reassembles(p);
      WaitingSnoc(p, e);
      StepAppends(Waiting(p), Deliveries(p), e);
      assert es == p + [e];
    }
  }

  lemma NothingWaits()
    ensures Waiting([]) == None
  {
  }

  // ---------------------------------------------------------------------------
  // What each payload is
  // ---------------------------------------------------------------------------

  /**
   A payload that begins with byte 4 is an attachment; any other is what the parser makes of it,
   control packets as well as messages, and waits only when the parser asks for more.
   */
  lemma SortIs(s: string)
    ensures SortOf(Reset) == Discard
    ensures SortOf(Payload(s)) == Attachment <==> s != "" && s[0] as int == 4
    ensures s == "" || s[0] as int != 4 ==>
      match ParseFields(BLANK, s)
        case Throws => SortOf(Payload(s)) == Bad
        case Parsed(f, more) =>
          SortOf(Payload(s)) == if s != "" && s[0] == '4' && more then Header(f) else Whole(f)
  {
    hide ParseFields;
  }

  /** Only a message can ask for more. */
  lemma MoreIsMessage(s: string)
    requires ParseFields(BLANK, s).Parsed? && ParseFields(BLANK, s).more
    requires forall i :: 0 <= i < |s| ==> s[i] as int < 256
    ensures s != "" && s[0] == '4'
  {
    hide ReadTail, ReadCount;
  }

  /** A control payload that is read is delivered at once, in every run, and leaves what waits alone. */
  lemma ControlDelivered(es: seq<Event>, s: string)
    requires s == "" || (s[0] != '4' && s[0] as int != 4)
    ensures var before, after := Run(START, es), Run(START, es + [Payload(s)]);
      match ParseFields(BLANK, s)
      case Throws => after == before
      case Parsed(f, _) => after == State(before.partial, before.delivered + [f])
  {
    SortIs(s);
    hide ParseFields, SortOf;
    assert (es + [Payload(s)])[..|es|] == es;
  }

  /** A message that is read is delivered at once or waits, and a payload that throws changes nothing. */
  lemma MessageDelivered(es: seq<Event>, s: string)
    requires s != "" && s[0] == '4'
    ensures var before, after := Run(START, es), Run(START, es + [Payload(s)]);
      match ParseFields(BLANK, s)
      case Throws => after == before
      case Parsed(f, true) => after == State(Some(f), before.delivered)
      case Parsed(f, false) => after == State(before.partial, before.delivered + [f])
  {
    SortIs(s);
    hide ParseFields, SortOf;
    assert (es + [Payload(s)])[..|es|] == es;
  }

  /** The opening packet of a connection, whose JSON names the session, is delivered with that JSON. */
  lemma OpenDelivered(es: seq<Event>, json: string)
    requires json != "" && json[0] in {'[', '{', '\"'}
    ensures var before := Run(START, es);
      Run(START, es + [Payload("0" + json)]) == State(before.partial, before.delivered +
        [Fields(0, TYPE_UNDETERMINED, "/", -1, Some(Body(json, [])), 0, [])])
  {
    ControlWithJson(0, json, BLANK);
    hide ParseFields, Run;
    ControlDelivered(es, "0" + json);
  }

  lemma PingIs()
    ensures ParseFields(BLANK, "2") == Parsed(Fields(2, TYPE_UNDETERMINED, "/", -1, None, 0, []), false)
  {
    ControlComesBack(2, BLANK);
    assert [FrameChar(2)] == "2";
  }

  /** A ping while an event waits for its one attachment: both are delivered, the ping first. */
  lemma PingWhileWaiting(s: State, header: Event, attachment: string)
    requires Valid(s) && SortOf(header).Header? && SortOf(header).fields.pending == 1
    requires attachment != "" && attachment[0] as int == 4
    ensures var f, ping := SortOf(header).fields, Fields(2, TYPE_UNDETERMINED, "/", -1, None, 0, []);
      Run(s, [header, Payload("2"), Payload(attachment)]) == State(None, s.delivered + [ping] +
        [f.(pending := 0, buffers := [], body := Some(Body(f.buffers[0], [attachment])))])
  {
    PingIs();
    SortIs("2");
    SortIs(attachment);
    hide ParseFields, SortOf, Run;
    var between := [Payload("2")];
    assert between[..0] == [];
    assert AttachmentsIn([]) == [] && WholesIn([]) == [];
    assert AttachmentsIn(between) == [] && WholesIn(between) == [SortOf(Payload("2")).fields];
    DeliveredWithTheLast(s, header, between, Payload(attachment));
    assert [header] + between + [Payload(attachment)] == [header, Payload("2"), Payload(attachment)];
    assert [] + [attachment] == [attachment];
  }

  // ---------------------------------------------------------------------------
  // One header and what follows it
  // ---------------------------------------------------------------------------

  ghost predicate NoOpening(es: seq<Event>) {
    forall i :: 0 <= i < |es| ==> !Opens(es[i])
  }

  lemma StepWhileWaiting(f: Fields, got: seq<string>, log: seq<Fields>, e: Event)
    requires |f.buffers| == 1 && After(f, got).Some? && !Opens(e)
    requires |got + AttachmentOf(e)| < Need(f)
    ensures Valid(State(After(f, got), log))
    ensures Step(State(After(f, got), log), e) == State(After(f, got + AttachmentOf(e)), log + WholeOf(e))
  {
    hide TakeBuffer, Completed, Need, After;
    HeaderWaits(f, got);
    if SortOf(e).Attachment? {
      AttachmentTaken(f, got, e.s);
    }
    hide SortOf;
    assert got + [] == got && log + [] == log;
  }

  /** With less than it needs, the packet waits, and the complete ones among them pass. */
  lemma {:induction false} WhileWaiting(s: State, f: Fields, es: seq<Event>)
    requires |f.buffers| == 1 && s.partial == Some(f) && NoOpening(es) && |AttachmentsIn(es)| < Need(f)
    ensures Run(s, es) == State(After(f, AttachmentsIn(es)), s.delivered + WholesIn(es))
  {
    if es == [] {
      assert f.buffers + [] == f.buffers;
    } else {
      var p, e := es[..|es| - 1], es[|es| - 1];
      assert AttachmentsIn(es) == AttachmentsIn(p) + AttachmentOf(e) && WholesIn(es) == WholesIn(p) + WholeOf(e);
      hide SortOf, TakeBuffer, Step, AttachmentsIn, WholesIn, AttachmentOf, WholeOf, Opens;
      WhileWaiting(s, f, p);
      StepWhileWaiting(f, AttachmentsIn(p), s.delivered + WholesIn(p), e);
    }
  }

  /** A header is delivered when it has all the attachments it needs; what came in between was delivered at once. */
  lemma DeliveredInFull(s: State, header: Event, between: seq<Event>, last: Event)
    requires Valid(s) && SortOf(header).Header? && NoOpening(between) && SortOf(last).Attachment?
    requires Need(SortOf(header).fields) == |AttachmentsIn(between)| + 1
    ensures Run(s, [header] + between + [last]) ==
      State(None, s.delivered + WholesIn(between) +
        [Completed(SortOf(header).fields, AttachmentsIn(between) + [last.s])])
  {
    var f := SortOf(header).fields;
    var t := Step(s, header);
    WhileWaiting(t, f, between);
    HeaderWaits(f, AttachmentsIn(between));
    AttachmentTaken(f, AttachmentsIn(between), last.s);
    hide SortOf, TakeBuffer, After, Need, Completed;
    RunFrom(s, header, between);
    var es := [header] + between;
    assert (es + [last])[..|es|] == es;
  }

  /**
   A header announcing n >= 1 attachments is delivered once, with the n-th attachment that
   follows, and holds the attachments in order; what came in between was delivered at once.
   */
  lemma DeliveredWithTheLast(s: State, header: Event, between: seq<Event>, last: Event)
    requires Valid(s) && SortOf(header).Header? && NoOpening(between) && SortOf(last).Attachment?
    requires SortOf(header).fields.pending == |AttachmentsIn(between)| + 1
    ensures var f := SortOf(header).fields;
      Run(s, [header] + between + [last]) == State(None, s.delivered + WholesIn(between) +
        [f.(pending := 0, buffers := [], body := Some(Body(f.buffers[0], AttachmentsIn(between) + [last.s])))])
  {
    hide SortOf, Run;
    DeliveredInFull(s, header, between, last);
  }

  /** The parser leaves the message of a header to its attachments. */
  lemma HeaderHasNoMessage(e: Event)
    requires SortOf(e).Header?
    ensures SortOf(e).fields.body.None?
  {
    hide ReadTail, ReadCount;
  }

  /** What is delivered for a header has a message exactly when the header announced an attachment. */
  lemma MessageIffAnnounced(s: State, header: Event, between: seq<Event>, last: Event)
    requires Valid(s) && SortOf(header).Header? && NoOpening(between) && SortOf(last).Attachment?
    requires Need(SortOf(header).fields) == |AttachmentsIn(between)| + 1
    ensures var t := Run(s, [header] + between + [last]);
      && |t.delivered| == |s.delivered| + |WholesIn(between)| + 1
      && (t.delivered[|t.delivered| - 1].body.Some? <==> SortOf(header).fields.pending >= 1)
  {
    HeaderHasNoMessage(header);
    hide SortOf, Run;
    DeliveredInFull(s, header, between, last);
  }

  /** The text of a binary event that announces no attachment. */
  const UNANNOUNCED: string := "450-[]"

  lemma UnannouncedIsHeader()
    ensures SortOf(Payload(UNANNOUNCED)) == Header(Fields(FRAME_MESSAGE, TYPE_BINARY_EVENT, "/", -1, None, 0, ["[]"]))
  {
    var s := UNANNOUNCED;
    FindsAt(s, {'-'}, 0, 3);
    FindsAt(s, {'{', '[', '\"', '/'}, 4, 4);
    assert s[2..3] == "0" && Decimal(0) == "0";
    StoulDecimal(0);
    assert s[4..] == "[]";
    hide Stoul, Decimal, FindFirstOf;
    assert ReadCount(s) == Some((0, 4));
    assert ReadTail(s, 4) == Some(Tail("/", -1, Some("[]")));
    hide ReadCount, ReadTail;
  }

  /** It waits for an attachment all the same, loses it, and is delivered without its message. */
  lemma UnannouncedLosesMessage(attachment: string)
    requires IsAttachment(attachment)
    ensures Run(START, [Payload(UNANNOUNCED), Payload(attachment)]) ==
      State(None, [Fields(FRAME_MESSAGE, TYPE_BINARY_EVENT, "/", -1, None, 0, ["[]"])])
  {
    var header, last := Payload(UNANNOUNCED), Payload(attachment);
    assert SortOf(last).Attachment?;
    UnannouncedIsHeader();
    hide SortOf, Run;
    assert AttachmentsIn([]) == [] && WholesIn([]) == [];
    DeliveredInFull(START, header, [], last);
    assert [header] + [] + [last] == [header, last];
  }

  lemma {:induction false} RunFrom(s: State, e: Event, es: seq<Event>)
    requires Valid(s)
    ensures Run(s, [e] + es) == Run(Step(s, e), es)
  {
    hide Step;
    if es == [] {
      assert [e] + es == [e] && [e][..0] == [];
    } else {
      RunFrom(s, e, es[..|es| - 1]);
      assert ([e] + es)[..|es|] == [e] + es[..|es| - 1];
    }
  }

  /**
   A new header or a reset discards what was partial: nothing that came before it is seen in what
   follows but the log.
   */
  lemma {:induction false} OpeningForgets(s: State, t: State, e: Event, es: seq<Event>)
    requires Valid(s) && Valid(t) && Opens(e)
    ensures Run(s, [e] + es).partial == Run(t, [e] + es).partial
    ensures exists news ::
      Run(s, [e] + es).delivered == s.delivered + news && Run(t, [e] + es).delivered == t.delivered + news
  {
    RunFrom(s, e, es);
    RunFrom(t, e, es);
    SamePartialSameNews(Step(s, e), Step(t, e), es);
  }

  lemma {:induction false} SamePartialSameNews(s: State, t: State, es: seq<Event>)
    requires Valid(s) && Valid(t) && s.partial == t.partial
    ensures Run(s, es).partial == Run(t, es).partial
    ensures exists news :: Run(s, es).delivered == s.delivered + news && Run(t, es).delivered == t.delivered + news
  {
    if es == [] {
      assert s.delivered == s.delivered + [] && t.delivered == t.delivered + [];
    } else {
      var p, e := es[..|es| - 1], es[|es| - 1];
      SamePartialSameNews(s, t, p);
      var news :| Run(s, p).delivered == s.delivered + news && Run(t, p).delivered == t.delivered + news;
      var u, v := Run(s, p), Run(t, p);
      StepAppends(u.partial, u.delivered, e);
      StepAppends(v.partial, v.delivered, e);
      var more := Step(State(u.partial, []), e).delivered;
      assert s.delivered + news + more == s.delivered + (news + more);
      assert t.delivered + news + more == t.delivered + (news + more);
    }
  }
}
