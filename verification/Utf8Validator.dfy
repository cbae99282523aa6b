/**
 The table-driven UTF-8 automaton that checks text frames.
 */
module Utf8Validator {
  import opened Bytes
  import opened Utf8Grammar

  const UTF8_ACCEPT: nat := 0
  const UTF8_REJECT: nat := 1

  /** The first 256 entries of the lookup table: a class for every byte. */
  function ByteClass(b: Byte): (t: nat)
    ensures t <= 11
  {
    if b < 0x80 then 0
    else if b < 0x90 then 1
    else if b < 0xA0 then 9
    else if b < 0xC0 then 7
    else if b < 0xC2 then 8
    else if b < 0xE0 then 2
    else if b == 0xE0 then 10
    else if b < 0xED then 3
    else if b == 0xED then 4
    else if b < 0xF0 then 3
    else if b == 0xF0 then 11
    else if b < 0xF4 then 6
    else if b == 0xF4 then 5
    else 8
  }

  /** The other entries: sixteen for each of the states 0 to 8. */
  function Transition(state: nat, t: nat): (r: nat)
    requires state <= 8 && t <= 11
    ensures r <= 8
  {
    match state
    case 0 => [0, 1, 2, 3, 5, 8, 7, 1, 1, 1, 4, 6][t]
    case 1 => 1
    case 2 => if t == 1 || t == 7 || t == 9 then 0 else 1
    case 3 => if t == 1 || t == 7 || t == 9 then 2 else 1
    case 4 => if t == 7 then 2 else 1
    case 5 => if t == 1 || t == 9 then 2 else 1
    case 6 => if t == 7 || t == 9 then 3 else 1
    case 7 => if t == 1 || t == 7 || t == 9 then 3 else 1
    case _ => if t == 1 then 3 else 1
  }

  /** (0xff >> type) & byte */
  function LeadBits(t: nat, b: Byte): nat {
    var x: int := b;
    if t == 0 then x % 0x100 else if t == 1 then x % 0x80 else if t == 2 then x % 0x40 else if t == 3 then x % 0x20
    else if t == 4 then x % 0x10 else if t == 5 then x % 8 else if t == 6 then x % 4 else if t == 7 then x % 2 else 0
  }

  function NextState(state: nat, b: Byte): (r: nat)
    requires state <= 8
    ensures r <= 8
  {
    Transition(state, ByteClass(b))
  }

  /** A 32-bit code point: (byte & 0x3f) | (codep << 6) inside a character. */
  function NextPoint(state: nat, codep: nat, b: Byte): nat {
    var x: int := b;
    if state != UTF8_ACCEPT then (x % 0x40 + codep * 0x40) % 0x1_0000_0000 else LeadBits(ByteClass(b), b)
  }

  // ---------------------------------------------------------------------------
  // The automaton on values
  // ---------------------------------------------------------------------------

  /** m_state and m_codepoint. */
  datatype Decoder = Decoder(state: nat, codep: nat) {
    ghost predicate Valid() { state <= 8 }
  }

  function Step(d: Decoder, b: Byte): (r: Decoder)
    requires d.Valid()
    ensures r.Valid()
  {
    Decoder(NextState(d.state, b), NextPoint(d.state, d.codep, b))
  }

  function Run(d: Decoder, s: seq<Byte>): (r: Decoder)
    requires d.Valid()
    ensures r.Valid()
    decreases |s|
  {
    if s == [] then d else Run(Step(d, s[0]), s[1..])
  }

  /** validator::decode stops at the first byte that leads to rejection. */
  function Feed(d: Decoder, s: seq<Byte>): (r: (Decoder, bool))
    requires d.Valid()
    ensures r.0.Valid()
    decreases |s|
  {
    if s == [] then (d, true)
    else
      var e := Step(d, s[0]);
      if e.state == UTF8_REJECT then (e, false) else Feed(e, s[1..])
  }

  class Validator {
    var mState: nat
    var mCodepoint: nat

    ghost predicate Valid()
      reads this
    {
      mState <= 8
    }

    ghost function Value(): Decoder
      reads this
    {
      Decoder(mState, mCodepoint)
    }

    constructor ()
      ensures Valid() && Value() == Decoder(UTF8_ACCEPT, 0)
    {
      mState, mCodepoint := UTF8_ACCEPT, 0;
    }

    method DecodeByte(b: Byte) returns (result: nat)
      requires Valid()
      modifies this
      ensures Valid() && Value() == Step(old(Value()), b) && result == mState
    {
      var t := ByteClass(b);
      var x: int := b;
      mCodepoint := if mState != UTF8_ACCEPT then (x % 0x40 + mCodepoint * 0x40) % 0x1_0000_0000 else LeadBits(t, b);
      mState := Transition(mState, t);
      result := mState;
    }

    method Consume(b: Byte) returns (ok: bool)
      requires Valid()
      modifies this
      ensures Valid() && Value() == Step(old(Value()), b)
      ensures ok <==> mState != UTF8_REJECT
    {
      var result := DecodeByte(b);
      ok := result != UTF8_REJECT;
    }

    method Decode(s: seq<Byte>) returns (ok: bool)
      requires Valid()
      modifies this
      ensures Valid() && (Value(), ok) == Feed(old(Value()), s)
    {
      for i := 0 to |s|
        invariant Valid()
        invariant Feed(Value(), s[i..]) == Feed(old(Value()), s)
      {
        assert s[i..][1..] == s[i + 1..];
        var result := DecodeByte(s[i]);
        if result == UTF8_REJECT {
          return false;
        }
      }
      return true;
    }

    method Complete() returns (r: bool)
      ensures r <==> mState == UTF8_ACCEPT
    {
      r := mState == UTF8_ACCEPT;
    }

    method Reset()
      modifies this
      ensures Valid() && Value() == Decoder(UTF8_ACCEPT, 0)
    {
      mState, mCodepoint := UTF8_ACCEPT, 0;
    }
  }

  /** True exactly on the strings that section 4 of RFC 3629 derives. */
  method Validate(s: seq<Byte>) returns (r: bool)
    ensures r <==> WellFormed(s)
  {
    var v := new Validator();
    var ok := v.Decode(s);
    FeedIsRun(Decoder(UTF8_ACCEPT, 0), s);
    AcceptedIffWellFormed(0, s);
    if !ok {
      return false;
    }
    r := v.Complete();
  }

  // ---------------------------------------------------------------------------
  // The automaton accepts the grammar
  // ---------------------------------------------------------------------------

  /** Rejection is permanent. */
  lemma {:induction false} RejectIsForever(codep: nat, s: seq<Byte>)
    ensures Run(Decoder(UTF8_REJECT, codep), s).state == UTF8_REJECT
    decreases |s|
  {
    if s != [] {
      RejectIsForever(Step(Decoder(UTF8_REJECT, codep), s[0]).codep, s[1..]);
    }
  }

  /** Stopping early loses nothing: the state is the same, and false means rejected. */
  lemma {:induction false} FeedIsRun(d: Decoder, s: seq<Byte>)
    requires d.Valid()
    ensures Feed(d, s).0.state == Run(d, s).state
    ensures Feed(d, s).1 <==> s == [] || Run(d, s).state != UTF8_REJECT
    ensures Feed(d, s).1 ==> Feed(d, s).0 == Run(d, s)
    decreases |s|
  {
    if s != [] {
      var e := Step(d, s[0]);
      if e.state == UTF8_REJECT {
        RejectIsForever(e.codep, s[1..]);
      } else {
        FeedIsRun(e, s[1..]);
      }
    }
  }

  /** What each state still expects. */
  lemma StateTable(state: nat, b: Byte)
    requires state <= 8
    ensures NextState(state, b) ==
      match state
      case 0 =>
        if b <= 0x7F then 0 else if 0xC2 <= b <= 0xDF then 2 else if b == 0xE0 then 4 else if b == 0xED then 5
        else if 0xE1 <= b <= 0xEF then 3 else if b == 0xF0 then 6 else if 0xF1 <= b <= 0xF3 then 7
          else if b == 0xF4 then 8 else 1
      case 1 => 1
      case 2 => if Tail(b) then 0 else 1
      case 3 => if Tail(b) then 2 else 1
      case 4 => if 0xA0 <= b <= 0xBF then 2 else 1
      case 5 => if 0x80 <= b <= 0x9F then 2 else 1
      case 6 => if 0x90 <= b <= 0xBF then 3 else 1
      case 7 => if Tail(b) then 3 else 1
      case _ => if 0x80 <= b <= 0x8F then 3 else 1
  {
  }

  lemma {:induction false} RunAppends(d: Decoder, a: seq<Byte>, b: seq<Byte>)
    requires d.Valid()
    ensures Run(d, a + b) == Run(Run(d, a), b)
    decreases |a|
  {
    if a == [] {
      assert a + b == b;
    } else {
      assert (a + b)[1..] == a[1..] + b;
      RunAppends(Step(d, a[0]), a[1..], b);
    }
  }

  /** The code points present each time the automaton is back in the accept state. */
  function Emitted(d: Decoder, s: seq<Byte>): seq<nat>
    requires d.Valid()
    decreases |s|
  {
    if s == [] then []
    else
      var e := Step(d, s[0]);
      (if e.state == UTF8_ACCEPT then [e.codep] else []) + Emitted(e, s[1..])
  }

  lemma {:induction false} EmittedAppends(d: Decoder, a: seq<Byte>, b: seq<Byte>)
    requires d.Valid()
    ensures Emitted(d, a + b) == Emitted(d, a) + Emitted(Run(d, a), b)
    decreases |a|
  {
    if a == [] {
      assert a + b == b;
    } else {
      assert (a + b)[1..] == a[1..] + b;
      EmittedAppends(Step(d, a[0]), a[1..], b);
    }
  }

  lemma OneByte(d: Decoder, s: seq<Byte>)
    requires d.Valid() && |s| == 1
    ensures var e := Step(d, s[0]);
      Run(d, s) == e && Emitted(d, s) == if e.state == UTF8_ACCEPT then [e.codep] else []
  {
    var e := Step(d, s[0]);
    assert s[1..] == [];
    assert Run(e, []) == e && Emitted(e, []) == [];
  }

  /** The bits of a lead byte that belong to the code point. */
  lemma LeadTable(b: Byte)
    ensures b <= 0x7F ==> LeadBits(ByteClass(b), b) == b
    ensures 0xC2 <= b <= 0xDF ==> LeadBits(ByteClass(b), b) == b - 0xC0
    ensures 0xE0 <= b <= 0xEF ==> LeadBits(ByteClass(b), b) == b - 0xE0
    ensures 0xF0 <= b <= 0xF4 ==> LeadBits(ByteClass(b), b) == b - 0xF0
  {
  }

  /** One continuation byte of a character that fits in 21 bits. */
  lemma TailStep(d: Decoder, b: Byte)
    requires d.Valid() && d.state != UTF8_ACCEPT && Tail(b) && d.codep < 0x20_0000
    ensures Step(d, b) == Decoder(NextState(d.state, b), d.codep * 0x40 + (b - 0x80))
  {
    TailBits(b);
  }

  /** From accept, one character leads back to accept, only at its end, with its code point. */
  lemma CharRuns(codep: nat, c: Char)
    ensures Run(Decoder(UTF8_ACCEPT, codep), c) == Decoder(UTF8_ACCEPT, CodePoint(c))
    ensures Emitted(Decoder(UTF8_ACCEPT, codep), c) == [CodePoint(c)]
  {
    hide NextState, LeadBits, ByteClass, CodePoint2, CodePoint3, CodePoint4;
    var d0 := Decoder(UTF8_ACCEPT, codep);
    LeadTable(c[0]);
    StateTable(0, c[0]);
    var d1 := Step(d0, c[0]);
    if |c| == 1 {
      OneByte(d0, c);
    } else {
      StateTable(d1.state, c[1]);
      TailStep(d1, c[1]);
      var d2 := Step(d1, c[1]);
      if |c| == 2 {
        Range2(c[0], c[1]);
        OneByte(d1, c[1..]);
      } else {
        StateTable(d2.state, c[2]);
        TailStep(d2, c[2]);
        var d3 := Step(d2, c[2]);
        assert Run(d0, c) == Run(d2, c[1..][1..]) && Emitted(d0, c) == Emitted(d2, c[1..][1..]);
        assert c[1..][1..] == c[2..];
        if |c| == 3 {
          Range3(c[0], c[1], c[2]);
          OneByte(d2, c[2..]);
        } else {
          Range4(c[0], c[1], c[2], c[3]);
          StateTable(d3.state, c[3]);
          TailStep(d3, c[3]);
          assert c[2..][1..] == c[3..];
          OneByte(d3, c[3..]);
        }
      }
    }
  }

  lemma RunSteps(d: Decoder, s: seq<Byte>)
    requires d.Valid() && s != []
    ensures Run(d, s) == Run(Step(d, s[0]), s[1..])
  {
  }

  /** A run that ends in accept got from each state exactly what that state expects. */
  lemma {:induction false} AcceptedRest(d: Decoder, s: seq<Byte>)
    requires d.Valid() && Run(d, s).state == UTF8_ACCEPT
    ensures d.state == UTF8_ACCEPT || s != []
    ensures d.state != UTF8_REJECT
    ensures d.state == 2 ==> Tail(s[0])
    ensures d.state == 3 ==> |s| >= 2 && Tail(s[0]) && Tail(s[1])
    ensures d.state == 4 ==> |s| >= 2 && 0xA0 <= s[0] <= 0xBF && Tail(s[1])
    ensures d.state == 5 ==> |s| >= 2 && 0x80 <= s[0] <= 0x9F && Tail(s[1])
    ensures d.state == 6 ==> |s| >= 3 && 0x90 <= s[0] <= 0xBF && Tail(s[1]) && Tail(s[2])
    ensures d.state == 7 ==> |s| >= 3 && Tail(s[0]) && Tail(s[1]) && Tail(s[2])
    ensures d.state == 8 ==> |s| >= 3 && 0x80 <= s[0] <= 0x8F && Tail(s[1]) && Tail(s[2])
    decreases |s|
  {
    hide NextState;
    if d.state == UTF8_REJECT {
      RejectIsForever(d.codep, s);
    } else if s != [] {
      StateTable(d.state, s[0]);
      AcceptedRest(Step(d, s[0]), s[1..]);
    }
  }

  /** An accepted string that is not empty starts with a character. */
  lemma AcceptedStartsWithChar(codep: nat, s: seq<Byte>)
    requires s != [] && Run(Decoder(UTF8_ACCEPT, codep), s).state == UTF8_ACCEPT
    ensures 0 < FirstLength(s)
  {
    hide NextState;
    var d := Decoder(UTF8_ACCEPT, codep);
    RunSteps(d, s);
    StateTable(0, s[0]);
    AcceptedRest(Step(d, s[0]), s[1..]);
    var n := if s[0] <= 0x7F then 1 else if s[0] <= 0xDF then 2 else if s[0] <= 0xEF then 3 else 4;
    assert n <= |s| && IsChar(s[..n]);
  }

  /** Cuts an accepted string into its characters. */
  lemma {:induction false} Characters(codep: nat, s: seq<Byte>) returns (chars: seq<Char>)
    requires Run(Decoder(UTF8_ACCEPT, codep), s).state == UTF8_ACCEPT
    ensures Concat(chars) == s
    decreases |s|
  {
    if s == [] {
      return [];
    }
    AcceptedStartsWithChar(codep, s);
    var n := FirstLength(s);
    var c: Char := s[..n];
    assert s == c + s[n..];
    RunAppends(Decoder(UTF8_ACCEPT, codep), c, s[n..]);
    CharRuns(codep, c);
    var rest := Characters(CodePoint(c), s[n..]);
    chars := [c] + rest;
  }

  /** Over a whole text the automaton ends in accept and emits exactly its code points. */
  lemma {:induction false} TextRuns(codep: nat, chars: seq<Char>)
    ensures Run(Decoder(UTF8_ACCEPT, codep), Concat(chars)).state == UTF8_ACCEPT
    ensures Emitted(Decoder(UTF8_ACCEPT, codep), Concat(chars)) == CodePoints(chars)
    decreases |chars|
  {
    if chars != [] {
      var d := Decoder(UTF8_ACCEPT, codep);
      var c, rest := chars[0], Concat(chars[1..]);
      CharRuns(codep, c);
      RunAppends(d, c, rest);
      EmittedAppends(d, c, rest);
      TextRuns(CodePoint(c), chars[1..]);
    }
  }

  lemma AcceptedIffWellFormed(codep: nat, s: seq<Byte>)
    ensures Run(Decoder(UTF8_ACCEPT, codep), s).state == UTF8_ACCEPT <==> WellFormed(s)
  {
    if Run(Decoder(UTF8_ACCEPT, codep), s).state == UTF8_ACCEPT {
      var chars := Characters(codep, s);
    }
    if WellFormed(s) {
      var chars: seq<Char> :| Concat(chars) == s;
      TextRuns(codep, chars);
    }
  }

  // ---------------------------------------------------------------------------
  // Input that arrives in pieces
  // ---------------------------------------------------------------------------

  function Joined(pieces: seq<seq<Byte>>): seq<Byte> {
    if pieces == [] then [] else pieces[0] + Joined(pieces[1..])
  }

  /** One decode call for each piece: where the decoder ends, and whether every call returned true. */
  function FeedAll(d: Decoder, pieces: seq<seq<Byte>>): (r: (Decoder, bool))
    requires d.Valid()
    ensures r.0.Valid()
    decreases |pieces|
  {
    if pieces == [] then (d, true)
    else
      var (e, ok) := Feed(d, pieces[0]);
      var (f, rest) := FeedAll(e, pieces[1..]);
      (f, ok && rest)
  }

  lemma RunIgnoresPoint(d: Decoder, codep: nat, s: seq<Byte>)
    requires d.Valid()
    ensures Run(d, s).state == Run(Decoder(d.state, codep), s).state
    decreases |s|
  {
    if s != [] {
      var e := Step(d, s[0]);
      RunIgnoresPoint(e, Step(Decoder(d.state, codep), s[0]).codep, s[1..]);
    }
  }

  lemma {:induction false} FeedAllIsRun(d: Decoder, pieces: seq<seq<Byte>>)
    requires d.Valid()
    ensures FeedAll(d, pieces).0.state == Run(d, Joined(pieces)).state
    ensures FeedAll(d, pieces).0.state != UTF8_REJECT ==> FeedAll(d, pieces).1
    decreases |pieces|
  {
    if pieces != [] {
      var e := Feed(d, pieces[0]).0;
      FeedIsRun(d, pieces[0]);
      RunAppends(d, pieces[0], Joined(pieces[1..]));
      FeedAllIsRun(e, pieces[1..]);
      RunIgnoresPoint(e, Run(d, pieces[0]).codep, Joined(pieces[1..]));
      if e.state == UTF8_REJECT {
        RejectIsForever(e.codep, Joined(pieces[1..]));
      }
    }
  }

  /** However the input is cut, complete() after the last piece gives the verdict on all of it. */
  lemma PiecesGiveTheVerdict(pieces: seq<seq<Byte>>)
    ensures var (d, ok) := FeedAll(Decoder(UTF8_ACCEPT, 0), pieces);
      d.state == UTF8_ACCEPT <==> WellFormed(Joined(pieces))
    ensures var (d, ok) := FeedAll(Decoder(UTF8_ACCEPT, 0), pieces);
      d.state == UTF8_ACCEPT ==> ok
  {
    FeedAllIsRun(Decoder(UTF8_ACCEPT, 0), pieces);
    AcceptedIffWellFormed(0, Joined(pieces));
  }

  /** After a rejection decode still returns true on an empty piece; only complete() stays false. */
  lemma EmptyPieceAfterReject(codep: nat)
    ensures Feed(Decoder(UTF8_REJECT, codep), []) == (Decoder(UTF8_REJECT, codep), true)
    ensures forall s: seq<Byte> :: s != [] ==> !Feed(Decoder(UTF8_REJECT, codep), s).1
  {
    forall s: seq<Byte> | s != [] ensures !Feed(Decoder(UTF8_REJECT, codep), s).1 {
      FeedIsRun(Decoder(UTF8_REJECT, codep), s);
      RejectIsForever(codep, s);
    }
  }
}
