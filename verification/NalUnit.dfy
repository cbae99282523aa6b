/**
 The automaton that finds H.264 start codes in a byte stream (Annex B of ITU-T H.264).
 */
module NalUnit {
  import opened Bytes

  datatype StartSequenceMatch = NoMatch | FirstZero | SecondZero | ThirdZero | ShortMatch | LongMatch {
    predicate Found() { ShortMatch? || LongMatch? }
  }

  datatype Separator = Length | LongStartSequence | ShortStartSequence | StartSequence {
    predicate DetectShort() { ShortStartSequence? || StartSequence? }
    predicate DetectLong() { LongStartSequence? || StartSequence? }
  }

  /** One byte of input; the code asserts that the separator is not Length. */
  function StartSequenceMatchSucc(m: StartSequenceMatch, byte: Byte, separator: Separator): StartSequenceMatch
    requires !separator.Length?
  {
    match m
    case NoMatch =>
      if byte == 0x00 then FirstZero else NoMatch
    case FirstZero =>
      if byte == 0x00 then SecondZero else NoMatch
    case SecondZero =>
      if byte == 0x00 && separator.DetectLong() then ThirdZero
      else if byte == 0x00 && separator.DetectShort() then SecondZero
      else if byte == 0x01 && separator.DetectShort() then ShortMatch
      else NoMatch
    case ThirdZero =>
      if byte == 0x00 && separator.DetectLong() then ThirdZero
      else if byte == 0x01 && separator.DetectLong() then LongMatch
      else NoMatch
    case ShortMatch => ShortMatch
    case LongMatch => LongMatch
  }

  /** The automaton from NUSM_noMatch over a whole string. */
  function Scan(s: seq<Byte>, separator: Separator): StartSequenceMatch
    requires !separator.Length?
  {
    if s == [] then NoMatch
    else StartSequenceMatchSucc(Scan(s[..|s| - 1], separator), s[|s| - 1], separator)
  }

  // ---------------------------------------------------------------------------
  // Start codes
  // ---------------------------------------------------------------------------

  predicate EndsWith(s: seq<Byte>, code: seq<Byte>) {
    |code| <= |s| && s[|s| - |code|..] == code
  }

  const SHORT_CODE: seq<Byte> := [0, 0, 1]
  const LONG_CODE: seq<Byte> := [0, 0, 0, 1]

  /** `s` ends with a start code that the separator allows. */
  predicate EndsWithCode(s: seq<Byte>, separator: Separator) {
    if separator.DetectShort() then EndsWith(s, SHORT_CODE) else EndsWith(s, LONG_CODE)
  }

  /** The first start code in `s` ends after `k` bytes. */
  ghost predicate FirstCodeEnds(s: seq<Byte>, k: nat, separator: Separator) {
    k <= |s| && EndsWithCode(s[..k], separator) && forall j :: 0 <= j < k ==> !EndsWithCode(s[..j], separator)
  }

  function TrailingZeros(s: seq<Byte>): nat {
    if s == [] || s[|s| - 1] != 0 then 0 else 1 + TrailingZeros(s[..|s| - 1])
  }

  lemma {:induction false} ZerosAtEnd(s: seq<Byte>, n: nat)
    requires n <= |s|
    ensures n <= TrailingZeros(s) <==> forall i :: |s| - n <= i < |s| ==> s[i] == 0
  {
    if 0 < n {
      var t := s[..|s| - 1];
      ZerosAtEnd(t, n - 1);
      if s[|s| - 1] == 0 && n - 1 <= TrailingZeros(t) {
        assert forall i :: |s| - n <= i < |s| - 1 ==> s[i] == t[i];
      }
      if forall i :: |s| - n <= i < |s| ==> s[i] == 0 {
        assert forall i :: |t| - (n - 1) <= i < |t| ==> t[i] == s[i];
      }
    }
  }

  lemma {:induction false} ZerosFit(s: seq<Byte>)
    ensures TrailingZeros(s) <= |s|
  {
    if s != [] { ZerosFit(s[..|s| - 1]); }
  }

  /** A code ends here exactly when a 01 follows enough zeros. */
  lemma CodeIsZerosThenOne(s: seq<Byte>, code: seq<Byte>)
    requires code == SHORT_CODE || code == LONG_CODE
    ensures EndsWith(s, code) <==> s != [] && s[|s| - 1] == 1 && |code| - 1 <= TrailingZeros(s[..|s| - 1])
  {
    if s != [] {
      var t, n := s[..|s| - 1], |code| - 1;
      ZerosFit(t);
      if n <= |t| {
        ZerosAtEnd(t, n);
        if EndsWith(s, code) {
          forall i | |t| - n <= i < |t| ensures t[i] == 0 {
            assert t[i] == s[|s| - |code|..][i - (|s| - |code|)];
          }
          assert s[|s| - |code|..][n] == 1;
        }
        if s[|s| - 1] == 1 && n <= TrailingZeros(t) {
          assert forall i :: |t| - n <= i < |t| ==> s[i] == t[i];
          assert s[|s| - |code|..] == code;
        }
      }
    }
  }

  /** Before the first start code the state counts the zeros seen last. */
  function Waiting(zeros: nat, separator: Separator): StartSequenceMatch {
    if zeros == 0 then NoMatch else if zeros == 1 then FirstZero
    else if zeros == 2 || !separator.DetectLong() then SecondZero else ThirdZero
  }

  lemma WaitingSteps(zeros: nat, byte: Byte, separator: Separator)
    requires !separator.Length?
    ensures var m := StartSequenceMatchSucc(Waiting(zeros, separator), byte, separator);
      if byte == 0 then m == Waiting(zeros + 1, separator)
      else if byte == 1 && zeros >= 3 && separator.DetectLong() then m == LongMatch
      else if byte == 1 && zeros >= 2 && separator.DetectShort() then m == ShortMatch
      else m == NoMatch
  {
  }

  lemma {:induction false} ScanBeforeCode(s: seq<Byte>, separator: Separator)
    requires !separator.Length?
    requires forall j :: 0 <= j <= |s| ==> !EndsWithCode(s[..j], separator)
    ensures Scan(s, separator) == Waiting(TrailingZeros(s), separator)
  {
    hide EndsWith, StartSequenceMatchSucc;
    if s != [] {
      var t := s[..|s| - 1];
      forall j | 0 <= j <= |t| ensures !EndsWithCode(t[..j], separator) {
        assert t[..j] == s[..j];
      }
      ScanBeforeCode(t, separator);
      assert s[..|s|] == s;
      CodeIsZerosThenOne(s, SHORT_CODE);
      CodeIsZerosThenOne(s, LONG_CODE);
      WaitingSteps(TrailingZeros(t), s[|s| - 1], separator);
    }
  }

  /** What is reported for a code: long only when allowed and at least three zeros precede the 01. */
  function Report(s: seq<Byte>, separator: Separator): StartSequenceMatch {
    if separator.DetectLong() && EndsWith(s, LONG_CODE) then LongMatch else ShortMatch
  }

  lemma ScanAtCode(s: seq<Byte>, k: nat, separator: Separator)
    requires !separator.Length? && FirstCodeEnds(s, k, separator)
    ensures Scan(s[..k], separator) == Report(s[..k], separator)
  {
    hide EndsWith, StartSequenceMatchSucc, Waiting, TrailingZeros;
    var c := s[..k];
    assert 0 < k by { CodeIsZerosThenOne(c, SHORT_CODE); CodeIsZerosThenOne(c, LONG_CODE); }
    var t := s[..k - 1];
    assert c[..k - 1] == t;
    forall j | 0 <= j <= |t| ensures !EndsWithCode(t[..j], separator) {
      assert t[..j] == s[..j];
    }
    ScanBeforeCode(t, separator);
    CodeIsZerosThenOne(c, SHORT_CODE);
    CodeIsZerosThenOne(c, LONG_CODE);
    WaitingSteps(TrailingZeros(t), c[k - 1], separator);
  }

  lemma {:induction false} FoundStays(s: seq<Byte>, k: nat, separator: Separator)
    requires !separator.Length? && k <= |s| && Scan(s[..k], separator).Found()
    ensures Scan(s, separator) == Scan(s[..k], separator)
    decreases |s|
  {
    if k == |s| {
      assert s[..k] == s;
    } else {
      var t := s[..|s| - 1];
      assert t[..k] == s[..k];
      FoundStays(t, k, separator);
    }
  }

  lemma FirstIsReported(s: seq<Byte>, k: nat, separator: Separator)
    requires !separator.Length? && FirstCodeEnds(s, k, separator)
    ensures Scan(s, separator) == Report(s[..k], separator)
  {
    ScanAtCode(s, k, separator);
    hide FirstCodeEnds, Scan;
    FoundStays(s, k, separator);
  }

  lemma FoundHasCode(s: seq<Byte>, separator: Separator)
    requires !separator.Length? && Scan(s, separator).Found()
    ensures exists k: nat :: FirstCodeEnds(s, k, separator)
  {
    hide Scan, EndsWithCode, FirstCodeEnds;
    if forall j :: 0 <= j <= |s| ==> !EndsWithCode(s[..j], separator) {
      ScanBeforeCode(s, separator);
    } else {
      var j :| 0 <= j <= |s| && EndsWithCode(s[..j], separator);
      var k := FirstBelow(s, j, separator);
    }
  }

  lemma ReportIsFound(s: seq<Byte>, separator: Separator)
    ensures Report(s, separator).Found()
  {
  }

  /**
   After any string the automaton is in a match state exactly when an allowed start code has
   ended in it, and then it still reports the first one.
   */
  lemma ScanFindsFirstCode(s: seq<Byte>, separator: Separator)
    requires !separator.Length?
    ensures Scan(s, separator).Found() <==> exists k: nat :: FirstCodeEnds(s, k, separator)
    ensures forall k: nat :: FirstCodeEnds(s, k, separator) ==> Scan(s, separator) == Report(s[..k], separator)
  {
    hide Scan, Report;
    forall k: nat | FirstCodeEnds(s, k, separator)
      ensures Scan(s, separator) == Report(s[..k], separator) && Scan(s, separator).Found()
    {
      FirstIsReported(s, k, separator);
      ReportIsFound(s[..k], separator);
    }
    hide FirstCodeEnds;
    if Scan(s, separator).Found() {
      FoundHasCode(s, separator);
    }
  }

  lemma {:induction false} FirstBelow(s: seq<Byte>, j: nat, separator: Separator) returns (k: nat)
    requires j <= |s| && EndsWithCode(s[..j], separator)
    ensures FirstCodeEnds(s, k, separator)
    decreases j
  {
    if i :| 0 <= i < j && EndsWithCode(s[..i], separator) {
      k := FirstBelow(s, i, separator);
    } else {
      k := j;
    }
  }

  /** Feeds a string to the automaton byte by byte. */
  method FindStartCode(s: seq<Byte>, separator: Separator) returns (m: StartSequenceMatch)
    requires !separator.Length?
    ensures m.Found() <==> exists k: nat :: FirstCodeEnds(s, k, separator)
    ensures forall k: nat :: FirstCodeEnds(s, k, separator) ==> m == Report(s[..k], separator)
  {
    m := NoMatch;
    for i := 0 to |s|
      invariant m == Scan(s[..i], separator)
    {
      assert s[..i + 1][..i] == s[..i];
      m := StartSequenceMatchSucc(m, s[i], separator);
    }
    assert s[..|s|] == s;
    ScanFindsFirstCode(s, separator);
  }

  // ---------------------------------------------------------------------------
  // Which code is found, byte by byte
  // ---------------------------------------------------------------------------

  /** These bytes end after `k` bytes of `s`. */
  predicate CodeAt(s: seq<Byte>, code: seq<Byte>, k: nat) { |code| <= k <= |s| && s[k - |code|..k] == code }

  lemma EndsAt(s: seq<Byte>, code: seq<Byte>, k: nat)
    requires k <= |s|
    ensures EndsWith(s[..k], code) <==> CodeAt(s, code, k)
  {
    if |code| <= k {
      assert s[..k][k - |code|..] == s[k - |code|..k];
    }
  }

  /** Looking for long codes, 00 00 00 01 is found and nothing else, and reported as long. */
  lemma LongFound(s: seq<Byte>)
    ensures Scan(s, LongStartSequence).Found() <==> exists k: nat :: CodeAt(s, [0, 0, 0, 1], k)
    ensures Scan(s, LongStartSequence) != ShortMatch
  {
    hide Scan, CodeAt;
    ScanFindsFirstCode(s, LongStartSequence);
    forall k: nat | k <= |s| ensures EndsWithCode(s[..k], LongStartSequence) <==> CodeAt(s, [0, 0, 0, 1], k) {
      EndsAt(s, [0, 0, 0, 1], k);
    }
    hide EndsWith;
    if k: nat :| CodeAt(s, [0, 0, 0, 1], k) {
      assert k <= |s| by { EndsInside(s, [0, 0, 0, 1], k); }
      var first := FirstBelow(s, k, LongStartSequence);
    }
    if Scan(s, LongStartSequence).Found() {
      var k: nat :| FirstCodeEnds(s, k, LongStartSequence);
      assert CodeAt(s, [0, 0, 0, 1], k);
    }
  }

  lemma EndsInside(s: seq<Byte>, code: seq<Byte>, k: nat)
    ensures CodeAt(s, code, k) ==> |code| <= k <= |s|
  {
  }

  lemma ShortCodeEnds(s: seq<Byte>, separator: Separator, k: nat)
    requires separator in {ShortStartSequence, StartSequence}
    ensures CodeAt(s, [0, 0, 1], k) ==> k <= |s|
    ensures k <= |s| ==> (EndsWithCode(s[..k], separator) <==> CodeAt(s, [0, 0, 1], k))
    ensures k <= |s| ==> (EndsWith(s[..k], [0, 0, 0, 1]) <==> CodeAt(s, [0, 0, 0, 1], k))
  {
    if k <= |s| {
      EndsAt(s, [0, 0, 1], k);
      EndsAt(s, [0, 0, 0, 1], k);
    }
    hide EndsWith;
  }

  /** Looking for short codes, or for both, 00 00 01 is found and nothing else. */
  lemma ShortFound(s: seq<Byte>, separator: Separator)
    requires separator in {ShortStartSequence, StartSequence}
    ensures Scan(s, separator).Found() <==> exists k: nat :: CodeAt(s, [0, 0, 1], k)
  {
    hide Scan, CodeAt, EndsWithCode;
    ScanFindsFirstCode(s, separator);
    if k: nat :| CodeAt(s, [0, 0, 1], k) {
      ShortCodeEnds(s, separator, k);
      var first := FirstBelow(s, k, separator);
    }
    if Scan(s, separator).Found() {
      var k: nat :| FirstCodeEnds(s, k, separator);
      ShortCodeEnds(s, separator, k);
    }
  }

  /** The first is reported as long exactly when long ones are looked for too and one more zero precedes it. */
  lemma FirstReported(s: seq<Byte>, separator: Separator, k: nat)
    requires separator in {ShortStartSequence, StartSequence}
    requires CodeAt(s, [0, 0, 1], k) && forall j :: 0 <= j < k ==> !CodeAt(s, [0, 0, 1], j)
    ensures Scan(s, separator) ==
      if separator == StartSequence && CodeAt(s, [0, 0, 0, 1], k) then LongMatch else ShortMatch
  {
    hide Scan, CodeAt, EndsWithCode, EndsWith;
    ShortCodeEnds(s, separator, k);
    forall j: nat | j < k ensures !EndsWithCode(s[..j], separator) {
      ShortCodeEnds(s, separator, j);
    }
    ScanFindsFirstCode(s, separator);
  }
}
