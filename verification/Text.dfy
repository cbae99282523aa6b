/**
 The pieces of the C and C++ libraries that the text formats lean on: decimal output,
 decimal input, and searching a string for a character of a set.
 */
module Text {

  datatype Option<+T> = None | Some(value: T)

  predicate IsDigit(c: char) { '0' <= c <= '9' }

  ghost predicate AllDigits(s: string) {
    forall i :: 0 <= i < |s| ==> IsDigit(s[i])
  }

  /** What an output stream prints for an unsigned number. */
  function Decimal(n: nat): (s: string)
    ensures s != [] && AllDigits(s)
  {
    (if n < 10 then [] else Decimal(n / 10)) + ["0123456789"[n % 10]]
  }

  function DigitsAt(s: string): (n: nat)
    ensures n <= |s| && AllDigits(s[..n])
    ensures n < |s| ==> !IsDigit(s[n])
  {
    if s == [] || !IsDigit(s[0]) then 0
    else
      var n := 1 + DigitsAt(s[1..]);
      assert forall i :: 0 <= i < n ==> s[..n][i] == if i == 0 then s[0] else s[1..][..n - 1][i - 1];
      n
  }

  /** The number that a run of digits stands for. */
  function DigitsValue(s: string): nat
  {
    if s == [] then 0
    else
      var c := s[|s| - 1];
      DigitsValue(s[..|s| - 1]) * 10 + if IsDigit(c) then c as int - '0' as int else 0
  }

  predicate IsSpace(c: char) { c == ' ' || '\t' <= c <= '\r' }

  function SkipSpaces(s: string): string {
    if s != [] && IsSpace(s[0]) then SkipSpaces(s[1..]) else s
  }

  /** The number at the start of a string, as strtol finds it: None when there are no digits. */
  function ReadNumber(s: string): Option<int> {
    var t := SkipSpaces(s);
    var negative := t != [] && t[0] == '-';
    var u := if negative || (t != [] && t[0] == '+') then t[1..] else t;
    var n := DigitsAt(u);
    var v: int := DigitsValue(u[..n]);
    if n == 0 then None else Some(if negative then -v else v)
  }

  lemma {:induction false} DecimalValue(n: nat)
    ensures DigitsValue(Decimal(n)) == n
  {
    var c := "0123456789"[n % 10];
    assert c as int - '0' as int == n % 10;
    assert Decimal(n)[..|Decimal(n)| - 1] == if n < 10 then [] else Decimal(n / 10);
    if 10 <= n {
      DecimalValue(n / 10);
    }
  }

  lemma {:induction false} AllDigitsRun(s: string, rest: string)
    requires AllDigits(s) && (rest == [] || !IsDigit(rest[0]))
    ensures DigitsAt(s + rest) == |s|
  {
    if s == [] {
      assert s + rest == rest;
    } else {
      assert (s + rest)[1..] == s[1..] + rest;
      assert IsDigit((s + rest)[0]);
      AllDigitsRun(s[1..], rest);
    }
  }

  /** Printed numbers read back. */
  lemma DecimalReads(n: nat)
    ensures ReadNumber(Decimal(n)) == Some(n)
  {
    var s := Decimal(n);
    assert IsDigit(s[0]);
    AllDigitsRun(s, []);
    assert s + [] == s && s[..|s|] == s;
    DecimalValue(n);
  }

  lemma {:induction false} SpacesSkipped(spaces: string, s: string)
    requires forall i :: 0 <= i < |spaces| ==> spaces[i] in {' ', '\t', '\n', 0x0B as char, 0x0C as char, '\r'}
    requires s == "" || s[0] !in {' ', '\t', '\n', 0x0B as char, 0x0C as char, '\r'}
    ensures SkipSpaces(spaces + s) == s
  {
    if spaces == "" {
      assert spaces + s == s;
    } else {
      assert (spaces + s)[1..] == spaces[1..] + s;
      SpacesSkipped(spaces[1..], s);
    }
  }

  /** Spaces, a sign and digits are read as the digits say, whatever follows; without digits nothing is. */
  lemma NumberReads(spaces: string, sign: string, n: nat, digits: string, rest: string)
    requires forall i :: 0 <= i < |spaces| ==> spaces[i] in {' ', '\t', '\n', 0x0B as char, 0x0C as char, '\r'}
    requires sign in {"", "+", "-"} && digits in {"", Decimal(n)}
    requires rest == "" || !('0' <= rest[0] <= '9')
    requires sign == digits == "" && rest != "" ==>
      rest[0] !in {' ', '\t', '\n', 0x0B as char, 0x0C as char, '\r', '+', '-'}
    ensures var value: int := if sign == "-" then 0 - n else n as int;
      ReadNumber(spaces + (sign + (digits + rest))) == if digits == "" then None else Some(value)
  {
    hide Decimal, SkipSpaces;
    var u := digits + rest;
    var t := sign + u;
    assert sign == "" ==> t == u;
    assert sign != "" ==> t[0] == sign[0] && t[1..] == u;
    assert digits != "" ==> u[0] == digits[0] && IsDigit(digits[0]);
    SpacesSkipped(spaces, t);
    AllDigitsRun(digits, rest);
    assert u[..|digits|] == digits;
    DecimalValue(n);
  }

  /** The first position from `start` on whose character is in `chars`; None is npos. */
  function FindFirstOf(s: string, chars: set<char>, start: nat): (r: Option<nat>)
    ensures r.Some? ==> start <= r.value < |s| && s[r.value] in chars
    ensures r.Some? ==> forall i :: start <= i < r.value ==> s[i] !in chars
    ensures r.None? ==> forall i :: start <= i < |s| ==> s[i] !in chars
    decreases |s| - start
  {
    if start >= |s| then None else if s[start] in chars then Some(start) else FindFirstOf(s, chars, start + 1)
  }

  /** A search passes over what holds no such character and stops at the first that is one. */
  lemma {:induction false} FindsAt(s: string, chars: set<char>, start: nat, at: nat)
    requires start <= at <= |s| && forall i :: start <= i < at ==> s[i] !in chars
    ensures at < |s| && s[at] in chars ==> FindFirstOf(s, chars, start) == Some(at)
    ensures at == |s| ==> FindFirstOf(s, chars, start) == None
    decreases at - start
  {
    if start < at {
      FindsAt(s, chars, start + 1, at);
    }
  }
}
