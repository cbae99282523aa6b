/**
 JSON text on its own terms (RFC 8259): printing a value tree, quoting strings, and a reader
 that the printed text is checked against. A char stands for one byte of UTF-8.
 */
module JsonText {
  import opened Bytes
  import opened Text
  import opened JsonValue
  import opened Widths
  import Utf8Codec

  // ---------------------------------------------------------------------------
  // Quoting strings
  // ---------------------------------------------------------------------------

  function HexDigit(n: int): char
    requires 0 <= n < 16
  {
    "0123456789ABCDEF"[n]
  }

  /** One byte inside quotes: escaped where section 7 of RFC 8259 demands it, else as it is. */
  function EscapeChar(c: char): (r: string)
    ensures r != []
  {
    var n := c as int;
    if c == '\"' then "\\\""
    else if c == '\\' then "\\\\"
    else if n == 8 then "\\b"
    else if n == 9 then "\\t"
    else if n == 10 then "\\n"
    else if n == 12 then "\\f"
    else if n == 13 then "\\r"
    else if n < 0x20 then "\\u00" + [HexDigit(n / 16), HexDigit(n % 16)]
    else [c]
  }

  function Escape(s: string): string {
    if s == [] then [] else EscapeChar(s[0]) + Escape(s[1..])
  }

  function Quote(s: string): string { "\"" + Escape(s) + "\"" }

  lemma {:induction false} EscapeAppends(s: string, c: char)
    ensures Escape(s + [c]) == Escape(s) + EscapeChar(c)
  {
    hide EscapeChar;
    if s == [] {
      assert [c][1..] == [];
    } else {
      assert (s + [c])[1..] == s[1..] + [c];
      EscapeAppends(s[1..], c);
    }
  }

  // ---------------------------------------------------------------------------
  // Reading strings: section 7 of RFC 8259
  // ---------------------------------------------------------------------------

  function HexValue(c: char): (n: int)
    ensures -1 <= n < 16
  {
    if '0' <= c <= '9' then c as int - '0' as int
    else if 'A' <= c <= 'F' then c as int - 'A' as int + 10
    else if 'a' <= c <= 'f' then c as int - 'a' as int + 10
    else -1
  }

  /** \uXXXX at the start of `s`: the code unit. */
  function CodeUnit(s: string): (r: Option<nat>)
    ensures r.Some? ==> |s| >= 6 && r.value < 0x10000
  {
    if |s| < 6 || s[0] != '\\' || s[1] != 'u' then None
    else
      var a, b, c, d := HexValue(s[2]), HexValue(s[3]), HexValue(s[4]), HexValue(s[5]);
      if a < 0 || b < 0 || c < 0 || d < 0 then None else Some(((a * 16 + b) * 16 + c) * 16 + d)
  }

  function Utf8Of(cp: nat): string
    requires cp <= 0x10FFFF
  {
    var bytes := Utf8Codec.EncodeBytes(cp);
    seq(|bytes|, i requires 0 <= i < |bytes| => bytes[i] as char)
  }

  /** The escape at the start of `s`: the bytes it stands for, and how many characters it takes. */
  function ReadEscape(s: string): (r: Option<(string, nat)>)
    requires s != [] && s[0] == '\\'
    ensures r.Some? ==> 0 < r.value.1 <= |s|
  {
    if |s| < 2 then None
    else if s[1] == '\"' || s[1] == '\\' || s[1] == '/' then Some(([s[1]], 2))
    else if s[1] == 'b' then Some(([8 as char], 2))
    else if s[1] == 'f' then Some(([12 as char], 2))
    else if s[1] == 'n' then Some((['\n'], 2))
    else if s[1] == 'r' then Some((['\r'], 2))
    else if s[1] == 't' then Some((['\t'], 2))
    else
      match CodeUnit(s)
      case None => None
      case Some(u) =>
        if u < 0xD800 || 0xDFFF < u then Some((Utf8Of(u), 6))
        else if 0xDC00 <= u then None
        else
          match CodeUnit(s[6..])
          case None => None
          case Some(w) =>
            if 0xDC00 <= w <= 0xDFFF then Some((Utf8Of(0x10000 + (u - 0xD800) * 0x400 + (w - 0xDC00)), 12)) else None
  }

  /** Characters up to the closing quotation mark: the bytes they stand for, and what follows the mark. */
  function ReadChars(s: string): (r: Option<(string, string)>)
    ensures r.Some? ==> |r.value.1| < |s|
    decreases |s|
  {
    if s == [] || s[0] < ' ' then None
    else if s[0] == '\"' then Some(("", s[1..]))
    else
      var unit := if s[0] == '\\' then ReadEscape(s) else Some(([s[0]], 1));
      match unit
      case None => None
      case Some((bytes, n)) =>
        match ReadChars(s[n..])
        case None => None
        case Some((more, rest)) => Some((bytes + more, rest))
  }

  lemma EscapeReads(c: char, t: string)
    ensures var s := EscapeChar(c) + t;
      var unit := if s[0] == '\\' then ReadEscape(s) else Some(([s[0]], 1));
      s[0] >= ' ' && s[0] != '\"' && unit == Some(([c], |EscapeChar(c)|))
    ensures (EscapeChar(c) + t)[|EscapeChar(c)|..] == t
  {
    var s, n := EscapeChar(c) + t, c as int;
    if c != '\"' && c != '\\' && n < 0x20 && n != 8 && n != 9 && n != 10 && n != 12 && n != 13 {
      UnitReads(c, s);
    }
  }

  lemma HexReads(n: int)
    requires 0 <= n < 16
    ensures HexValue(HexDigit(n)) == n
  {
  }

  lemma UnitReads(c: char, s: string)
    requires c < ' ' && |s| >= 6 && s[..6] == "\\u00" + [HexDigit(c as int / 16), HexDigit(c as int % 16)]
    ensures ReadEscape(s) == Some(([c], 6))
  {
    var n := c as int;
    HexReads(n / 16);
    HexReads(n % 16);
    assert s[0] == s[..6][0] && s[1] == s[..6][1] && s[2] == s[..6][2] && s[3] == s[..6][3] && s[4] == s[..6][4] &&
      s[5] == s[..6][5];
    assert HexValue('0') == 0;
    hide HexValue, HexDigit;
    assert CodeUnit(s) == Some(n);
    assert Utf8Of(n) == [c];
  }

  /** Unescaping what was escaped gives back the bytes, and stops at the closing mark. */
  lemma {:induction false} QuotedReads(s: string, rest: string)
    ensures ReadChars(Escape(s) + "\"" + rest) == Some((s, rest))
  {
    hide EscapeChar, ReadEscape;
    if s == [] {
      assert Escape(s) + "\"" + rest == "\"" + rest;
    } else {
      var t := Escape(s[1..]) + "\"" + rest;
      assert Escape(s) + "\"" + rest == EscapeChar(s[0]) + t;
      EscapeReads(s[0], t);
      QuotedReads(s[1..], rest);
      assert [s[0]] + s[1..] == s;
    }
  }

  // ---------------------------------------------------------------------------
  // Printing values
  // ---------------------------------------------------------------------------

  /** The texts of integers and of doubles come from elsewhere; doubles are known by their bits. */
  datatype NumberText = NumberText(ofInt: int -> string, ofDouble: nat -> string)

  function PrintNumber(flags: NumberFlags, raw: nat, nt: NumberText): string {
    if flags.isInt then nt.ofInt(AsInt(raw))
    else if flags.isUint then nt.ofInt(AsUint(raw))
    else if flags.isInt64 then nt.ofInt(AsInt64(raw))
    else if flags.isUint64 then nt.ofInt(raw)
    else nt.ofDouble(raw)
  }

  /** Member names are strings, which Accept asserts. */
  predicate NamesAreStrings(v: Value) {
    match v
    case Array(es) => forall i :: 0 <= i < |es| ==> NamesAreStrings(es[i])
    case Object(ms) => forall i :: 0 <= i < |ms| ==> ms[i].name.String? && NamesAreStrings(ms[i].value)
    case _ => true
  }

  function Print(v: Value, nt: NumberText): string
    requires NamesAreStrings(v)
    decreases v, 1
  {
    match v
    case Null => "null"
    case Bool(b) => if b then "true" else "false"
    case Number(flags, raw) => PrintNumber(flags, raw, nt)
    case String(s, _) => Quote(s)
    case Array(es) => "[" + PrintElements(es, nt) + "]"
    case Object(ms) => "{" + PrintMembers(ms, nt) + "}"
  }

  function PrintElements(es: seq<Value>, nt: NumberText): string
    requires forall i :: 0 <= i < |es| ==> NamesAreStrings(es[i])
    decreases es, 0
  {
    if es == [] then ""
    else Print(es[0], nt) + if |es| == 1 then "" else "," + PrintElements(es[1..], nt)
  }

  function PrintMember(m: Member, nt: NumberText): string
    requires m.name.String? && NamesAreStrings(m.value)
    decreases m, 0
  {
    Quote(m.name.chars) + ":" + Print(m.value, nt)
  }

  function PrintMembers(ms: seq<Member>, nt: NumberText): string
    requires forall i :: 0 <= i < |ms| ==> ms[i].name.String? && NamesAreStrings(ms[i].value)
    decreases ms, 0
  {
    if ms == [] then ""
    else PrintMember(ms[0], nt) + if |ms| == 1 then "" else "," + PrintMembers(ms[1..], nt)
  }

  lemma {:induction false} PrintElementsAppends(es: seq<Value>, e: Value, nt: NumberText)
    requires forall i :: 0 <= i < |es| ==> NamesAreStrings(es[i])
    requires NamesAreStrings(e)
    ensures PrintElements(es + [e], nt) == PrintElements(es, nt) + (if es == [] then "" else ",") + Print(e, nt)
  {
    hide Print, NamesAreStrings;
    if es != [] {
      assert (es + [e])[1..] == es[1..] + [e];
      PrintElementsAppends(es[1..], e, nt);
      var first, last := Print(es[0], nt), Print(e, nt);
      if |es| == 1 {
        assert PrintElements(es[1..], nt) == "" && PrintElements(es, nt) == first + "";
        OneMore(first, "", last);
      } else {
        OneMore(first, PrintElements(es[1..], nt), last);
      }
    }
  }

  lemma OneMore(first: string, middle: string, last: string)
    ensures first + "" + "," + last == first + ("," + ("" + "" + last))
    ensures first + ("," + middle) + "," + last == first + ("," + (middle + "," + last))
  {
  }

  lemma {:induction false} PrintMembersAppends(ms: seq<Member>, m: Member, nt: NumberText)
    requires forall i :: 0 <= i < |ms| ==> ms[i].name.String? && NamesAreStrings(ms[i].value)
    requires m.name.String? && NamesAreStrings(m.value)
    ensures PrintMembers(ms + [m], nt) == PrintMembers(ms, nt) + (if ms == [] then "" else ",") + PrintMember(m, nt)
  {
    hide PrintMember, NamesAreStrings;
    if ms != [] {
      assert (ms + [m])[1..] == ms[1..] + [m];
      PrintMembersAppends(ms[1..], m, nt);
      var first, last := PrintMember(ms[0], nt), PrintMember(m, nt);
      if |ms| == 1 {
        assert PrintMembers(ms[1..], nt) == "" && PrintMembers(ms, nt) == first + "";
        OneMore(first, "", last);
      } else {
        OneMore(first, PrintMembers(ms[1..], nt), last);
      }
    }
  }

  // ---------------------------------------------------------------------------
  // Reading values: sections 3 to 6 of RFC 8259, without whitespace
  // ---------------------------------------------------------------------------

  datatype Json =
    | JNull
    | JBool(b: bool)
    | JNumber(text: string)
    | JString(chars: string)
    | JArray(elements: seq<Json>)
    | JObject(members: seq<(string, Json)>)

  predicate NumberChar(c: char) { IsDigit(c) || c in "+-.eE" }

  /** int = zero / ( digit1-9 *DIGIT ) */
  function IntLength(s: string): (n: nat)
    ensures n <= |s|
  {
    if s != [] && s[0] == '0' then 1 else DigitsAt(s)
  }

  /** frac = decimal-point 1*DIGIT */
  function FracLength(s: string): (n: nat)
    ensures n <= |s|
  {
    if s == [] || s[0] != '.' then 0
    else
      var d := DigitsAt(s[1..]);
      if d == 0 then 0 else 1 + d
  }

  /** exp = e [ minus / plus ] 1*DIGIT */
  function ExpLength(s: string): (n: nat)
    ensures n <= |s|
  {
    if s == [] || (s[0] != 'e' && s[0] != 'E') then 0
    else
      var k := if |s| > 1 && (s[1] == '+' || s[1] == '-') then 2 else 1;
      var d := DigitsAt(s[k..]);
      if d == 0 then 0 else k + d
  }

  /** number = [ minus ] int [ frac ] [ exp ]: as much of `s` as is one, or none of it. */
  function NumberLength(s: string): (n: nat)
    ensures n <= |s|
  {
    var m := if s != [] && s[0] == '-' then 1 else 0;
    var i := IntLength(s[m..]);
    if i == 0 then 0
    else
      var f := FracLength(s[m + i..]);
      m + i + f + ExpLength(s[m + i + f..])
  }

  type Reading<T> = Option<(T, string)>

  function ReadValue(s: string): (r: Reading<Json>)
    ensures r.Some? ==> |r.value.1| < |s|
    decreases |s|, 2
  {
    if s == [] then None
    else if s[0] == '"' then
      match ReadChars(s[1..]) case None => None case Some((t, rest)) => Some((JString(t), rest))
    else if s[0] == '[' then
      if |s| > 1 && s[1] == ']' then Some((JArray([]), s[2..]))
      else match ReadElements(s[1..]) case None => None case Some((es, rest)) => Some((JArray(es), rest))
    else if s[0] == '{' then
      if |s| > 1 && s[1] == '}' then Some((JObject([]), s[2..]))
      else match ReadMembers(s[1..]) case None => None case Some((ms, rest)) => Some((JObject(ms), rest))
    else if "null" <= s then Some((JNull, s[4..]))
    else if "true" <= s then Some((JBool(true), s[4..]))
    else if "false" <= s then Some((JBool(false), s[5..]))
    else
      var n := NumberLength(s);
      if n == 0 then None else Some((JNumber(s[..n]), s[n..]))
  }

  /** value *( "," value ) "]" */
  function ReadElements(s: string): (r: Reading<seq<Json>>)
    ensures r.Some? ==> |r.value.1| < |s|
    decreases |s|, 3
  {
    match ReadValue(s)
    case None => None
    case Some((v, rest)) =>
      if rest == [] then None
      else if rest[0] == ']' then Some(([v], rest[1..]))
      else if rest[0] == ',' then
        match ReadElements(rest[1..]) case None => None case Some((vs, tail)) => Some(([v] + vs, tail))
      else None
  }

  /** string ":" value */
  function ReadMember(s: string): (r: Reading<(string, Json)>)
    ensures r.Some? ==> |r.value.1| < |s|
    decreases |s|, 3
  {
    if s == [] || s[0] != '"' then None
    else
      match ReadChars(s[1..])
      case None => None
      case Some((name, rest)) =>
        if rest == [] || rest[0] != ':' then None
        else match ReadValue(rest[1..]) case None => None case Some((v, tail)) => Some(((name, v), tail))
  }

  /** member *( "," member ) "}" */
  function ReadMembers(s: string): (r: Reading<seq<(string, Json)>>)
    ensures r.Some? ==> |r.value.1| < |s|
    decreases |s|, 4
  {
    match ReadMember(s)
    case None => None
    case Some((m, rest)) =>
      if rest == [] then None
      else if rest[0] == '}' then Some(([m], rest[1..]))
      else if rest[0] == ',' then
        match ReadMembers(rest[1..]) case None => None case Some((ms, tail)) => Some(([m] + ms, tail))
      else None
  }

  /** What a value says, apart from how its numbers and strings are stored. */
  function Meaning(v: Value, nt: NumberText): Json
    requires NamesAreStrings(v)
  {
    match v
    case Null => JNull
    case Bool(b) => JBool(b)
    case Number(flags, raw) => JNumber(PrintNumber(flags, raw, nt))
    case String(s, _) => JString(s)
    case Array(es) => JArray(seq(|es|, i requires 0 <= i < |es| => Meaning(es[i], nt)))
    case Object(ms) => JObject(seq(|ms|, i requires 0 <= i < |ms| => (ms[i].name.chars, Meaning(ms[i].value, nt))))
  }

  /** The number production of section 6 and nothing else. */
  ghost predicate IsNumberText(s: string) {
    s != [] && NumberLength(s) == |s|
  }

  /** The numbers in the value are printed as number texts, as finite ones are. */
  ghost predicate Readable(v: Value, nt: NumberText) {
    match v
    case Number(flags, raw) => IsNumberText(PrintNumber(flags, raw, nt))
    case Array(es) => forall i :: 0 <= i < |es| ==> Readable(es[i], nt)
    case Object(ms) => forall i :: 0 <= i < |ms| ==> Readable(ms[i].value, nt)
    case _ => true
  }

  ghost predicate EndsNumber(rest: string) { rest == [] || !NumberChar(rest[0]) }

  lemma {:induction false} DigitsEnd(s: string, rest: string)
    requires EndsNumber(rest)
    ensures DigitsAt(s + rest) == DigitsAt(s)
  {
    if s == [] {
      assert s + rest == rest;
    } else {
      assert (s + rest)[1..] == s[1..] + rest && (s + rest)[0] == s[0];
      DigitsEnd(s[1..], rest);
    }
  }

  lemma IntEnds(s: string, rest: string)
    requires EndsNumber(rest)
    ensures IntLength(s + rest) == IntLength(s)
  {
    DigitsEnd(s, rest);
    assert s != [] ==> (s + rest)[0] == s[0];
    assert s == [] ==> s + rest == rest;
    hide DigitsAt;
  }

  lemma FracEnds(s: string, rest: string)
    requires EndsNumber(rest)
    ensures FracLength(s + rest) == FracLength(s)
  {
    hide DigitsAt;
    if s == [] {
      assert s + rest == rest;
    } else {
      assert (s + rest)[1..] == s[1..] + rest && (s + rest)[0] == s[0];
      DigitsEnd(s[1..], rest);
    }
  }

  lemma ExpEnds(s: string, rest: string)
    requires EndsNumber(rest)
    ensures ExpLength(s + rest) == ExpLength(s)
  {
    hide DigitsAt;
    if s == [] {
      assert s + rest == rest;
    } else {
      assert (s + rest)[0] == s[0];
      var k := if |s| > 1 && (s[1] == '+' || s[1] == '-') then 2 else 1;
      assert |s| > 1 ==> (s + rest)[1] == s[1];
      assert |s| == 1 && rest != [] ==> (s + rest)[1] == rest[0];
      assert (s + rest)[k..] == s[k..] + rest;
      DigitsEnd(s[k..], rest);
    }
  }

  /** A number ends where no character of one follows. */
  lemma NumberReads(s: string, rest: string)
    requires EndsNumber(rest)
    ensures NumberLength(s + rest) == NumberLength(s)
  {
    hide IntLength, FracLength, ExpLength;
    var m := if s != [] && s[0] == '-' then 1 else 0;
    assert s != [] ==> (s + rest)[0] == s[0];
    assert s == [] ==> s + rest == rest;
    assert (s + rest)[m..] == s[m..] + rest;
    IntEnds(s[m..], rest);
    var i := IntLength(s[m..]);
    assert (s + rest)[m + i..] == s[m + i..] + rest;
    FracEnds(s[m + i..], rest);
    var f := FracLength(s[m + i..]);
    assert (s + rest)[m + i + f..] == s[m + i + f..] + rest;
    ExpEnds(s[m + i + f..], rest);
  }

  lemma NumberStarts(s: string)
    requires IsNumberText(s)
    ensures s[0] == '-' || IsDigit(s[0])
  {
  }

  /** No value's text is empty or looks like the end of an array. */
  lemma PrintStarts(v: Value, nt: NumberText)
    requires NamesAreStrings(v) && Readable(v, nt)
    ensures Print(v, nt) != "" && Print(v, nt)[0] != ']'
  {
    hide Escape, PrintElements, PrintMembers;
    if v.Number? {
      NumberStarts(PrintNumber(v.flags, v.raw, nt));
    }
  }

  function Meanings(es: seq<Value>, nt: NumberText): seq<Json>
    requires forall i :: 0 <= i < |es| ==> NamesAreStrings(es[i])
  {
    seq(|es|, i requires 0 <= i < |es| => Meaning(es[i], nt))
  }

  function MemberMeanings(ms: seq<Member>, nt: NumberText): seq<(string, Json)>
    requires forall i :: 0 <= i < |ms| ==> ms[i].name.String? && NamesAreStrings(ms[i].value)
  {
    seq(|ms|, i requires 0 <= i < |ms| => (ms[i].name.chars, Meaning(ms[i].value, nt)))
  }

  lemma NumberTextReads(text: string, rest: string)
    requires IsNumberText(text) && EndsNumber(rest)
    ensures ReadValue(text + rest) == Some((JNumber(text), rest))
  {
    hide ReadElements, ReadMembers, ReadChars, NumberLength, NumberChar, EndsNumber;
    var s := text + rest;
    NumberReads(text, rest);
    NumberStarts(text);
    assert s[0] == text[0] && s[..|text|] == text && s[|text|..] == rest;
    StartsOtherwise("null", s);
    StartsOtherwise("true", s);
    StartsOtherwise("false", s);
  }

  lemma StartsOtherwise(word: string, s: string)
    requires word != [] && s != [] && s[0] != word[0]
    ensures !(word <= s)
  {
  }

  lemma QuoteReads(chars: string, rest: string)
    ensures ReadValue(Quote(chars) + rest) == Some((JString(chars), rest))
  {
    hide ReadElements, ReadMembers, ReadChars, Escape;
    assert (Quote(chars) + rest)[1..] == Escape(chars) + "\"" + rest;
    QuotedReads(chars, rest);
  }

  lemma WordReads(word: string, rest: string)
    requires word == "null" || word == "true" || word == "false"
    ensures ReadValue(word + rest) == Some((if word == "null" then JNull else JBool(word == "true"), rest))
  {
    hide ReadElements, ReadMembers, ReadChars, NumberLength;
    var s := word + rest;
    assert s[..|word|] == word && s[|word|..] == rest;
  }

  lemma ScalarReads(v: Value, nt: NumberText, rest: string)
    requires NamesAreStrings(v) && Readable(v, nt) && EndsNumber(rest) && !v.Array? && !v.Object?
    ensures ReadValue(Print(v, nt) + rest) == Some((Meaning(v, nt), rest))
  {
    hide ReadValue, Quote;
    match v
    case Null => WordReads("null", rest);
    case Bool(b) => WordReads(if b then "true" else "false", rest);
    case Number(flags, raw) => NumberTextReads(PrintNumber(flags, raw, nt), rest);
    case String(chars, _) => QuoteReads(chars, rest);
  }

  /** The text printed for a value reads back as that value, and reading stops at its end. */
  lemma {:induction false} PrintedReads(v: Value, nt: NumberText, rest: string)
    requires NamesAreStrings(v) && Readable(v, nt) && EndsNumber(rest)
    ensures ReadValue(Print(v, nt) + rest) == Some((Meaning(v, nt), rest))
    decreases v, 1
  {
    hide ReadValue, ReadElements, ReadMembers, Print, PrintElements, PrintMembers, Meaning;
    match v
    case Array(es) =>
      if es == [] {
        EmptyReads(nt, rest);
      } else {
        PrintedElementsRead(es, nt, rest);
        ArrayReads(es, nt, rest);
      }
    case Object(ms) =>
      if ms == [] {
        EmptyReads(nt, rest);
      } else {
        PrintedMembersRead(ms, nt, rest);
        ObjectReads(ms, nt, rest);
      }
    case _ => ScalarReads(v, nt, rest);
  }

  lemma ArrayReads(es: seq<Value>, nt: NumberText, rest: string)
    requires es != [] && forall i :: 0 <= i < |es| ==> NamesAreStrings(es[i]) && Readable(es[i], nt)
    requires ReadElements(PrintElements(es, nt) + "]" + rest) == Some((Meanings(es, nt), rest))
    ensures ReadValue(Print(Array(es), nt) + rest) == Some((Meaning(Array(es), nt), rest))
  {
    hide ReadElements, ReadMembers, ReadChars, PrintElements, Readable;
    ElementsStart(es, nt);
    assert (Print(Array(es), nt) + rest)[1..] == PrintElements(es, nt) + "]" + rest;
    assert Meaning(Array(es), nt) == JArray(Meanings(es, nt));
  }

  lemma ObjectReads(ms: seq<Member>, nt: NumberText, rest: string)
    requires ms != [] && forall i :: 0 <= i < |ms| ==> ms[i].name.String? && NamesAreStrings(ms[i].value)
    requires ReadMembers(PrintMembers(ms, nt) + "}" + rest) == Some((MemberMeanings(ms, nt), rest))
    ensures ReadValue(Print(Object(ms), nt) + rest) == Some((Meaning(Object(ms), nt), rest))
  {
    hide ReadElements, ReadMembers, ReadChars, PrintMembers;
    MembersStart(ms, nt);
    assert (Print(Object(ms), nt) + rest)[1..] == PrintMembers(ms, nt) + "}" + rest;
    assert Meaning(Object(ms), nt) == JObject(MemberMeanings(ms, nt));
  }

  lemma EmptyReads(nt: NumberText, rest: string)
    ensures ReadValue(Print(Array([]), nt) + rest) == Some((Meaning(Array([]), nt), rest))
    ensures ReadValue(Print(Object([]), nt) + rest) == Some((Meaning(Object([]), nt), rest))
  {
    var s, t := Print(Array([]), nt) + rest, Print(Object([]), nt) + rest;
    assert s == "[]" + rest && s[2..] == rest;
    assert t == "{}" + rest && t[2..] == rest;
    assert Meaning(Array([]), nt) == JArray([]) && Meaning(Object([]), nt) == JObject([]);
  }

  lemma ElementsStart(es: seq<Value>, nt: NumberText)
    requires es != [] && forall i :: 0 <= i < |es| ==> NamesAreStrings(es[i]) && Readable(es[i], nt)
    ensures PrintElements(es, nt) != "" && PrintElements(es, nt)[0] != ']'
  {
    hide Print;
    PrintStarts(es[0], nt);
  }

  lemma MembersStart(ms: seq<Member>, nt: NumberText)
    requires ms != [] && forall i :: 0 <= i < |ms| ==> ms[i].name.String? && NamesAreStrings(ms[i].value)
    ensures PrintMembers(ms, nt) != "" && PrintMembers(ms, nt)[0] == '\"'
  {
    hide Print;
  }

  lemma {:induction false} PrintedElementsRead(es: seq<Value>, nt: NumberText, rest: string)
    requires es != [] && forall i :: 0 <= i < |es| ==> NamesAreStrings(es[i]) && Readable(es[i], nt)
    ensures ReadElements(PrintElements(es, nt) + "]" + rest) == Some((Meanings(es, nt), rest))
    decreases es, 0
  {
    hide Print, ReadValue, Readable, Meaning;
    var tail := (if |es| == 1 then "" else "," + PrintElements(es[1..], nt)) + "]" + rest;
    assert PrintElements(es, nt) + "]" + rest == Print(es[0], nt) + tail;
    PrintedReads(es[0], nt, tail);
    if |es| == 1 {
      assert tail[1..] == rest;
      assert Meanings(es, nt) == [Meaning(es[0], nt)];
    } else {
      PrintedElementsRead(es[1..], nt, rest);
      assert tail[1..] == PrintElements(es[1..], nt) + "]" + rest;
      assert Meanings(es, nt) == [Meaning(es[0], nt)] + Meanings(es[1..], nt);
    }
  }

  lemma {:induction false} PrintedMemberReads(m: Member, nt: NumberText, rest: string)
    requires m.name.String? && NamesAreStrings(m.value) && Readable(m.value, nt) && EndsNumber(rest)
    ensures ReadMember(PrintMember(m, nt) + rest) == Some(((m.name.chars, Meaning(m.value, nt)), rest))
    decreases m, 0
  {
    hide Print, ReadValue, ReadChars, Meaning, Quote, Readable, NumberChar, NamesAreStrings;
    PrintedReads(m.value, nt, rest);
    var text := Print(m.value, nt) + rest;
    var after := ":" + text;
    NameReads(m.name.chars, after);
    assert PrintMember(m, nt) + rest == Quote(m.name.chars) + after;
    assert after[0] == ':' && after[1..] == text;
  }

  lemma NameReads(name: string, after: string)
    ensures var s := Quote(name) + after;
      s[0] == '\"' && ReadChars(s[1..]) == Some((name, after))
  {
    hide ReadChars, Escape;
    QuotedReads(name, after);
    assert (Quote(name) + after)[1..] == Escape(name) + "\"" + after;
  }

  lemma {:induction false} PrintedMembersRead(ms: seq<Member>, nt: NumberText, rest: string)
    requires ms != []
    requires forall i :: 0 <= i < |ms| ==>
      ms[i].name.String? && NamesAreStrings(ms[i].value) && Readable(ms[i].value, nt)
    ensures ReadMembers(PrintMembers(ms, nt) + "}" + rest) == Some((MemberMeanings(ms, nt), rest))
    decreases ms, 0
  {
    hide Print, PrintMember, ReadValue, ReadMember, Readable, Meaning;
    var tail := (if |ms| == 1 then "" else "," + PrintMembers(ms[1..], nt)) + "}" + rest;
    assert PrintMembers(ms, nt) + "}" + rest == PrintMember(ms[0], nt) + tail;
    PrintedMemberReads(ms[0], nt, tail);
    if |ms| == 1 {
      assert tail[1..] == rest;
      assert MemberMeanings(ms, nt) == [(ms[0].name.chars, Meaning(ms[0].value, nt))];
    } else {
      PrintedMembersRead(ms[1..], nt, rest);
      assert tail[1..] == PrintMembers(ms[1..], nt) + "}" + rest;
      assert MemberMeanings(ms, nt) == [(ms[0].name.chars, Meaning(ms[0].value, nt))] + MemberMeanings(ms[1..], nt);
    }
  }

  // ---------------------------------------------------------------------------
  // The text, letter by letter
  // ---------------------------------------------------------------------------

  /** A number is printed as what it is, whichever member of the union its flags lead to. */
  lemma NumberPrinted(n: int, bits: nat, nt: NumberText)
    requires -TWO63 <= n < TWO64
    ensures PrintNumber(Integer(n).flags, Integer(n).raw, nt) == nt.ofInt(n)
    ensures PrintNumber(FromDouble(bits).flags, FromDouble(bits).raw, nt) == nt.ofDouble(bits)
    ensures PrintNumber(NUMBER_ANY.flags, NUMBER_ANY.raw, nt) == nt.ofInt(0)
  {
    UnionReads(n);
    hide RawOf, AsInt, AsUint, AsInt64;
    UnionReads(0);
  }

  /** Which bytes are escaped, and how; all others are written as they are. */
  lemma EscapeIs(c: char)
    ensures (c >= ' ' && c != '\"' && c != '\\') ==> EscapeChar(c) == [c]
    ensures c in {'\"', '\\'} ==> EscapeChar(c) == ['\\', c]
    ensures EscapeChar(8 as char) == "\\b" && EscapeChar('\t') == "\\t" && EscapeChar('\n') == "\\n"
    ensures EscapeChar(12 as char) == "\\f" && EscapeChar('\r') == "\\r"
    ensures c < ' ' && c as int !in {8, 9, 10, 12, 13} ==>
      EscapeChar(c) == "\\u00" + ["01"[c as int / 16], "0123456789ABCDEF"[c as int % 16]]
  {
  }

  /** Texts with commas between them. */
  function Joined(texts: seq<string>): string {
    if texts == [] then ""
    else
      var n := |texts| - 1;
      Joined(texts[..n]) + (if n == 0 then "" else ",") + texts[n]
  }

  lemma {:induction false} ElementsPrinted(es: seq<Value>, nt: NumberText)
    requires forall i :: 0 <= i < |es| ==> NamesAreStrings(es[i])
    ensures PrintElements(es, nt) == Joined(seq(|es|, i requires 0 <= i < |es| => Print(es[i], nt)))
  {
    hide Print, NamesAreStrings;
    var texts := seq(|es|, i requires 0 <= i < |es| => Print(es[i], nt));
    if es != [] {
      var n := |es| - 1;
      ElementsPrinted(es[..n], nt);
      PrintElementsAppends(es[..n], es[n], nt);
      assert es[..n] + [es[n]] == es;
      assert texts[..n] == seq(n, i requires 0 <= i < n => Print(es[..n][i], nt));
      hide PrintElements;
    }
  }

  lemma {:induction false} MembersPrinted(ms: seq<Member>, nt: NumberText)
    requires forall i :: 0 <= i < |ms| ==> ms[i].name.String? && NamesAreStrings(ms[i].value)
    ensures PrintMembers(ms, nt) == Joined(seq(|ms|, i requires 0 <= i < |ms| =>
      "\"" + Escape(ms[i].name.chars) + "\":" + Print(ms[i].value, nt)))
  {
    hide Print, NamesAreStrings, Escape;
    var texts := seq(|ms|, i requires 0 <= i < |ms| =>
      "\"" + Escape(ms[i].name.chars) + "\":" + Print(ms[i].value, nt));
    if ms != [] {
      var n := |ms| - 1;
      MembersPrinted(ms[..n], nt);
      PrintMembersAppends(ms[..n], ms[n], nt);
      MemberPrinted(ms[n], nt);
      assert ms[..n] + [ms[n]] == ms;
      assert texts[..n] == seq(n, i requires 0 <= i < n =>
        "\"" + Escape(ms[..n][i].name.chars) + "\":" + Print(ms[..n][i].value, nt));
      hide PrintMembers, PrintMember;
    }
  }

  lemma MemberPrinted(m: Member, nt: NumberText)
    requires m.name.String? && NamesAreStrings(m.value)
    ensures PrintMember(m, nt) == "\"" + Escape(m.name.chars) + "\":" + Print(m.value, nt)
  {
    hide Print, Escape;
  }

  /** Each kind of value, with elements and members in their order. */
  lemma ValuePrinted(v: Value, nt: NumberText)
    requires NamesAreStrings(v)
    ensures Print(Null, nt) == "null" && Print(Bool(true), nt) == "true" && Print(Bool(false), nt) == "false"
    ensures v.String? ==> Print(v, nt) == "\"" + Escape(v.chars) + "\""
    ensures v.Array? ==>
      (Print(v, nt) == "[" + Joined(seq(|v.elements|, i requires 0 <= i < |v.elements| => Print(v.elements[i], nt))) +
        "]")
    ensures v.Object? ==>
      (Print(v, nt) == "{" + Joined(seq(|v.members|, i requires 0 <= i < |v.members| =>
        "\"" + Escape(v.members[i].name.chars) + "\":" + Print(v.members[i].value, nt))) + "}")
  {
    if v.Array? {
      ElementsPrinted(v.elements, nt);
    } else if v.Object? {
      MembersPrinted(v.members, nt);
    }
    hide PrintElements, PrintMembers, Escape, Joined;
  }
}
