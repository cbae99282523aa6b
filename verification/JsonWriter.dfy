/**
 rapidjson's Writer: a handler that turns events into text with a stack of value counters.
 */
module JsonWriter {
  import opened JsonValue
  import opened JsonText
  import Text

  /** One open array or object. */
  datatype Level = Level(valueCount: nat, inArray: bool)

  /** What Prefix puts before the next value of a level. */
  function Separator(level: Level): string {
    if level.valueCount == 0 then ""
    else if level.inArray then ","
    else if level.valueCount % 2 == 0 then "," else ":"
  }

  /** The separator for the next value, if any level is open. */
  function PrefixText(levels: seq<Level>): string {
    if levels == [] then "" else Separator(levels[|levels| - 1])
  }

  /** The innermost level has one value more. */
  function Counted(levels: seq<Level>): seq<Level> {
    if levels == [] then []
    else
      var top := levels[|levels| - 1];
      levels[|levels| - 1 := top.(valueCount := top.valueCount + 1)]
  }

  class Writer {
    var out: string
    var levels: seq<Level>
    var hasRoot: bool
    const text: NumberText

    constructor (nt: NumberText)
      ensures out == "" && levels == [] && !hasRoot && text == nt
    {
      out, levels, hasRoot, text := "", [], false, nt;
    }

    /** What Prefix asserts: a single root, and a string wherever a member name is due. */
    predicate Takes(isString: bool)
      reads this
    {
      if levels == [] then !hasRoot
      else levels[|levels| - 1].inArray || levels[|levels| - 1].valueCount % 2 == 1 || isString
    }

    method Put(s: string)
      modifies `out
      ensures out == old(out) + s
    {
      out := out + s;
    }

    method Prefix(isString: bool)
      requires Takes(isString)
      modifies this
      ensures out == old(out) + PrefixText(old(levels))
      ensures levels == Counted(old(levels)) && hasRoot == (old(hasRoot) || old(levels) == [])
    {
      if levels != [] {
        var level := levels[|levels| - 1];
        if level.valueCount > 0 {
          if level.inArray {
            Put(",");
          } else {
            Put(if level.valueCount % 2 == 0 then "," else ":");
          }
        }
        levels := levels[|levels| - 1 := level.(valueCount := level.valueCount + 1)];
      } else {
        hasRoot := true;
      }
    }

    /** The escape table: 0 where a byte is written as it is. */
    static function EscapeTable(c: char): char {
      var n := c as int;
      if n == 8 then 'b' else if n == 9 then 't' else if n == 10 then 'n'
      else if n == 12 then 'f' else if n == 13 then 'r'
      else if n < 0x20 then 'u' else if n == 0x22 then '\"' else if n == 0x5C then '\\' else '\0'
    }

    /** One byte of a string, as the table says. */
    method WriteByte(c: char)
      modifies `out
      ensures out == old(out) + EscapeChar(c)
    {
      EscapedByTable(c);
      hide EscapeChar;
      var e := EscapeTable(c);
      if e != '\0' {
        Put("\\");
        Put([e]);
        if e == 'u' {
          Put("0");
          Put("0");
          Put([HexDigit(c as int / 16)]);
          Put([HexDigit(c as int % 16)]);
        }
      } else {
        Put([c]);
      }
    }

    method WriteString(s: string)
      modifies `out
      ensures out == old(out) + Quote(s)
    {
      hide EscapeChar;
      Put("\"");
      ghost var start := out;
      for i := 0 to |s|
        invariant out == start + Escape(s[..i])
      {
        WriteByte(s[i]);
        assert s[..i + 1] == s[..i] + [s[i]];
        EscapeAppends(s[..i], s[i]);
      }
      assert s[..|s|] == s;
      Put("\"");
    }

    static lemma EscapedByTable(c: char)
      ensures EscapeTable(c) == 'u' ==> c < ' '
      ensures EscapeChar(c) ==
        if EscapeTable(c) == '\0' then [c]
        else if EscapeTable(c) == 'u' then
          "\\" + "u" + "0" + "0" + [HexDigit(c as int / 16)] + [HexDigit(c as int % 16)]
        else "\\" + [EscapeTable(c)]
    {
    }

    method Scalar(s: string)
      requires Takes(false)
      modifies this
      ensures out == old(out) + PrefixText(old(levels)) + s
      ensures levels == Counted(old(levels)) && hasRoot == (old(hasRoot) || old(levels) == [])
    {
      Prefix(false);
      Put(s);
    }

    method StringEvent(s: string)
      requires Takes(true)
      modifies this
      ensures out == old(out) + PrefixText(old(levels)) + Quote(s)
      ensures levels == Counted(old(levels)) && hasRoot == (old(hasRoot) || old(levels) == [])
    {
      Prefix(true);
      WriteString(s);
    }

    method StartObject()
      requires Takes(false)
      modifies this
      ensures out == old(out) + PrefixText(old(levels)) + "{"
      ensures levels == Counted(old(levels)) + [Level(0, false)] && hasRoot == (old(hasRoot) || old(levels) == [])
    {
      Prefix(false);
      levels := levels + [Level(0, false)];
      Put("{");
    }

    method EndObject()
      requires levels != [] && !levels[|levels| - 1].inArray
      modifies this
      ensures out == old(out) + "}" && levels == old(levels)[..|old(levels)| - 1] && hasRoot == old(hasRoot)
    {
      levels := levels[..|levels| - 1];
      Put("}");
    }

    method StartArray()
      requires Takes(false)
      modifies this
      ensures out == old(out) + PrefixText(old(levels)) + "["
      ensures levels == Counted(old(levels)) + [Level(0, true)] && hasRoot == (old(hasRoot) || old(levels) == [])
    {
      Prefix(false);
      levels := levels + [Level(0, true)];
      Put("[");
    }

    method EndArray()
      requires levels != [] && levels[|levels| - 1].inArray
      modifies this
      ensures out == old(out) + "]" && levels == old(levels)[..|old(levels)| - 1] && hasRoot == old(hasRoot)
    {
      levels := levels[..|levels| - 1];
      Put("]");
    }

    predicate IsComplete()
      reads this
    {
      hasRoot && levels == []
    }
  }

  // ---------------------------------------------------------------------------
  // Accept, driving a writer
  // ---------------------------------------------------------------------------

  /** The level of a container with `n` values in it, on top of the levels outside. */
  function Inside(outer: seq<Level>, n: nat, inArray: bool): seq<Level> { outer + [Level(n, inArray)] }

  lemma InsideCounts(outer: seq<Level>, n: nat, inArray: bool)
    ensures Counted(Inside(outer, n, inArray)) == Inside(outer, n + 1, inArray)
    ensures PrefixText(Inside(outer, n, inArray)) == Separator(Level(n, inArray))
    ensures Inside(outer, n, inArray)[..|outer|] == outer
  {
  }

  lemma Regroup(a: string, b: string, c: string, d: string)
    ensures a + b + c + d == a + (b + c + d)
  {
  }

  /** One more element: the separator of its level, then its text. */
  lemma NextElement(start: string, es: seq<Value>, i: nat, nt: NumberText)
    requires i < |es| && forall j :: 0 <= j < |es| ==> NamesAreStrings(es[j])
    ensures start + PrintElements(es[..i], nt) + Separator(Level(i, true)) + Print(es[i], nt) ==
      start + PrintElements(es[..i + 1], nt)
  {
    hide Print, PrintElements;
    PrintElementsAppends(es[..i], es[i], nt);
    assert es[..i + 1] == es[..i] + [es[i]];
    Regroup(start, PrintElements(es[..i], nt), Separator(Level(i, true)), Print(es[i], nt));
  }

  /** One more member: name and value, each after the separator of its level. */
  lemma NextMember(start: string, ms: seq<Member>, i: nat, nt: NumberText)
    requires i < |ms| && forall j :: 0 <= j < |ms| ==> ms[j].name.String? && NamesAreStrings(ms[j].value)
    ensures start + PrintMembers(ms[..i], nt) + Separator(Level(2 * i, false)) + Quote(ms[i].name.chars)
      + Separator(Level(2 * i + 1, false)) + Print(ms[i].value, nt) == start + PrintMembers(ms[..i + 1], nt)
  {
    hide Print, PrintMembers, Quote;
    PrintMembersAppends(ms[..i], ms[i], nt);
    assert ms[..i + 1] == ms[..i] + [ms[i]];
    var before, sep := PrintMembers(ms[..i], nt), Separator(Level(2 * i, false));
    var name, value := Quote(ms[i].name.chars), Print(ms[i].value, nt);
    assert Separator(Level(2 * i + 1, false)) == ":";
    assert start + before + sep + name + ":" + value == start + (before + sep + (name + ":" + value));
  }

  lemma NothingPrinted(nt: NumberText)
    ensures PrintElements([], nt) == "" && PrintMembers([], nt) == ""
  {
  }

  /**
   The events of `v`, wherever a value may stand: the separator that the place calls for, then
   the text of the value. The levels outside only count one value more.
   */
  method Accept(v: Value, w: Writer)
    requires NamesAreStrings(v) && w.Takes(v.String?)
    modifies w
    ensures w.out == old(w.out) + PrefixText(old(w.levels)) + Print(v, w.text)
    ensures w.levels == Counted(old(w.levels)) && w.hasRoot == (old(w.hasRoot) || old(w.levels) == [])
    decreases v
  {
    match v
    case Null => w.Scalar("null");
    case Bool(b) => w.Scalar(if b then "true" else "false");
    case Object(ms) => AcceptMembers(v, ms, w);
    case Array(es) => AcceptElements(v, es, w);
    case String(s, _) => w.StringEvent(s);
    case Number(flags, raw) =>
      if flags.isInt {
        w.Scalar(w.text.ofInt(AsInt(raw)));
      } else if flags.isUint {
        w.Scalar(w.text.ofInt(AsUint(raw)));
      } else if flags.isInt64 {
        w.Scalar(w.text.ofInt(AsInt64(raw)));
      } else if flags.isUint64 {
        w.Scalar(w.text.ofInt(raw));
      } else {
        w.Scalar(w.text.ofDouble(raw));
      }
  }

  /** The array case: one event per element between start and end. */
  method AcceptElements(v: Value, es: seq<Value>, w: Writer)
    requires v == Array(es) && NamesAreStrings(v) && w.Takes(false)
    modifies w
    ensures w.out == old(w.out) + PrefixText(old(w.levels)) + Print(v, w.text)
    ensures w.levels == Counted(old(w.levels)) && w.hasRoot == (old(w.hasRoot) || old(w.levels) == [])
    decreases v, 0
  {
    hide Print, PrintElements, Counted, PrefixText, Separator;
    ghost var outer, prefix := Counted(w.levels), w.out + PrefixText(w.levels);
    w.StartArray();
    ghost var start := w.out;
    NothingPrinted(w.text);
    assert es[..0] == [];
    assert start == start + "";
    for i := 0 to |es|
      invariant w.out == start + PrintElements(es[..i], w.text)
      invariant w.levels == Inside(outer, i, true)
      invariant w.hasRoot == (old(w.hasRoot) || old(w.levels) == [])
    {
      InsideCounts(outer, i, true);
      NextElement(start, es, i, w.text);
      Accept(es[i], w);
    }
    assert es[..|es|] == es;
    InsideCounts(outer, |es|, true);
    w.EndArray();
    Container(prefix, v, w.text);
  }

  lemma Container(prefix: string, v: Value, nt: NumberText)
    requires NamesAreStrings(v)
    ensures v.Array? ==> prefix + "[" + PrintElements(v.elements, nt) + "]" == prefix + Print(v, nt)
    ensures v.Object? ==> prefix + "{" + PrintMembers(v.members, nt) + "}" == prefix + Print(v, nt)
  {
    hide PrintElements, PrintMembers;
  }

  /** The object case: a name and a value for each member between start and end. */
  method AcceptMembers(v: Value, ms: seq<Member>, w: Writer)
    requires v == Object(ms) && NamesAreStrings(v) && w.Takes(false)
    modifies w
    ensures w.out == old(w.out) + PrefixText(old(w.levels)) + Print(v, w.text)
    ensures w.levels == Counted(old(w.levels)) && w.hasRoot == (old(w.hasRoot) || old(w.levels) == [])
    decreases v, 0
  {
    hide Print, PrintMembers, Counted, PrefixText, Separator, Quote;
    ghost var outer, prefix := Counted(w.levels), w.out + PrefixText(w.levels);
    w.StartObject();
    ghost var start := w.out;
    NothingPrinted(w.text);
    assert ms[..0] == [];
    assert start == start + "";
    for i := 0 to |ms|
      invariant w.out == start + PrintMembers(ms[..i], w.text)
      invariant w.levels == Inside(outer, 2 * i, false)
      invariant w.hasRoot == (old(w.hasRoot) || old(w.levels) == [])
    {
      InsideCounts(outer, 2 * i, false);
      InsideCounts(outer, 2 * i + 1, false);
      NextMember(start, ms, i, w.text);
      w.StringEvent(ms[i].name.chars);
      Accept(ms[i].value, w);
    }
    assert ms[..|ms|] == ms;
    InsideCounts(outer, 2 * |ms|, false);
    w.EndObject();
    Container(prefix, v, w.text);
  }

  /** A document accepted by a new writer: complete, equal to the recursive print, and readable. */
  method WriteDocument(v: Value, nt: NumberText) returns (text: string)
    requires NamesAreStrings(v)
    ensures text == Print(v, nt)
    ensures Readable(v, nt) ==> ReadValue(text) == Text.Some((Meaning(v, nt), ""))
  {
    hide Print, ReadValue, Meaning;
    var w := new Writer(nt);
    Accept(v, w);
    assert w.IsComplete();
    text := w.out;
    if Readable(v, nt) {
      PrintedReads(v, nt, "");
      assert Print(v, nt) + "" == Print(v, nt);
    }
  }
}
