/** A reader of JSON strings, as section 7 of RFC 8259 has them, gets back every string that is written as JSON. */
module Json {
  import opened Bytes
  import opened StringEscape

  // ---------- the reader of the standard ----------

  function HexValue(c: byte): Option<nat> {
    if 48 <= c <= 57 then Some(c - 48)
    else if 65 <= c <= 70 then Some(c - 65 + 10)
    else if 97 <= c <= 102 then Some(c - 97 + 10)
    else None
  }

  /** Four hexadecimal digits. */
  function CodeUnit(t: seq<byte>): (r: Option<nat>)
    ensures r.Some? ==> |t| >= 4 && r.value < 0x10000
  {
    if |t| < 4 then None
    else
      var a, b, c, d := HexValue(t[0]), HexValue(t[1]), HexValue(t[2]), HexValue(t[3]);
      if a.None? || b.None? || c.None? || d.None? then None
      else Some(((a.value * 16 + b.value) * 16 + c.value) * 16 + d.value)
  }

  /** The UTF-8 encoding of a code point (section 3 of RFC 3629). */
  function Utf8Of(x: nat): seq<byte>
    requires x < 0x110000
  {
    if x < 0x80 then [x]
    else if x < 0x800 then [0xc0 + x / 64, 0x80 + x % 64]
    else if x < 0x10000 then [0xe0 + x / 4096, 0x80 + x / 64 % 64, 0x80 + x % 64]
    else [0xf0 + x / 262144, 0x80 + x / 4096 % 64, 0x80 + x / 64 % 64, 0x80 + x % 64]
  }

  /** What follows a backslash and `u`: one code unit, or two that are a surrogate pair. */
  function Unicode(t: seq<byte>): (r: Option<(seq<byte>, nat)>)
    ensures r.Some? ==> r.value.1 <= |t|
  {
    match CodeUnit(t)
    case None => None
    case Some(x) =>
      if x < 0xd800 || 0xe000 <= x then Some((Utf8Of(x), 4))
      else if x >= 0xdc00 || |t| < 6 || t[4] != BACKSLASH || t[5] != 117 then None
      else
        match CodeUnit(t[6..])
        case None => None
        case Some(y) =>
          if 0xdc00 <= y < 0xe000 then Some((Utf8Of(0x10000 + (x - 0xd800) * 0x400 + (y - 0xdc00)), 10)) else None
  }

  /** The characters that stand for others after a backslash. */
  function Short(c: byte): Option<byte> {
    if c == QUOTE || c == BACKSLASH || c == 47 then Some(c)
    else if c == 98 then Some(0x08)
    else if c == 102 then Some(0x0c)
    else if c == 110 then Some(0x0a)
    else if c == 114 then Some(0x0d)
    else if c == 116 then Some(0x09)
    else None
  }

  /** The bytes that the text starts with and how much text that takes; control characters must be escaped. */
  function Unit(t: seq<byte>): (r: Option<(seq<byte>, nat)>)
    requires t != []
    ensures r.Some? ==> 0 < r.value.1 <= |t|
  {
    if t[0] < 0x20 then None
    else if t[0] != BACKSLASH then Some(([t[0]], 1))
    else if |t| < 2 then None
    else if t[1] == 117 then
      match Unicode(t[2..]) case None => None case Some((bytes, n)) => Some((bytes, 2 + n))
    else
      match Short(t[1]) case None => None case Some(c) => Some(([c], 2))
  }

  function Body(t: seq<byte>): Option<Reading>
    decreases |t|
  {
    if t == [] then None
    else if t[0] == QUOTE then Some(Reading([], t[1..]))
    else
      match Unit(t)
      case None => None
      case Some((bytes, n)) =>
        match Body(t[n..]) case None => None case Some(more) => Some(Reading(bytes + more.value, more.rest))
  }

  /** A string is quoted; what follows its closing quote is left. */
  function ReadJson(t: seq<byte>): Option<Reading> {
    if t != [] && t[0] == QUOTE then Body(t[1..]) else None
  }

  // ---------- round trip ----------

  /** The reader goes on after the text with the bytes in front. */
  function Before(bytes: seq<byte>, more: Option<Reading>): Option<Reading> {
    match more case None => None case Some(r) => Some(Reading(bytes + r.value, r.rest))
  }

  lemma UnitThen(text: seq<byte>, bytes: seq<byte>, t: seq<byte>)
    requires text != [] && text[0] != QUOTE && Unit(text + t) == Some((bytes, |text|))
    ensures Body(text + t) == Before(bytes, Body(t))
  {
    assert (text + t)[|text|..] == t && (text + t)[0] == text[0];
  }

  lemma HexBack(n: nat)
    requires n < 16
    ensures HexValue(HexChar(n)) == Some(n)
  {
  }

  lemma UnicodeBack(c: byte, t: seq<byte>)
    requires c < 0x80
    ensures Unit(UnicodeEscape(c) + t) == Some(([c], 6))
  {
    var u := UnicodeEscape(c) + t;
    assert u[0] == BACKSLASH && u[1] == 117;
    var v := u[2..];
    assert v[0] == 48 && v[1] == 48 && v[2] == HexChar(c / 16) && v[3] == HexChar(c % 16);
    HexBack(c / 16);
    HexBack(c % 16);
    assert CodeUnit(v) == Some(c);
  }

  lemma PlainByte(c: byte, t: seq<byte>)
    requires c >= 0x20 && c != BACKSLASH && c != QUOTE
    ensures Body([c] + t) == Before([c], Body(t))
  {
    UnitThen([c], [c], t);
  }

  lemma {:induction false} PlainBack(s: seq<byte>, t: seq<byte>)
    requires forall i :: 0 <= i < |s| ==> s[i] >= 0x20 && s[i] != BACKSLASH && s[i] != QUOTE
    ensures Body(s + t) == Before(s, Body(t))
    decreases |s|
  {
    if s == [] {
      assert s + t == t;
      BeforeNothing(Body(t));
    } else {
      var c, rest := s[0], s[1..];
      PlainBack(rest, t);
      PlainByte(c, rest + t);
      Regroup([c], rest, t);
      BeforeTwice([c], rest, Body(t));
      assert [c] + rest == s;
    }
  }

  lemma BeforeNothing(more: Option<Reading>)
    ensures Before([], more) == more
  {
    assert more.Some? ==> [] + more.value.value == more.value.value;
  }

  lemma BeforeTwice(a: seq<byte>, b: seq<byte>, more: Option<Reading>)
    ensures Before(a, Before(b, more)) == Before(a + b, more)
  {
    if more.Some? {
      Regroup(a, b, more.value.value);
    }
  }

  /** One piece is read as the bytes it was written for. */
  lemma PieceBack(s: seq<byte>, i: nat, t: seq<byte>)
    requires i < |s| && PieceAt(s, i, true).Piece?
    ensures var p := PieceAt(s, i, true); Body(p.text + t) == Before(s[i..i + p.count], Body(t))
  {
    var p, c := PieceAt(s, i, true), s[i];
    if c < 0x20 || c == 0x7f {
      UnicodeBack(c, t);
      UnitThen(p.text, [c], t);
      assert s[i..i + 1] == [c];
    } else if c == QUOTE || c == BACKSLASH {
      assert (p.text + t)[0] == BACKSLASH && (p.text + t)[1] == c;
      UnitThen(p.text, [c], t);
      assert s[i..i + 1] == [c];
    } else {
      assert p.text == s[i..i + p.count];
      PlainBack(p.text, t);
    }
  }

  lemma {:induction false} BodyBack(s: seq<byte>, i: nat, rest: seq<byte>)
    requires i <= |s| && WrittenFrom(s, i, true).Some?
    ensures Body(WrittenFrom(s, i, true).value + rest) == Some(Reading(s[i..], rest))
    decreases |s| - i
  {
    if i == |s| {
      assert ([QUOTE] + rest)[1..] == rest;
    } else {
      var p := PieceAt(s, i, true);
      var j := i + p.count;
      BodyBack(s, j, rest);
      var more := WrittenFrom(s, j, true).value;
      PieceBack(s, i, more + rest);
      Regroup(p.text, more, rest);
      Rejoin(s, i, j);
    }
  }

  /** Every string that the writer accepts as JSON is what a JSON reader gets, whatever follows. */
  lemma JsonRoundTrip(s: seq<byte>, rest: seq<byte>)
    requires Written(s, true).Some?
    ensures ReadJson(Written(s, true).value + rest) == Some(Reading(s, rest))
  {
    var more := WrittenFrom(s, 0, true).value;
    BodyBack(s, 0, rest);
    Regroup([QUOTE], more, rest);
    assert ([QUOTE] + (more + rest))[1..] == more + rest;
    assert s[0..] == s;
  }
}
