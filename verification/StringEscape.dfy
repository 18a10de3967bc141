/** Quoted strings: bytes are written with escapes so that the text is UTF-8, and read back. */
module StringEscape {
  import opened Bytes
  import opened Bits
  import opened Utf8

  const QUOTE: byte := 34
  const BACKSLASH: byte := 92
  const QUESTION: byte := 63
  const SPACE: byte := 32

  // ---------- writing ----------

  function OctalEscape(c: byte): seq<byte> {
    [BACKSLASH, 48 + c / 64, 48 + c / 8 % 8, 48 + c % 8]
  }

  function HexChar(n: nat): byte {
    var d := n % 16;
    if d < 10 then 48 + d else 97 + d - 10
  }

  function UnicodeEscape(c: byte): seq<byte> {
    [BACKSLASH, 117, 48, 48, HexChar(c / 16), HexChar(c % 16)]
  }

  /** How many bytes of a multi-byte character start at `i`, as the writer sees it: 0 if there is no such character. */
  function Multibyte(s: seq<byte>, i: nat): (n: nat)
    requires i < |s|
    ensures i + n <= |s| && n <= 4
  {
    var c := s[i];
    if 0xc2 <= c <= 0xdf && i + 1 < |s| && Tail(s[i + 1]) then 2
    else if c / 16 == 0xe && i + 2 < |s| && (c != 0xe0 || s[i + 1] >= 0xa0) && (c != 0xed || s[i + 1] < 0xa0)
            && Tail(s[i + 1]) && Tail(s[i + 2]) then 3
    else if 0xf0 <= c <= 0xf4 && i + 3 < |s| && (c != 0xf0 || s[i + 1] >= 0x90) && (c != 0xf4 || s[i + 1] < 0x90)
            && Tail(s[i + 1]) && Tail(s[i + 2]) && Tail(s[i + 3]) then 4
    else 0
  }

  /** What is written for the bytes at `i`, and how many bytes that is for. */
  datatype Piece = Piece(text: seq<byte>, count: nat) | NotUtf8

  function PieceAt(s: seq<byte>, i: nat, json: bool): (p: Piece)
    requires i < |s|
    ensures p.Piece? ==> 0 < p.count && i + p.count <= |s|
    ensures !json ==> p.Piece?
  {
    var c := s[i];
    if c < 0x20 || c == 0x7f then Piece(if json then UnicodeEscape(c) else OctalEscape(c), 1)
    else if c == QUESTION && i > 0 && s[i - 1] == QUESTION && !json then Piece([BACKSLASH, QUESTION], 1)
    else if c == QUOTE then Piece([BACKSLASH, QUOTE], 1)
    else if c == BACKSLASH then Piece([BACKSLASH, BACKSLASH], 1)
    else if Multibyte(s, i) > 0 then Piece(s[i..i + Multibyte(s, i)], Multibyte(s, i))
    else if c >= 0x80 then if json then NotUtf8 else Piece(OctalEscape(c), 1)
    else Piece([c], 1)
  }

  /** Everything from `i` on and the closing quote; `None` if it throws. */
  function WrittenFrom(s: seq<byte>, i: nat, json: bool): (r: Option<seq<byte>>)
    requires i <= |s|
    ensures !json ==> r.Some?
    decreases |s| - i
  {
    if i == |s| then Some([QUOTE])
    else
      match PieceAt(s, i, json)
      case NotUtf8 => None
      case Piece(text, count) =>
        match WrittenFrom(s, i + count, json) case None => None case Some(more) => Some(text + more)
  }

  function Written(s: seq<byte>, json: bool): (r: Option<seq<byte>>)
    ensures !json ==> r.Some?
  {
    match WrittenFrom(s, 0, json) case None => None case Some(more) => Some([QUOTE] + more)
  }

  /** `write_string`: the index jumps over the rest of a multi-byte character. */
  method WriteString(s: seq<byte>, json: bool) returns (out: Option<seq<byte>>)
    ensures out == Written(s, json)
  {
    var text := [QUOTE];
    var i := 0;
    while i < |s|
      invariant 0 <= i <= |s|
      invariant Written(s, json) == Continued(text, WrittenFrom(s, i, json))
    {
      match PieceAt(s, i, json) {
        case NotUtf8 => return None;
        case Piece(piece, count) =>
          ContinuedTwice(text, piece, WrittenFrom(s, i + count, json));
          text := text + piece;
          i := i + count;
      }
    }
    out := Some(text + [QUOTE]);
  }

  ghost function Continued(text: seq<byte>, more: Option<seq<byte>>): Option<seq<byte>> {
    match more case None => None case Some(t) => Some(text + t)
  }

  lemma ContinuedTwice(a: seq<byte>, b: seq<byte>, more: Option<seq<byte>>)
    ensures Continued(a, Continued(b, more)) == Continued(a + b, more)
  {
    if more.Some? {
      assert a + (b + more.value) == (a + b) + more.value;
    }
  }

  // ---------- reading ----------

  function HexDigit(c: byte): nat {
    if 48 <= c <= 57 then c - 48 else if 97 <= c <= 102 then c - 87 else 0
  }

  /** The digits of an octal escape are not checked: other characters give what the arithmetic on bytes gives. */
  function OctalDigit(c: byte): byte {
    (c - 48) % 256
  }

  /** The low byte of `(n2 << 6) | (n1 << 3) | n0`, three bits after three bits; those of octal digits do not overlap. */
  function OctalByte(n2: byte, n1: byte, n0: byte): byte {
    if n2 < 4 && n1 < 8 && n0 < 8 then 64 * n2 + 8 * n1 + n0
    else 64 * Or3(Or3(n2 % 4, n1 / 8 % 4), n0 / 64) + 8 * Or3(n1 % 8, n0 / 8 % 8) + n0 % 8
  }

  /** The first byte of the text, with its escape resolved, and how much text that takes; `None` if the text ends first. */
  function UnitOf(t: seq<byte>): (r: Option<(byte, nat)>)
    requires t != []
    ensures r.Some? ==> 0 < r.value.1 <= |t|
  {
    if t[0] != BACKSLASH then Some((t[0], 1))
    else if |t| < 2 then None
    else if t[1] == 120 then
      if |t| < 4 then None else Some(((HexDigit(t[2]) * 16 + HexDigit(t[3])) % 256, 4))
    else if 48 <= t[1] <= 57 then
      if |t| < 4 then None
      else Some((OctalByte(OctalDigit(t[1]), OctalDigit(t[2]), OctalDigit(t[3])), 4))
    else Some((t[1], 2))
  }

  /** What was read and what is left of the text. */
  datatype Reading = Reading(value: seq<byte>, rest: seq<byte>)

  function ReadBody(t: seq<byte>, end: byte): Reading
    decreases |t|
  {
    if t == [] then Reading([], [])
    else if t[0] == end then Reading([], t[1..])
    else
      match UnitOf(t)
      case None => Reading([], [])
      case Some((v, n)) =>
        var more := ReadBody(t[n..], end);
        Reading([v] + more.value, more.rest)
  }

  function Reads(t: seq<byte>): Reading
    decreases |t|
  {
    if t == [] then Reading([], [])
    else if t[0] == SPACE then Reads(t[1..])
    else if t[0] == QUOTE then ReadBody(t[1..], QUOTE)
    else ReadBody(t, SPACE)
  }

  /** `read_string`: spaces are skipped; a quoted string ends at the next quote, another one at the next space. */
  method ReadString(text: seq<byte>) returns (value: seq<byte>, rest: seq<byte>)
    ensures Reads(text) == Reading(value, rest)
  {
    value, rest := [], text;
    while rest != [] && rest[0] == SPACE
      invariant Reads(rest) == Reads(text)
      decreases |rest|
    {
      rest := rest[1..];
    }
    if rest == [] {
      return;
    }
    var end := SPACE;
    if rest[0] == QUOTE {
      end := QUOTE;
      rest := rest[1..];
    }
    while rest != [] && rest[0] != end
      invariant Reads(text) == Reading(value + ReadBody(rest, end).value, ReadBody(rest, end).rest)
      decreases |rest|
    {
      match UnitOf(rest) {
        case None => return value, [];
        case Some((v, n)) =>
          Regroup(value, [v], ReadBody(rest[n..], end).value);
          value := value + [v];
          rest := rest[n..];
      }
    }
    if rest != [] {
      rest := rest[1..];
    }
  }

  // ---------- round trip ----------

  lemma OctalUnit(u: seq<byte>, a: nat, b: nat, d: nat)
    requires |u| >= 4 && a < 4 && b < 8 && d < 8
    requires u[0] == BACKSLASH && u[1] == 48 + a && u[2] == 48 + b && u[3] == 48 + d
    ensures UnitOf(u) == Some((64 * a + 8 * b + d, 4))
  {
    assert OctalDigit(u[1]) == a && OctalDigit(u[2]) == b && OctalDigit(u[3]) == d;
  }

  lemma OctalBack(c: byte, t: seq<byte>)
    ensures UnitOf(OctalEscape(c) + t) == Some((c, 4))
  {
    var a, b, d := c / 64, c / 8 % 8, c % 8;
    assert c == 64 * a + 8 * b + d;
    EscapePrefix(a, b, d, t);
    OctalUnit(OctalEscape(c) + t, a, b, d);
  }

  lemma EscapePrefix(a: nat, b: nat, d: nat, t: seq<byte>)
    requires a < 4 && b < 8 && d < 8
    ensures var u := [BACKSLASH, 48 + a, 48 + b, 48 + d] + t;
            u[0] == BACKSLASH && u[1] == 48 + a && u[2] == 48 + b && u[3] == 48 + d
  {
  }

  lemma PlainByte(c: byte, t: seq<byte>)
    requires c != BACKSLASH && c != QUOTE
    ensures ReadBody([c] + t, QUOTE) == Reading([c] + ReadBody(t, QUOTE).value, ReadBody(t, QUOTE).rest)
  {
    assert ([c] + t)[0] == c && ([c] + t)[1..] == t;
  }

  /** Bytes that stand for themselves are read one by one. */
  lemma {:induction false} PlainBack(s: seq<byte>, t: seq<byte>)
    requires forall i :: 0 <= i < |s| ==> s[i] != BACKSLASH && s[i] != QUOTE
    ensures ReadBody(s + t, QUOTE) == Reading(s + ReadBody(t, QUOTE).value, ReadBody(t, QUOTE).rest)
    decreases |s|
  {
    var more := ReadBody(t, QUOTE).value;
    if s == [] {
      assert s + t == t && s + more == more;
    } else {
      var c, rest := s[0], s[1..];
      PlainBack(rest, t);
      PlainByte(c, rest + t);
      Regroup([c], rest, t);
      Regroup([c], rest, more);
      assert [c] + rest == s;
    }
  }

  lemma EscapeBack(text: seq<byte>, c: byte, t: seq<byte>)
    requires text != [] && text[0] == BACKSLASH && UnitOf(text + t) == Some((c, |text|))
    ensures ReadBody(text + t, QUOTE) == Reading([c] + ReadBody(t, QUOTE).value, ReadBody(t, QUOTE).rest)
  {
    assert (text + t)[|text|..] == t && (text + t)[0] == BACKSLASH;
  }

  lemma PairBack(c: byte, t: seq<byte>)
    requires c == QUESTION || c == QUOTE || c == BACKSLASH
    ensures UnitOf([BACKSLASH, c] + t) == Some((c, 2))
  {
    var u := [BACKSLASH, c] + t;
    assert u[0] == BACKSLASH && u[1] == c;
  }

  /** One piece is read back as the bytes it was written for, and what follows is read next. */
  lemma PieceBack(s: seq<byte>, i: nat, t: seq<byte>)
    requires i < |s|
    ensures var p := PieceAt(s, i, false);
            ReadBody(p.text + t, QUOTE) == Reading(s[i..i + p.count] + ReadBody(t, QUOTE).value, ReadBody(t, QUOTE).rest)
  {
    var p, c := PieceAt(s, i, false), s[i];
    if p.text == OctalEscape(c) {
      OctalBack(c, t);
      EscapeBack(p.text, c, t);
      assert s[i..i + 1] == [c];
    } else if p.text == [BACKSLASH, c] {
      PairBack(c, t);
      EscapeBack(p.text, c, t);
      assert s[i..i + 1] == [c];
    } else {
      assert p.text == s[i..i + p.count];
      PlainBack(p.text, t);
    }
  }

  lemma Regroup(a: seq<byte>, b: seq<byte>, c: seq<byte>)
    ensures (a + b) + c == a + (b + c)
  {
  }

  lemma Rejoin(s: seq<byte>, i: nat, j: nat)
    requires i <= j <= |s|
    ensures s[i..j] + s[j..] == s[i..]
  {
  }

  lemma {:induction false} BodyBack(s: seq<byte>, i: nat, rest: seq<byte>)
    requires i <= |s|
    ensures ReadBody(WrittenFrom(s, i, false).value + rest, QUOTE) == Reading(s[i..], rest)
    decreases |s| - i
  {
    if i == |s| {
      assert ([QUOTE] + rest)[1..] == rest;
    } else {
      var p := PieceAt(s, i, false);
      var j := i + p.count;
      BodyBack(s, j, rest);
      PieceThenBody(s, i, p.text, j, WrittenFrom(s, j, false).value, rest);
    }
  }

  lemma PieceThenBody(s: seq<byte>, i: nat, text: seq<byte>, j: nat, more: seq<byte>, rest: seq<byte>)
    requires i < j <= |s| && PieceAt(s, i, false) == Piece(text, j - i) && ReadBody(more + rest, QUOTE) == Reading(s[j..], rest)
    ensures ReadBody((text + more) + rest, QUOTE) == Reading(s[i..], rest)
  {
    PieceBack(s, i, more + rest);
    Regroup(text, more, rest);
    Rejoin(s, i, j);
  }

  /** Whatever the bytes and whatever follows, the string is read back and reading stops after its closing quote. */
  lemma RoundTrip(s: seq<byte>, rest: seq<byte>)
    ensures Reads(Written(s, false).value + rest) == Reading(s, rest)
  {
    var more := WrittenFrom(s, 0, false).value;
    BodyBack(s, 0, rest);
    QuoteOpens(more + rest);
    Regroup([QUOTE], more, rest);
    assert s[0..] == s;
  }

  lemma QuoteOpens(t: seq<byte>)
    ensures Reads([QUOTE] + t) == ReadBody(t, QUOTE)
  {
    assert ([QUOTE] + t)[1..] == t;
  }

  // ---------- the text is UTF-8 ----------

  /** The writer recognises exactly the multi-byte characters of the grammar. */
  lemma MultibyteIsChar(s: seq<byte>, i: nat)
    requires i < |s| && s[i] >= 0x80
    ensures Multibyte(s, i) > 0 ==> StartsWithChar(s[i..], Multibyte(s, i))
    ensures forall n: nat :: StartsWithChar(s[i..], n) ==> Multibyte(s, i) == n
  {
    var t := s[i..];
    var m := Multibyte(s, i);
    if m > 0 {
      assert t[..m][0] == s[i] && t[..m][1] == s[i + 1];
      assert m > 2 ==> t[..m][2] == s[i + 2];
      assert m > 3 ==> t[..m][3] == s[i + 3];
    }
    forall n: nat | StartsWithChar(t, n) ensures m == n {
      assert t[..n][0] == s[i];
      assert n > 1 ==> t[..n][1] == s[i + 1];
      assert n > 2 ==> t[..n][2] == s[i + 2];
      assert n > 3 ==> t[..n][3] == s[i + 3];
    }
  }

  lemma PieceIsUtf8(s: seq<byte>, i: nat, json: bool)
    requires i < |s| && PieceAt(s, i, json).Piece?
    ensures WellFormed(PieceAt(s, i, json).text)
  {
    var p := PieceAt(s, i, json);
    if s[i] >= 0x80 && Multibyte(s, i) > 0 {
      MultibyteIsChar(s, i);
      assert p.text == s[i..][..p.count];
      CharIsWellFormed(p.text);
    } else {
      AsciiIsWellFormed(p.text);
    }
  }

  lemma {:induction false} BodyIsUtf8(s: seq<byte>, i: nat, json: bool)
    requires i <= |s| && WrittenFrom(s, i, json).Some?
    ensures WellFormed(WrittenFrom(s, i, json).value)
    decreases |s| - i
  {
    if i == |s| {
      AsciiIsWellFormed([QUOTE]);
    } else {
      var p := PieceAt(s, i, json);
      PieceIsUtf8(s, i, json);
      var more := WrittenFrom(s, i + p.count, json);
      assert WrittenFrom(s, i, json) == Continued(p.text, more);
      BodyIsUtf8(s, i + p.count, json);
      WellFormedAppend(p.text, more.value);
    }
  }

  /** Whatever is written is well-formed UTF-8, even if the string is not. */
  lemma OutputIsUtf8(s: seq<byte>, json: bool)
    requires Written(s, json).Some?
    ensures WellFormed(Written(s, json).value)
  {
    BodyIsUtf8(s, 0, json);
    AsciiIsWellFormed([QUOTE]);
    WellFormedAppend([QUOTE], WrittenFrom(s, 0, json).value);
  }

  /** In a piece that can be written as JSON the writer takes exactly the first character. */
  lemma JsonPiece(s: seq<byte>, i: nat)
    requires i < |s|
    ensures PieceAt(s, i, true).Piece? ==> StartsWithChar(s[i..], PieceAt(s, i, true).count)
    ensures forall n: nat :: StartsWithChar(s[i..], n) ==> PieceAt(s, i, true).Piece? && PieceAt(s, i, true).count == n
  {
    if s[i] >= 0x80 {
      MultibyteIsChar(s, i);
    } else {
      assert Multibyte(s, i) == 0;
      assert s[i..][..1] == [s[i]];
      assert StartsWithChar(s[i..], 1);
      forall n: nat | StartsWithChar(s[i..], n) ensures n == 1 {
        OneChar(s[i..], 1, n);
      }
    }
  }

  lemma {:induction false} JsonFrom(s: seq<byte>, i: nat)
    requires i <= |s|
    ensures WrittenFrom(s, i, true).Some? <==> WellFormed(s[i..])
    decreases |s| - i
  {
    if i < |s| {
      JsonPiece(s, i);
      var p := PieceAt(s, i, true);
      if p.Piece? {
        JsonFrom(s, i + p.count);
        assert s[i..][p.count..] == s[i + p.count..];
      }
    }
  }

  /** JSON output throws exactly when the string is not well-formed UTF-8. */
  lemma JsonThrowsExactly(s: seq<byte>)
    ensures Written(s, true).Some? <==> WellFormed(s)
  {
    JsonFrom(s, 0);
    assert s[0..] == s;
  }
}
