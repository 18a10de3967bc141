/** What a quoted string looks like: what is escaped, and what is not. */
module Escapes {
  import opened Bytes
  import opened Utf8
  import opened StringEscape

  // ---------- what is never written ----------

  /** Neither a control character, nor two question marks in a row, which some compilers take for the start of a trigraph. */
  ghost predicate Clean(t: seq<byte>) {
    && (forall i :: 0 <= i < |t| ==> t[i] >= 0x20 && t[i] != 0x7f)
    && (forall i :: 0 <= i < |t| - 1 ==> !(t[i] == QUESTION && t[i + 1] == QUESTION))
  }

  lemma CleanAppend(a: seq<byte>, b: seq<byte>)
    requires Clean(a) && Clean(b) && a != [] && b != [] && !(a[|a| - 1] == QUESTION && b[0] == QUESTION)
    ensures Clean(a + b)
  {
    var t := a + b;
    forall i | 0 <= i < |t| - 1 ensures !(t[i] == QUESTION && t[i + 1] == QUESTION) {
      if i + 1 < |a| {
        assert t[i] == a[i] && t[i + 1] == a[i + 1];
      } else if i + 1 == |a| {
        assert t[i] == a[|a| - 1] && t[i + 1] == b[0];
      } else {
        assert t[i] == b[i - |a|] && t[i + 1] == b[i + 1 - |a|];
      }
    }
  }

  lemma PieceIsClean(s: seq<byte>, i: nat)
    requires i < |s|
    ensures var p := PieceAt(s, i, false);
            && p.text != [] && Clean(p.text)
            && (p.text[0] == QUESTION ==> i == 0 || s[i - 1] != QUESTION)
            && (p.text[|p.text| - 1] == QUESTION ==> s[i + p.count - 1] == QUESTION)
  {
    var p, c := PieceAt(s, i, false), s[i];
    if c >= 0x20 && c != 0x7f && Multibyte(s, i) > 0 {
      assert forall k :: 0 <= k < |p.text| ==> p.text[k] == s[i + k] && p.text[k] >= 0x80;
    }
  }

  /** What may follow the bytes before `i`. */
  ghost predicate CleanFrom(s: seq<byte>, i: nat, t: seq<byte>)
    requires i <= |s|
  {
    t != [] && Clean(t) && (t[0] == QUESTION ==> i == 0 || s[i - 1] != QUESTION)
  }

  lemma PieceThenClean(s: seq<byte>, i: nat, more: seq<byte>)
    requires i < |s| && CleanFrom(s, i + PieceAt(s, i, false).count, more)
    ensures CleanFrom(s, i, PieceAt(s, i, false).text + more)
  {
    var text := PieceAt(s, i, false).text;
    PieceIsClean(s, i);
    CleanAppend(text, more);
    assert (text + more)[0] == text[0];
  }

  lemma {:induction false} BodyIsClean(s: seq<byte>, i: nat)
    requires i <= |s|
    ensures CleanFrom(s, i, WrittenFrom(s, i, false).value)
    decreases |s| - i
  {
    if i < |s| {
      var n := PieceAt(s, i, false).count;
      BodyIsClean(s, i + n);
      PieceThenClean(s, i, WrittenFrom(s, i + n, false).value);
    } else {
      assert [QUOTE][0] == QUOTE;
    }
  }

  /** Whatever the string, no control character is written, and no two question marks in a row. */
  lemma OutputIsClean(s: seq<byte>)
    ensures Clean(Written(s, false).value)
  {
    BodyIsClean(s, 0);
    CleanAppend([QUOTE], WrittenFrom(s, 0, false).value);
  }

  // ---------- what stands for itself ----------

  predicate Plain(c: byte) {
    c >= 0x20 && c != 0x7f && c != QUOTE && c != BACKSLASH && c != QUESTION
  }

  ghost predicate AllPlain(s: seq<byte>) {
    forall k :: 0 <= k < |s| ==> Plain(s[k])
  }

  lemma NextChar(s: seq<byte>, i: nat) returns (n: nat)
    requires i < |s| && WellFormed(s[i..])
    ensures StartsWithChar(s[i..], n) && i + n <= |s| && WellFormed(s[i + n..])
  {
    n :| StartsWithChar(s[i..], n) && WellFormed(s[i..][n..]);
    assert s[i..][n..] == s[i + n..];
  }

  lemma {:induction false} PlainFrom(s: seq<byte>, i: nat, json: bool)
    requires i <= |s| && AllPlain(s) && WellFormed(s[i..])
    ensures WrittenFrom(s, i, json) == Some(s[i..] + [QUOTE])
    decreases |s| - i
  {
    if i == |s| {
      OnlyQuote(s, json);
    } else {
      var n := NextChar(s, i);
      PlainPiece(s, i, n, json);
      PlainFrom(s, i + n, json);
      OnePieceMore(s, i, n, json);
    }
  }

  lemma OnlyQuote(s: seq<byte>, json: bool)
    ensures WrittenFrom(s, |s|, json) == Some(s[|s|..] + [QUOTE])
  {
    assert s[|s|..] + [QUOTE] == [QUOTE];
  }

  lemma OnePieceMore(s: seq<byte>, i: nat, n: nat, json: bool)
    requires i < |s| && n > 0 && i + n <= |s| && PieceAt(s, i, json) == Piece(s[i..i + n], n)
    requires WrittenFrom(s, i + n, json) == Some(s[i + n..] + [QUOTE])
    ensures WrittenFrom(s, i, json) == Some(s[i..] + [QUOTE])
  {
    assert s[i..] + [QUOTE] == s[i..i + n] + (s[i + n..] + [QUOTE]);
  }

  lemma PlainPiece(s: seq<byte>, i: nat, n: nat, json: bool)
    requires i < |s| && Plain(s[i]) && StartsWithChar(s[i..], n)
    ensures PieceAt(s, i, json) == Piece(s[i..i + n], n)
  {
    assert s[i..][..n] == s[i..i + n];
    if s[i] >= 0x80 {
      MultibyteIsChar(s, i);
    } else {
      assert s[i..][..1] == [s[i]];
      OneChar(s[i..], 1, n);
    }
  }

  /** Text of whole characters, without quotes, backslashes, question marks and control characters, is only put in quotes. */
  lemma PlainTextIsQuoted(s: seq<byte>, json: bool)
    requires WellFormed(s) && AllPlain(s)
    ensures Written(s, json) == Some([QUOTE] + s + [QUOTE])
  {
    assert s[0..] == s;
    PlainFrom(s, 0, json);
    Regroup([QUOTE], s, [QUOTE]);
  }

  // ---------- what else can be read ----------

  /** A byte may be written as `x` and two lower-case hexadecimal digits. */
  lemma HexadecimalIsRead(c: byte, t: seq<byte>)
    ensures UnitOf([BACKSLASH, 120, HexChar(c / 16), HexChar(c % 16)] + t) == Some((c, 4))
  {
    var u := [BACKSLASH, 120, HexChar(c / 16), HexChar(c % 16)] + t;
    assert u[0] == BACKSLASH && u[1] == 120 && u[2] == HexChar(c / 16) && u[3] == HexChar(c % 16);
    assert HexDigit(HexChar(c / 16)) == c / 16 && HexDigit(HexChar(c % 16)) == c % 16;
  }

  lemma {:induction false} WordBody(w: seq<byte>, rest: seq<byte>)
    requires forall k :: 0 <= k < |w| ==> w[k] != SPACE && w[k] != BACKSLASH
    ensures ReadBody(w + [SPACE] + rest, SPACE) == Reading(w, rest)
    decreases |w|
  {
    var t := w + [SPACE] + rest;
    if w == [] {
      assert t[0] == SPACE && t[1..] == rest;
    } else {
      WordBody(w[1..], rest);
      assert t[0] == w[0] && t[1..] == w[1..] + [SPACE] + rest;
      assert [w[0]] + w[1..] == w;
    }
  }

  /** A word without quotes, between spaces, is read as it stands. */
  lemma {:induction false} WordIsRead(spaces: seq<byte>, w: seq<byte>, rest: seq<byte>)
    requires forall k :: 0 <= k < |spaces| ==> spaces[k] == SPACE
    requires w != [] && w[0] != QUOTE && forall k :: 0 <= k < |w| ==> w[k] != SPACE && w[k] != BACKSLASH
    ensures Reads(spaces + (w + [SPACE] + rest)) == Reading(w, rest)
    decreases |spaces|
  {
    var t := w + [SPACE] + rest;
    if spaces == [] {
      assert spaces + t == t && t[0] == w[0];
      WordBody(w, rest);
    } else {
      WordIsRead(spaces[1..], w, rest);
      assert (spaces + t)[1..] == spaces[1..] + t;
    }
  }
}
