/**
 The parts of a journal operation. An operation is a list of tokens: a code byte, compact integers,
 raw bytes. Tokens are written one after the other; reading finds the same tokens at the same places.
 */
module JournalFormat {
  import opened Bytes
  import opened CompactInt

  datatype Token = Code(code: byte) | Num(x: nat) | Raw(bytes: seq<byte>)

  datatype Tokens = Nil | Cons(head: Token, tail: Tokens)

  function Append(a: Tokens, b: Tokens): Tokens {
    match a case Nil => b case Cons(t, ts) => Cons(t, Append(ts, b))
  }

  predicate Fit(ts: Tokens) {
    match ts case Nil => true case Cons(t, rest) => (t.Num? ==> t.x < MAX) && Fit(rest)
  }

  function RenderOne(t: Token): (r: seq<byte>)
    requires t.Num? ==> t.x < MAX
  {
    match t case Code(c) => [c] case Num(x) => Encode(x) case Raw(s) => s
  }

  function Render(ts: Tokens): seq<byte>
    requires Fit(ts)
  {
    match ts case Nil => [] case Cons(t, rest) => RenderOne(t) + Render(rest)
  }

  // ---------- reading ----------

  /** The result of reading something at a position: what it was and where it ended. */
  datatype Parsed<+T> = Parsed(value: T, next: nat) | Bad

  /** The bytes after the first of a compact integer, one by one. */
  function ReadExtra(f: seq<byte>, p: nat, value: nat, extra: nat): (r: Parsed<nat>)
    ensures r.Parsed? ==> r.next == p + extra
    decreases extra
  {
    if extra == 0 then Parsed(value, p)
    else if p >= |f| then Bad
    else ReadExtra(f, p + 1, value * 256 + f[p], extra - 1)
  }

  function ReadCompact(f: seq<byte>, p: nat): (r: Parsed<nat>)
    ensures r.Parsed? ==> r.next > p
  {
    if p >= |f| then Bad else ReadExtra(f, p + 1, f[p] % 32, f[p] / 32)
  }

  function ReadRaw(f: seq<byte>, p: nat, n: nat): (r: Parsed<seq<byte>>)
    ensures r.Parsed? ==> r.next >= p
  {
    if p + n <= |f| then Parsed(f[p..p + n], p + n) else Bad
  }

  /** Table and field ids are 16 bits wide: a longer number is cut. */
  function ReadId(f: seq<byte>, p: nat): (r: Parsed<nat>)
    ensures r.Parsed? ==> r.next >= p
  {
    match ReadCompact(f, p)
    case Bad => Bad
    case Parsed(x, q) => Parsed(x % 65536, q)
  }

  /** Record ids are stored plus one, so that the null record, -1, is 0. */
  function ReadReference(f: seq<byte>, p: nat): (r: Parsed<int>)
    ensures r.Parsed? ==> r.next >= p
  {
    match ReadCompact(f, p)
    case Bad => Bad
    case Parsed(x, q) => Parsed(x - 1, q)
  }

  /** `safe_read_string`: a size that is not below the checkpoint gives an empty string, and its bytes are not skipped. */
  function ReadString(f: seq<byte>, p: nat, checkpoint: nat): (r: Parsed<seq<byte>>)
    ensures r.Parsed? ==> r.next >= p
  {
    match ReadCompact(f, p)
    case Bad => Bad
    case Parsed(size, q) => if 0 < size < checkpoint then ReadRaw(f, q, size) else Parsed([], q)
  }

  // ---------- tokens in a file ----------

  /** `f` holds `bytes` at position `p`. */
  ghost predicate At(f: seq<byte>, p: nat, bytes: seq<byte>) {
    p + |bytes| <= |f| && f[p..p + |bytes|] == bytes
  }

  lemma AtSplit(f: seq<byte>, p: nat, a: seq<byte>, b: seq<byte>)
    requires At(f, p, a + b)
    ensures At(f, p, a) && At(f, p + |a|, b)
  {
    var s := f[p..p + |a + b|];
    assert f[p..p + |a|] == s[..|a|];
    assert f[p + |a|..p + |a| + |b|] == s[|a|..];
  }

  /** Reading at `p` finds the token. */
  ghost predicate Found(f: seq<byte>, p: nat, t: Token) {
    match t
    case Code(c) => p < |f| && f[p] == c
    case Num(x) => ReadCompact(f, p).Parsed? && ReadCompact(f, p).value == x
    case Raw(s) => ReadRaw(f, p, |s|) == Parsed(s, p + |s|)
  }

  function After(f: seq<byte>, p: nat, t: Token): (q: nat)
    ensures p <= q && (!t.Raw? ==> p < q)
  {
    match t
    case Code(_) => p + 1
    case Num(_) => if ReadCompact(f, p).Parsed? then ReadCompact(f, p).next else p + 1
    case Raw(s) => p + |s|
  }

  ghost predicate Laid(f: seq<byte>, p: nat, ts: Tokens)
    decreases ts
  {
    match ts case Nil => true case Cons(t, rest) => Found(f, p, t) && Laid(f, After(f, p, t), rest)
  }

  function End(f: seq<byte>, p: nat, ts: Tokens): (q: nat)
    ensures p <= q
    decreases ts
  {
    match ts case Nil => p case Cons(t, rest) => End(f, After(f, p, t), rest)
  }

  /** The first token, and the others after it. */
  lemma Peel(f: seq<byte>, p: nat, t: Token, rest: Tokens)
    requires Laid(f, p, Cons(t, rest))
    ensures Found(f, p, t) && Laid(f, After(f, p, t), rest)
    ensures End(f, p, Cons(t, rest)) == End(f, After(f, p, t), rest)
  {
  }

  lemma {:induction false} AppendLaid(f: seq<byte>, p: nat, a: Tokens, b: Tokens)
    ensures Laid(f, p, Append(a, b)) <==> Laid(f, p, a) && Laid(f, End(f, p, a), b)
    ensures End(f, p, Append(a, b)) == End(f, End(f, p, a), b)
    decreases a
  {
    match a
    case Nil =>
    case Cons(t, rest) => AppendLaid(f, After(f, p, t), rest, b);
  }

  // ---------- what is written is found ----------

  lemma {:induction false} FromBytesFront(high: nat, b: byte, s: seq<byte>)
    ensures FromBytes(high, [b] + s) == FromBytes(high * 256 + b, s)
  {
    if s == [] {
      assert [b] + s == [b];
      assert [b][..0] == [];
    } else {
      FromBytesFront(high, b, s[..|s| - 1]);
      assert ([b] + s)[..|s|] == [b] + s[..|s| - 1];
    }
  }

  lemma {:induction false} ReadExtraIsFromBytes(f: seq<byte>, p: nat, value: nat, s: seq<byte>)
    requires At(f, p, s)
    ensures ReadExtra(f, p, value, |s|) == Parsed(FromBytes(value, s), p + |s|)
    decreases |s|
  {
    if s != [] {
      var t := s[1..];
      assert s == [s[0]] + t;
      AtSplit(f, p, [s[0]], t);
      assert f[p..p + 1][0] == f[p];
      ReadExtraIsFromBytes(f, p + 1, value * 256 + f[p], t);
      FromBytesFront(value, s[0], t);
    }
  }

  lemma ReadCompactIs(f: seq<byte>, p: nat, e: nat, high: nat, s: seq<byte>)
    requires e < 8 && high < 32 && |s| == e && At(f, p, [e * 32 + high] + s)
    ensures ReadCompact(f, p) == Parsed(FromBytes(high, s), p + 1 + e)
  {
    AtSplit(f, p, [e * 32 + high], s);
    assert f[p..p + 1][0] == f[p];
    ReadExtraIsFromBytes(f, p + 1, high, s);
  }

  lemma CompactReadBack(f: seq<byte>, p: nat, x: nat)
    requires x < MAX && At(f, p, Encode(x))
    ensures ReadCompact(f, p) == Parsed(x, p + |Encode(x)|)
  {
    FirstByteFits(x, 0);
    var e := ExtraBytes(x, 0);
    ReadCompactIs(f, p, e, Shift(x, e), BigEndian(x, e));
    BytesAreValue(x, e);
  }

  lemma TokenReadBack(f: seq<byte>, p: nat, t: Token)
    requires (t.Num? ==> t.x < MAX) && At(f, p, RenderOne(t))
    ensures Found(f, p, t) && After(f, p, t) == p + |RenderOne(t)|
  {
    match t
    case Code(c) => assert f[p..p + 1][0] == f[p];
    case Num(x) => CompactReadBack(f, p, x);
    case Raw(s) =>
  }

  /** Tokens written at a place are found at that place, and end where their bytes end. */
  lemma {:induction false} RenderedIsLaid(f: seq<byte>, p: nat, ts: Tokens)
    requires Fit(ts) && At(f, p, Render(ts))
    ensures Laid(f, p, ts) && End(f, p, ts) == p + |Render(ts)|
    decreases ts
  {
    match ts
    case Nil =>
    case Cons(t, rest) =>
      AtSplit(f, p, RenderOne(t), Render(rest));
      TokenReadBack(f, p, t);
      RenderedIsLaid(f, p + |RenderOne(t)|, rest);
  }

  // ---------- ids, strings and values ----------

  predicate IsId(x: int) {
    0 <= x < 65536
  }

  predicate IsRecord(r: int) {
    -1 <= r && r + 1 < MAX
  }

  lemma IdBack(f: seq<byte>, p: nat, x: nat)
    requires IsId(x) && Found(f, p, Num(x))
    ensures ReadId(f, p) == Parsed(x, After(f, p, Num(x)))
  {
  }

  lemma RecordIdBack(f: seq<byte>, p: nat, r: int)
    requires IsRecord(r) && Found(f, p, Num(r + 1))
    ensures ReadReference(f, p) == Parsed(r, After(f, p, Num(r + 1)))
  {
  }

  function StringTokens(s: seq<byte>): (ts: Tokens)
    ensures |s| < MAX ==> Fit(ts)
  {
    Cons(Num(|s|), Cons(Raw(s), Nil))
  }

  lemma StringBack(f: seq<byte>, p: nat, s: seq<byte>, checkpoint: nat)
    requires Laid(f, p, StringTokens(s)) && End(f, p, StringTokens(s)) <= checkpoint
    ensures ReadString(f, p, checkpoint) == Parsed(s, End(f, p, StringTokens(s)))
  {
    Peel(f, p, Num(|s|), Cons(Raw(s), Nil));
    var q := After(f, p, Num(|s|));
    Peel(f, q, Raw(s), Nil);
    assert s == [] ==> f[q..q] == [];
  }

  datatype Kind = KString | KInt32 | KInt64 | KReference | KBoolean | KFloat32 | KFloat64 | KInt8 | KInt16 | KBlob

  /** Place of a type in the list from which the operation codes are generated. */
  function Rank(k: Kind): (r: nat)
    ensures r < 10
  {
    match k
    case KString => 0 case KInt32 => 1 case KInt64 => 2 case KReference => 3 case KBoolean => 4
    case KFloat32 => 5 case KFloat64 => 6 case KInt8 => 7 case KInt16 => 8 case KBlob => 9
  }

  function KindOf(r: nat): Kind
    requires r < 10
  {
    [KString, KInt32, KInt64, KReference, KBoolean, KFloat32, KFloat64, KInt8, KInt16, KBlob][r]
  }

  /** Bytes of a fixed-size value; 0 for the others. */
  function Width(k: Kind): nat {
    match k
    case KInt32 => 4 case KInt64 => 8 case KBoolean => 1 case KFloat32 => 4 case KFloat64 => 8
    case KInt8 => 1 case KInt16 => 2
    case _ => 0
  }

  /** Fixed-size values are their bytes in memory. */
  datatype Value = VString(text: seq<byte>) | VFixed(raw: seq<byte>) | VReference(record: int) | VBlob(position: nat, size: nat)

  predicate HasKind(v: Value, k: Kind) {
    match v
    case VString(text) => k == KString && |text| < MAX
    case VFixed(raw) => Width(k) > 0 && |raw| == Width(k)
    case VReference(record) => k == KReference && IsRecord(record)
    case VBlob(position, size) => k == KBlob && position < MAX && size < MAX
  }

  function ValueTokens(v: Value, k: Kind): (ts: Tokens)
    requires HasKind(v, k)
    ensures Fit(ts)
  {
    match v
    case VString(text) => StringTokens(text)
    case VFixed(raw) => Cons(Raw(raw), Nil)
    case VReference(record) => Cons(Num(record + 1), Nil)
    case VBlob(position, size) => Cons(Num(position), Cons(Num(size), Nil))
  }

  function ReadBlob(f: seq<byte>, p: nat): (r: Parsed<Value>)
    ensures r.Parsed? ==> r.next >= p
  {
    match ReadCompact(f, p)
    case Bad => Bad
    case Parsed(position, q) =>
      match ReadCompact(f, q) case Bad => Bad case Parsed(size, q') => Parsed(VBlob(position, size), q')
  }

  function ReadValue(f: seq<byte>, p: nat, k: Kind, checkpoint: nat): (r: Parsed<Value>)
    ensures r.Parsed? ==> r.next >= p
  {
    if k == KString then
      match ReadString(f, p, checkpoint) case Bad => Bad case Parsed(s, q) => Parsed(VString(s), q)
    else if k == KReference then
      match ReadReference(f, p) case Bad => Bad case Parsed(x, q) => Parsed(VReference(x), q)
    else if k == KBlob then ReadBlob(f, p)
    else
      match ReadRaw(f, p, Width(k)) case Bad => Bad case Parsed(raw, q) => Parsed(VFixed(raw), q)
  }

  lemma ValueBack(f: seq<byte>, p: nat, v: Value, k: Kind, checkpoint: nat)
    requires HasKind(v, k) && Laid(f, p, ValueTokens(v, k)) && End(f, p, ValueTokens(v, k)) <= checkpoint
    ensures ReadValue(f, p, k, checkpoint) == Parsed(v, End(f, p, ValueTokens(v, k)))
    ensures End(f, p, ValueTokens(v, k)) > p
  {
    match v
    case VString(text) => StringBack(f, p, text, checkpoint);
    case VFixed(raw) => Peel(f, p, Raw(raw), Nil);
    case VReference(record) =>
      Peel(f, p, Num(record + 1), Nil);
      RecordIdBack(f, p, record);
    case VBlob(position, size) =>
      Peel(f, p, Num(position), Cons(Num(size), Nil));
      Peel(f, After(f, p, Num(position)), Num(size), Nil);
  }

  ghost predicate AllHaveKind(values: seq<Value>, k: Kind) {
    forall i :: 0 <= i < |values| ==> HasKind(values[i], k)
  }

  /** The values of a vector update, one after the other. */
  ghost function ValuesTokens(values: seq<Value>, k: Kind): (ts: Tokens)
    requires AllHaveKind(values, k)
    ensures Fit(ts)
  {
    if values == [] then Nil
    else
      FitAppend(ValueTokens(values[0], k), ValuesTokens(values[1..], k));
      Append(ValueTokens(values[0], k), ValuesTokens(values[1..], k))
  }

  lemma FitAppend(a: Tokens, b: Tokens)
    requires Fit(a) && Fit(b)
    ensures Fit(Append(a, b))
  {
  }

  function ReadValues(f: seq<byte>, p: nat, k: Kind, n: nat, checkpoint: nat): (r: Parsed<seq<Value>>)
    ensures r.Parsed? ==> r.next >= p
    decreases n
  {
    if n == 0 then Parsed([], p)
    else
      match ReadValue(f, p, k, checkpoint)
      case Bad => Bad
      case Parsed(v, q) =>
        match ReadValues(f, q, k, n - 1, checkpoint) case Bad => Bad case Parsed(vs, q') => Parsed([v] + vs, q')
  }

  lemma {:induction false} ValuesBack(f: seq<byte>, p: nat, values: seq<Value>, k: Kind, checkpoint: nat)
    requires AllHaveKind(values, k) && Laid(f, p, ValuesTokens(values, k)) && End(f, p, ValuesTokens(values, k)) <= checkpoint
    ensures ReadValues(f, p, k, |values|, checkpoint) == Parsed(values, End(f, p, ValuesTokens(values, k)))
    ensures p + |values| <= End(f, p, ValuesTokens(values, k))
    decreases |values|
  {
    if values != [] {
      var a, rest := ValueTokens(values[0], k), ValuesTokens(values[1..], k);
      AppendLaid(f, p, a, rest);
      ValueBack(f, p, values[0], k, checkpoint);
      ValuesBack(f, End(f, p, a), values[1..], k, checkpoint);
      assert values == [values[0]] + values[1..];
    }
  }
}
