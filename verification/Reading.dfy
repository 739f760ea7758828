/** The first-byte table and the recursive MessagePack reader over a byte sequence. */
module Reading {
  import opened Bits
  import opened Wrappers
  import opened Mpack

  datatype Group =
    GNil | GBool | GArray | GMap | GString | GBin | GInt | GUint | GPlint | GNlint | GExt

  /** One row of the first-byte table; a fixed row matches on the bits above shift. */
  datatype Mask = Mask(group: Group, fixed: bool, val: byte, shift: nat)

  const MASKS: seq<Mask> := [
    Mask(GNil, false, M_NIL, 0), Mask(GBool, false, M_TRUE, 0), Mask(GBool, false, M_FALSE, 0),
    Mask(GString, false, M_STR_8, 0), Mask(GString, false, M_STR_16, 0), Mask(GString, false, M_STR_32, 0),
    Mask(GArray, false, M_ARRAY_16, 0), Mask(GArray, false, M_ARRAY_32, 0),
    Mask(GMap, false, M_MAP_16, 0), Mask(GMap, false, M_MAP_32, 0),
    Mask(GBin, false, M_BIN_8, 0), Mask(GBin, false, M_BIN_16, 0), Mask(GBin, false, M_BIN_32, 0),
    Mask(GInt, false, M_INT_8, 0), Mask(GInt, false, M_INT_16, 0),
    Mask(GInt, false, M_INT_32, 0), Mask(GInt, false, M_INT_64, 0),
    Mask(GUint, false, M_UINT_8, 0), Mask(GUint, false, M_UINT_16, 0),
    Mask(GUint, false, M_UINT_32, 0), Mask(GUint, false, M_UINT_64, 0),
    Mask(GExt, false, M_EXT_8, 0), Mask(GExt, false, M_FIXEXT_1, 0), Mask(GExt, false, M_FIXEXT_2, 0),
    Mask(GExt, false, M_FIXEXT_4, 0), Mask(GExt, false, M_FIXEXT_8, 0),
    Mask(GString, true, M_STR_F, 5), Mask(GArray, true, M_ARRAY_F, 4), Mask(GMap, true, M_MAP_F, 4),
    Mask(GPlint, true, M_POS_INT_F, 7), Mask(GNlint, true, M_NEG_INT_F, 5)]

  predicate Matches(m: Mask, ch: byte) {
    if m.fixed then ch / Pow2(m.shift) == m.val / Pow2(m.shift) else ch == m.val
  }

  /** The row for a first byte, by the ranges the table stands for. */
  function Identify(ch: byte): Option<Mask> {
    if ch < M_MAP_F then Some(Mask(GPlint, true, M_POS_INT_F, 7))
    else if ch < M_ARRAY_F then Some(Mask(GMap, true, M_MAP_F, 4))
    else if ch < M_STR_F then Some(Mask(GArray, true, M_ARRAY_F, 4))
    else if ch < M_NIL then Some(Mask(GString, true, M_STR_F, 5))
    else if ch >= M_NEG_INT_F then Some(Mask(GNlint, true, M_NEG_INT_F, 5))
    else if ch == M_NIL then Some(Mask(GNil, false, ch, 0))
    else if ch == M_FALSE || ch == M_TRUE then Some(Mask(GBool, false, ch, 0))
    else if M_BIN_8 <= ch <= M_BIN_32 then Some(Mask(GBin, false, ch, 0))
    else if ch == M_EXT_8 || M_FIXEXT_1 <= ch <= M_FIXEXT_8 then Some(Mask(GExt, false, ch, 0))
    else if M_UINT_8 <= ch <= M_UINT_64 then Some(Mask(GUint, false, ch, 0))
    else if M_INT_8 <= ch <= M_INT_64 then Some(Mask(GInt, false, ch, 0))
    else if M_STR_8 <= ch <= M_STR_32 then Some(Mask(GString, false, ch, 0))
    else if M_ARRAY_16 <= ch <= M_ARRAY_32 then Some(Mask(GArray, false, ch, 0))
    else if M_MAP_16 <= ch <= M_MAP_32 then Some(Mask(GMap, false, ch, 0))
    else None
  }

  /** Rows never overlap: a row matches a byte exactly when it is the row Identify names. */
  lemma RowsAreDisjoint(ch: byte)
    ensures forall i :: 0 <= i < |MASKS| ==> (Matches(MASKS[i], ch) <==> Identify(ch) == Some(MASKS[i]))
  {
    forall i | 0 <= i < |MASKS|
      ensures Matches(MASKS[i], ch) <==> Identify(ch) == Some(MASKS[i])
    {
      RowMatches(i, ch);
    }
  }

  lemma RowMatches(i: nat, ch: byte)
    requires i < |MASKS|
    ensures Matches(MASKS[i], ch) <==> Identify(ch) == Some(MASKS[i])
  {
    if i >= 26 {
      FixedRow(MASKS[i], ch);
    }
  }

  /** A fixed row matches a contiguous range, in which it leaves the distance from its mask. */
  lemma FixedRow(m: Mask, ch: byte)
    requires m in MASKS[26..]
    ensures Matches(m, ch) <==> m.val <= ch < m.val + (if m.shift == 4 then 16 else if m.shift == 5 then 32 else 128)
    ensures Matches(m, ch) ==> Xor(ch, m.val) == ch - m.val
  {
    assert m.shift in {4, 5, 7};
    assert Pow2(4) == 16 && Pow2(5) == 32 && Pow2(7) == 128;
    assert m.val % Pow2(m.shift) == 0;
    AlignedRange(ch, m.val, m.shift);
    if Matches(m, ch) {
      XorOfSameHigh(ch, m.val, m.shift);
    }
  }

  /** Every row Identify names is in the table. */
  lemma IdentifiedInTable(ch: byte)
    ensures Identify(ch).Some? ==> Identify(ch).value in MASKS
    ensures Identify(ch).Some? && Identify(ch).value.fixed ==> Identify(ch).value in MASKS[26..]
  {
    var r := Identify(ch);
    if r.Some? {
      if r.value.fixed {
        assert MASKS[26..] == [Mask(GString, true, M_STR_F, 5), Mask(GArray, true, M_ARRAY_F, 4),
          Mask(GMap, true, M_MAP_F, 4), Mask(GPlint, true, M_POS_INT_F, 7), Mask(GNlint, true, M_NEG_INT_F, 5)];
        assert r.value in MASKS[26..];
      } else {
        var j := if ch == M_NIL then 0 else if ch == M_TRUE then 1 else if ch == M_FALSE then 2
          else if M_STR_8 <= ch then ch - M_STR_8 + 3
          else if M_FIXEXT_1 <= ch then ch - M_FIXEXT_1 + 22
          else if M_INT_8 <= ch then ch - M_INT_8 + 13
          else if M_UINT_8 <= ch then ch - M_UINT_8 + 17
          else if M_EXT_8 == ch then 21 else ch - M_BIN_8 + 10;
        assert MASKS[j] == r.value;
      }
    }
  }

  lemma NoRow(ch: byte)
    requires forall i :: 0 <= i < |MASKS| ==> !Matches(MASKS[i], ch)
    ensures Identify(ch) == None
  {
    IdentifiedInTable(ch);
    if Identify(ch).Some? {
      var i :| 0 <= i < |MASKS| && MASKS[i] == Identify(ch).value;
      RowMatches(i, ch);
    }
  }

  /** The table scan finds the row the byte's range stands for, or none when no row matches. */
  method IdPackType(ch: byte) returns (mask: Option<Mask>)
    ensures mask == Identify(ch)
  {
    var masks := MASKS;
    for i := 0 to |masks|
      invariant forall j :: 0 <= j < i ==> !Matches(MASKS[j], ch)
    {
      var m := masks[i];
      var hit := if m.fixed then ch / Pow2(m.shift) == m.val / Pow2(m.shift) else ch == m.val;
      if hit {
        RowMatches(i, ch);
        return Some(m);
      }
    }
    NoRow(ch);
    mask := None;
  }

  // ----- the meaning of a byte string

  datatype Fault = ShortBuffer | UnknownByte | BinFormat | ExtTooLong | NotAnArray

  datatype Parse<+T> = Done(value: T, rest: seq<byte>) | Fail(why: Fault)

  /** Two's complement reading of the low 64 bits. */
  function ToInt64(u: nat): int64 {
    var low := u % 0x1_0000_0000_0000_0000;
    if low < 0x8000_0000_0000_0000 then low else low - 0x1_0000_0000_0000_0000
  }

  /** Exactly n bytes off the front, or the fatal short-buffer error. */
  function Take(bs: seq<byte>, n: nat): Parse<seq<byte>> {
    if |bs| < n then Fail(ShortBuffer) else Done(bs[..n], bs[n..])
  }

  function TakeNumber(bs: seq<byte>, width: nat): (p: Parse<nat>)
    ensures p.Done? ==> p.value < Pow256(width) && |bs| == width + |p.rest|
  {
    match Take(bs, width)
    case Fail(why) => Fail(why)
    case Done(digits, rest) => Done(FromBigEndian(digits), rest)
  }

  /** The bits of the first byte that a fixed row leaves for the value. */
  function FixedValue(ch: byte): (v: nat)
    requires Identify(ch).Some? && Identify(ch).value.fixed
    ensures v == ch - Identify(ch).value.val < 0x80
  {
    IdentifiedInTable(ch);
    FixedRow(Identify(ch).value, ch);
    Xor(ch, Identify(ch).value.val)
  }

  /** Element count of an array or map, or byte length of a string. */
  function TakeSize(ch: byte, bs: seq<byte>): (p: Parse<nat>)
    requires Identify(ch).Some? && Identify(ch).value.group in {GArray, GMap, GString}
    ensures p.Done? ==> p.value <= UINT32_MAX && |p.rest| <= |bs|
  {
    assert Pow256(1) == 0x100 && Pow256(2) == 0x1_0000 && Pow256(4) == 0x1_0000_0000;
    if Identify(ch).value.fixed then Done(FixedValue(ch), bs)
    else if ch == M_STR_8 then TakeNumber(bs, 1)
    else if ch in {M_STR_16, M_ARRAY_16, M_MAP_16} then TakeNumber(bs, 2)
    else TakeNumber(bs, 4)
  }

  /**
   The signed forms or in the sign bits, whatever the top bit of the digits read. The one-byte form
   reads its digit and then never uses it, so it always means -256.
   */
  function TakeSigned(ch: byte, bs: seq<byte>): (p: Parse<int64>)
    requires Identify(ch).Some? && Identify(ch).value.group in {GInt, GNlint}
    ensures p.Done? ==> |p.rest| <= |bs|
  {
    if ch >= M_NEG_INT_F then Done(ToInt64(Or(FixedValue(ch), 0xFFFF_FFFF_FFFF_FFE0)), bs)
    else
      var width := if ch == M_INT_8 then 1 else if ch == M_INT_16 then 2 else if ch == M_INT_32 then 4 else 8;
      match TakeNumber(bs, width)
      case Fail(why) => Fail(why)
      case Done(digits, rest) =>
        var value := if ch == M_INT_8 then 0 else digits;
        Done(ToInt64(if ch == M_INT_64 then value else Or(value, SignMask(ch))), rest)
  }

  /** The bits or-ed in above the digits of a signed form. */
  function SignMask(ch: byte): nat {
    if ch == M_INT_8 then 0xFFFF_FFFF_FFFF_FF00
    else if ch == M_INT_16 then 0xFFFF_FFFF_FFFF_0000
    else 0xFFFF_FFFF_0000_0000
  }

  function TakeUnsigned(ch: byte, bs: seq<byte>): (p: Parse<uint64>)
    requires Identify(ch).Some? && Identify(ch).value.group in {GUint, GPlint}
    ensures p.Done? ==> |p.rest| <= |bs|
  {
    if ch < M_MAP_F then Done(FixedValue(ch), bs)
    else
      assert Pow256(1) == 0x100 && Pow256(2) == 0x1_0000;
      assert Pow256(4) == 0x1_0000_0000 && Pow256(8) == 0x1_0000_0000_0000_0000;
      match TakeNumber(bs, if ch == M_UINT_8 then 1 else if ch == M_UINT_16 then 2 else if ch == M_UINT_32 then 4 else 8)
      case Fail(why) => Fail(why)
      case Done(v, rest) => Done(v, rest)
  }

  /** An extension's tag byte and its raw payload; the variable form holds at most eight bytes. */
  function TakeExt(ch: byte, bs: seq<byte>): (p: Parse<Obj>)
    ensures p.Done? ==> |p.rest| < |bs|
  {
    var start := if ch == M_EXT_8 then TakeNumber(bs, 1) else
                   Done(if ch == M_FIXEXT_1 then 1 else if ch == M_FIXEXT_2 then 2 else if ch == M_FIXEXT_4 then 4 else 8, bs);
    match start
    case Fail(why) => Fail(why)
    case Done(len, body) =>
      match Take(body, 1)
      case Fail(why) => Fail(why)
      case Done(tag, rest) =>
        if len > 8 then Fail(ExtTooLong) else
          match Take(rest, len)
          case Fail(why) => Fail(why)
          case Done(payload, after) => Done(Ext(tag[0], payload), after)
  }

  /** One object off the front of a buffer. */
  function Decode(bs: seq<byte>): (p: Parse<Obj>)
    ensures p.Done? ==> |p.rest| < |bs|
    decreases |bs|, 0, 0
  {
    if |bs| == 0 then Fail(ShortBuffer) else
    var ch, body := bs[0], bs[1..];
    if Identify(ch).None? then Fail(UnknownByte) else
      match Identify(ch).value.group
      case GNil => Done(Nil, body)
      case GBool => Done(Bool(ch == M_TRUE), body)
      case GArray =>
        (match TakeSize(ch, body)
         case Fail(why) => Fail(why)
         case Done(size, rest) =>
           match DecodeMany(rest, size)
           case Fail(why) => Fail(why)
           case Done(items, after) => Done(Arr(items), after))
      case GMap =>
        (match TakeSize(ch, body)
         case Fail(why) => Fail(why)
         case Done(size, rest) =>
           match DecodeEntries(rest, size)
           case Fail(why) => Fail(why)
           case Done(entries, after) => Done(Dict(entries), after))
      case GString =>
        (match TakeSize(ch, body)
         case Fail(why) => Fail(why)
         case Done(size, rest) =>
           match Take(rest, size)
           case Fail(why) => Fail(why)
           case Done(text, after) => Done(Str(text), after))
      case GExt => TakeExt(ch, body)
      case GNlint | GInt =>
        (match TakeSigned(ch, body)
         case Fail(why) => Fail(why)
         case Done(i, rest) => Done(Signed(i), rest))
      case GPlint | GUint =>
        (match TakeUnsigned(ch, body)
         case Fail(why) => Fail(why)
         case Done(u, rest) => Done(Unsigned(u), rest))
      case GBin => Fail(BinFormat)
  }

  function DecodeMany(bs: seq<byte>, count: nat): (p: Parse<seq<Obj>>)
    ensures p.Done? ==> |p.value| == count && |p.rest| <= |bs|
    decreases |bs|, 1, count
  {
    if count == 0 then Done([], bs) else
    match Decode(bs)
    case Fail(why) => Fail(why)
    case Done(first, rest) =>
      match DecodeMany(rest, count - 1)
      case Fail(why) => Fail(why)
      case Done(others, after) => Done([first] + others, after)
  }

  /** A dictionary entry: first its key, then its value. */
  function DecodeEntry(bs: seq<byte>): (p: Parse<Entry>)
    ensures p.Done? ==> |p.rest| < |bs|
    decreases |bs|, 1, 0
  {
    match Decode(bs)
    case Fail(why) => Fail(why)
    case Done(key, rest) =>
      match Decode(rest)
      case Fail(why) => Fail(why)
      case Done(value, after) => Done(Entry(key, value), after)
  }

  function DecodeEntries(bs: seq<byte>, count: nat): (p: Parse<seq<Entry>>)
    ensures p.Done? ==> |p.value| == count && |p.rest| <= |bs|
    decreases |bs|, 2, count
  {
    if count == 0 then Done([], bs) else
    match DecodeEntry(bs)
    case Fail(why) => Fail(why)
    case Done(first, rest) =>
      match DecodeEntries(rest, count - 1)
      case Fail(why) => Fail(why)
      case Done(others, after) => Done([first] + others, after)
  }

  /** A message is an array; any other object is fatal. */
  function DecodeMessage(bs: seq<byte>): (p: Parse<Obj>)
    ensures p.Done? ==> |p.rest| < |bs| && p.value.Arr?
  {
    match Decode(bs)
    case Fail(why) => Fail(why)
    case Done(o, rest) => if o.Arr? then Done(o, rest) else Fail(NotAnArray)
  }

  /** Messages up to the end of the buffer. */
  function DecodeStream(bs: seq<byte>): Result<seq<Obj>, Fault>
    decreases |bs|
  {
    if |bs| == 0 then Ok([]) else
    match DecodeMessage(bs)
    case Fail(why) => Err(why)
    case Done(first, rest) =>
      match DecodeStream(rest)
      case Err(why) => Err(why)
      case Ok(others) => Ok([first] + others)
  }
}
