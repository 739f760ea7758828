/**
 MessagePack objects, the bytes they are written as, and the encoder that appends them.

 Sections "int format family", "str format family", "array format family" and "map format family"
 of the MessagePack specification give the byte layouts.
 */
module Mpack {
  import opened Bits
  import opened Wrappers

  /** A decoded object. Signed and Unsigned are two tags on one 64-bit number. */
  datatype Obj =
    | Nil
    | Bool(b: bool)
    | Signed(i: int64)
    | Unsigned(u: uint64)
    | Str(s: Bytes)
    | Arr(items: seq<Obj>)
    | Dict(entries: seq<Entry>)
    | Ext(tag: byte, payload: seq<byte>)

  datatype Entry = Entry(key: Obj, value: Obj)

  const M_NIL := 0xC0
  const M_FALSE := 0xC2
  const M_TRUE := 0xC3
  const M_BIN_8 := 0xC4
  const M_BIN_16 := 0xC5
  const M_BIN_32 := 0xC6
  const M_EXT_8 := 0xC7
  const M_UINT_8 := 0xCC
  const M_UINT_16 := 0xCD
  const M_UINT_32 := 0xCE
  const M_UINT_64 := 0xCF
  const M_INT_8 := 0xD0
  const M_INT_16 := 0xD1
  const M_INT_32 := 0xD2
  const M_INT_64 := 0xD3
  const M_FIXEXT_1 := 0xD4
  const M_FIXEXT_2 := 0xD5
  const M_FIXEXT_4 := 0xD6
  const M_FIXEXT_8 := 0xD7
  const M_STR_8 := 0xD9
  const M_STR_16 := 0xDA
  const M_STR_32 := 0xDB
  const M_ARRAY_16 := 0xDC
  const M_ARRAY_32 := 0xDD
  const M_MAP_16 := 0xDE
  const M_MAP_32 := 0xDF
  const M_POS_INT_F := 0x00
  const M_MAP_F := 0x80
  const M_ARRAY_F := 0x90
  const M_STR_F := 0xA0
  const M_NEG_INT_F := 0xE0

  // ----- what the encoder writes

  /** A count of fewer than 2^k or-ed into a type byte whose low k bits are clear. */
  function Short(mask: byte, count: nat, k: nat): (b: byte)
    requires (k == 4 && count < 16) || (k == 5 && count < 32)
    requires if k == 4 then mask == M_ARRAY_F || mask == M_MAP_F else mask == M_STR_F
    ensures b == mask + count
  {
    assert Pow2(4) == 16 && Pow2(5) == 32;
    OrOfDisjoint(count, mask, k);
    Or(mask, count)
  }

  /** Headers of at most 15 elements fit one byte; the mask's low four bits are clear. */
  function ArrayHeader(len: nat): (bs: seq<byte>)
    ensures 0 < |bs| <= 5
  {
    if len < 16 then [Short(M_ARRAY_F, len, 4)]
    else if len < 0xFFFF then [M_ARRAY_16] + BigEndian(len, 2)
    else [M_ARRAY_32] + BigEndian(len, 4)
  }

  function DictHeader(len: nat): (bs: seq<byte>)
    ensures 0 < |bs| <= 5
  {
    if len < 16 then [Short(M_MAP_F, len, 4)]
    else if len < 0xFFFF then [M_MAP_16] + BigEndian(len, 2)
    else [M_MAP_32] + BigEndian(len, 4)
  }

  function UnsignedBytes(value: uint64): (bs: seq<byte>)
    ensures 0 < |bs| <= 9
  {
    if value <= 127 then [value]
    else if value < 0xFF then [M_UINT_8, value]
    else if value <= 0xFFFF then [M_UINT_16] + BigEndian(value, 2)
    else if value <= 0xFFFF_FFFF then [M_UINT_32] + BigEndian(value, 4)
    else [M_UINT_64] + BigEndian(value, 8)
  }

  /** Negative numbers are written as two's complement of the chosen width. */
  function IntegerBytes(value: int64): (bs: seq<byte>)
    ensures 0 < |bs| <= 9
  {
    if value >= 0 then
      if value <= 127 then [value]
      else if value < 0xFF then [M_UINT_8, value]
      else if value <= 0xFFFF then [M_UINT_16] + BigEndian(value, 2)
      else if value <= 0xFFFF_FFFF then [M_UINT_32] + BigEndian(value, 4)
      else [M_UINT_64] + BigEndian(value, 8)
    else
      var bits := value + 0x1_0000_0000_0000_0000;
      if value >= -32 then [bits % 0x100]
      else if value > -0x80 then [M_INT_8, bits % 0x100]
      else if value >= -0x8000 then [M_INT_16] + BigEndian(bits, 2)
      else if value >= -0x8000_0000 then [M_INT_32] + BigEndian(bits, 4)
      else [M_INT_64] + BigEndian(bits, 8)
  }

  function StringHeader(len: nat): (bs: seq<byte>)
    ensures 0 < |bs| <= 5
  {
    if len < 32 then [Short(M_STR_F, len, 5)]
    else if len < 0xFF then [M_STR_8, len]
    else if len < 0xFFFF then [M_STR_16] + BigEndian(len, 2)
    else [M_STR_32] + BigEndian(len, 4)
  }

  function StringBytes(s: Bytes): (bs: seq<byte>)
    ensures |bs| > 0
  {
    StringHeader(|s|) + s
  }

  function BoolByte(b: bool): byte { if b then M_TRUE else M_FALSE }

  /** The bytes of a whole object. The encoder has no extension form. */
  function Encode(o: Obj): (bs: seq<byte>)
    decreases o, 0
  {
    match o
    case Nil => [M_NIL]
    case Bool(b) => [BoolByte(b)]
    case Signed(i) => IntegerBytes(i)
    case Unsigned(u) => UnsignedBytes(u)
    case Str(s) => StringBytes(s)
    case Arr(items) => ArrayHeader(|items|) + EncodeAll(items)
    case Dict(entries) => DictHeader(|entries|) + EncodeEntries(entries)
    case Ext(_, _) => []
  }

  function EncodeAll(items: seq<Obj>): seq<byte>
    decreases items, 1
  {
    if |items| == 0 then [] else Encode(items[0]) + EncodeAll(items[1..])
  }

  function EncodeEntries(entries: seq<Entry>): seq<byte>
    decreases entries, 1
  {
    if |entries| == 0 then []
    else EncodeEntry(entries[0]) + EncodeEntries(entries[1..])
  }

  function EncodeEntry(entry: Entry): seq<byte>
    decreases entry, 0
  {
    Encode(entry.key) + Encode(entry.value)
  }

  lemma Associative<T>(a: seq<T>, b: seq<T>, c: seq<T>)
    ensures (a + b) + c == a + (b + c)
  {
  }

  lemma {:induction false} EncodeAllConcat(a: seq<Obj>, b: seq<Obj>)
    ensures EncodeAll(a + b) == EncodeAll(a) + EncodeAll(b)
  {
    if |a| == 0 {
      assert a + b == b;
    } else {
      EncodeAllConcat(a[1..], b);
      assert (a + b)[1..] == a[1..] + b;
      Associative(Encode(a[0]), EncodeAll(a[1..]), EncodeAll(b));
    }
  }

  /** Consecutive objects taken two by two as key and value. */
  function Paired(flat: seq<Obj>): (entries: seq<Entry>)
    requires |flat| % 2 == 0
    ensures |entries| == |flat| / 2
  {
    if |flat| == 0 then [] else [Entry(flat[0], flat[1])] + Paired(flat[2..])
  }

  lemma {:induction false} EncodePaired(flat: seq<Obj>)
    requires |flat| % 2 == 0
    ensures EncodeEntries(Paired(flat)) == EncodeAll(flat)
  {
    if |flat| > 0 {
      EncodePaired(flat[2..]);
      assert flat[1..][1..] == flat[2..];
      assert Paired(flat)[1..] == Paired(flat[2..]);
    }
  }

  /** No extension inside, and every count below the encoder's limit. */
  predicate Encodable(o: Obj)
    decreases o, 0
  {
    match o
    case Arr(items) => |items| < UINT32_MAX && AllEncodable(items)
    case Dict(entries) => |entries| < UINT32_MAX && EntriesEncodable(entries)
    case Ext(_, _) => false
    case _ => true
  }

  predicate AllEncodable(items: seq<Obj>)
    decreases items, 1
  {
    |items| > 0 ==> Encodable(items[0]) && AllEncodable(items[1..])
  }

  predicate EntriesEncodable(entries: seq<Entry>)
    decreases entries, 1
  {
    |entries| > 0 ==> EntryEncodable(entries[0]) && EntriesEncodable(entries[1..])
  }

  predicate EntryEncodable(entry: Entry)
    decreases entry, 0
  {
    Encodable(entry.key) && Encodable(entry.value)
  }

  /** The packed output of one message; every write appends. */
  class Packer {
    var packed: seq<byte>

    constructor ()
      ensures packed == []
    {
      packed := [];
    }

    method Put(b: byte)
      modifies this
      ensures packed == old(packed) + [b]
    {
      packed := packed + [b];
    }

    method PutTwo(tag: byte, b: byte)
      modifies this
      ensures packed == old(packed) + [tag, b]
    {
      Put(tag);
      Put(b);
    }

    /** A type byte, then the value in big-endian order. */
    method PutTagged(tag: byte, value: nat, width: nat)
      modifies this
      ensures packed == old(packed) + ([tag] + BigEndian(value, width))
    {
      Put(tag);
      packed := packed + BigEndian(value, width);
    }

    /** False stands for the fatal "Array is too big!", after which nothing was written. */
    method EncodeArray(len: nat) returns (ok: bool)
      requires len <= UINT32_MAX
      modifies this
      ensures ok <==> len < UINT32_MAX
      ensures packed == old(packed) + if ok then ArrayHeader(len) else []
    {
      ok := true;
      if len < 16 {
        Put(Short(M_ARRAY_F, len, 4));
      } else if len < 0xFFFF {
        PutTagged(M_ARRAY_16, len, 2);
      } else if len < 0xFFFF_FFFF {
        PutTagged(M_ARRAY_32, len, 4);
      } else {
        ok := false;
      }
    }

    method EncodeDictionary(len: nat) returns (ok: bool)
      requires len <= UINT32_MAX
      modifies this
      ensures ok <==> len < UINT32_MAX
      ensures packed == old(packed) + if ok then DictHeader(len) else []
    {
      ok := true;
      if len < 16 {
        Put(Short(M_MAP_F, len, 4));
      } else if len < 0xFFFF {
        PutTagged(M_MAP_16, len, 2);
      } else if len < 0xFFFF_FFFF {
        PutTagged(M_MAP_32, len, 4);
      } else {
        ok := false;
      }
    }

    method EncodeUnsigned(value: uint64)
      modifies this
      ensures packed == old(packed) + UnsignedBytes(value)
    {
      if value <= 127 {
        Put(value);
      } else if value < 0xFF {
        PutTwo(M_UINT_8, value);
      } else if value <= 0xFFFF {
        PutTagged(M_UINT_16, value, 2);
      } else if value <= 0xFFFF_FFFF {
        PutTagged(M_UINT_32, value, 4);
      } else {
        PutTagged(M_UINT_64, value, 8);
      }
    }

    method EncodeInteger(value: int64)
      modifies this
      ensures packed == old(packed) + IntegerBytes(value)
    {
      if value >= 0 {
        if value <= 127 {
          Put(value);
        } else if value < 0xFF {
          PutTwo(M_UINT_8, value);
        } else if value <= 0xFFFF {
          PutTagged(M_UINT_16, value, 2);
        } else if value <= 0xFFFF_FFFF {
          PutTagged(M_UINT_32, value, 4);
        } else {
          PutTagged(M_UINT_64, value, 8);
        }
      } else {
        var bits := value + 0x1_0000_0000_0000_0000;
        if value >= -32 {
          Put(bits % 0x100);
        } else if value > -0x80 {
          PutTwo(M_INT_8, bits % 0x100);
        } else if value >= -0x8000 {
          PutTagged(M_INT_16, bits, 2);
        } else if value >= -0x8000_0000 {
          PutTagged(M_INT_32, bits, 4);
        } else {
          PutTagged(M_INT_64, bits, 8);
        }
      }
    }

    /** A null string is written as the empty one. */
    method EncodeString(text: Option<Bytes>)
      modifies this
      ensures packed == old(packed) + StringBytes(if text.Some? then text.value else [])
    {
      var s: Bytes := if text.Some? then text.value else [];
      if |s| < 32 {
        Put(Short(M_STR_F, |s|, 5));
      } else if |s| < 0xFF {
        PutTwo(M_STR_8, |s|);
      } else if |s| < 0xFFFF {
        PutTagged(M_STR_16, |s|, 2);
      } else {
        PutTagged(M_STR_32, |s|, 4);
      }
      packed := packed + s;
    }

    method EncodeBoolean(value: bool)
      modifies this
      ensures packed == old(packed) + [BoolByte(value)]
    {
      Put(if value then M_TRUE else M_FALSE);
    }

    method EncodeNil()
      modifies this
      ensures packed == old(packed) + [M_NIL]
    {
      Put(M_NIL);
    }
  }
}
