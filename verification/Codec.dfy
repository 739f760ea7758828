/** The encoder and the reader agree: round trips, locality, and the one range of integers that is lost. */
module Codec {
  import opened Bits
  import opened Wrappers
  import opened Mpack
  import opened Reading

  // ----- what a peer running the same code sees

  /** The negatives that take the one-byte signed form. */
  predicate TakesInt8(i: int64) { -127 <= i <= -33 }

  function ReceivedInteger(i: int64): Obj {
    if i >= 0 then Unsigned(i) else if TakesInt8(i) then Signed(-0x100) else Signed(i)
  }

  /** The tree read back: numbers tagged by sign, and the one-byte signed form collapsed. */
  function Received(o: Obj): Obj
    decreases o, 0
  {
    match o
    case Signed(i) => ReceivedInteger(i)
    case Arr(items) => Arr(ReceivedAll(items))
    case Dict(entries) => Dict(ReceivedEntries(entries))
    case _ => o
  }

  function ReceivedAll(items: seq<Obj>): (r: seq<Obj>)
    ensures |r| == |items|
    decreases items, 1
  {
    if |items| == 0 then [] else [Received(items[0])] + ReceivedAll(items[1..])
  }

  function ReceivedEntry(entry: Entry): Entry
    decreases entry, 0
  {
    Entry(Received(entry.key), Received(entry.value))
  }

  function ReceivedEntries(entries: seq<Entry>): (r: seq<Entry>)
    ensures |r| == |entries|
    decreases entries, 1
  {
    if |entries| == 0 then [] else [ReceivedEntry(entries[0])] + ReceivedEntries(entries[1..])
  }

  /** The same tree with every number carrying the tag its sign calls for: what ought to be read back. */
  function Canonical(o: Obj): Obj
    decreases o, 0
  {
    match o
    case Signed(i) => if i >= 0 then Unsigned(i) else o
    case Arr(items) => Arr(CanonicalAll(items))
    case Dict(entries) => Dict(CanonicalEntries(entries))
    case _ => o
  }

  function CanonicalAll(items: seq<Obj>): (r: seq<Obj>)
    ensures |r| == |items|
    decreases items, 1
  {
    if |items| == 0 then [] else [Canonical(items[0])] + CanonicalAll(items[1..])
  }

  function CanonicalEntry(entry: Entry): Entry
    decreases entry, 0
  {
    Entry(Canonical(entry.key), Canonical(entry.value))
  }

  function CanonicalEntries(entries: seq<Entry>): (r: seq<Entry>)
    ensures |r| == |entries|
    decreases entries, 1
  {
    if |entries| == 0 then [] else [CanonicalEntry(entries[0])] + CanonicalEntries(entries[1..])
  }

  /** Some integer in the tree takes the one-byte signed form. */
  predicate HasInt8(o: Obj)
    decreases o, 0
  {
    match o
    case Signed(i) => TakesInt8(i)
    case Arr(items) => AnyInt8(items)
    case Dict(entries) => AnyEntryInt8(entries)
    case _ => false
  }

  predicate AnyInt8(items: seq<Obj>)
    decreases items, 1
  {
    |items| > 0 && (HasInt8(items[0]) || AnyInt8(items[1..]))
  }

  predicate EntryHasInt8(entry: Entry)
    decreases entry, 0
  {
    HasInt8(entry.key) || HasInt8(entry.value)
  }

  predicate AnyEntryInt8(entries: seq<Entry>)
    decreases entries, 1
  {
    |entries| > 0 && (EntryHasInt8(entries[0]) || AnyEntryInt8(entries[1..]))
  }

  /** A tree survives exactly when no integer in it takes the one-byte signed form. */
  lemma {:induction false} LostExactlyWithInt8(o: Obj)
    ensures Received(o) == Canonical(o) <==> !HasInt8(o)
    decreases o, 0
  {
    match o
    case Arr(items) => LostExactlyWithInt8All(items);
    case Dict(entries) => LostExactlyWithInt8Entries(entries);
    case _ =>
  }

  lemma {:induction false} LostExactlyWithInt8All(items: seq<Obj>)
    ensures ReceivedAll(items) == CanonicalAll(items) <==> !AnyInt8(items)
    decreases items, 1
  {
    if |items| > 0 {
      LostExactlyWithInt8(items[0]);
      LostExactlyWithInt8All(items[1..]);
      ConsEquality(Received(items[0]), ReceivedAll(items[1..]), Canonical(items[0]), CanonicalAll(items[1..]));
    }
  }

  lemma {:induction false} LostExactlyWithInt8Entry(entry: Entry)
    ensures ReceivedEntry(entry) == CanonicalEntry(entry) <==> !EntryHasInt8(entry)
    decreases entry, 0
  {
    LostExactlyWithInt8(entry.key);
    LostExactlyWithInt8(entry.value);
  }

  lemma {:induction false} LostExactlyWithInt8Entries(entries: seq<Entry>)
    ensures ReceivedEntries(entries) == CanonicalEntries(entries) <==> !AnyEntryInt8(entries)
    decreases entries, 1
  {
    if |entries| > 0 {
      LostExactlyWithInt8Entry(entries[0]);
      LostExactlyWithInt8Entries(entries[1..]);
      ConsEquality(ReceivedEntry(entries[0]), ReceivedEntries(entries[1..]),
                   CanonicalEntry(entries[0]), CanonicalEntries(entries[1..]));
    }
  }

  lemma ConsEquality<T>(a: T, s: seq<T>, b: T, t: seq<T>)
    ensures [a] + s == [b] + t <==> a == b && s == t
  {
    if [a] + s == [b] + t {
      assert ([a] + s)[0] == ([b] + t)[0];
      assert ([a] + s)[1..] == s && ([b] + t)[1..] == t;
    }
  }

  /** A concrete loss: -100 comes back as -256. */
  lemma Int8Example()
    ensures Decode(Encode(Signed(-100))) == Done(Signed(-256), [])
  {
    RoundTrip(Signed(-100), []);
    assert Encode(Signed(-100)) + [] == Encode(Signed(-100));
  }

  // ----- integers

  lemma TakeWritten(v: nat, width: nat, rest: seq<byte>)
    ensures TakeNumber(BigEndian(v, width) + rest, width) == Done(v % Pow256(width), rest)
  {
    var bs := BigEndian(v, width) + rest;
    assert bs[..width] == BigEndian(v, width) && bs[width..] == rest;
    BigEndianRoundTrip(v, width);
  }

  /** The number behind a type byte, when the chosen width suffices. */
  lemma TakeTagged(tag: byte, v: nat, width: nat, rest: seq<byte>)
    requires v < Pow256(width)
    ensures var bs := [tag] + BigEndian(v, width) + rest;
            bs[0] == tag && TakeNumber(bs[1..], width) == Done(v, rest)
  {
    var bs := [tag] + BigEndian(v, width) + rest;
    assert bs[1..] == BigEndian(v, width) + rest;
    TakeWritten(v, width, rest);
    SmallMod(v, Pow256(width));
  }

  lemma SmallMod(v: nat, m: nat)
    requires v < m
    ensures v % m == v
  {
  }

  lemma OneDigit(v: nat)
    ensures BigEndian(v, 1) == [v % 0x100]
  {
    assert BigEndian(v / 0x100, 0) == [];
  }

  lemma WideUnsigned(tag: byte, u: uint64, width: nat, rest: seq<byte>)
    requires u < Pow256(width)
    requires (tag == M_UINT_8 && width == 1) || (tag == M_UINT_16 && width == 2)
          || (tag == M_UINT_32 && width == 4) || (tag == M_UINT_64 && width == 8)
    ensures Decode([tag] + BigEndian(u, width) + rest) == Done(Unsigned(u), rest)
  {
    TakeTagged(tag, u, width, rest);
  }

  lemma UnsignedRoundTrip(u: uint64, rest: seq<byte>)
    ensures Decode(UnsignedBytes(u) + rest) == Done(Unsigned(u), rest)
  {
    Sizes();
    if u <= 127 {
      assert ([u] + rest)[1..] == rest;
    } else if u < 0xFF {
      OneDigit(u);
      WideUnsigned(M_UINT_8, u, 1, rest);
    } else if u <= 0xFFFF {
      WideUnsigned(M_UINT_16, u, 2, rest);
    } else if u <= 0xFFFF_FFFF {
      WideUnsigned(M_UINT_32, u, 4, rest);
    } else {
      WideUnsigned(M_UINT_64, u, 8, rest);
    }
  }

  /** Or-ing the sign bits into the digits of a negative number restores it. */
  lemma SignBits(i: int64, k: nat, size: nat)
    requires (k == 5 && size == 0x20) || (k == 16 && size == 0x1_0000) || (k == 32 && size == 0x1_0000_0000)
    requires 0 > i >= 0 - size
    ensures ToInt64(Or(i + size, 0x1_0000_0000_0000_0000 - size)) == i
  {
    DivisibleBy(k, size);
    OrOfDisjoint(i + size, 0x1_0000_0000_0000_0000 - size, k);
    WrapsBack(Or(i + size, 0x1_0000_0000_0000_0000 - size), i);
  }

  lemma DivisibleBy(k: nat, size: nat)
    requires (k == 5 && size == 0x20) || (k == 16 && size == 0x1_0000) || (k == 32 && size == 0x1_0000_0000)
    ensures Pow2(k) == size && (0x1_0000_0000_0000_0000 - size) % size == 0
  {
    Powers();
  }

  lemma WrapsBack(n: nat, i: int64)
    requires i < 0 && n == 0x1_0000_0000_0000_0000 + i
    ensures ToInt64(n) == i
  {
  }

  lemma Sizes()
    ensures Pow256(1) == 0x100 && Pow256(2) == 0x1_0000
    ensures Pow256(4) == 0x1_0000_0000 && Pow256(8) == 0x1_0000_0000_0000_0000
  {
  }

  lemma Powers()
    ensures Pow2(5) == 0x20 && Pow2(16) == 0x1_0000 && Pow2(32) == 0x1_0000_0000
  {
    assert Pow2(8) == 0x100;
    assert Pow2(12) == 0x1000;
    assert Pow2(16) == 0x1_0000;
    assert Pow2(20) == 0x10_0000;
    assert Pow2(24) == 0x100_0000;
    assert Pow2(28) == 0x1000_0000;
  }

  /** The digits behind a signed type byte are the number's two's complement in that width. */
  lemma TakeNegative(tag: byte, i: int64, width: nat, size: nat, rest: seq<byte>)
    requires size == Pow256(width) && 0x1_0000_0000_0000_0000 % size == 0
    requires 0 > i >= 0 - size
    ensures var bs := [tag] + BigEndian(i + 0x1_0000_0000_0000_0000, width) + rest;
            bs[0] == tag && TakeNumber(bs[1..], width) == Done(i + size, rest)
  {
    var bits := i + 0x1_0000_0000_0000_0000;
    var bs := [tag] + BigEndian(bits, width) + rest;
    assert bs[1..] == BigEndian(bits, width) + rest;
    TakeWritten(bits, width, rest);
    var q := 0x1_0000_0000_0000_0000 / size;
    DivModDefinition(0x1_0000_0000_0000_0000, size);
    assert bits == size * q + i;
    DivModUnique(bits, size, q - 1, i + size);
  }

  lemma TinyNegativeRoundTrip(i: int64, rest: seq<byte>)
    requires -32 <= i < 0
    ensures Decode(IntegerBytes(i) + rest) == Done(Signed(i), rest)
  {
    var ch: byte := 0x100 + i;
    assert IntegerBytes(i) == [ch];
    assert ([ch] + rest)[1..] == rest;
    SignBits(i, 5, 0x20);
    assert TakeSigned(ch, rest) == Done(i, rest);
  }

  /** The one-byte signed form means -256 whatever its digit. */
  lemma DigitIsLost(ch: byte, bs: seq<byte>)
    requires ch == M_INT_8 && |bs| > 0
    ensures TakeSigned(ch, bs) == Done(-0x100, bs[1..])
  {
    OrOfZero(SignMask(ch));
  }

  lemma SmallNegativeRoundTrip(i: int64, rest: seq<byte>)
    requires -0x80 < i < -32
    ensures Decode(IntegerBytes(i) + rest) == Done(Signed(-0x100), rest)
  {
    Sizes();
    var bits := i + 0x1_0000_0000_0000_0000;
    OneDigit(bits);
    assert IntegerBytes(i) == [M_INT_8] + BigEndian(bits, 1);
    TakeNegative(M_INT_8, i, 1, 0x100, rest);
    DigitIsLost(M_INT_8, BigEndian(bits, 1) + rest);
    assert (IntegerBytes(i) + rest)[1..] == BigEndian(bits, 1) + rest;
  }

  lemma WideNegative(tag: byte, i: int64, width: nat, k: nat, size: nat, rest: seq<byte>)
    requires 0 > i >= 0 - size && size == Pow256(width)
    requires (tag == M_INT_16 && width == 2 && k == 16 && size == 0x1_0000)
          || (tag == M_INT_32 && width == 4 && k == 32 && size == 0x1_0000_0000)
    ensures Decode([tag] + BigEndian(i + 0x1_0000_0000_0000_0000, width) + rest) == Done(Signed(i), rest)
  {
    TakeNegative(tag, i, width, size, rest);
    SignBits(i, k, size);
  }

  lemma WidestNegative(i: int64, rest: seq<byte>)
    requires i < 0
    ensures Decode([M_INT_64] + BigEndian(i + 0x1_0000_0000_0000_0000, 8) + rest) == Done(Signed(i), rest)
  {
    Sizes();
    TakeTagged(M_INT_64, i + 0x1_0000_0000_0000_0000, 8, rest);
  }

  lemma NegativeRoundTrip(i: int64, rest: seq<byte>)
    requires i < 0
    ensures Decode(IntegerBytes(i) + rest) == Done(ReceivedInteger(i), rest)
  {
    Sizes();
    if i >= -32 {
      TinyNegativeRoundTrip(i, rest);
    } else if i > -0x80 {
      SmallNegativeRoundTrip(i, rest);
    } else if i >= -0x8000 {
      WideNegative(M_INT_16, i, 2, 16, 0x1_0000, rest);
    } else if i >= -0x8000_0000 {
      WideNegative(M_INT_32, i, 4, 32, 0x1_0000_0000, rest);
    } else {
      WidestNegative(i, rest);
    }
  }

  // ----- whole objects

  lemma StringRoundTrip(s: Bytes, rest: seq<byte>)
    ensures Decode(StringBytes(s) + rest) == Done(Str(s), rest)
  {
    var tail := s + rest;
    assert StringBytes(s) + rest == StringHeader(|s|) + tail;
    StringHeaderRead(|s|, tail);
    assert tail[..|s|] == s && tail[|s|..] == rest;
  }

  /** A first byte of the group, whose size field reads as len and leaves rest. */
  predicate ReadsSize(bs: seq<byte>, group: Group, len: nat, rest: seq<byte>)
    requires group in {GArray, GMap, GString}
  {
    |bs| > 0 && Identify(bs[0]).Some? && Identify(bs[0]).value.group == group
    && TakeSize(bs[0], bs[1..]) == Done(len, rest)
  }

  lemma WideHeaderRead(tag: byte, len: nat, width: nat, group: Group, rest: seq<byte>)
    requires len < Pow256(width)
    requires (group == GString && ((tag == M_STR_8 && width == 1) || (tag == M_STR_16 && width == 2) || (tag == M_STR_32 && width == 4)))
          || (group == GArray && ((tag == M_ARRAY_16 && width == 2) || (tag == M_ARRAY_32 && width == 4)))
          || (group == GMap && ((tag == M_MAP_16 && width == 2) || (tag == M_MAP_32 && width == 4)))
    ensures ReadsSize([tag] + BigEndian(len, width) + rest, group, len, rest)
  {
    TakeTagged(tag, len, width, rest);
  }

  lemma ShortStringHeaderRead(len: nat, rest: seq<byte>)
    requires len < 32
    ensures ReadsSize([M_STR_F + len] + rest, GString, len, rest)
  {
    assert ([M_STR_F + len] + rest)[1..] == rest;
  }

  lemma StringHeaderRead(len: nat, rest: seq<byte>)
    requires len <= UINT32_MAX
    ensures ReadsSize(StringHeader(len) + rest, GString, len, rest)
  {
    Sizes();
    if len < 32 {
      ShortStringHeaderRead(len, rest);
    } else if len < 0xFF {
      OneDigit(len);
      WideHeaderRead(M_STR_8, len, 1, GString, rest);
    } else if len < 0xFFFF {
      WideHeaderRead(M_STR_16, len, 2, GString, rest);
    } else {
      WideHeaderRead(M_STR_32, len, 4, GString, rest);
    }
  }

  lemma ShortArrayHeaderRead(len: nat, rest: seq<byte>)
    requires len < 16
    ensures ReadsSize([M_ARRAY_F + len] + rest, GArray, len, rest)
  {
    assert ([M_ARRAY_F + len] + rest)[1..] == rest;
  }

  lemma ArrayHeaderRead(len: nat, rest: seq<byte>)
    requires len < UINT32_MAX
    ensures ReadsSize(ArrayHeader(len) + rest, GArray, len, rest)
  {
    Sizes();
    if len < 16 {
      ShortArrayHeaderRead(len, rest);
    } else if len < 0xFFFF {
      WideHeaderRead(M_ARRAY_16, len, 2, GArray, rest);
    } else {
      WideHeaderRead(M_ARRAY_32, len, 4, GArray, rest);
    }
  }

  lemma ShortDictHeaderRead(len: nat, rest: seq<byte>)
    requires len < 16
    ensures ReadsSize([M_MAP_F + len] + rest, GMap, len, rest)
  {
    assert ([M_MAP_F + len] + rest)[1..] == rest;
  }

  lemma DictHeaderRead(len: nat, rest: seq<byte>)
    requires len < UINT32_MAX
    ensures ReadsSize(DictHeader(len) + rest, GMap, len, rest)
  {
    Sizes();
    if len < 16 {
      ShortDictHeaderRead(len, rest);
    } else if len < 0xFFFF {
      WideHeaderRead(M_MAP_16, len, 2, GMap, rest);
    } else {
      WideHeaderRead(M_MAP_32, len, 4, GMap, rest);
    }
  }

  lemma DecodeArray(len: nat, rest: seq<byte>)
    requires len < UINT32_MAX && DecodeMany(rest, len).Done?
    ensures Decode(ArrayHeader(len) + rest) == Done(Arr(DecodeMany(rest, len).value), DecodeMany(rest, len).rest)
  {
    ArrayHeaderRead(len, rest);
  }

  lemma DecodeDict(len: nat, rest: seq<byte>)
    requires len < UINT32_MAX && DecodeEntries(rest, len).Done?
    ensures Decode(DictHeader(len) + rest) == Done(Dict(DecodeEntries(rest, len).value), DecodeEntries(rest, len).rest)
  {
    DictHeaderRead(len, rest);
  }

  /** Decoding an encoded tree followed by anything gives the received tree and leaves the rest untouched. */
  lemma {:induction false} RoundTrip(o: Obj, rest: seq<byte>)
    requires Encodable(o)
    ensures Decode(Encode(o) + rest) == Done(Received(o), rest)
    decreases o, 0
  {
    match o
    case Nil => OneByteRoundTrip(o, M_NIL, rest);
    case Bool(b) => OneByteRoundTrip(o, BoolByte(b), rest);
    case Unsigned(u) => UnsignedRoundTrip(u, rest);
    case Signed(i) =>
      if i >= 0 {
        UnsignedRoundTrip(i, rest);
      } else {
        NegativeRoundTrip(i, rest);
      }
    case Str(s) => StringRoundTrip(s, rest);
    case Arr(items) => RoundTripArray(items, rest);
    case Dict(entries) => RoundTripDict(entries, rest);
  }

  lemma OneByteRoundTrip(o: Obj, b: byte, rest: seq<byte>)
    requires o.Nil? || o.Bool?
    requires b == if o.Nil? then M_NIL else BoolByte(o.b)
    ensures Decode([b] + rest) == Done(o, rest)
  {
    assert ([b] + rest)[1..] == rest;
  }

  lemma {:induction false} RoundTripArray(items: seq<Obj>, rest: seq<byte>)
    requires |items| < UINT32_MAX && AllEncodable(items)
    ensures Decode(ArrayHeader(|items|) + EncodeAll(items) + rest) == Done(Arr(ReceivedAll(items)), rest)
    decreases items, 2
  {
    Associative(ArrayHeader(|items|), EncodeAll(items), rest);
    RoundTripAll(items, rest);
    DecodeArray(|items|, EncodeAll(items) + rest);
  }

  lemma {:induction false} RoundTripDict(entries: seq<Entry>, rest: seq<byte>)
    requires |entries| < UINT32_MAX && EntriesEncodable(entries)
    ensures Decode(DictHeader(|entries|) + EncodeEntries(entries) + rest) == Done(Dict(ReceivedEntries(entries)), rest)
    decreases entries, 2
  {
    Associative(DictHeader(|entries|), EncodeEntries(entries), rest);
    RoundTripEntries(entries, rest);
    DecodeDict(|entries|, EncodeEntries(entries) + rest);
  }

  lemma {:induction false} RoundTripAll(items: seq<Obj>, rest: seq<byte>)
    requires AllEncodable(items)
    ensures DecodeMany(EncodeAll(items) + rest, |items|) == Done(ReceivedAll(items), rest)
    decreases items, 1
  {
    if |items| == 0 {
      assert EncodeAll(items) + rest == rest;
    } else {
      var tail := EncodeAll(items[1..]) + rest;
      assert EncodeAll(items) + rest == Encode(items[0]) + tail;
      RoundTrip(items[0], tail);
      RoundTripAll(items[1..], rest);
    }
  }

  lemma {:induction false} RoundTripEntry(entry: Entry, rest: seq<byte>)
    requires EntryEncodable(entry)
    ensures DecodeEntry(EncodeEntry(entry) + rest) == Done(ReceivedEntry(entry), rest)
    decreases entry, 0
  {
    assert EncodeEntry(entry) + rest == Encode(entry.key) + (Encode(entry.value) + rest);
    RoundTrip(entry.key, Encode(entry.value) + rest);
    RoundTrip(entry.value, rest);
  }

  lemma {:induction false} RoundTripEntries(entries: seq<Entry>, rest: seq<byte>)
    requires EntriesEncodable(entries)
    ensures DecodeEntries(EncodeEntries(entries) + rest, |entries|) == Done(ReceivedEntries(entries), rest)
    decreases entries, 1
  {
    if |entries| == 0 {
      assert EncodeEntries(entries) + rest == rest;
    } else {
      var tail := EncodeEntries(entries[1..]) + rest;
      assert EncodeEntries(entries) + rest == EncodeEntry(entries[0]) + tail;
      RoundTripEntry(entries[0], tail);
      RoundTripEntries(entries[1..], rest);
    }
  }

  // ----- streams of messages

  /** A buffer holding whole messages one after another is read back message by message. */
  lemma {:induction false} StreamRoundTrip(messages: seq<Obj>)
    requires AllEncodable(messages) && forall m | m in messages :: m.Arr?
    ensures DecodeStream(EncodeAll(messages)) == Ok(ReceivedAll(messages))
  {
    if |messages| > 0 {
      EncodeNonempty(messages[0]);
      RoundTrip(messages[0], EncodeAll(messages[1..]));
      StreamRoundTrip(messages[1..]);
    }
  }

  lemma EncodeNonempty(o: Obj)
    requires Encodable(o)
    ensures |Encode(o)| > 0
  {
  }

  /** What follows an object never changes how it is read. */
  lemma {:induction false} DecodeIsLocal(bs: seq<byte>, more: seq<byte>)
    requires Decode(bs).Done?
    ensures Decode(bs + more) == Done(Decode(bs).value, Decode(bs).rest + more)
    decreases |bs|, 0, 0
  {
    var ch, body := bs[0], bs[1..];
    assert (bs + more)[0] == ch && (bs + more)[1..] == body + more;
    match Identify(ch).value.group
    case GArray =>
      TakeSizeIsLocal(ch, body, more);
      DecodeManyIsLocal(TakeSize(ch, body).rest, TakeSize(ch, body).value, more);
    case GMap =>
      TakeSizeIsLocal(ch, body, more);
      DecodeEntriesIsLocal(TakeSize(ch, body).rest, TakeSize(ch, body).value, more);
    case GString =>
      TakeSizeIsLocal(ch, body, more);
      TakeIsLocal(TakeSize(ch, body).rest, TakeSize(ch, body).value, more);
    case GExt => TakeExtIsLocal(ch, body, more);
    case GNlint => TakeSignedIsLocal(ch, body, more);
    case GInt => TakeSignedIsLocal(ch, body, more);
    case GPlint => TakeUnsignedIsLocal(ch, body, more);
    case GUint => TakeUnsignedIsLocal(ch, body, more);
    case _ =>
  }

  lemma {:induction false} DecodeManyIsLocal(bs: seq<byte>, count: nat, more: seq<byte>)
    requires DecodeMany(bs, count).Done?
    ensures DecodeMany(bs + more, count) == Done(DecodeMany(bs, count).value, DecodeMany(bs, count).rest + more)
    decreases |bs|, 1, count
  {
    if count > 0 {
      DecodeIsLocal(bs, more);
      DecodeManyIsLocal(Decode(bs).rest, count - 1, more);
    }
  }

  lemma {:induction false} DecodeEntryIsLocal(bs: seq<byte>, more: seq<byte>)
    requires DecodeEntry(bs).Done?
    ensures DecodeEntry(bs + more) == Done(DecodeEntry(bs).value, DecodeEntry(bs).rest + more)
    decreases |bs|, 1, 0
  {
    DecodeIsLocal(bs, more);
    DecodeIsLocal(Decode(bs).rest, more);
  }

  lemma {:induction false} DecodeEntriesIsLocal(bs: seq<byte>, count: nat, more: seq<byte>)
    requires DecodeEntries(bs, count).Done?
    ensures DecodeEntries(bs + more, count) == Done(DecodeEntries(bs, count).value, DecodeEntries(bs, count).rest + more)
    decreases |bs|, 2, count
  {
    if count > 0 {
      DecodeEntryIsLocal(bs, more);
      DecodeEntriesIsLocal(DecodeEntry(bs).rest, count - 1, more);
    }
  }

  /** Nor does it undo a fault, unless the fault is that the buffer was too short. */
  lemma {:induction false} FaultIsLocal(bs: seq<byte>, more: seq<byte>)
    requires Decode(bs).Fail? && Decode(bs).why != ShortBuffer
    ensures Decode(bs + more) == Decode(bs)
    decreases |bs|, 0, 0
  {
    var ch, body := bs[0], bs[1..];
    assert (bs + more)[0] == ch && (bs + more)[1..] == body + more;
    if Identify(ch).Some? {
      match Identify(ch).value.group
      case GArray =>
        TakeSizeIsLocal(ch, body, more);
        ManyFaultIsLocal(TakeSize(ch, body).rest, TakeSize(ch, body).value, more);
      case GMap =>
        TakeSizeIsLocal(ch, body, more);
        EntriesFaultIsLocal(TakeSize(ch, body).rest, TakeSize(ch, body).value, more);
      case GExt => ExtFaultIsLocal(ch, body, more);
      case _ =>
    }
  }

  lemma {:induction false} ManyFaultIsLocal(bs: seq<byte>, count: nat, more: seq<byte>)
    requires DecodeMany(bs, count).Fail? && DecodeMany(bs, count).why != ShortBuffer
    ensures DecodeMany(bs + more, count) == DecodeMany(bs, count)
    decreases |bs|, 1, count
  {
    if Decode(bs).Done? {
      DecodeIsLocal(bs, more);
      ManyFaultIsLocal(Decode(bs).rest, count - 1, more);
    } else {
      FaultIsLocal(bs, more);
    }
  }

  lemma {:induction false} EntryFaultIsLocal(bs: seq<byte>, more: seq<byte>)
    requires DecodeEntry(bs).Fail? && DecodeEntry(bs).why != ShortBuffer
    ensures DecodeEntry(bs + more) == DecodeEntry(bs)
    decreases |bs|, 1, 0
  {
    if Decode(bs).Done? {
      DecodeIsLocal(bs, more);
      FaultIsLocal(Decode(bs).rest, more);
    } else {
      FaultIsLocal(bs, more);
    }
  }

  lemma {:induction false} EntriesFaultIsLocal(bs: seq<byte>, count: nat, more: seq<byte>)
    requires DecodeEntries(bs, count).Fail? && DecodeEntries(bs, count).why != ShortBuffer
    ensures DecodeEntries(bs + more, count) == DecodeEntries(bs, count)
    decreases |bs|, 2, count
  {
    if DecodeEntry(bs).Done? {
      DecodeEntryIsLocal(bs, more);
      EntriesFaultIsLocal(DecodeEntry(bs).rest, count - 1, more);
    } else {
      EntryFaultIsLocal(bs, more);
    }
  }

  lemma ExtFaultIsLocal(ch: byte, bs: seq<byte>, more: seq<byte>)
    requires TakeExt(ch, bs).Fail? && TakeExt(ch, bs).why != ShortBuffer
    ensures TakeExt(ch, bs + more) == TakeExt(ch, bs)
  {
    var body := if ch == M_EXT_8 then bs[1..] else bs;
    TakeIsLocal(bs, 1, more);
    TakeIsLocal(body, 1, more);
  }

  lemma TakeIsLocal(bs: seq<byte>, n: nat, more: seq<byte>)
    requires n <= |bs|
    ensures Take(bs + more, n) == Done(bs[..n], bs[n..] + more)
  {
    assert (bs + more)[..n] == bs[..n] && (bs + more)[n..] == bs[n..] + more;
  }

  lemma TakeSizeIsLocal(ch: byte, bs: seq<byte>, more: seq<byte>)
    requires Identify(ch).Some? && Identify(ch).value.group in {GArray, GMap, GString}
    requires TakeSize(ch, bs).Done?
    ensures TakeSize(ch, bs + more) == Done(TakeSize(ch, bs).value, TakeSize(ch, bs).rest + more)
  {
    if !Identify(ch).value.fixed {
      TakeIsLocal(bs, |bs| - |TakeSize(ch, bs).rest|, more);
    }
  }

  lemma TakeSignedIsLocal(ch: byte, bs: seq<byte>, more: seq<byte>)
    requires Identify(ch).Some? && Identify(ch).value.group in {GInt, GNlint}
    requires TakeSigned(ch, bs).Done?
    ensures TakeSigned(ch, bs + more) == Done(TakeSigned(ch, bs).value, TakeSigned(ch, bs).rest + more)
  {
    if ch < M_NEG_INT_F {
      TakeIsLocal(bs, |bs| - |TakeSigned(ch, bs).rest|, more);
    }
  }

  lemma TakeUnsignedIsLocal(ch: byte, bs: seq<byte>, more: seq<byte>)
    requires Identify(ch).Some? && Identify(ch).value.group in {GUint, GPlint}
    requires TakeUnsigned(ch, bs).Done?
    ensures TakeUnsigned(ch, bs + more) == Done(TakeUnsigned(ch, bs).value, TakeUnsigned(ch, bs).rest + more)
  {
    if ch >= M_MAP_F {
      TakeIsLocal(bs, |bs| - |TakeUnsigned(ch, bs).rest|, more);
    }
  }

  lemma TakeExtIsLocal(ch: byte, bs: seq<byte>, more: seq<byte>)
    requires TakeExt(ch, bs).Done?
    ensures TakeExt(ch, bs + more) == Done(TakeExt(ch, bs).value, TakeExt(ch, bs).rest + more)
  {
    var body := if ch == M_EXT_8 then bs[1..] else bs;
    TakeIsLocal(bs, 1, more);
    TakeIsLocal(body, 1, more);
    TakeIsLocal(body[1..], |TakeExt(ch, bs).value.payload|, more);
  }

  /** No message is a proper prefix of another, so a reader always knows where one ends. */
  lemma PrefixFree(a: Obj, b: Obj, more: seq<byte>)
    requires Encodable(a) && Encodable(b)
    requires Encode(b) == Encode(a) + more
    ensures more == []
  {
    RoundTrip(a, []);
    RoundTrip(b, []);
    assert Encode(a) + [] == Encode(a) && Encode(b) + [] == Encode(b);
    DecodeIsLocal(Encode(a), more);
  }
}
