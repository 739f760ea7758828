/** The bytes on the wire, written out in numbers: sections "Formats" of the MessagePack specification. */
module Wire {
  import opened Bits
  import opened Mpack
  import opened Reading
  import opened Codec

  // ----- byte order

  /** The i-th of n bytes is the digit of weight 256^(n - 1 - i): the most significant byte comes first. */
  lemma {:induction false} BigEndianDigit(v: nat, n: nat, i: nat)
    requires i < n
    ensures BigEndian(v, n)[i] == v / Pow256(n - 1 - i) % 0x100
  {
    if i < n - 1 {
      BigEndianDigit(v / 0x100, n - 1, i);
      SplitModulus(v, 0x100, Pow256(n - 2 - i));
    }
  }

  /** And so it is read. */
  lemma {:induction false} FromBigEndianDigit(bs: seq<byte>, i: nat)
    requires i < |bs|
    ensures FromBigEndian(bs) / Pow256(|bs| - 1 - i) % 0x100 == bs[i]
  {
    var n := |bs|;
    var v, high := FromBigEndian(bs), FromBigEndian(bs[..n - 1]);
    DivModUnique(v, 0x100, high, bs[n - 1]);
    if i < n - 1 {
      FromBigEndianDigit(bs[..n - 1], i);
      SplitModulus(v, 0x100, Pow256(n - 2 - i));
    }
  }

  lemma Weights()
    ensures Pow256(0) == 1 && Pow256(1) == 0x100 && Pow256(2) == 0x1_0000 && Pow256(3) == 0x100_0000
    ensures Pow256(4) == 0x1_0000_0000 && Pow256(5) == 0x100_0000_0000 && Pow256(6) == 0x1_0000_0000_0000
    ensures Pow256(7) == 0x100_0000_0000_0000
  {
    assert Pow256(1) == 0x100 && Pow256(2) == 0x1_0000 && Pow256(3) == 0x100_0000;
    assert Pow256(4) == 0x1_0000_0000 && Pow256(5) == 0x100_0000_0000;
  }

  lemma TwoDigits(v: nat)
    requires v < 0x1_0000
    ensures BigEndian(v, 2) == [v / 0x100, v % 0x100]
  {
    Weights();
    BigEndianDigit(v, 2, 0);
    BigEndianDigit(v, 2, 1);
  }

  lemma FourDigits(v: nat)
    requires v < 0x1_0000_0000
    ensures BigEndian(v, 4) == [v / 0x100_0000, v / 0x1_0000 % 0x100, v / 0x100 % 0x100, v % 0x100]
  {
    Weights();
    forall i | 0 <= i < 4
      ensures BigEndian(v, 4)[i] == v / Pow256(3 - i) % 0x100
    {
      BigEndianDigit(v, 4, i);
    }
    assert BigEndian(v, 4)[0] == v / 0x100_0000 % 0x100;
  }

  lemma EightDigits(v: uint64)
    ensures |BigEndian(v, 8)| == 8
    ensures BigEndian(v, 8)[0] == v / 0x100_0000_0000_0000 && BigEndian(v, 8)[1] == v / 0x1_0000_0000_0000 % 0x100
    ensures BigEndian(v, 8)[2] == v / 0x100_0000_0000 % 0x100 && BigEndian(v, 8)[3] == v / 0x1_0000_0000 % 0x100
    ensures BigEndian(v, 8)[4..] == BigEndian(v % 0x1_0000_0000, 4)
  {
    Weights();
    forall i | 0 <= i < 8
      ensures BigEndian(v, 8)[i] == v / Pow256(7 - i) % 0x100
    {
      BigEndianDigit(v, 8, i);
    }
    assert BigEndian(v, 8)[0] == v / 0x100_0000_0000_0000 % 0x100;
    assert v / 0x100_0000_0000_0000 < 0x100;
    LowDigits(v, 4, 4);
  }

  /** The last k digits are those of the remainder. */
  lemma {:induction false} LowDigits(v: nat, m: nat, k: nat)
    ensures BigEndian(v, m + k)[m..] == BigEndian(v % Pow256(k), k)
  {
    if k > 0 {
      LowDigits(v / 0x100, m, k - 1);
      SplitModulus(v, 0x100, Pow256(k - 1));
      var r := v % Pow256(k);
      DivModUnique(r, 0x100, v / 0x100 % Pow256(k - 1), v % 0x100);
      var bs := BigEndian(v / 0x100, m + k - 1);
      assert BigEndian(v, m + k) == bs + [v % 0x100];
      assert BigEndian(v, m + k)[m..] == bs[m..] + [v % 0x100];
    }
  }

  // ----- what is written

  lemma NilAndBoolsWritten()
    ensures Encode(Nil) == [0xC0] && Encode(Bool(false)) == [0xC2] && Encode(Bool(true)) == [0xC3]
  {
  }

  lemma UnsignedWritten(u: uint64)
    ensures u < 0x80 ==> Encode(Unsigned(u)) == [u]
    ensures 0x80 <= u < 0xFF ==> Encode(Unsigned(u)) == [0xCC, u]
    ensures 0xFF <= u < 0x1_0000 ==> Encode(Unsigned(u)) == [0xCD, u / 0x100, u % 0x100]
    ensures 0x1_0000 <= u < 0x1_0000_0000 ==>
              Encode(Unsigned(u)) == [0xCE, u / 0x100_0000, u / 0x1_0000 % 0x100, u / 0x100 % 0x100, u % 0x100]
    ensures 0x1_0000_0000 <= u ==> Encode(Unsigned(u)) == [0xCF] + BigEndian(u, 8)
  {
    if 0xFF <= u < 0x1_0000 {
      TwoDigits(u);
    } else if 0x1_0000 <= u < 0x1_0000_0000 {
      FourDigits(u);
    }
  }

  lemma TwoOfMany(bits: nat, v: nat)
    requires v < 0x1_0000 && bits % 0x1_0000 == v
    ensures BigEndian(bits, 2) == [v / 0x100, v % 0x100]
  {
    Weights();
    LowDigits(bits, 0, 2);
    assert BigEndian(bits, 2)[0..] == BigEndian(bits, 2);
    TwoDigits(v);
  }

  lemma FourOfMany(bits: nat, v: nat)
    requires v < 0x1_0000_0000 && bits % 0x1_0000_0000 == v
    ensures BigEndian(bits, 4) == BigEndian(v, 4)
  {
    Weights();
    LowDigits(bits, 0, 4);
    assert BigEndian(bits, 4)[0..] == BigEndian(bits, 4);
  }

  lemma Wraps(i: int)
    ensures -0x8000 <= i < 0 ==> (0x1_0000_0000_0000_0000 + i) % 0x1_0000 == 0x1_0000 + i
    ensures -0x8000_0000 <= i < 0 ==> (0x1_0000_0000_0000_0000 + i) % 0x1_0000_0000 == 0x1_0000_0000 + i
    ensures -0x100 <= i < 0 ==> (0x1_0000_0000_0000_0000 + i) % 0x100 == 0x100 + i
  {
  }

  /** Signed numbers: like unsigned ones from 0 on, and otherwise two's complement of one, two, four or eight bytes. */
  lemma SignedWritten(i: int64)
    ensures i >= 0 ==> Encode(Signed(i)) == Encode(Unsigned(i))
    ensures -32 <= i < 0 ==> Encode(Signed(i)) == [0x100 + i]
    ensures -0x80 < i < -32 ==> Encode(Signed(i)) == [0xD0, 0x100 + i]
    ensures -0x8000 <= i <= -0x80 ==> Encode(Signed(i)) == [0xD1, (0x1_0000 + i) / 0x100, (0x1_0000 + i) % 0x100]
    ensures -0x8000_0000 <= i < -0x8000 ==> Encode(Signed(i)) == [0xD2] + BigEndian(0x1_0000_0000 + i, 4)
    ensures i < -0x8000_0000 ==> Encode(Signed(i)) == [0xD3] + BigEndian(0x1_0000_0000_0000_0000 + i, 8)
  {
    Wraps(i);
    if -0x8000 <= i <= -0x80 {
      TwoOfMany(0x1_0000_0000_0000_0000 + i, 0x1_0000 + i);
    } else if -0x8000_0000 <= i < -0x8000 {
      FourOfMany(0x1_0000_0000_0000_0000 + i, 0x1_0000_0000 + i);
    }
  }

  lemma StringHeaderWritten(n: nat)
    requires n <= UINT32_MAX
    ensures n < 0x20 ==> StringHeader(n) == [0xA0 + n]
    ensures 0x20 <= n < 0xFF ==> StringHeader(n) == [0xD9, n]
    ensures 0xFF <= n < 0xFFFF ==> StringHeader(n) == [0xDA, n / 0x100, n % 0x100]
    ensures 0xFFFF <= n ==> StringHeader(n) == [0xDB] + BigEndian(n, 4)
  {
    if 0xFF <= n < 0xFFFF {
      TwoDigits(n);
    }
  }

  lemma ArrayHeaderWritten(n: nat)
    requires n <= UINT32_MAX
    ensures n < 0x10 ==> ArrayHeader(n) == [0x90 + n]
    ensures 0x10 <= n < 0xFFFF ==> ArrayHeader(n) == [0xDC, n / 0x100, n % 0x100]
    ensures 0xFFFF <= n ==> ArrayHeader(n) == [0xDD] + BigEndian(n, 4)
  {
    if 0x10 <= n < 0xFFFF {
      TwoDigits(n);
    }
  }

  lemma MapHeaderWritten(n: nat)
    requires n <= UINT32_MAX
    ensures n < 0x10 ==> DictHeader(n) == [0x80 + n]
    ensures 0x10 <= n < 0xFFFF ==> DictHeader(n) == [0xDE, n / 0x100, n % 0x100]
    ensures 0xFFFF <= n ==> DictHeader(n) == [0xDF] + BigEndian(n, 4)
  {
    if 0x10 <= n < 0xFFFF {
      TwoDigits(n);
    }
  }

  /** A string is its length and its bytes; arrays and maps are their count and their elements, keys before values. */
  lemma CompoundsWritten(s: Bytes, items: seq<Obj>, entries: seq<Entry>)
    ensures Encode(Str(s)) == StringHeader(|s|) + s
    ensures Encode(Arr(items)) == ArrayHeader(|items|) + EncodeAll(items)
    ensures Encode(Dict(entries)) == DictHeader(|entries|) + EncodeEntries(entries)
  {
  }

  lemma ElementsWritten(o: Obj, items: seq<Obj>, e: Entry, entries: seq<Entry>)
    ensures EncodeAll([]) == [] && EncodeEntries([]) == []
    ensures EncodeAll([o] + items) == Encode(o) + EncodeAll(items)
    ensures EncodeEntries([e] + entries) == Encode(e.key) + Encode(e.value) + EncodeEntries(entries)
  {
    assert ([o] + items)[1..] == items && ([e] + entries)[1..] == entries;
  }

  // ----- what is read, also in forms the encoder never chooses

  lemma NilAndBoolsRead(rest: seq<byte>)
    ensures Decode([0xC0] + rest) == Done(Nil, rest)
    ensures Decode([0xC2] + rest) == Done(Bool(false), rest) && Decode([0xC3] + rest) == Done(Bool(true), rest)
  {
    assert ([0xC0] + rest)[1..] == rest && ([0xC2] + rest)[1..] == rest && ([0xC3] + rest)[1..] == rest;
  }

  lemma {:induction false} ReadDigits(bs: seq<byte>, rest: seq<byte>)
    ensures TakeNumber(bs + rest, |bs|) == Done(FromBigEndian(bs), rest)
  {
    assert (bs + rest)[..|bs|] == bs && (bs + rest)[|bs|..] == rest;
  }

  lemma TwoRead(a: byte, b: byte)
    ensures FromBigEndian([a, b]) == 0x100 * a + b && FromBigEndian([a]) == a
  {
    assert [a, b][..1] == [a] && [a][..0] == [];
  }

  lemma FourRead(a: byte, b: byte, c: byte, d: byte)
    ensures FromBigEndian([a, b, c, d]) == 0x100_0000 * a + 0x1_0000 * b + 0x100 * c + d
  {
    TwoRead(a, b);
    assert [a, b, c, d][..3] == [a, b, c] && [a, b, c][..2] == [a, b];
    assert FromBigEndian([a, b, c]) == 0x100 * FromBigEndian([a, b]) + c;
  }

  lemma UnsignedRead(a: byte, b: byte, rest: seq<byte>)
    ensures a < 0x80 ==> Decode([a] + rest) == Done(Unsigned(a), rest)
    ensures Decode([0xCC, a] + rest) == Done(Unsigned(a), rest)
    ensures Decode([0xCD, a, b] + rest) == Done(Unsigned(0x100 * a + b), rest)
  {
    TwoRead(a, b);
    ReadDigits([a], rest);
    ReadDigits([a, b], rest);
    assert ([a] + rest)[1..] == rest;
    assert ([0xCC, a] + rest)[1..] == [a] + rest;
    assert ([0xCD, a, b] + rest)[1..] == [a, b] + rest;
  }

  lemma WideUnsignedRead(a: byte, b: byte, c: byte, d: byte, rest: seq<byte>)
    ensures Decode([0xCE, a, b, c, d] + rest) == Done(Unsigned(0x100_0000 * a + 0x1_0000 * b + 0x100 * c + d), rest)
  {
    FourRead(a, b, c, d);
    ReadDigits([a, b, c, d], rest);
    assert ([0xCE, a, b, c, d] + rest)[1..] == [a, b, c, d] + rest;
  }

  lemma LongUnsignedRead(bs: seq<byte>, rest: seq<byte>)
    requires |bs| == 8
    ensures Decode([0xCF] + bs + rest) == Done(Unsigned(FromBigEndian(bs)), rest)
  {
    ReadDigits(bs, rest);
    assert ([0xCF] + bs + rest)[1..] == bs + rest;
  }

  /** The digits of a signed form with all the bits above them set, even if they begin with a clear bit. */
  lemma SignedRead(a: byte, b: byte, rest: seq<byte>)
    ensures 0xE0 <= a ==> Decode([a] + rest) == Done(Signed(a - 0x100), rest)
    ensures Decode([0xD0, a] + rest) == Done(Signed(-0x100), rest)
    ensures Decode([0xD1, a, b] + rest) == Done(Signed(0x100 * a + b - 0x1_0000), rest)
  {
    TwoRead(a, b);
    ReadDigits([a], rest);
    ReadDigits([a, b], rest);
    assert ([a] + rest)[1..] == rest;
    assert ([0xD0, a] + rest)[1..] == [a] + rest;
    assert ([0xD1, a, b] + rest)[1..] == [a, b] + rest;
    SignBits(0x100 * a + b - 0x1_0000, 16, 0x1_0000);
    DigitIsLost(0xD0, [a] + rest);
    assert ([a] + rest)[1..] == rest;
    if 0xE0 <= a {
      SignBits(a - 0x100, 5, 0x20);
    }
  }

  lemma WideSignedRead(a: byte, b: byte, c: byte, d: byte, rest: seq<byte>)
    ensures Decode([0xD2, a, b, c, d] + rest)
         == Done(Signed(0x100_0000 * a + 0x1_0000 * b + 0x100 * c + d - 0x1_0000_0000), rest)
  {
    FourRead(a, b, c, d);
    ReadDigits([a, b, c, d], rest);
    assert ([0xD2, a, b, c, d] + rest)[1..] == [a, b, c, d] + rest;
    SignBits(0x100_0000 * a + 0x1_0000 * b + 0x100 * c + d - 0x1_0000_0000, 32, 0x1_0000_0000);
  }

  lemma WidestSignedRead(bs: seq<byte>, rest: seq<byte>)
    requires |bs| == 8
    ensures var v := FromBigEndian(bs);
            Decode([0xD3] + bs + rest) == Done(Signed(if v < 0x8000_0000_0000_0000 then v else v - 0x1_0000_0000_0000_0000), rest)
  {
    ReadDigits(bs, rest);
    Weights();
    assert Pow256(8) == 0x1_0000_0000_0000_0000;
    assert ([0xD3] + bs + rest)[1..] == bs + rest;
  }

  /** Lengths of strings, arrays and maps. */
  lemma ShortSizesRead(a: byte, rest: seq<byte>)
    ensures 0xA0 <= a < 0xC0 ==> Identify(a).Some? && Identify(a).value.group == GString && TakeSize(a, rest) == Done(a - 0xA0, rest)
    ensures 0x90 <= a < 0xA0 ==> Identify(a).Some? && Identify(a).value.group == GArray && TakeSize(a, rest) == Done(a - 0x90, rest)
    ensures 0x80 <= a < 0x90 ==> Identify(a).Some? && Identify(a).value.group == GMap && TakeSize(a, rest) == Done(a - 0x80, rest)
  {
  }

  lemma SizesRead(a: byte, b: byte, rest: seq<byte>)
    ensures TakeSize(0xD9, [a] + rest) == Done(a, rest)
    ensures TakeSize(0xDA, [a, b] + rest) == TakeSize(0xDC, [a, b] + rest) == TakeSize(0xDE, [a, b] + rest) == Done(0x100 * a + b, rest)
  {
    TwoRead(a, b);
    ReadDigits([a], rest);
    ReadDigits([a, b], rest);
  }

  lemma WideSizesRead(a: byte, b: byte, c: byte, d: byte, rest: seq<byte>)
    ensures TakeSize(0xDB, [a, b, c, d] + rest) == TakeSize(0xDD, [a, b, c, d] + rest) == TakeSize(0xDF, [a, b, c, d] + rest)
         == Done(0x100_0000 * a + 0x1_0000 * b + 0x100 * c + d, rest)
  {
    FourRead(a, b, c, d);
    ReadDigits([a, b, c, d], rest);
  }

  /** Extensions: a tag and as many bytes as the first byte or the length behind it says, eight at most. */
  lemma FixedExtensionRead(first: byte, tag: byte, payload: seq<byte>, rest: seq<byte>)
    requires (first == 0xD4 && |payload| == 1) || (first == 0xD5 && |payload| == 2)
          || (first == 0xD6 && |payload| == 4) || (first == 0xD7 && |payload| == 8)
    ensures Decode([first, tag] + payload + rest) == Done(Ext(tag, payload), rest)
  {
    var body := payload + rest;
    assert body[..|payload|] == payload && body[|payload|..] == rest;
    assert ([first, tag] + payload + rest)[1..] == [tag] + body && ([tag] + body)[1..] == body;
  }

  lemma ExtensionRead(tag: byte, payload: seq<byte>, rest: seq<byte>)
    requires |payload| <= 8
    ensures Decode([0xC7, |payload|, tag] + payload + rest) == Done(Ext(tag, payload), rest)
  {
    var body := payload + rest;
    assert body[..|payload|] == payload && body[|payload|..] == rest;
    assert ([tag] + body)[1..] == body;
    assert ([0xC7, |payload|, tag] + payload + rest)[1..] == [|payload|] + ([tag] + body);
    TwoRead(|payload|, 0);
    ReadDigits([|payload|], [tag] + body);
  }

  /** First bytes that no row of the table covers, and those of binary strings. */
  lemma FaultsRead(rest: seq<byte>)
    ensures forall ch: byte :: ch in {0xC1, 0xC8, 0xC9, 0xCA, 0xCB, 0xD8} <==> Identify(ch).None?
    ensures forall ch: byte :: ch in {0xC4, 0xC5, 0xC6} ==> Decode([ch] + rest) == Fail(BinFormat)
    ensures forall ch: byte :: ch in {0xC1, 0xC8, 0xC9, 0xCA, 0xCB, 0xD8} ==> Decode([ch] + rest) == Fail(UnknownByte)
  {
    forall ch: byte
      ensures ([ch] + rest)[0] == ch
    {
    }
  }
}
