/** The reader as the program runs it: every read advances the buffer in place. */
module Reader {
  import opened Bits
  import opened Wrappers
  import opened Mpack
  import opened Reading

  /** A finished list prepended to the list still to be parsed. */
  function Prepend<T>(done: seq<T>, p: Parse<seq<T>>): Parse<seq<T>> {
    match p
    case Fail(why) => p
    case Done(others, rest) => Done(done + others, rest)
  }

  lemma PrependNothing<T>(p: Parse<seq<T>>)
    ensures Prepend([], p) == p
  {
    if p.Done? {
      assert [] + p.value == p.value;
    }
  }

  /** Messages already read, in front of those still in the buffer. */
  function Append(read: seq<Obj>, r: Result<seq<Obj>, Fault>): Result<seq<Obj>, Fault> {
    match r
    case Err(why) => r
    case Ok(others) => Ok(read + others)
  }

  lemma AppendNothing(r: Result<seq<Obj>, Fault>)
    ensures Append([], r) == r
  {
    if r.Ok? {
      assert [] + r.value == r.value;
    }
  }

  lemma AppendStep(read: seq<Obj>, data: seq<byte>)
    requires |data| > 0 && DecodeMessage(data).Done?
    ensures Append(read, DecodeStream(data))
         == Append(read + [DecodeMessage(data).value], DecodeStream(DecodeMessage(data).rest))
  {
    var first := DecodeMessage(data).value;
    var others := DecodeStream(DecodeMessage(data).rest);
    if others.Ok? {
      assert read + ([first] + others.value) == read + [first] + others.value;
    }
  }

  /** A fatal result has the parse's fault; otherwise the value was returned and the buffer holds the rest. */
  predicate Agrees<T(==)>(r: Result<T, Fault>, data: seq<byte>, p: Parse<T>) {
    match p
    case Fail(why) => r == Err(why)
    case Done(value, rest) => r == Ok(value) && data == rest
  }

  lemma DecodeManyStep(done: seq<Obj>, data: seq<byte>, count: nat)
    requires count > 0 && Decode(data).Done?
    ensures Prepend(done, DecodeMany(data, count))
         == Prepend(done + [Decode(data).value], DecodeMany(Decode(data).rest, count - 1))
  {
    var first := Decode(data).value;
    var others := DecodeMany(Decode(data).rest, count - 1);
    if others.Done? {
      assert done + ([first] + others.value) == done + [first] + others.value;
    }
  }

  lemma DecodeEntriesStep(done: seq<Entry>, data: seq<byte>, count: nat)
    requires count > 0 && DecodeEntry(data).Done?
    ensures Prepend(done, DecodeEntries(data, count))
         == Prepend(done + [DecodeEntry(data).value], DecodeEntries(DecodeEntry(data).rest, count - 1))
  {
    var first := DecodeEntry(data).value;
    var others := DecodeEntries(DecodeEntry(data).rest, count - 1);
    if others.Done? {
      assert done + ([first] + others.value) == done + [first] + others.value;
    }
  }

  class Reader {
    /** The unread bytes. */
    var data: seq<byte>

    constructor (bytes: seq<byte>)
      ensures data == bytes
    {
      data := bytes;
    }

    /** Exactly n bytes, or the fatal error for a buffer without a complete object. */
    method Read(n: nat) returns (r: Result<seq<byte>, Fault>)
      modifies this
      ensures Agrees(r, data, Take(old(data), n))
    {
      if |data| < n {
        return Err(ShortBuffer);
      }
      r := Ok(data[..n]);
      data := data[n..];
    }

    method ReadNumber(width: nat) returns (r: Result<nat, Fault>)
      modifies this
      ensures Agrees(r, data, TakeNumber(old(data), width))
    {
      var digits := Read(width);
      if digits.Err? {
        return Err(digits.error);
      }
      r := Ok(FromBigEndian(digits.value));
    }

    method ReadSize(ch: byte) returns (r: Result<nat, Fault>)
      requires Identify(ch).Some? && Identify(ch).value.group in {GArray, GMap, GString}
      modifies this
      ensures Agrees(r, data, TakeSize(ch, old(data)))
    {
      if Identify(ch).value.fixed {
        r := Ok(FixedValue(ch));
      } else if ch == M_STR_8 {
        r := ReadNumber(1);
      } else if ch == M_STR_16 || ch == M_ARRAY_16 || ch == M_MAP_16 {
        r := ReadNumber(2);
      } else {
        r := ReadNumber(4);
      }
    }

    /** The parser entry point: reads one object and leaves the buffer after it. */
    method DoDecode() returns (r: Result<Obj, Fault>)
      modifies this
      ensures Agrees(r, data, Decode(old(data)))
      decreases |data|, 0
    {
      var head := Read(1);
      if head.Err? {
        return Err(head.error);
      }
      var ch := head.value[0];
      var mask := IdPackType(ch);
      if mask.None? {
        return Err(UnknownByte);
      }
      match mask.value.group
      case GNil => r := Ok(Nil);
      case GBool => r := Ok(Bool(ch == M_TRUE));
      case GArray => r := DecodeArray(ch);
      case GMap => r := DecodeDictionary(ch);
      case GString => r := DecodeString(ch);
      case GExt => r := DecodeExt(ch);
      case GNlint => r := DecodeInteger(ch);
      case GInt => r := DecodeInteger(ch);
      case GPlint => r := DecodeUnsigned(ch);
      case GUint => r := DecodeUnsigned(ch);
      case GBin => r := Err(BinFormat);
    }

    method DecodeArray(ch: byte) returns (r: Result<Obj, Fault>)
      requires Identify(ch).Some? && Identify(ch).value.group == GArray
      modifies this
      ensures Agrees(r, data, Decode([ch] + old(data)))
      decreases |data|, 4
    {
      assert ([ch] + data)[1..] == data;
      var size := ReadSize(ch);
      if size.Err? {
        return Err(size.error);
      }
      var lst := FillArray(size.value);
      r := if lst.Err? then Err(lst.error) else Ok(Arr(lst.value));
    }

    method FillArray(max: nat) returns (r: Result<seq<Obj>, Fault>)
      modifies this
      ensures Agrees(r, data, DecodeMany(old(data), max))
      decreases |data|, 3
    {
      ghost var start := data;
      var lst: seq<Obj> := [];
      PrependNothing(DecodeMany(start, max));
      for i := 0 to max
        invariant |data| <= |start|
        invariant Prepend(lst, DecodeMany(data, max - i)) == DecodeMany(start, max)
      {
        ghost var before := data;
        var item := DoDecode();
        if item.Err? {
          return Err(item.error);
        }
        DecodeManyStep(lst, before, max - i);
        lst := lst + [item.value];
      }
      assert lst + [] == lst;
      r := Ok(lst);
    }

    method DecodeDictionary(ch: byte) returns (r: Result<Obj, Fault>)
      requires Identify(ch).Some? && Identify(ch).value.group == GMap
      modifies this
      ensures Agrees(r, data, Decode([ch] + old(data)))
      decreases |data|, 4
    {
      assert ([ch] + data)[1..] == data;
      var size := ReadSize(ch);
      if size.Err? {
        return Err(size.error);
      }
      var lst := FillDictionary(size.value);
      r := if lst.Err? then Err(lst.error) else Ok(Dict(lst.value));
    }

    method FillDictionary(max: nat) returns (r: Result<seq<Entry>, Fault>)
      modifies this
      ensures Agrees(r, data, DecodeEntries(old(data), max))
      decreases |data|, 3
    {
      ghost var start := data;
      var lst: seq<Entry> := [];
      PrependNothing(DecodeEntries(start, max));
      for i := 0 to max
        invariant |data| <= |start|
        invariant Prepend(lst, DecodeEntries(data, max - i)) == DecodeEntries(start, max)
      {
        ghost var before := data;
        var entry := DecodeDictEntry();
        if entry.Err? {
          return Err(entry.error);
        }
        DecodeEntriesStep(lst, before, max - i);
        lst := lst + [entry.value];
      }
      assert lst + [] == lst;
      r := Ok(lst);
    }

    /** One turn of the dictionary loop: the key, then the value. */
    method DecodeDictEntry() returns (r: Result<Entry, Fault>)
      modifies this
      ensures Agrees(r, data, DecodeEntry(old(data)))
      decreases |data|, 1
    {
      var key := DoDecode();
      if key.Err? {
        return Err(key.error);
      }
      var value := DoDecode();
      if value.Err? {
        return Err(value.error);
      }
      r := Ok(Entry(key.value, value.value));
    }

    method DecodeString(ch: byte) returns (r: Result<Obj, Fault>)
      requires Identify(ch).Some? && Identify(ch).value.group == GString
      modifies this
      ensures Agrees(r, data, Decode([ch] + old(data)))
    {
      assert ([ch] + data)[1..] == data;
      var size := ReadSize(ch);
      if size.Err? {
        return Err(size.error);
      }
      var text := Read(size.value);
      if text.Err? {
        return Err(text.error);
      }
      r := Ok(Str(text.value));
    }

    method DecodeInteger(ch: byte) returns (r: Result<Obj, Fault>)
      requires Identify(ch).Some? && Identify(ch).value.group in {GInt, GNlint}
      modifies this
      ensures Agrees(r, data, Decode([ch] + old(data)))
    {
      assert ([ch] + data)[1..] == data;
      var value: nat := 0;
      if Identify(ch).value.fixed {
        value := Or(FixedValue(ch), 0xFFFF_FFFF_FFFF_FFE0);
      } else {
        var digits := ReadNumber(if ch == M_INT_8 then 1 else if ch == M_INT_16 then 2 else if ch == M_INT_32 then 4 else 8);
        if digits.Err? {
          return Err(digits.error);
        }
        if ch == M_INT_8 {
          value := Or(value, SignMask(ch));
        } else if ch == M_INT_64 {
          value := digits.value;
        } else {
          value := Or(digits.value, SignMask(ch));
        }
      }
      r := Ok(Signed(ToInt64(value)));
    }

    method DecodeUnsigned(ch: byte) returns (r: Result<Obj, Fault>)
      requires Identify(ch).Some? && Identify(ch).value.group in {GUint, GPlint}
      modifies this
      ensures Agrees(r, data, Decode([ch] + old(data)))
    {
      assert ([ch] + data)[1..] == data;
      ghost var parsed := TakeUnsigned(ch, data);
      var value: nat := 0;
      if Identify(ch).value.fixed {
        value := FixedValue(ch);
      } else {
        var digits := ReadNumber(if ch == M_UINT_8 then 1 else if ch == M_UINT_16 then 2 else if ch == M_UINT_32 then 4 else 8);
        if digits.Err? {
          return Err(digits.error);
        }
        value := digits.value;
      }
      assert parsed == Done(value, data);
      r := Ok(Unsigned(value));
    }

    method DecodeExt(ch: byte) returns (r: Result<Obj, Fault>)
      requires Identify(ch).Some? && Identify(ch).value.group == GExt
      modifies this
      ensures Agrees(r, data, Decode([ch] + old(data)))
    {
      assert ([ch] + data)[1..] == data;
      var len := if ch == M_FIXEXT_1 then 1 else if ch == M_FIXEXT_2 then 2 else if ch == M_FIXEXT_4 then 4 else 8;
      if ch == M_EXT_8 {
        var given := ReadNumber(1);
        if given.Err? {
          return Err(given.error);
        }
        len := given.value;
      }
      var tag := Read(1);
      if tag.Err? {
        return Err(tag.error);
      }
      if len > 8 {
        return Err(ExtTooLong);
      }
      var payload := Read(len);
      if payload.Err? {
        return Err(payload.error);
      }
      r := Ok(Ext(tag.value[0], payload.value));
    }

    method DecodeObj() returns (r: Result<Obj, Fault>)
      modifies this
      ensures Agrees(r, data, DecodeMessage(old(data)))
    {
      r := DoDecode();
      if r.Ok? && !r.value.Arr? {
        r := Err(NotAnArray);
      }
    }

    /** The pipe's read callback: messages are taken until the buffer is empty. */
    method ReadMessages() returns (r: Result<seq<Obj>, Fault>)
      modifies this
      ensures r == DecodeStream(old(data))
      ensures r.Ok? ==> data == []
    {
      ghost var start := data;
      var messages: seq<Obj> := [];
      AppendNothing(DecodeStream(start));
      while |data| > 0
        invariant Append(messages, DecodeStream(data)) == DecodeStream(start)
        decreases |data|
      {
        ghost var before := data;
        var message := DecodeObj();
        if message.Err? {
          return Err(message.error);
        }
        AppendStep(messages, before);
        messages := messages + [message.value];
      }
      assert messages + [] == messages;
      r := Ok(messages);
    }
  }
}
