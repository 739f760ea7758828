/**
 The format language of mpack_encode_fmt: what its two passes do to a string, character by character,
 and the tree a balanced format denotes over its argument source.
 */
module Format {
  import opened Bits
  import opened Wrappers
  import opened Mpack

  /**
   Everything that ends the process. BadArgument stands for a draw that is undefined in C: an
   exhausted list, an argument of another type, or a sub-array that is not there.
   */
  datatype Failure =
    | IllegalCharacter
    | UnbalancedClose
    | Unclosed
    | ManyItems
    | OddDictionary
    | TooBig
    | BadArgument
    | BadSource

  // ----- arguments

  /** One variadic argument. */
  datatype VArg =
    | VInt(i: int32)
    | VLong(l: int64)
    | VULong(u: uint64)
    | VStr(str: Option<Bytes>)
    | VChars(chars: Bytes)
    | VList(list: seq<VArg>)
    | VArrays(arrays: seq<seq<UArg>>)

  /** One slot of an argument array, by the union member that was stored. */
  datatype UArg =
    | UBool(b: bool)
    | UNum(num: int64)
    | UUint(uint: uint64)
    | UStr(str: Option<Bytes>)
    | UChars(chars: Bytes)

  /** Where the next argument comes from: the rest of a variadic list, or a position in an array of arrays. */
  datatype Source =
    | VaList(rest: seq<VArg>)
    | Arrays(arrays: seq<seq<UArg>>, ctr: nat, subctr: nat)

  /** Conversion of a 64-bit number to a 32-bit int: the one congruent number that fits, so one that fits already is kept. */
  function ToInt32(n: int64): (r: int32)
    ensures (n - r) % 0x1_0000_0000 == 0
    ensures -0x8000_0000 <= n < 0x8000_0000 ==> r == n
  {
    var low := n % 0x1_0000_0000;
    if low < 0x8000_0000 then low else low - 0x1_0000_0000
  }

  function Text(s: Option<Bytes>): Bytes {
    if s.Some? then s.value else []
  }

  function FromVariadic(c: char, a: VArg): Option<Obj> {
    match Lower(c)
    case 'b' => if a.VInt? then Some(Bool(a.i != 0)) else None
    case 'd' => if a.VInt? then Some(Signed(a.i)) else None
    case 'l' => if a.VLong? then Some(Signed(a.l)) else None
    case 'u' => if a.VULong? then Some(Unsigned(a.u)) else None
    case 's' => if a.VStr? then Some(Str(Text(a.str))) else None
    case 'c' => if a.VChars? then Some(Str(a.chars)) else None
    case _ => None
  }

  function FromUnion(c: char, a: UArg): Option<Obj> {
    match Lower(c)
    case 'b' => if a.UBool? then Some(Bool(a.b)) else None
    case 'd' => if a.UNum? then Some(Signed(ToInt32(a.num))) else None
    case 'l' => if a.UNum? then Some(Signed(a.num)) else None
    case 'u' => if a.UUint? then Some(Unsigned(a.uint)) else None
    case 's' => if a.UStr? then Some(Str(Text(a.str))) else None
    case 'c' => if a.UChars? then Some(Str(a.chars)) else None
    case _ => None
  }

  /** The argument a source offers next, read as c asks. */
  function Offered(c: char, src: Source): Option<Obj> {
    match src
    case VaList(rest) => if |rest| > 0 then FromVariadic(c, rest[0]) else None
    case Arrays(arrays, ctr, subctr) =>
      if ctr < |arrays| && subctr < |arrays[ctr]| then FromUnion(c, arrays[ctr][subctr]) else None
  }

  function Advanced(src: Source): Source {
    match src
    case VaList(rest) => if |rest| > 0 then VaList(rest[1..]) else src
    case Arrays(arrays, ctr, subctr) => Arrays(arrays, ctr, subctr + 1)
  }

  /** A value and the source left after drawing it. */
  datatype Drawn = Drawn(obj: Obj, src: Source)

  function Draw(c: char, src: Source): Result<Drawn, Failure> {
    if Lower(c) == 'n' then Ok(Drawn(Nil, src)) else
    match Offered(c, src)
    case None => Err(BadArgument)
    case Some(o) => Ok(Drawn(o, Advanced(src)))
  }

  /** The source after a mark; only the three switches change it. */
  function Switched(c: char, src: Source): Result<Source, Failure> {
    if c == '!' then
      if src.Arrays? then Err(BadSource)
      else if |src.rest| > 0 && src.rest[0].VList? then Ok(VaList(src.rest[0].list))
      else Err(BadArgument)
    else if c == '@' then
      if src.Arrays? then Err(BadSource)
      else if |src.rest| > 0 && src.rest[0].VArrays? && |src.rest[0].arrays| > 0 then Ok(Arrays(src.rest[0].arrays, 0, 0))
      else Err(BadArgument)
    else if c == '*' then
      if src.Arrays? then Ok(Arrays(src.arrays, src.ctr + 1, 0)) else Err(BadSource)
    else Ok(src)
  }

  // ----- characters

  function Lower(c: char): char {
    if 'A' <= c <= 'Z' then (c as int + 32) as char else c
  }

  predicate IsLeaf(c: char) { Lower(c) in {'b', 'l', 'd', 's', 'n', 'c', 'u'} }

  predicate IsOpen(c: char) { c == '[' || c == '{' }

  predicate IsClose(c: char) { c == ']' || c == '}' }

  predicate IsMark(c: char) { c in {';', ':', '.', ' ', ',', '!', '@', '*'} }

  // ----- the first pass: count the elements of every bracket, in opening order

  /** Element counts so far, the bracket being counted, and the brackets around it. */
  datatype Count = Count(lens: seq<nat>, cur: nat, stack: seq<nat>) {
    ghost predicate Valid() {
      cur < |lens| && forall k :: 0 <= k < |stack| ==> stack[k] < |lens|
    }
  }

  function CountStep(st: Count, c: char): (r: Result<Count, Failure>)
    requires st.Valid()
    ensures r.Ok? ==> r.value.Valid()
  {
    if IsLeaf(c) then Ok(st.(lens := st.lens[st.cur := st.lens[st.cur] + 1]))
    else if IsOpen(c) then
      Ok(Count(st.lens[st.cur := st.lens[st.cur] + 1] + [0], |st.lens|, st.stack + [st.cur]))
    else if IsClose(c) then
      if |st.stack| == 0 then Err(UnbalancedClose)
      else Ok(Count(st.lens, st.stack[|st.stack| - 1], st.stack[..|st.stack| - 1]))
    else if IsMark(c) then Ok(st)
    else Err(IllegalCharacter)
  }

  function CountRun(st: Count, fmt: string): (r: Result<Count, Failure>)
    requires st.Valid()
    ensures r.Ok? ==> r.value.Valid()
    decreases |fmt|
  {
    if |fmt| == 0 then Ok(st) else
    match CountStep(st, fmt[0])
    case Err(e) => Err(e)
    case Ok(next) => CountRun(next, fmt[1..])
  }

  const COUNT_START := Count([0], 0, [])

  function PassOne(fmt: string): (r: Result<seq<nat>, Failure>)
    ensures r.Ok? ==> |r.value| > 0
  {
    match CountRun(COUNT_START, fmt)
    case Err(e) => Err(e)
    case Ok(st) =>
      if |st.stack| != 0 then Err(Unclosed)
      else if st.lens[0] > 1 then Err(ManyItems)
      else Ok(st.lens)
  }

  // ----- the second pass: emit headers from the counts, values from the source

  datatype Emit = Emit(lenCtr: nat, depth: nat, src: Source, out: seq<byte>)

  function EmitStep(lens: seq<nat>, st: Emit, c: char): Result<Emit, Failure> {
    if IsLeaf(c) then
      match Draw(c, st.src)
      case Err(e) => Err(e)
      case Ok(drawn) => Ok(st.(src := drawn.src, out := st.out + Encode(drawn.obj)))
    else if IsOpen(c) then
      if st.lenCtr >= |lens| then Err(UnbalancedClose)
      else if c == '[' then
        if lens[st.lenCtr] >= UINT32_MAX then Err(TooBig)
        else Ok(Emit(st.lenCtr + 1, st.depth + 1, st.src, st.out + ArrayHeader(lens[st.lenCtr])))
      else if lens[st.lenCtr] % 2 == 1 then Err(OddDictionary)
      else if lens[st.lenCtr] / 2 >= UINT32_MAX then Err(TooBig)
      else Ok(Emit(st.lenCtr + 1, st.depth + 1, st.src, st.out + DictHeader(lens[st.lenCtr] / 2)))
    else if IsClose(c) then
      if st.depth == 0 then Err(UnbalancedClose) else Ok(st.(depth := st.depth - 1))
    else if IsMark(c) then
      match Switched(c, st.src)
      case Err(e) => Err(e)
      case Ok(src) => Ok(st.(src := src))
    else Err(IllegalCharacter)
  }

  function EmitRun(lens: seq<nat>, st: Emit, fmt: string): Result<Emit, Failure>
    decreases |fmt|
  {
    if |fmt| == 0 then Ok(st) else
    match EmitStep(lens, st, fmt[0])
    case Err(e) => Err(e)
    case Ok(next) => EmitRun(lens, next, fmt[1..])
  }

  /** Both passes. A format without elements yields no pack at all. */
  function Compile(fmt: string, args: seq<VArg>): Result<Option<seq<byte>>, Failure> {
    match PassOne(fmt)
    case Err(e) => Err(e)
    case Ok(lens) =>
      if lens[0] == 0 then Ok(None) else
      match EmitRun(lens, Emit(1, 1, VaList(args), []), fmt)
      case Err(e) => Err(e)
      case Ok(st) => Ok(Some(st.out))
  }

  // ----- formats as trees

  /** A balanced format. The passes never compare a closing character with its opening one. */
  datatype Item =
    | Leaf(c: char)
    | Mark(c: char)
    | Group(open: char, items: seq<Item>, close: char)

  predicate WellFormedItem(item: Item)
    decreases item, 0
  {
    match item
    case Leaf(c) => IsLeaf(c)
    case Mark(c) => IsMark(c)
    case Group(open, items, close) => IsOpen(open) && IsClose(close) && WellFormed(items)
  }

  predicate WellFormed(items: seq<Item>)
    decreases items, 1
  {
    |items| > 0 ==> WellFormedItem(items[0]) && WellFormed(items[1..])
  }

  function ShowItem(item: Item): (s: string)
    ensures |s| > 0
    decreases item, 0
  {
    match item
    case Leaf(c) => [c]
    case Mark(c) => [c]
    case Group(open, items, close) => [open] + Show(items) + [close]
  }

  function Show(items: seq<Item>): string
    decreases items, 1
  {
    if |items| == 0 then "" else ShowItem(items[0]) + Show(items[1..])
  }

  /** Number of values among the items of one bracket. */
  function Elements(items: seq<Item>): nat {
    if |items| == 0 then 0 else (if items[0].Mark? then 0 else 1) + Elements(items[1..])
  }

  /** Element counts of the brackets inside, in opening order. */
  function InnerItem(item: Item): seq<nat>
    decreases item, 0
  {
    if item.Group? then [Elements(item.items)] + Inner(item.items) else []
  }

  function Inner(items: seq<Item>): seq<nat>
    decreases items, 1
  {
    if |items| == 0 then [] else InnerItem(items[0]) + Inner(items[1..])
  }

  /** The values a format denotes, and the source they leave. */
  datatype Meaning = Meaning(objs: seq<Obj>, src: Source)

  /** An array, or a dictionary of consecutive key and value pairs. */
  function Container(open: char, objs: seq<Obj>): Obj
    requires open == '[' || |objs| % 2 == 0
  {
    if open == '[' then Arr(objs) else Dict(Paired(objs))
  }

  function DenoteItem(item: Item, src: Source): (r: Result<Meaning, Failure>)
    ensures r.Ok? ==> |r.value.objs| == if item.Mark? then 0 else 1
    decreases item, 0
  {
    match item
    case Leaf(c) =>
      (match Draw(c, src)
       case Err(e) => Err(e)
       case Ok(drawn) => Ok(Meaning([drawn.obj], drawn.src)))
    case Mark(c) =>
      (match Switched(c, src)
       case Err(e) => Err(e)
       case Ok(next) => Ok(Meaning([], next)))
    case Group(open, items, _) =>
      if open != '[' && Elements(items) % 2 == 1 then Err(OddDictionary) else
      match Denote(items, src)
      case Err(e) => Err(e)
      case Ok(m) => Ok(Meaning([Container(open, m.objs)], m.src))
  }

  /** Values left to right, each drawing from the source the one before it left. */
  function Denote(items: seq<Item>, src: Source): (r: Result<Meaning, Failure>)
    ensures r.Ok? ==> |r.value.objs| == Elements(items)
    decreases items, 1
  {
    if |items| == 0 then Ok(Meaning([], src)) else
    match DenoteItem(items[0], src)
    case Err(e) => Err(e)
    case Ok(first) =>
      match Denote(items[1..], first.src)
      case Err(e) => Err(e)
      case Ok(others) => Ok(Meaning(first.objs + others.objs, others.src))
  }
}
