/** mpack_encode_fmt as the program runs it: fixed count arrays and stacks, and a cursor over the arguments. */
module Compiler {
  import opened Bits
  import opened Wrappers
  import opened Mpack
  import opened Format

  const STACK_SIZE := 128
  const ENCODE_FMT_ARRSIZE := 128

  /** Room for bracket counts, grown with the caller's size hint. */
  function ArraySize(sizeHint: nat): nat {
    if sizeHint > 0 then ENCODE_FMT_ARRSIZE + sizeHint * 6 else ENCODE_FMT_ARRSIZE
  }

  /** Brackets opened anywhere in a string. */
  function Openings(s: string): nat {
    if |s| == 0 then 0 else Openings(s[..|s| - 1]) + if IsOpen(s[|s| - 1]) then 1 else 0
  }

  /** Brackets opened and not yet closed at the end of a string. */
  function Nesting(s: string): int {
    if |s| == 0 then 0
    else Nesting(s[..|s| - 1]) + if IsOpen(s[|s| - 1]) then 1 else if IsClose(s[|s| - 1]) then -1 else 0
  }

  lemma NextPrefix(s: string, i: nat)
    requires i < |s|
    ensures Openings(s[..i + 1]) == Openings(s[..i]) + if IsOpen(s[i]) then 1 else 0
    ensures Nesting(s[..i + 1]) == Nesting(s[..i]) + if IsOpen(s[i]) then 1 else if IsClose(s[i]) then -1 else 0
  {
    assert s[..i + 1][..i] == s[..i];
  }

  lemma OpeningsMonotone(s: string, i: nat)
    requires i <= |s|
    ensures Openings(s[..i]) <= Openings(s)
    decreases |s| - i
  {
    if i < |s| {
      NextPrefix(s, i);
      OpeningsMonotone(s, i + 1);
    } else {
      assert s[..i] == s;
    }
  }

  /** Few enough openings for the count array, and nesting that leaves one stack slot for the base entry. */
  predicate FitsArrays(sizeHint: nat, fmt: string) {
    && Openings(fmt) < ArraySize(sizeHint)
    && forall i :: 0 <= i <= |fmt| ==> Nesting(fmt[..i]) < STACK_SIZE
  }

  datatype NextType = OwnValist | OtherValist | ArgArray

  /** The argument sources the NEXT macros switch between. */
  class Cursor {
    var nextType: NextType
    var args: seq<VArg>
    var ref: seq<VArg>
    var aArgs: seq<seq<UArg>>
    var aArgCtr: nat
    var aArgSubctr: nat

    constructor (args: seq<VArg>)
      ensures Src() == VaList(args)
    {
      nextType := OwnValist;
      this.args := args;
      ref, aArgs, aArgCtr, aArgSubctr := [], [], 0, 0;
    }

    function Src(): Source
      reads this
    {
      match nextType
      case OwnValist => VaList(args)
      case OtherValist => VaList(ref)
      case ArgArray => Arrays(aArgs, aArgCtr, aArgSubctr)
    }

    /** NEXT: the argument for a value character, from whichever source is current. */
    method Next(c: char) returns (arg: Option<Obj>)
      modifies this
      ensures arg == Offered(c, old(Src()))
      ensures arg.Some? ==> Src() == Advanced(old(Src()))
    {
      arg := None;
      match nextType
      case OwnValist =>
        if |args| > 0 {
          arg, args := FromVariadic(c, args[0]), args[1..];
        }
      case OtherValist =>
        if |ref| > 0 {
          arg, ref := FromVariadic(c, ref[0]), ref[1..];
        }
      case ArgArray =>
        if aArgCtr < |aArgs| && aArgSubctr < |aArgs[aArgCtr]| {
          arg := FromUnion(c, aArgs[aArgCtr][aArgSubctr]);
          aArgSubctr := aArgSubctr + 1;
        }
    }

    /** NEXT_VALIST_ONLY: a raw argument, never from an argument array. */
    method NextValistOnly() returns (arg: Result<VArg, Failure>)
      modifies this
      ensures match old(Src())
              case Arrays(_, _, _) => arg == Err(BadSource)
              case VaList(rest) => arg == if |rest| > 0 then Ok(rest[0]) else Err(BadArgument)
    {
      match nextType
      case OwnValist =>
        if |args| == 0 {
          return Err(BadArgument);
        }
        arg, args := Ok(args[0]), args[1..];
      case OtherValist =>
        if |ref| == 0 {
          return Err(BadArgument);
        }
        arg, ref := Ok(ref[0]), ref[1..];
      case ArgArray => arg := Err(BadSource);
    }

    /** A mark: the three switches replace the source, the others leave it. */
    method Mark(c: char) returns (failure: Option<Failure>)
      requires IsMark(c)
      modifies this
      ensures match Switched(c, old(Src()))
              case Err(e) => failure == Some(e)
              case Ok(src) => failure == None && Src() == src
    {
      failure := None;
      if c == '!' {
        var arg := NextValistOnly();
        if arg.Err? {
          return Some(arg.error);
        }
        if !arg.value.VList? {
          return Some(BadArgument);
        }
        ref, nextType := arg.value.list, OtherValist;
      } else if c == '@' {
        var arg := NextValistOnly();
        if arg.Err? {
          return Some(arg.error);
        }
        if !arg.value.VArrays? || |arg.value.arrays| == 0 {
          return Some(BadArgument);
        }
        aArgs, aArgCtr, aArgSubctr, nextType := arg.value.arrays, 0, 0, ArgArray;
      } else if c == '*' {
        if nextType != ArgArray {
          return Some(BadSource);
        }
        aArgCtr, aArgSubctr := aArgCtr + 1, 0;
      }
    }
  }

  /** The first pass's count array, its stack of enclosing brackets, and the bracket being counted. */
  class Counter {
    const subLengths: array<nat>
    const stack: array<nat>
    var depth: nat
    var cur: nat
    var lenCtr: nat

    ghost predicate Valid()
      reads this, subLengths, stack
    {
      && subLengths != stack && stack.Length == STACK_SIZE
      && 0 < lenCtr <= subLengths.Length && depth <= STACK_SIZE
      && State().Valid()
    }

    ghost function State(): Count
      reads this, subLengths, stack
      requires lenCtr <= subLengths.Length && depth <= stack.Length
    {
      Count(subLengths[..lenCtr], cur, stack[..depth])
    }

    constructor (size: nat)
      requires size > 0
      ensures Valid() && fresh(subLengths) && fresh(stack) && subLengths.Length == size
      ensures State() == COUNT_START
    {
      subLengths := new nat[size];
      stack := new nat[STACK_SIZE];
      depth, cur, lenCtr := 0, 0, 1;
      new;
      subLengths[0] := 0;
    }

    method Element()
      requires Valid()
      modifies subLengths
      ensures Valid() && State() == old(State().(lens := State().lens[cur := State().lens[cur] + 1]))
    {
      subLengths[cur] := subLengths[cur] + 1;
    }

    method Open()
      requires Valid() && lenCtr < subLengths.Length && depth < STACK_SIZE
      modifies this, subLengths, stack
      ensures Valid() && lenCtr == old(lenCtr) + 1 && depth == old(depth) + 1
      ensures Ok(State()) == old(CountStep(State(), '['))
    {
      ghost var was := State();
      ghost var next := CountStep(was, '[').value;
      subLengths[cur] := subLengths[cur] + 1;
      stack[depth] := cur;
      cur, depth, lenCtr := lenCtr, depth + 1, lenCtr + 1;
      subLengths[cur] := 0;
      assert State().lens == next.lens;
      assert stack[..depth] == next.stack;
    }

    method Close()
      requires Valid() && depth > 0
      modifies this
      ensures Valid() && lenCtr == old(lenCtr) && depth == old(depth) - 1
      ensures Ok(State()) == old(CountStep(State(), ']'))
    {
      ghost var was := State();
      depth := depth - 1;
      cur := stack[depth];
      assert stack[..depth] == was.stack[..depth];
    }

    /** One character of the counting loop. */
    method Step(ch: char) returns (failure: Option<Failure>)
      requires Valid()
      requires IsOpen(ch) ==> lenCtr < subLengths.Length && depth < STACK_SIZE
      modifies this, subLengths, stack
      ensures match old(CountStep(State(), ch))
              case Err(e) => failure == Some(e)
              case Ok(st) => failure == None && Valid() && State() == st
      ensures failure == None ==> lenCtr == old(lenCtr) + if IsOpen(ch) then 1 else 0
      ensures failure == None ==> depth == old(depth) + if IsOpen(ch) then 1 else if IsClose(ch) then -1 else 0
    {
      failure := None;
      if IsLeaf(ch) {
        Element();
      } else if IsOpen(ch) {
        Open();
      } else if IsClose(ch) {
        if depth == 0 {
          return Some(UnbalancedClose);
        }
        Close();
      } else if !IsMark(ch) {
        return Some(IllegalCharacter);
      }
    }
  }

  /** The counting loop; every index into the count array and the stack is in range. */
  method CountPass(fmt: string, counter: Counter) returns (failure: Option<Failure>)
    requires counter.Valid() && counter.State() == COUNT_START
    requires Openings(fmt) < counter.subLengths.Length
    requires forall i :: 0 <= i <= |fmt| ==> Nesting(fmt[..i]) < STACK_SIZE
    modifies counter, counter.subLengths, counter.stack
    ensures match PassOne(fmt)
            case Err(e) => failure == Some(e)
            case Ok(lens) => failure == None && counter.Valid() && counter.State().lens == lens && counter.lenCtr == 1 + Openings(fmt)
  {
    assert fmt[0..] == fmt;
    for i := 0 to |fmt|
      invariant counter.Valid() && CountRun(counter.State(), fmt[i..]) == CountRun(COUNT_START, fmt)
      invariant counter.lenCtr == 1 + Openings(fmt[..i]) && counter.depth == Nesting(fmt[..i])
    {
      var ch := fmt[i];
      NextPrefix(fmt, i);
      OpeningsMonotone(fmt, i + 1);
      assert fmt[i..][0] == ch && fmt[i..][1..] == fmt[i + 1..];
      failure := counter.Step(ch);
      if failure.Some? {
        return;
      }
    }
    assert fmt[..|fmt|] == fmt;
    if counter.depth != 0 {
      return Some(Unclosed);
    }
    if counter.subLengths[0] > 1 {
      return Some(ManyItems);
    }
    failure := None;
  }

  /** The second pass's running element counters, one for each bracket opened, and the stack of open ones. */
  class Positions {
    const subCtrlist: array<nat>
    const stack: array<nat>
    var depth: nat
    var cur: nat
    var subctrCtr: nat

    ghost predicate Valid()
      reads this, stack
    {
      && subCtrlist != stack && stack.Length == STACK_SIZE
      && cur < subctrCtr <= subCtrlist.Length && depth <= STACK_SIZE
      && forall k :: 0 <= k < depth ==> stack[k] < subctrCtr
    }

    constructor (size: nat)
      requires size > 0
      ensures Valid() && fresh(subCtrlist) && fresh(stack) && subCtrlist.Length == size
      ensures depth == 1 && subctrCtr == 1
    {
      subCtrlist := new nat[size];
      stack := new nat[STACK_SIZE];
      depth, cur, subctrCtr := 1, 0, 1;
      new;
      subCtrlist[0], stack[0] := 1, 0;
    }

    method Open()
      requires Valid() && subctrCtr < subCtrlist.Length && depth < STACK_SIZE
      modifies this, stack, subCtrlist
      ensures Valid() && depth == old(depth) + 1 && subctrCtr == old(subctrCtr) + 1
    {
      stack[depth] := cur;
      depth := depth + 1;
      cur, subctrCtr := subctrCtr, subctrCtr + 1;
      subCtrlist[cur] := 0;
    }

    method Close()
      requires Valid() && depth > 0
      modifies this
      ensures Valid() && depth == old(depth) - 1 && subctrCtr == old(subctrCtr)
    {
      depth := depth - 1;
      cur := stack[depth];
    }

    /** One character of the emitting loop; marks do not move to a next element. */
    method Step(ch: char)
      requires Valid()
      requires IsOpen(ch) ==> subctrCtr < subCtrlist.Length && depth < STACK_SIZE
      requires IsClose(ch) ==> depth > 0
      modifies this, stack, subCtrlist
      ensures Valid() && subctrCtr == old(subctrCtr) + if IsOpen(ch) then 1 else 0
      ensures depth == old(depth) + if IsOpen(ch) then 1 else if IsClose(ch) then -1 else 0
    {
      if IsOpen(ch) {
        Open();
      } else if IsClose(ch) {
        Close();
      }
      if !IsMark(ch) {
        subCtrlist[cur] := subCtrlist[cur] + 1;
      }
    }
  }

  /** A value character: draw the argument and send it through the encoder for its type. */
  method EmitLeaf(ch: char, cursor: Cursor, pack: Packer) returns (failure: Option<Failure>)
    requires IsLeaf(ch)
    modifies cursor, pack
    ensures match Draw(ch, old(cursor.Src()))
            case Err(e) => failure == Some(e)
            case Ok(drawn) => failure == None && cursor.Src() == drawn.src
                              && pack.packed == old(pack.packed) + Encode(drawn.obj)
  {
    failure := None;
    if Lower(ch) == 'n' {
      pack.EncodeNil();
      return;
    }
    var arg := cursor.Next(ch);
    if arg.None? {
      return Some(BadArgument);
    }
    match arg.value
    case Bool(b) => pack.EncodeBoolean(b);
    case Signed(i) => pack.EncodeInteger(i);
    case Unsigned(u) => pack.EncodeUnsigned(u);
    case Str(s) => pack.EncodeString(Some(s));
  }

  /** An opening character: the header for the count stored for this bracket. */
  method EmitHeader(ch: char, len: nat, pack: Packer) returns (failure: Option<Failure>)
    requires IsOpen(ch) && len <= UINT32_MAX
    modifies pack
    ensures failure == if ch == '[' then (if len >= UINT32_MAX then Some(TooBig) else None)
                       else if len % 2 == 1 then Some(OddDictionary) else None
    ensures failure == None ==>
              pack.packed == old(pack.packed) + if ch == '[' then ArrayHeader(len) else DictHeader(len / 2)
  {
    failure := None;
    if ch == '[' {
      var ok := pack.EncodeArray(len);
      if !ok {
        failure := Some(TooBig);
      }
    } else if len % 2 == 1 {
      failure := Some(OddDictionary);
    } else {
      var ok := pack.EncodeDictionary(len / 2);
    }
  }

  /** What one character adds to the output and draws from the arguments; len is the count stored for a bracket. */
  method EmitChar(ch: char, len: nat, cursor: Cursor, pack: Packer, ghost lens: seq<nat>, ghost st: Emit)
    returns (failure: Option<Failure>)
    requires st.depth > 0 && st.src == cursor.Src() && st.out == pack.packed
    requires IsOpen(ch) ==> st.lenCtr < |lens| && lens[st.lenCtr] == len <= UINT32_MAX
    modifies cursor, pack
    ensures match EmitStep(lens, st, ch)
            case Err(e) => failure == Some(e)
            case Ok(next) => failure == None && cursor.Src() == next.src && pack.packed == next.out
  {
    failure := None;
    if IsLeaf(ch) {
      failure := EmitLeaf(ch, cursor, pack);
    } else if IsOpen(ch) {
      failure := EmitHeader(ch, len, pack);
    } else if IsMark(ch) {
      failure := cursor.Mark(ch);
    } else if !IsClose(ch) {
      failure := Some(IllegalCharacter);
    }
  }

  /** Between two characters, both passes' positions are functions of the prefix already read. */
  ghost predicate InStep(fmt: string, i: nat, st: Emit, count: Count) {
    && i <= |fmt| && count.Valid() && CountRun(count, fmt[i..]).Ok?
    && st.depth - 1 == |count.stack| == Nesting(fmt[..i])
    && st.lenCtr == 1 + Openings(fmt[..i])
  }

  lemma StepTogether(fmt: string, i: nat, lens: seq<nat>, st: Emit, count: Count)
    requires i < |fmt| && InStep(fmt, i, st, count)
    ensures EmitRun(lens, st, fmt[i..]) == ThenRun(lens, EmitStep(lens, st, fmt[i]), fmt[i + 1..])
    ensures Openings(fmt[..i]) + (if IsOpen(fmt[i]) then 1 else 0) <= Openings(fmt)
    ensures IsClose(fmt[i]) ==> st.depth >= 2
    ensures CountStep(count, fmt[i]).Ok?
    ensures EmitStep(lens, st, fmt[i]).Ok? ==>
              InStep(fmt, i + 1, EmitStep(lens, st, fmt[i]).value, CountStep(count, fmt[i]).value)
  {
    NextPrefix(fmt, i);
    OpeningsMonotone(fmt, i + 1);
    assert fmt[i..][0] == fmt[i] && fmt[i..][1..] == fmt[i + 1..];
  }

  function ThenRun(lens: seq<nat>, r: Result<Emit, Failure>, more: string): Result<Emit, Failure> {
    match r
    case Err(e) => r
    case Ok(next) => EmitRun(lens, next, more)
  }

  /** One turn of the emitting loop: the output, the arguments and the positions move together. */
  method EmitStepInPlace(ch: char, len: nat, cursor: Cursor, pack: Packer, positions: Positions,
                         ghost lens: seq<nat>, ghost st: Emit)
    returns (failure: Option<Failure>, ghost next: Emit)
    requires positions.Valid() && st == Emit(positions.subctrCtr, positions.depth, cursor.Src(), pack.packed)
    requires st.depth > 0 && (IsClose(ch) ==> st.depth >= 2)
    requires IsOpen(ch) ==> st.lenCtr < |lens| && lens[st.lenCtr] == len <= UINT32_MAX
    requires IsOpen(ch) ==> positions.subctrCtr < positions.subCtrlist.Length && positions.depth < STACK_SIZE
    modifies cursor, pack, positions, positions.stack, positions.subCtrlist
    ensures match EmitStep(lens, st, ch)
            case Err(e) => failure == Some(e)
            case Ok(n) => failure == None && n == next
    ensures failure == None ==>
              && positions.Valid()
              && next == Emit(positions.subctrCtr, positions.depth, cursor.Src(), pack.packed)
              && positions.subctrCtr == old(positions.subctrCtr) + if IsOpen(ch) then 1 else 0
  {
    next := st;
    failure := EmitChar(ch, len, cursor, pack, lens, st);
    if failure.None? {
      positions.Step(ch);
      next := EmitStep(lens, st, ch).value;
    }
  }

  /**
   The emitting loop. The counter array runs in step with the count array, and every index is in
   range because each opening was counted before.
   */
  method EmitPass(fmt: string, subLengths: array<nat>, lenCount: nat, args: seq<VArg>, pack: Packer)
    returns (failure: Option<Failure>)
    requires PassOne(fmt).Ok? && lenCount == 1 + Openings(fmt) <= subLengths.Length
    requires forall k :: 0 <= k < lenCount ==> subLengths[k] <= UINT32_MAX
    requires forall i :: 0 <= i <= |fmt| ==> Nesting(fmt[..i]) < STACK_SIZE
    requires pack.packed == []
    modifies pack
    ensures match EmitRun(subLengths[..lenCount], Emit(1, 1, VaList(args), []), fmt)
            case Err(e) => failure == Some(e)
            case Ok(st) => failure == None && pack.packed == st.out
  {
    ghost var lens := subLengths[..lenCount];
    ghost var start := Emit(1, 1, VaList(args), []);
    var cursor := new Cursor(args);
    var positions := new Positions(lenCount + 1);
    var lenCtr := 1;
    ghost var st, count := start, COUNT_START;
    assert fmt[0..] == fmt;
    for i := 0 to |fmt|
      invariant fresh(cursor) && fresh(positions) && fresh(positions.stack) && fresh(positions.subCtrlist)
      invariant positions.Valid() && positions.subCtrlist.Length == lenCount + 1 && positions.subctrCtr == lenCtr
      invariant st == Emit(lenCtr, positions.depth, cursor.Src(), pack.packed)
      invariant InStep(fmt, i, st, count) && EmitRun(lens, st, fmt[i..]) == EmitRun(lens, start, fmt)
    {
      var ch := fmt[i];
      StepTogether(fmt, i, lens, st, count);
      NextPrefix(fmt, i);
      ghost var next;
      failure, next := EmitStepInPlace(ch, if IsOpen(ch) then subLengths[lenCtr] else 0, cursor, pack, positions, lens, st);
      if failure.Some? {
        return;
      }
      lenCtr := lenCtr + if IsOpen(ch) then 1 else 0;
      st, count := next, CountStep(count, ch).value;
    }
    failure := None;
  }

  /** The bracket counts are no larger than the string is long. */
  lemma {:induction false} CountsBound(st: Count, fmt: string, bound: nat)
    requires st.Valid() && CountRun(st, fmt).Ok?
    requires forall k :: 0 <= k < |st.lens| ==> st.lens[k] <= bound
    ensures forall k :: 0 <= k < |CountRun(st, fmt).value.lens| ==> CountRun(st, fmt).value.lens[k] <= bound + |fmt|
    decreases |fmt|
  {
    if |fmt| > 0 {
      CountsBound(CountStep(st, fmt[0]).value, fmt[1..], bound + 1);
    }
  }

  /** The whole encoder. A string of n characters never counts more than n elements, so no counter wraps. */
  method MpackEncodeFmt(sizeHint: nat, fmt: string, args: seq<VArg>) returns (r: Result<Option<seq<byte>>, Failure>)
    requires 0 < |fmt| <= UINT32_MAX && ArraySize(sizeHint) <= UINT32_MAX
    requires FitsArrays(sizeHint, fmt)
    ensures r == Compile(fmt, args)
  {
    var counter := new Counter(ArraySize(sizeHint));
    var failure := CountPass(fmt, counter);
    if failure.Some? {
      return Err(failure.value);
    }
    ghost var lens := PassOne(fmt).value;
    assert forall k :: 0 <= k < counter.lenCtr ==> counter.subLengths[k] == lens[k];
    if counter.subLengths[0] == 0 {
      return Ok(None);
    }
    CountsBound(COUNT_START, fmt, 0);
    var pack := new Packer();
    failure := EmitPass(fmt, counter.subLengths, counter.lenCtr, args, pack);
    r := if failure.Some? then Err(failure.value) else Ok(Some(pack.packed));
  }
}
