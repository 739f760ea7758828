/** Any mix of the three calls the program ever adds, from the arrays to the bytes. */
module AddedCalls {
  import opened Bits
  import opened Wrappers
  import opened Mpack
  import opened Reading
  import opened Codec
  import opened Format
  import opened Compiler
  import opened Requests
  import opened Batch

  type Unsigned32 = n: nat | n <= UINT32_MAX

  datatype Call =
    | Highlight(bufnum: int32, hlId: int32, group: Bytes, line: Unsigned32, start: Unsigned32, end: Unsigned32)
    | Clear(bufnum: int32, hlId: int32, first: int32, last: int32)
    | Command(cmd: Bytes)

  // ----- what a call consists of

  function ParamsOf(c: Call): string {
    match c
    case Highlight(_, _, _, _, _, _) => "dd,s,ddd"
    case Clear(_, _, _, _) => "dddd"
    case Command(_) => "s"
  }

  function FormatOf(c: Call): string {
    match c
    case Highlight(_, _, _, _, _, _) => HL_FORMAT
    case Clear(_, _, _, _) => CLR_FORMAT
    case Command(_) => CMD_FORMAT
  }

  function SlotsOf(c: Call): seq<UArg> {
    match c
    case Highlight(bufnum, hlId, group, line, start, end) => HlArguments(bufnum, hlId, group, line, start, end)
    case Clear(bufnum, hlId, first, last) => ClrArguments(bufnum, hlId, first, last)
    case Command(cmd) => CmdArguments(cmd)
  }

  function NameOf(c: Call): Bytes {
    match c
    case Highlight(_, _, _, _, _, _) => Ascii("nvim_buf_add_highlight")
    case Clear(_, _, _, _) => Ascii("nvim_buf_clear_highlight")
    case Command(_) => Ascii("nvim_command")
  }

  /** Its parameters as the editor gets them; lines and columns go through a 32-bit int. */
  function ValuesOf(c: Call): seq<Obj> {
    match c
    case Highlight(bufnum, hlId, group, line, start, end) =>
      [Signed(bufnum), Signed(hlId), Str(group), Signed(ToInt32(line)), Signed(ToInt32(start)), Signed(ToInt32(end))]
    case Clear(bufnum, hlId, first, last) => [Signed(bufnum), Signed(hlId), Signed(first), Signed(last)]
    case Command(cmd) => [Str(cmd)]
  }

  function TreeOf(c: Call): seq<Item> { CallTree(FlatItems(ParamsOf(c))) }

  function ObjectsOf(c: Call): seq<Obj> { [Str(NameOf(c)), Arr(ValuesOf(c))] }

  lemma OneCallDenoted(c: Call)
    ensures var r := Denote(TreeOf(c), Arrays([SlotsOf(c)], 0, 0)); r.Ok? && r.value.objs == ObjectsOf(c)
  {
    var name := NameOf(c);
    match c
    case Highlight(bufnum, hlId, group, line, start, end) => HlCallDenoted(name, bufnum, hlId, group, line, start, end);
    case Clear(bufnum, hlId, first, last) => ClrCallDenoted(name, bufnum, hlId, first, last);
    case Command(cmd) => CmdCallDenoted(name, cmd);
  }

  lemma OneCallShown(c: Call)
    ensures Show(TreeOf(c)) == FormatOf(c) && WellFormed(TreeOf(c)) && SwitchFree(TreeOf(c)) && ModestFormat(FormatOf(c))
  {
    ParamsAreFlat(c);
    FlatCallShown(ParamsOf(c));
    ModestCalls();
  }

  lemma ParamsAreFlat(c: Call)
    ensures FlatFormat(ParamsOf(c)) && FormatOf(c) == "s[" + ParamsOf(c) + "]"
  {
  }

  // ----- batches

  function Formats(cs: seq<Call>): (s: seq<string>)
    ensures |s| == |cs|
  {
    seq(|cs|, k requires 0 <= k < |cs| => FormatOf(cs[k]))
  }

  function Arguments(cs: seq<Call>): (s: seq<seq<UArg>>)
    ensures |s| == |cs|
  {
    seq(|cs|, k requires 0 <= k < |cs| => SlotsOf(cs[k]))
  }

  function Trees(cs: seq<Call>): (s: seq<seq<Item>>)
    ensures |s| == |cs|
  {
    seq(|cs|, k requires 0 <= k < |cs| => TreeOf(cs[k]))
  }

  /** One [name, [parameters]] per call. */
  function Objects(cs: seq<Call>): (s: seq<Obj>)
    ensures |s| == |cs|
  {
    seq(|cs|, k requires 0 <= k < |cs| => Arr(ObjectsOf(cs[k])))
  }

  lemma OneCallMore(cs: seq<Call>, c: Call)
    ensures Formats(cs + [c]) == Formats(cs) + [FormatOf(c)] && Arguments(cs + [c]) == Arguments(cs) + [SlotsOf(c)]
    ensures Trees(cs + [c]) == Trees(cs) + [TreeOf(c)] && Objects(cs + [c]) == Objects(cs) + [Arr(ObjectsOf(c))]
  {
  }

  lemma {:induction false} CallsDenoted(cs: seq<Call>)
    ensures CallObjects(Trees(cs), Arguments(cs)) == Ok(Objects(cs))
    decreases |cs|
  {
    if |cs| > 0 {
      var before, c := cs[..|cs| - 1], cs[|cs| - 1];
      CallsDenoted(before);
      assert cs == before + [c];
      DenotedMore(before, c);
    }
  }

  lemma DenotedMore(cs: seq<Call>, c: Call)
    requires CallObjects(Trees(cs), Arguments(cs)) == Ok(Objects(cs))
    ensures CallObjects(Trees(cs + [c]), Arguments(cs + [c])) == Ok(Objects(cs + [c]))
  {
    OneCallDenoted(c);
    OneCallMore(cs, c);
    CallObjectsMore(Trees(cs), Arguments(cs), TreeOf(c), SlotsOf(c), Objects(cs), ObjectsOf(c));
  }

  lemma CallObjectsMore(calls: seq<seq<Item>>, args: seq<seq<UArg>>, call: seq<Item>, arg: seq<UArg>, objs: seq<Obj>, o: seq<Obj>)
    requires |calls| == |args| && CallObjects(calls, args) == Ok(objs)
    requires var r := Denote(call, Arrays([arg], 0, 0)); r.Ok? && r.value.objs == o
    ensures CallObjects(calls + [call], args + [arg]) == Ok(objs + [Arr(o)])
  {
    assert (calls + [call])[..|calls|] == calls && (args + [arg])[..|args|] == args;
  }

  lemma CallsShown(cs: seq<Call>)
    ensures ProperCalls(Trees(cs)) && Shown(Trees(cs)) == Formats(cs)
    ensures forall k :: 0 <= k < |cs| ==> ModestFormat(Formats(cs)[k])
  {
    forall k | 0 <= k < |cs|
      ensures Show(TreeOf(cs[k])) == FormatOf(cs[k]) && WellFormed(TreeOf(cs[k])) && SwitchFree(TreeOf(cs[k]))
      ensures ModestFormat(FormatOf(cs[k]))
    {
      OneCallShown(cs[k]);
    }
  }

  /** The request of a batch: type 0, the id, the method's name, and the list of calls as the one parameter. */
  function BatchRequest(id: int32, cs: seq<Call>): Obj {
    Arr([Signed(0), Signed(id), Str(Ascii("nvim_call_atomic")), Arr(if |cs| == 0 then [] else [Arr(Objects(cs))])])
  }

  /** A batch of any calls compiles to the request with exactly these calls, and is read by the peer as that request. */
  lemma BatchOfCalls(cs: seq<Call>, id: int32)
    requires |AtomicText(Formats(cs))| < UINT32_MAX
    ensures var request := BatchRequest(id, cs);
            && Compile(AtomicText(Formats(cs)), AtomicArgs(id, Arguments(cs))) == Ok(Some(Encode(request)))
            && Decode(Encode(request)) == Done(Received(request), [])
  {
    CallsShown(cs);
    CallsDenoted(cs);
    AtomicCall(Trees(cs), Arguments(cs), id);
    AtomicEncodable(Trees(cs), Arguments(cs), id);
    RoundTrip(AtomicRequest(id, Objects(cs)), []);
    assert Encode(AtomicRequest(id, Objects(cs))) + [] == Encode(AtomicRequest(id, Objects(cs)));
  }

  /** The arrays hold these calls. */
  ghost predicate HoldsCalls(calls: ArgArray, cs: seq<Call>)
    reads calls, calls.fmt, calls.args
  {
    calls.Valid() && calls.mlen >= 2 && calls.Formats() == Formats(cs) && calls.Arguments() == Arguments(cs)
  }

  method AddCall(calls: ArgArray, c: Call, ghost cs: seq<Call>)
    requires HoldsCalls(calls, cs)
    modifies calls, calls.fmt, calls.args
    ensures HoldsCalls(calls, cs + [c])
    ensures calls.fmt == old(calls.fmt) || fresh(calls.fmt)
    ensures calls.args == old(calls.args) || fresh(calls.args)
  {
    OneCallMore(cs, c);
    match c {
      case Highlight(bufnum, hlId, group, line, start, end) => calls.AddHlCall(bufnum, hlId, group, line, start, end);
      case Clear(bufnum, hlId, first, last) => calls.AddClrCall(bufnum, hlId, first, last);
      case Command(cmd) => calls.AddCmdCall(cmd);
    }
  }

  /** Calls added one after another and sent as one batch: the bytes are the request with exactly these calls. */
  method SendCalls(cs: seq<Call>, id: int32) returns (pack: Result<Option<seq<byte>>, Failure>)
    requires ArraySize(|cs|) <= UINT32_MAX && |AtomicText(Formats(cs))| < UINT32_MAX
    ensures pack == Ok(Some(Encode(BatchRequest(id, cs))))
  {
    var calls := new ArgArray(128);
    for k := 0 to |cs|
      invariant fresh(calls) && fresh(calls.fmt) && fresh(calls.args)
      invariant HoldsCalls(calls, cs[..k])
    {
      AddCall(calls, cs[k], cs[..k]);
      assert cs[..k] + [cs[k]] == cs[..k + 1];
    }
    assert cs[..|cs|] == cs;
    CallsShown(cs);
    BatchOfCalls(cs, id);
    pack := NvimCallAtomic(calls, id);
  }
}
