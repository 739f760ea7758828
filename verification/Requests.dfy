/** Requests built with the format compiler: the generic call, and the batch of calls that nvim_call_atomic sends. */
module Requests {
  import opened Bits
  import opened Wrappers
  import opened Mpack
  import opened Format
  import opened FormatMeaning

  const MES_REQUEST: int32 := 0

  /** The bytes of a plain character string. */
  function Ascii(s: string): (r: Bytes)
    requires |s| <= UINT32_MAX
    ensures |r| == |s| && forall i :: 0 <= i < |s| && s[i] as int < 0x100 ==> r[i] == s[i] as int
  {
    seq(|s|, i requires 0 <= i < |s| => s[i] as int % 0x100)
  }

  // ----- sequencing of meanings

  /** The values of further items after those already denoted. */
  function Then(first: Result<Meaning, Failure>, items: seq<Item>): Result<Meaning, Failure> {
    match first
    case Err(e) => first
    case Ok(m) =>
      match Denote(items, m.src)
      case Err(e) => Err(e)
      case Ok(n) => Ok(Meaning(m.objs + n.objs, n.src))
  }

  lemma {:induction false} DenoteConcat(a: seq<Item>, b: seq<Item>, src: Source)
    ensures Denote(a + b, src) == Then(Denote(a, src), b)
  {
    if |a| == 0 {
      assert a + b == b;
      var m := Denote(b, src);
      if m.Ok? {
        assert [] + m.value.objs == m.value.objs;
      }
    } else {
      assert (a + b)[0] == a[0] && (a + b)[1..] == a[1..] + b;
      var first := DenoteItem(a[0], src);
      if first.Ok? {
        DenoteConcat(a[1..], b, first.value.src);
        var second := Denote(a[1..], first.value.src);
        if second.Ok? {
          var third := Denote(b, second.value.src);
          if third.Ok? {
            Associative(first.value.objs, second.value.objs, third.value.objs);
          }
        }
      }
    }
  }

  lemma {:induction false} ShowConcat(a: seq<Item>, b: seq<Item>)
    ensures Show(a + b) == Show(a) + Show(b)
    ensures WellFormed(a) && WellFormed(b) ==> WellFormed(a + b)
    ensures Elements(a + b) == Elements(a) + Elements(b)
  {
    if |a| == 0 {
      assert a + b == b;
    } else {
      assert (a + b)[0] == a[0] && (a + b)[1..] == a[1..] + b;
      ShowConcat(a[1..], b);
      Associative(ShowItem(a[0]), Show(a[1..]), Show(b));
    }
  }

  lemma ShowOne(item: Item)
    ensures Show([item]) == ShowItem(item) && (WellFormedItem(item) ==> WellFormed([item]))
    ensures Elements([item]) == if item.Mark? then 0 else 1
  {
    assert [item][1..] == [];
  }

  lemma DenoteOne(item: Item, src: Source)
    ensures Denote([item], src) == DenoteItem(item, src)
  {
    assert [item][1..] == [];
    var m := DenoteItem(item, src);
    if m.Ok? {
      assert m.value.objs + [] == m.value.objs;
    }
  }

  // ----- formats that keep to their own arguments

  /** No source switch anywhere inside. */
  predicate SwitchFreeItem(item: Item)
    decreases item, 0
  {
    match item
    case Leaf(_) => true
    case Mark(c) => c !in {'!', '@', '*'}
    case Group(_, items, _) => SwitchFree(items)
  }

  predicate SwitchFree(items: seq<Item>)
    decreases items, 1
  {
    |items| > 0 ==> SwitchFreeItem(items[0]) && SwitchFree(items[1..])
  }

  /** The same sub-array position, once among all the arrays and once alone. */
  predicate SameSlot(a: Source, b: Source) {
    && a.Arrays? && b.Arrays? && a.subctr == b.subctr
    && a.ctr < |a.arrays| && b.ctr < |b.arrays| && a.arrays[a.ctr] == b.arrays[b.ctr]
  }

  /** Equal faults, or equal values with both sources still in their own sub-array. */
  predicate SameOutcome(r: Result<Meaning, Failure>, r': Result<Meaning, Failure>, a: Source, b: Source) {
    match r
    case Err(e) => r' == r
    case Ok(m) =>
      && r'.Ok? && r'.value.objs == m.objs && SameSlot(m.src, r'.value.src)
      && a.Arrays? && b.Arrays? && m.src.arrays == a.arrays && m.src.ctr == a.ctr
      && r'.value.src.arrays == b.arrays && r'.value.src.ctr == b.ctr
  }

  /** A switch-free format draws from its own sub-array only, left to right. */
  lemma {:induction false} OwnSlotOnly(items: seq<Item>, a: Source, b: Source)
    requires SwitchFree(items) && SameSlot(a, b)
    ensures SameOutcome(Denote(items, a), Denote(items, b), a, b)
    decreases items, 1
  {
    if |items| > 0 {
      OwnSlotOnlyItem(items[0], a, b);
      var first, first' := DenoteItem(items[0], a), DenoteItem(items[0], b);
      if first.Ok? {
        OwnSlotOnly(items[1..], first.value.src, first'.value.src);
      }
    }
  }

  lemma {:induction false} OwnSlotOnlyItem(item: Item, a: Source, b: Source)
    requires SwitchFreeItem(item) && SameSlot(a, b)
    ensures SameOutcome(DenoteItem(item, a), DenoteItem(item, b), a, b)
    decreases item, 0
  {
    match item
    case Group(_, items, _) => OwnSlotOnly(items, a, b);
    case _ =>
  }

  // ----- the generic call

  /** "[d,d,s:" and the parameter list, closed. */
  function RequestTree(params: seq<Item>): Item {
    Group('[', [Leaf('d'), Mark(','), Leaf('d'), Mark(','), Leaf('s'), Mark(':'), Group('[', params, ']')], ']')
  }

  /** The request message of MessagePack-RPC: type, id, method and parameters. */
  function Request(id: int32, name: Bytes, params: seq<Obj>): Obj {
    Arr([Signed(MES_REQUEST), Signed(id), Str(name), Arr(params)])
  }

  function RequestOf(id: int32, name: Bytes, params: Result<Meaning, Failure>): Result<Option<Obj>, Failure> {
    match params
    case Err(e) => Err(e)
    case Ok(m) => Ok(Some(Request(id, name, m.objs)))
  }

  lemma RequestShown(params: seq<Item>)
    ensures Show([RequestTree(params)]) == "[d,d,s:[" + Show(params) + "]]"
    ensures WellFormed(params) ==> WellFormed([RequestTree(params)])
    ensures Elements([RequestTree(params)]) == 1
  {
    var head := [Leaf('d'), Mark(','), Leaf('d'), Mark(','), Leaf('s'), Mark(':')];
    var group := Group('[', params, ']');
    HeadShown();
    ShowOne(group);
    ShowConcat(head, [group]);
    assert RequestTree(params) == Group('[', head + [group], ']');
    ShowOne(RequestTree(params));
    RequestJoined(Show(params));
  }

  lemma RequestJoined(p: string)
    ensures [ '[' ] + ("d,d,s:" + ("[" + p + "]")) + "]" == "[d,d,s:[" + p + "]]"
  {
  }

  lemma HeadShown()
    ensures var head := [Leaf('d'), Mark(','), Leaf('d'), Mark(','), Leaf('s'), Mark(':')];
            Show(head) == "d,d,s:" && WellFormed(head) && Elements(head) == 3
  {
    var a, b, c := [Leaf('d'), Mark(',')], [Leaf('d'), Mark(',')], [Leaf('s'), Mark(':')];
    PairShown('d', ',');
    PairShown('s', ':');
    ShowConcat(a, b);
    ShowConcat(a + b, c);
    assert a + b + c == [Leaf('d'), Mark(','), Leaf('d'), Mark(','), Leaf('s'), Mark(':')];
  }

  lemma PairShown(leaf: char, mark: char)
    requires IsLeaf(leaf) && IsMark(mark)
    ensures Show([Leaf(leaf), Mark(mark)]) == [leaf, mark] && WellFormed([Leaf(leaf), Mark(mark)])
    ensures Elements([Leaf(leaf), Mark(mark)]) == 1
  {
    ShowOne(Leaf(leaf));
    ShowOne(Mark(mark));
    ShowConcat([Leaf(leaf)], [Mark(mark)]);
    assert [Leaf(leaf)] + [Mark(mark)] == [Leaf(leaf), Mark(mark)];
  }

  lemma PairDenoted(leaf: char, mark: char, src: Source)
    requires IsLeaf(leaf) && mark in {',', ':'}
    ensures Denote([Leaf(leaf), Mark(mark)], src) == DenoteItem(Leaf(leaf), src)
  {
    DenoteConcat([Leaf(leaf)], [Mark(mark)], src);
    assert [Leaf(leaf)] + [Mark(mark)] == [Leaf(leaf), Mark(mark)];
    DenoteOne(Leaf(leaf), src);
    var m := DenoteItem(Leaf(leaf), src);
    if m.Ok? {
      DenoteOne(Mark(mark), m.value.src);
      assert m.value.objs + [] == m.value.objs;
    }
  }

  /** The three leading arguments fill type, id and method; the rest go to the parameters. */
  lemma RequestDenoted(params: seq<Item>, id: int32, name: Bytes, more: seq<VArg>)
    ensures Message([RequestTree(params)], [VInt(MES_REQUEST), VInt(id), VStr(Some(name))] + more)
         == RequestOf(id, name, Denote(params, VaList(more)))
  {
    var args := [VInt(MES_REQUEST), VInt(id), VStr(Some(name))] + more;
    BodyDenoted(params, id, name, args, more);
    DenoteOne(RequestTree(params), VaList(args));
    RequestShown(params);
  }

  /** The four elements of a request. */
  lemma BodyDenoted(params: seq<Item>, id: int32, name: Bytes, args: seq<VArg>, more: seq<VArg>)
    requires args == [VInt(MES_REQUEST), VInt(id), VStr(Some(name))] + more
    ensures Denote(RequestTree(params).items, VaList(args))
         == match Denote(params, VaList(more))
            case Err(e) => Err(e)
            case Ok(m) => Ok(Meaning([Signed(MES_REQUEST), Signed(id), Str(name), Arr(m.objs)], m.src))
  {
    var head := [Leaf('d'), Mark(','), Leaf('d'), Mark(','), Leaf('s'), Mark(':')];
    var group := Group('[', params, ']');
    HeadDenoted(args, id, name, more);
    DenoteConcat(head, [group], VaList(args));
    DenoteOne(group, VaList(more));
    assert RequestTree(params).items == head + [group];
    var m := Denote(params, VaList(more));
    if m.Ok? {
      assert [Signed(MES_REQUEST), Signed(id), Str(name)] + [Arr(m.value.objs)]
          == [Signed(MES_REQUEST), Signed(id), Str(name), Arr(m.value.objs)];
    }
  }

  lemma HeadDenoted(args: seq<VArg>, id: int32, name: Bytes, more: seq<VArg>)
    requires args == [VInt(MES_REQUEST), VInt(id), VStr(Some(name))] + more
    ensures Denote([Leaf('d'), Mark(','), Leaf('d'), Mark(','), Leaf('s'), Mark(':')], VaList(args))
         == Ok(Meaning([Signed(MES_REQUEST), Signed(id), Str(name)], VaList(more)))
  {
    var a, c := [Leaf('d'), Mark(',')], [Leaf('s'), Mark(':')];
    var s1 := [VInt(id), VStr(Some(name))] + more;
    var s2 := [VStr(Some(name))] + more;
    assert args == [VInt(MES_REQUEST)] + s1 && s1 == [VInt(id)] + s2;
    LeafDrawn('d', ',', VInt(MES_REQUEST), Signed(MES_REQUEST), s1);
    LeafDrawn('d', ',', VInt(id), Signed(id), s2);
    LeafDrawn('s', ':', VStr(Some(name)), Str(name), more);
    DenoteConcat(a, a, VaList(args));
    DenoteConcat(a + a, c, VaList(args));
    assert a + a + c == [Leaf('d'), Mark(','), Leaf('d'), Mark(','), Leaf('s'), Mark(':')];
    assert [Signed(MES_REQUEST)] + [Signed(id)] + [Str(name)] == [Signed(MES_REQUEST), Signed(id), Str(name)];
  }

  lemma LeafDrawn(leaf: char, mark: char, arg: VArg, obj: Obj, rest: seq<VArg>)
    requires IsLeaf(leaf) && Lower(leaf) != 'n' && mark in {',', ':'} && FromVariadic(leaf, arg) == Some(obj)
    ensures Denote([Leaf(leaf), Mark(mark)], VaList([arg] + rest)) == Ok(Meaning([obj], VaList(rest)))
  {
    PairDenoted(leaf, mark, VaList([arg] + rest));
    assert ([arg] + rest)[0] == arg && ([arg] + rest)[1..] == rest;
  }

  /** The argument list behind "!", then the caller's own format. */
  function GenericText(fmt: Option<string>): string {
    if fmt.Some? then "[d,d,s:[!" + fmt.value + "]]" else "[d,d,s:[]]"
  }

  /** The arguments passed along with it. */
  function GenericArgs(id: int32, name: Bytes, fmt: Option<string>, ap: seq<VArg>): seq<VArg> {
    [VInt(MES_REQUEST), VInt(id), VStr(Some(name))] + if fmt.Some? then [VList(ap)] else []
  }

  /**
   The generic call: for every well-formed parameter format the message is [0, id, name, [parameters]],
   the parameters being the format's own values over the caller's arguments.
   */
  lemma GenericCall(params: seq<Item>, id: int32, name: Bytes, ap: seq<VArg>)
    requires WellFormed(params) && |Show(params)| < UINT32_MAX - 16
    ensures Compile(GenericText(Some(Show(params))), GenericArgs(id, name, Some(Show(params)), ap))
         == match Denote(params, VaList(ap))
            case Err(e) => Err(e)
            case Ok(m) => Ok(Some(Encode(Request(id, name, m.objs))))
  {
    var items := [Mark('!')] + params;
    GenericShown(params);
    CompileShow([RequestTree(items)], GenericArgs(id, name, Some(Show(params)), ap));
    RequestDenoted(items, id, name, [VList(ap)]);
    GenericDenoted(params, ap);
  }

  lemma GenericShown(params: seq<Item>)
    requires WellFormed(params)
    ensures var items := [Mark('!')] + params;
            GenericText(Some(Show(params))) == Show([RequestTree(items)]) && WellFormed([RequestTree(items)])
  {
    ShowOne(Mark('!'));
    ShowConcat([Mark('!')], params);
    RequestShown([Mark('!')] + params);
  }

  /** Behind "!" the format's values are drawn from the caller's list. */
  lemma GenericDenoted(params: seq<Item>, ap: seq<VArg>)
    ensures Denote([Mark('!')] + params, VaList([VList(ap)])) == Denote(params, VaList(ap))
  {
    DenoteConcat([Mark('!')], params, VaList([VList(ap)]));
    DenoteOne(Mark('!'), VaList([VList(ap)]));
    var m := Denote(params, VaList(ap));
    if m.Ok? {
      assert [] + m.value.objs == m.value.objs;
    }
  }

  /** Without a format the parameter list is empty. */
  lemma GenericCallWithoutParameters(id: int32, name: Bytes)
    ensures Compile(GenericText(None), GenericArgs(id, name, None, [])) == Ok(Some(Encode(Request(id, name, []))))
  {
    RequestShown([]);
    assert GenericText(None) == Show([RequestTree([])]);
    CompileShow([RequestTree([])], GenericArgs(id, name, None, []));
    RequestDenoted([], id, name, []);
  }

  // ----- the batch of calls

  /** The text nvim_call_atomic has built once the first n calls are in. */
  function CallText(fmts: seq<string>): string
    requires |fmts| > 0
  {
    var n := |fmts| - 1;
    if n == 0 then "[ @[" + fmts[0] + "]," else CallText(fmts[..n]) + "[*" + fmts[n] + "],"
  }

  function AtomicText(fmts: seq<string>): string {
    "[d,d,s:[:" + (if |fmts| > 0 then CallText(fmts) + " ]" else "") + ":]]"
  }

  /** The same text as items: "@" before the first call, "*" inside every later one. */
  function CallItems(calls: seq<seq<Item>>): seq<Item>
    requires |calls| > 0
  {
    var n := |calls| - 1;
    if n == 0 then [Mark(' '), Mark('@'), Group('[', calls[0], ']'), Mark(',')]
    else CallItems(calls[..n]) + [Group('[', [Mark('*')] + calls[n], ']'), Mark(',')]
  }

  function AtomicItems(calls: seq<seq<Item>>): seq<Item> {
    if |calls| == 0 then [Mark(':'), Mark(':')]
    else [Mark(':'), Group('[', CallItems(calls) + [Mark(' ')], ']'), Mark(':')]
  }

  function Shown(calls: seq<seq<Item>>): (fmts: seq<string>)
    ensures |fmts| == |calls|
  {
    seq(|calls|, k requires 0 <= k < |calls| => Show(calls[k]))
  }

  /** Every call is balanced and keeps to its own arguments. */
  predicate ProperCalls(calls: seq<seq<Item>>) {
    forall k :: 0 <= k < |calls| ==> WellFormed(calls[k]) && SwitchFree(calls[k])
  }

  /** Each call's values over its own argument array alone, first fault first. */
  function CallObjects(calls: seq<seq<Item>>, args: seq<seq<UArg>>): (r: Result<seq<Obj>, Failure>)
    requires |calls| == |args|
    ensures r.Ok? ==> |r.value| == |calls|
  {
    if |calls| == 0 then Ok([]) else
    var n := |calls| - 1;
    match CallObjects(calls[..n], args[..n])
    case Err(e) => Err(e)
    case Ok(objs) =>
      match Denote(calls[n], Arrays([args[n]], 0, 0))
      case Err(e) => Err(e)
      case Ok(m) => Ok(objs + [Arr(m.objs)])
  }

  lemma CallGroupShown(call: seq<Item>, prefix: seq<Item>)
    ensures Show([Group('[', prefix + call, ']'), Mark(',')]) == "[" + Show(prefix) + Show(call) + "],"
    ensures WellFormed(prefix) && WellFormed(call) ==> WellFormed([Group('[', prefix + call, ']'), Mark(',')])
  {
    var group := Group('[', prefix + call, ']');
    ShowConcat(prefix, call);
    ShowOne(group);
    ShowOne(Mark(','));
    ShowConcat([group], [Mark(',')]);
    assert [group] + [Mark(',')] == [group, Mark(',')];
    assert ['['] + (Show(prefix) + Show(call)) + [']'] + [','] == "[" + Show(prefix) + Show(call) + "],";
  }

  lemma FirstCallShown(call: seq<Item>)
    ensures Show([Mark(' '), Mark('@'), Group('[', call, ']'), Mark(',')]) == " @[" + Show(call) + "],"
    ensures WellFormed(call) ==> WellFormed([Mark(' '), Mark('@'), Group('[', call, ']'), Mark(',')])
  {
    CallGroupShown(call, []);
    assert [] + call == call;
    var tail := [Group('[', call, ']'), Mark(',')];
    ShowOne(Mark(' '));
    ShowOne(Mark('@'));
    ShowConcat([Mark('@')], tail);
    ShowConcat([Mark(' ')], [Mark('@')] + tail);
    assert [Mark(' ')] + ([Mark('@')] + tail) == [Mark(' '), Mark('@'), Group('[', call, ']'), Mark(',')];
  }

  lemma {:induction false} CallItemsShown(calls: seq<seq<Item>>)
    requires |calls| > 0
    ensures "[" + Show(CallItems(calls)) == CallText(Shown(calls))
    ensures ProperCalls(calls) ==> WellFormed(CallItems(calls))
  {
    var n := |calls| - 1;
    if n == 0 {
      FirstCallShown(calls[0]);
    } else {
      CallItemsShown(calls[..n]);
      assert Shown(calls)[..n] == Shown(calls[..n]);
      CallGroupShown(calls[n], [Mark('*')]);
      ShowOne(Mark('*'));
      ShowConcat(CallItems(calls[..n]), [Group('[', [Mark('*')] + calls[n], ']'), Mark(',')]);
      CallJoined(Show(CallItems(calls[..n])), Show(calls[n]));
    }
  }

  lemma CallJoined(a: string, b: string)
    ensures "[" + (a + ("[" + "*" + b + "],")) == "[" + a + "[*" + b + "],"
  {
  }

  /** The string the loop builds is the print of the batch tree. */
  lemma AtomicShown(calls: seq<seq<Item>>)
    ensures Show([RequestTree(AtomicItems(calls))]) == AtomicText(Shown(calls))
    ensures ProperCalls(calls) ==> WellFormed([RequestTree(AtomicItems(calls))])
  {
    RequestShown(AtomicItems(calls));
    ShowOne(Mark(':'));
    if |calls| == 0 {
      ShowConcat([Mark(':')], [Mark(':')]);
      assert [Mark(':')] + [Mark(':')] == [Mark(':'), Mark(':')];
    } else {
      CallItemsShown(calls);
      var inner := CallItems(calls) + [Mark(' ')];
      ShowOne(Mark(' '));
      ShowConcat(CallItems(calls), [Mark(' ')]);
      var group := Group('[', inner, ']');
      ShowOne(group);
      ShowConcat([group], [Mark(':')]);
      ShowConcat([Mark(':')], [group] + [Mark(':')]);
      assert [Mark(':')] + ([group] + [Mark(':')]) == AtomicItems(calls);
      AtomicJoined(Show(CallItems(calls)));
    }
  }

  lemma AtomicJoined(c: string)
    ensures "[d,d,s:[" + (":" + ("[" + (c + " ") + "]" + ":")) + "]]" == "[d,d,s:[:" + (("[" + c) + " ]") + ":]]"
  {
  }

  /** One call's bracket, its arguments taken from the sub-array the source has reached. */
  lemma CallGroupDenoted(call: seq<Item>, prefix: seq<Item>, src: Source, at: Source)
    requires SwitchFree(call) && Denote(prefix, src) == Ok(Meaning([], at))
    requires at.Arrays? && at.ctr < |at.arrays| && at.subctr == 0
    ensures var r := Denote([Group('[', prefix + call, ']'), Mark(',')], src);
            var own := Denote(call, Arrays([at.arrays[at.ctr]], 0, 0));
            match own
            case Err(e) => r == Err(e)
            case Ok(m) => r.Ok? && r.value.objs == [Arr(m.objs)] && r.value.src.Arrays?
                          && r.value.src.arrays == at.arrays && r.value.src.ctr == at.ctr
  {
    var group := Group('[', prefix + call, ']');
    assert [group] + [Mark(',')] == [group, Mark(',')];
    DenoteConcat([group], [Mark(',')], src);
    DenoteOne(group, src);
    DenoteConcat(prefix, call, src);
    OwnSlotOnly(call, at, Arrays([at.arrays[at.ctr]], 0, 0));
    var m := Denote(call, at);
    if m.Ok? {
      assert [] + m.value.objs == m.value.objs;
      DenoteOne(Mark(','), m.value.src);
      assert [Arr(m.value.objs)] + [] == [Arr(m.value.objs)];
    }
  }

  /** What the calls so far mean, and that the source stands in the last one's array. */
  predicate CallsDenote(r: Result<Meaning, Failure>, objs: Result<seq<Obj>, Failure>, arrays: seq<seq<UArg>>, ctr: nat) {
    match objs
    case Err(e) => r == Err(e)
    case Ok(list) => r.Ok? && r.value.objs == list && r.value.src.Arrays?
                     && r.value.src.arrays == arrays && r.value.src.ctr == ctr
  }

  lemma FirstCallDenoted(call: seq<Item>, arrays: seq<seq<UArg>>)
    requires SwitchFree(call) && |arrays| > 0
    ensures CallsDenote(Denote([Mark(' '), Mark('@'), Group('[', call, ']'), Mark(',')], VaList([VArrays(arrays)])),
                        CallObjects([call], [arrays[0]]), arrays, 0)
  {
    var src, at := VaList([VArrays(arrays)]), Arrays(arrays, 0, 0);
    var tail := [Group('[', call, ']'), Mark(',')];
    assert [Mark(' ')] + ([Mark('@')] + tail) == [Mark(' '), Mark('@'), Group('[', call, ']'), Mark(',')];
    DenoteConcat([Mark(' ')], [Mark('@')] + tail, src);
    DenoteOne(Mark(' '), src);
    DenoteConcat([Mark('@')], tail, src);
    DenoteOne(Mark('@'), src);
    CallGroupDenoted(call, [], at, at);
    assert [] + call == call;
    assert [call][..0] == [] && [arrays[0]][..0] == [];
    var r := Denote(tail, at);
    if r.Ok? {
      assert [] + ([] + r.value.objs) == r.value.objs;
    }
  }

  /** The k-th call takes its placeholders left to right from the k-th argument array, and from no other. */
  lemma {:induction false} CallItemsDenoted(calls: seq<seq<Item>>, args: seq<seq<UArg>>, arrays: seq<seq<UArg>>)
    requires 0 < |calls| == |args| && args <= arrays && ProperCalls(calls)
    ensures CallsDenote(Denote(CallItems(calls), VaList([VArrays(arrays)])), CallObjects(calls, args), arrays, |calls| - 1)
    decreases |calls|
  {
    var n := |calls| - 1;
    if n == 0 {
      assert calls == [calls[0]] && args == [arrays[0]];
      FirstCallDenoted(calls[0], arrays);
    } else {
      CallItemsDenoted(calls[..n], args[..n], arrays);
      var last := [Group('[', [Mark('*')] + calls[n], ']'), Mark(',')];
      DenoteConcat(CallItems(calls[..n]), last, VaList([VArrays(arrays)]));
      var before := Denote(CallItems(calls[..n]), VaList([VArrays(arrays)]));
      if before.Ok? {
        var at := Arrays(arrays, n, 0);
        DenoteOne(Mark('*'), before.value.src);
        CallGroupDenoted(calls[n], [Mark('*')], before.value.src, at);
      }
    }
  }

  lemma AtomicParamsDenoted(calls: seq<seq<Item>>, args: seq<seq<UArg>>)
    requires |calls| == |args| && ProperCalls(calls)
    ensures var r := Denote(AtomicItems(calls), VaList([VArrays(args)]));
            match CallObjects(calls, args)
            case Err(e) => r == Err(e)
            case Ok(objs) => r.Ok? && r.value.objs == if |calls| == 0 then [] else [Arr(objs)]
  {
    var src := VaList([VArrays(args)]);
    if |calls| == 0 {
      DenoteOne(Mark(':'), src);
      assert [Mark(':')] + [Mark(':')] == AtomicItems(calls);
      DenoteConcat([Mark(':')], [Mark(':')], src);
    } else {
      var group := Group('[', CallItems(calls) + [Mark(' ')], ']');
      assert [Mark(':')] + ([group] + [Mark(':')]) == AtomicItems(calls);
      BetweenMarks([group], src);
      AtomicGroupDenoted(calls, args);
    }
  }

  /** Neither a colon in front nor one behind changes the values. */
  lemma BetweenMarks(items: seq<Item>, src: Source)
    ensures var r := Denote([Mark(':')] + (items + [Mark(':')]), src);
            match Denote(items, src)
            case Err(e) => r == Err(e)
            case Ok(m) => r == Ok(m)
  {
    DenoteOne(Mark(':'), src);
    DenoteConcat([Mark(':')], items + [Mark(':')], src);
    DenoteConcat(items, [Mark(':')], src);
    var body := Denote(items, src);
    if body.Ok? {
      DenoteOne(Mark(':'), body.value.src);
      assert body.value.objs + [] == body.value.objs && [] + body.value.objs == body.value.objs;
    }
  }

  lemma AtomicGroupDenoted(calls: seq<seq<Item>>, args: seq<seq<UArg>>)
    requires 0 < |calls| == |args| && ProperCalls(calls)
    ensures var r := Denote([Group('[', CallItems(calls) + [Mark(' ')], ']')], VaList([VArrays(args)]));
            match CallObjects(calls, args)
            case Err(e) => r == Err(e)
            case Ok(objs) => r.Ok? && r.value.objs == [Arr(objs)]
  {
    var src := VaList([VArrays(args)]);
    DenoteOne(Group('[', CallItems(calls) + [Mark(' ')], ']'), src);
    CallItemsDenoted(calls, args, args);
    DenoteConcat(CallItems(calls), [Mark(' ')], src);
    var body := Denote(CallItems(calls), src);
    if body.Ok? {
      DenoteOne(Mark(' '), body.value.src);
      assert body.value.objs + [] == body.value.objs;
    }
  }

  const CALL_ATOMIC := "nvim_call_atomic"

  function AtomicArgs(id: int32, args: seq<seq<UArg>>): seq<VArg> {
    [VInt(MES_REQUEST), VInt(id), VStr(Some(Ascii(CALL_ATOMIC)))] + [VArrays(args)]
  }

  /**
   For every list of calls, the batch's bytes are those of [0, id, "nvim_call_atomic", [[call 0 .. call n-1]]],
   each call over its own arguments; a call that faults is the whole batch's fault. Without calls the
   parameter list itself is empty.
   */
  lemma AtomicCall(calls: seq<seq<Item>>, args: seq<seq<UArg>>, id: int32)
    requires |calls| == |args| && ProperCalls(calls) && |AtomicText(Shown(calls))| < UINT32_MAX
    ensures Compile(AtomicText(Shown(calls)), AtomicArgs(id, args))
         == match CallObjects(calls, args)
            case Err(e) => Err(e)
            case Ok(objs) => Ok(Some(Encode(AtomicRequest(id, objs))))
  {
    AtomicShown(calls);
    CompileShow([RequestTree(AtomicItems(calls))], AtomicArgs(id, args));
    RequestDenoted(AtomicItems(calls), id, Ascii(CALL_ATOMIC), [VArrays(args)]);
    AtomicParamsDenoted(calls, args);
  }

  function AtomicRequest(id: int32, objs: seq<Obj>): Obj {
    Request(id, Ascii(CALL_ATOMIC), if |objs| == 0 then [] else [Arr(objs)])
  }
}
