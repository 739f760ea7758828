/** The two passes compile every balanced format to the encoding of the tree it denotes. */
module FormatMeaning {
  import opened Bits
  import opened Wrappers
  import opened Mpack
  import opened Reading
  import opened Codec
  import opened Format

  // ----- the counting pass over a tree

  /** The state after counting a format's items inside the current bracket. */
  function Counted(st: Count, items: seq<Item>): (r: Count)
    requires st.Valid()
    ensures r.Valid()
  {
    Count(st.lens[st.cur := st.lens[st.cur] + Elements(items)] + Inner(items), st.cur, st.stack)
  }

  function CountedItem(st: Count, item: Item): (r: Count)
    requires st.Valid()
    ensures r.Valid()
  {
    Count(st.lens[st.cur := st.lens[st.cur] + if item.Mark? then 0 else 1] + InnerItem(item), st.cur, st.stack)
  }

  /** Counting one item and then the others counts them all. */
  lemma CountedCons(st: Count, item: Item, others: seq<Item>)
    requires st.Valid()
    ensures Counted(CountedItem(st, item), others) == Counted(st, [item] + others)
  {
    assert ([item] + others)[1..] == others;
    UpdateTwice(st.lens, st.cur, CountedItem(st, item).lens[st.cur], InnerItem(item),
                Counted(CountedItem(st, item), others).lens[st.cur], Inner(others));
  }

  lemma UpdateTwice(lens: seq<nat>, cur: nat, x: nat, a: seq<nat>, y: nat, b: seq<nat>)
    requires cur < |lens|
    ensures (lens[cur := x] + a)[cur := y] + b == lens[cur := y] + (a + b)
  {
  }

  lemma ShowCons(item: Item, others: seq<Item>, more: string)
    ensures Show([item] + others) + more == ShowItem(item) + (Show(others) + more)
    ensures WellFormedItem(item) && WellFormed(others) ==> WellFormed([item] + others)
  {
    assert ([item] + others)[1..] == others;
    Associative(ShowItem(item), Show(others), more);
  }

  lemma {:induction false} CountShow(items: seq<Item>, st: Count, more: string)
    requires WellFormed(items) && st.Valid()
    ensures CountRun(st, Show(items) + more) == CountRun(Counted(st, items), more)
    decreases items, 1
  {
    if |items| == 0 {
      assert Show(items) + more == more;
      assert Counted(st, items) == st;
    } else {
      var item, others := items[0], items[1..];
      assert items == [item] + others;
      ShowCons(item, others, more);
      CountShowItem(item, st, Show(others) + more);
      CountShow(others, CountedItem(st, item), more);
      CountedCons(st, item, others);
    }
  }

  lemma {:induction false} CountShowItem(item: Item, st: Count, more: string)
    requires WellFormedItem(item) && st.Valid()
    ensures CountRun(st, ShowItem(item) + more) == CountRun(CountedItem(st, item), more)
    decreases item, 0
  {
    match item
    case Leaf(c) =>
      CountRunCons(st, c, more);
      assert CountedItem(st, item) == CountStep(st, c).value;
    case Mark(c) =>
      CountRunCons(st, c, more);
      assert CountedItem(st, item) == st;
    case Group(open, items, close) =>
      GroupSplit(open, Show(items), close, more);
      CountRunCons(st, open, Show(items) + ([close] + more));
      CountShow(items, CountStep(st, open).value, [close] + more);
      CountRunCons(Counted(CountStep(st, open).value, items), close, more);
      CountedGroup(st, open, items, close);
  }

  function ThenCount(r: Result<Count, Failure>, more: string): Result<Count, Failure>
    requires r.Ok? ==> r.value.Valid()
  {
    match r
    case Err(e) => r
    case Ok(st) => CountRun(st, more)
  }

  lemma CountRunCons(st: Count, c: char, more: string)
    requires st.Valid()
    ensures CountRun(st, [c] + more) == ThenCount(CountStep(st, c), more)
  {
    assert ([c] + more)[1..] == more;
  }

  lemma GroupSplit(open: char, inner: string, close: char, more: string)
    ensures [open] + inner + [close] + more == [open] + (inner + ([close] + more))
  {
  }

  lemma CountedGroup(st: Count, open: char, items: seq<Item>, close: char)
    requires st.Valid() && IsOpen(open) && IsClose(close)
    ensures CountStep(Counted(CountStep(st, open).value, items), close)
         == Ok(CountedItem(st, Group(open, items, close)))
  {
    PushThenCount(st.lens[st.cur := st.lens[st.cur] + 1], Elements(items), Inner(items));
    assert (st.stack + [st.cur])[..|st.stack|] == st.stack;
  }

  lemma PushThenCount(lens: seq<nat>, y: nat, more: seq<nat>)
    ensures (lens + [0])[|lens| := y] + more == lens + ([y] + more)
  {
  }

  /** The first pass stores the top-level count followed by the bracket counts in opening order. */
  lemma PassOneShow(items: seq<Item>)
    requires WellFormed(items)
    ensures PassOne(Show(items)) == if Elements(items) > 1 then Err(ManyItems) else Ok([Elements(items)] + Inner(items))
  {
    CountShow(items, COUNT_START, "");
    assert Show(items) + "" == Show(items);
    assert [0][0 := Elements(items)] == [Elements(items)];
  }

  // ----- every accepted string is the print of a tree

  /** The items up to the first closing character that does not belong to them. */
  lemma {:induction false} SplitItems(st: Count, fmt: string) returns (items: seq<Item>, rest: string)
    requires st.Valid() && CountRun(st, fmt).Ok? && |CountRun(st, fmt).value.stack| <= |st.stack|
    ensures WellFormed(items) && fmt == Show(items) + rest
    ensures |rest| == 0 || IsClose(rest[0])
    decreases |fmt|, 1
  {
    if |fmt| == 0 || IsClose(fmt[0]) {
      items, rest := [], fmt;
    } else {
      var c, tail := fmt[0], fmt[1..];
      assert fmt == [c] + tail;
      CountRunCons(st, c, tail);
      if IsOpen(c) {
        var item, tail' := SplitGroup(st, fmt);
        CountShowItem(item, st, tail');
        var others;
        others, rest := SplitItems(CountedItem(st, item), tail');
        items := [item] + others;
        ShowCons(item, others, rest);
      } else {
        var item := if IsLeaf(c) then Leaf(c) else Mark(c);
        var others;
        others, rest := SplitItems(CountStep(st, c).value, tail);
        items := [item] + others;
        ShowCons(item, others, rest);
      }
    }
  }

  /** An opening bracket in a run that comes back down to its level: the whole group, and what follows. */
  lemma {:induction false} SplitGroup(st: Count, fmt: string) returns (item: Item, rest: string)
    requires st.Valid() && CountRun(st, fmt).Ok? && |CountRun(st, fmt).value.stack| <= |st.stack|
    requires |fmt| > 0 && IsOpen(fmt[0])
    ensures WellFormedItem(item) && fmt == ShowItem(item) + rest
    decreases |fmt|, 0
  {
    var c, tail := fmt[0], fmt[1..];
    assert fmt == [c] + tail;
    CountRunCons(st, c, tail);
    var next := CountStep(st, c).value;
    var inner, after := SplitItems(next, tail);
    CountShow(inner, next, after);
    assert |after| > 0;
    var close := after[0];
    rest := after[1..];
    assert after == [close] + rest;
    item := Group(c, inner, close);
    GroupSplit(c, Show(inner), close, rest);
  }

  /** The first pass accepts a string exactly when it prints a well-formed tree with at most one top-level value. */
  lemma AcceptedIffTree(fmt: string)
    ensures PassOne(fmt).Ok? <==> exists items :: WellFormed(items) && Show(items) == fmt && Elements(items) <= 1
  {
    if PassOne(fmt).Ok? {
      var items := TreeOf(fmt);
    }
    forall items | WellFormed(items) && Show(items) == fmt && Elements(items) <= 1
      ensures PassOne(fmt).Ok?
    {
      PassOneShow(items);
    }
  }

  lemma TreeOf(fmt: string) returns (items: seq<Item>)
    requires PassOne(fmt).Ok?
    ensures WellFormed(items) && Show(items) == fmt && Elements(items) <= 1
  {
    var rest;
    items, rest := SplitItems(COUNT_START, fmt);
    CountShow(items, COUNT_START, rest);
    assert rest == "";
    assert Show(items) + "" == Show(items);
    PassOneShow(items);
  }

  // ----- the emitting pass over a tree

  /** The n-th bracket opened here reads the n-th count from lenCtr on. */
  predicate CountsAt(lens: seq<nat>, lenCtr: nat, counts: seq<nat>) {
    lenCtr + |counts| <= |lens| && lens[lenCtr..lenCtr + |counts|] == counts
  }

  lemma CountsSplit(lens: seq<nat>, lenCtr: nat, a: seq<nat>, b: seq<nat>)
    requires CountsAt(lens, lenCtr, a + b)
    ensures CountsAt(lens, lenCtr, a) && CountsAt(lens, lenCtr + |a|, b)
  {
    var whole := lens[lenCtr..lenCtr + |a + b|];
    assert whole[..|a|] == a && whole[|a|..] == b;
    assert lens[lenCtr..lenCtr + |a|] == whole[..|a|];
    assert lens[lenCtr + |a|..lenCtr + |a| + |b|] == whole[|a|..];
  }

  /** The state after emitting values with their brackets' counts consumed. */
  function Emitted(st: Emit, brackets: nat, m: Meaning): Emit {
    Emit(st.lenCtr + brackets, st.depth, m.src, st.out + EncodeAll(m.objs))
  }

  function Continue(lens: seq<nat>, st: Emit, brackets: nat, r: Result<Meaning, Failure>, more: string): Result<Emit, Failure> {
    match r
    case Err(e) => Err(e)
    case Ok(m) => EmitRun(lens, Emitted(st, brackets, m), more)
  }

  lemma {:induction false} ElementsBound(items: seq<Item>)
    ensures Elements(items) <= |Show(items)|
  {
    if |items| > 0 {
      ElementsBound(items[1..]);
    }
  }

  lemma {:induction false} EmitShow(items: seq<Item>, lens: seq<nat>, st: Emit, more: string)
    requires WellFormed(items) && |Show(items)| < UINT32_MAX
    requires CountsAt(lens, st.lenCtr, Inner(items))
    ensures EmitRun(lens, st, Show(items) + more) == Continue(lens, st, |Inner(items)|, Denote(items, st.src), more)
    decreases items, 1
  {
    if |items| == 0 {
      assert Show(items) + more == more;
      assert Emitted(st, 0, Meaning([], st.src)) == st;
    } else {
      var item, others := items[0], items[1..];
      assert items == [item] + others;
      ShowCons(item, others, more);
      CountsSplit(lens, st.lenCtr, InnerItem(item), Inner(others));
      EmitShowItem(item, lens, st, Show(others) + more);
      var first := DenoteItem(item, st.src);
      if first.Ok? {
        var mid := Emitted(st, |InnerItem(item)|, first.value);
        EmitShow(others, lens, mid, more);
        var second := Denote(others, first.value.src);
        if second.Ok? {
          EncodeAllConcat(first.value.objs, second.value.objs);
          Associative(st.out, EncodeAll(first.value.objs), EncodeAll(second.value.objs));
          assert Emitted(mid, |Inner(others)|, second.value)
              == Emitted(st, |Inner(items)|, Denote(items, st.src).value);
        }
      }
    }
  }

  lemma EncodeOne(o: Obj)
    ensures EncodeAll([o]) == Encode(o)
  {
    assert EncodeAll([o][1..]) == [];
  }

  lemma {:induction false} EmitShowItem(item: Item, lens: seq<nat>, st: Emit, more: string)
    requires WellFormedItem(item) && |ShowItem(item)| < UINT32_MAX
    requires CountsAt(lens, st.lenCtr, InnerItem(item))
    ensures EmitRun(lens, st, ShowItem(item) + more) == Continue(lens, st, |InnerItem(item)|, DenoteItem(item, st.src), more)
    decreases item, 0
  {
    match item
    case Leaf(c) =>
      EmitRunCons(lens, st, c, more);
      var drawn := Draw(c, st.src);
      if drawn.Ok? {
        EncodeOne(drawn.value.obj);
      }
    case Mark(c) =>
      EmitRunCons(lens, st, c, more);
      assert st.out + [] == st.out;
    case Group(open, items, close) => EmitGroup(open, items, close, lens, st, more);
  }

  lemma {:induction false} EmitGroup(open: char, items: seq<Item>, close: char, lens: seq<nat>, st: Emit, more: string)
    requires WellFormed(items) && IsOpen(open) && IsClose(close) && |Show(items)| < UINT32_MAX
    requires CountsAt(lens, st.lenCtr, [Elements(items)] + Inner(items))
    ensures EmitRun(lens, st, [open] + Show(items) + [close] + more)
         == Continue(lens, st, 1 + |Inner(items)|, DenoteItem(Group(open, items, close), st.src), more)
    decreases items, 3
  {
    GroupSplit(open, Show(items), close, more);
    EmitRunCons(lens, st, open, Show(items) + ([close] + more));
    CountsSplit(lens, st.lenCtr, [Elements(items)], Inner(items));
    assert lens[st.lenCtr] == lens[st.lenCtr..st.lenCtr + 1][0];
    ElementsBound(items);
    OpenStep(lens, st, open, Elements(items));
    if open == '[' || Elements(items) % 2 == 0 {
      EmitInside(open, items, close, lens, st, more);
    }
  }

  /** The elements and closing bracket of a group whose header is out. */
  lemma {:induction false} EmitInside(open: char, items: seq<Item>, close: char, lens: seq<nat>, st: Emit, more: string)
    requires WellFormed(items) && IsClose(close) && |Show(items)| < UINT32_MAX
    requires open == '[' || Elements(items) % 2 == 0
    requires CountsAt(lens, st.lenCtr + 1, Inner(items))
    ensures EmitRun(lens, Inside(st, open, Elements(items)), Show(items) + ([close] + more))
         == Continue(lens, st, 1 + |Inner(items)|, Grouped(open, Denote(items, st.src)), more)
    decreases items, 2
  {
    var inside := Inside(st, open, Elements(items));
    EmitShow(items, lens, inside, [close] + more);
    CloseInside(open, close, lens, st, Elements(items), |Inner(items)|, Denote(items, st.src),
                EmitRun(lens, inside, Show(items) + ([close] + more)), more);
  }

  lemma CloseInside(open: char, close: char, lens: seq<nat>, st: Emit, elements: nat, brackets: nat,
                    m: Result<Meaning, Failure>, run: Result<Emit, Failure>, more: string)
    requires IsClose(close) && (open == '[' || elements % 2 == 0) && (m.Ok? ==> |m.value.objs| == elements)
    requires run == Continue(lens, Inside(st, open, elements), brackets, m, [close] + more)
    ensures run == Continue(lens, st, 1 + brackets, Grouped(open, m), more)
  {
    if m.Ok? {
      ClosedGroup(lens, st, open, close, brackets, m.value, more);
    }
  }

  lemma ClosedGroup(lens: seq<nat>, st: Emit, open: char, close: char, brackets: nat, m: Meaning, more: string)
    requires IsClose(close) && (open == '[' || |m.objs| % 2 == 0)
    ensures EmitRun(lens, Emitted(Inside(st, open, |m.objs|), brackets, m), [close] + more)
         == EmitRun(lens, Emitted(st, 1 + brackets, Meaning([Container(open, m.objs)], m.src)), more)
  {
    EmitRunCons(lens, Emitted(Inside(st, open, |m.objs|), brackets, m), close, more);
    EmittedGroup(st, open, brackets, m);
  }

  /** The elements of a bracket as its one value. */
  function Grouped(open: char, r: Result<Meaning, Failure>): Result<Meaning, Failure>
    requires r.Ok? ==> open == '[' || |r.value.objs| % 2 == 0
  {
    match r
    case Err(e) => r
    case Ok(m) => Ok(Meaning([Container(open, m.objs)], m.src))
  }

  /** The state after a group's header. */
  function Inside(st: Emit, open: char, elements: nat): Emit {
    Emit(st.lenCtr + 1, st.depth + 1, st.src, st.out + GroupHeader(open, elements))
  }

  lemma OpenStep(lens: seq<nat>, st: Emit, open: char, elements: nat)
    requires IsOpen(open) && st.lenCtr < |lens| && lens[st.lenCtr] == elements < UINT32_MAX
    ensures EmitStep(lens, st, open)
         == if open != '[' && elements % 2 == 1 then Err(OddDictionary) else Ok(Inside(st, open, elements))
  {
  }

  function ThenEmit(lens: seq<nat>, r: Result<Emit, Failure>, more: string): Result<Emit, Failure> {
    match r
    case Err(e) => r
    case Ok(st) => EmitRun(lens, st, more)
  }

  lemma EmitRunCons(lens: seq<nat>, st: Emit, c: char, more: string)
    ensures EmitRun(lens, st, [c] + more) == ThenEmit(lens, EmitStep(lens, st, c), more)
  {
    assert ([c] + more)[1..] == more;
  }

  /** A header followed by its elements is the group's own encoding. */
  lemma EmittedGroup(st: Emit, open: char, brackets: nat, m: Meaning)
    requires open == '[' || |m.objs| % 2 == 0
    ensures
      var inside := Inside(st, open, |m.objs|);
      Emitted(inside, brackets, m).(depth := st.depth)
        == Emitted(st, 1 + brackets, Meaning([Container(open, m.objs)], m.src))
  {
    EncodeOne(Container(open, m.objs));
    EncodeGroup(open, m.objs);
    Associative(st.out, GroupHeader(open, |m.objs|), EncodeAll(m.objs));
  }

  function GroupHeader(open: char, elements: nat): seq<byte> {
    if open == '[' then ArrayHeader(elements) else DictHeader(elements / 2)
  }

  lemma EncodeGroup(open: char, objs: seq<Obj>)
    requires open == '[' || |objs| % 2 == 0
    ensures Encode(Container(open, objs)) == GroupHeader(open, |objs|) + EncodeAll(objs)
  {
    if open != '[' {
      EncodePaired(objs);
    }
  }

  // ----- the main theorem

  /** The meaning of a whole format: at most one value over the variadic arguments. */
  function Message(items: seq<Item>, args: seq<VArg>): (r: Result<Option<Obj>, Failure>)
  {
    if Elements(items) > 1 then Err(ManyItems)
    else if Elements(items) == 0 then Ok(None) else
    match Denote(items, VaList(args))
    case Err(e) => Err(e)
    case Ok(m) => Ok(Some(m.objs[0]))
  }

  /** Both passes over a printed tree: the same fault, no pack, or exactly the denoted object's encoding. */
  lemma CompileShow(items: seq<Item>, args: seq<VArg>)
    requires WellFormed(items) && |Show(items)| < UINT32_MAX
    ensures Compile(Show(items), args) == match Message(items, args)
                                          case Err(e) => Err(e)
                                          case Ok(None) => Ok(None)
                                          case Ok(Some(o)) => Ok(Some(Encode(o)))
  {
    PassOneShow(items);
    if Elements(items) == 1 {
      EmitWhole(items, args);
    }
  }

  lemma EmitWhole(items: seq<Item>, args: seq<VArg>)
    requires WellFormed(items) && |Show(items)| < UINT32_MAX && Elements(items) == 1
    ensures EmitRun([1] + Inner(items), Emit(1, 1, VaList(args), []), Show(items))
         == match Denote(items, VaList(args))
            case Err(e) => Err(e)
            case Ok(m) => Ok(Emit(1 + |Inner(items)|, 1, m.src, Encode(m.objs[0])))
  {
    var lens := [1] + Inner(items);
    assert lens[1..1 + |Inner(items)|] == Inner(items);
    EmitShow(items, lens, Emit(1, 1, VaList(args), []), "");
    assert Show(items) + "" == Show(items);
    var m := Denote(items, VaList(args));
    if m.Ok? {
      assert m.value.objs == [m.value.objs[0]];
      EncodeOne(m.value.objs[0]);
      assert [] + EncodeAll(m.value.objs) == EncodeAll(m.value.objs);
    }
  }

  /** Objects a format denotes stay within the encoder's limits. */
  lemma {:induction false} DenoteEncodable(items: seq<Item>, src: Source)
    requires |Show(items)| < UINT32_MAX && Denote(items, src).Ok?
    ensures AllEncodable(Denote(items, src).value.objs)
    decreases items, 1
  {
    if |items| > 0 {
      var first := DenoteItem(items[0], src).value;
      DenoteItemEncodable(items[0], src);
      DenoteEncodable(items[1..], first.src);
      AllEncodableConcat(first.objs, Denote(items[1..], first.src).value.objs);
    }
  }

  lemma {:induction false} DenoteItemEncodable(item: Item, src: Source)
    requires |ShowItem(item)| < UINT32_MAX && DenoteItem(item, src).Ok?
    ensures AllEncodable(DenoteItem(item, src).value.objs)
    decreases item, 0
  {
    match item
    case Group(open, items, _) =>
      ElementsBound(items);
      DenoteEncodable(items, src);
      if open != '[' {
        PairedEncodable(Denote(items, src).value.objs);
      }
    case _ =>
  }

  lemma {:induction false} AllEncodableConcat(a: seq<Obj>, b: seq<Obj>)
    requires AllEncodable(a) && AllEncodable(b)
    ensures AllEncodable(a + b)
  {
    if |a| == 0 {
      assert a + b == b;
    } else {
      AllEncodableConcat(a[1..], b);
      assert (a + b)[1..] == a[1..] + b;
    }
  }

  lemma {:induction false} PairedEncodable(flat: seq<Obj>)
    requires |flat| % 2 == 0 && AllEncodable(flat)
    ensures EntriesEncodable(Paired(flat))
  {
    if |flat| > 0 {
      assert flat[1..][0] == flat[1] && flat[1..][1..] == flat[2..];
      PairedEncodable(flat[2..]);
      assert Paired(flat)[1..] == Paired(flat[2..]);
    }
  }

  /**
   The compiler, the printer and the parser agree: whenever a format compiles to bytes, the reader
   takes exactly those bytes and returns the tree the format denotes, as received.
   */
  lemma CompiledFormatDecodes(fmt: string, args: seq<VArg>) returns (items: seq<Item>, o: Obj)
    requires |fmt| < UINT32_MAX
    requires Compile(fmt, args).Ok? && Compile(fmt, args).value.Some?
    ensures WellFormed(items) && Show(items) == fmt && Message(items, args) == Ok(Some(o))
    ensures Decode(Compile(fmt, args).value.value) == Done(Received(o), [])
  {
    items := TreeOf(fmt);
    CompileShow(items, args);
    o := Message(items, args).value.value;
    DenoteEncodable(items, VaList(args));
    RoundTrip(o, []);
    assert Encode(o) + [] == Encode(o);
  }
}
