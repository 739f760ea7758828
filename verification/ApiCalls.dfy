/** What every value character sends, and the requests of the calls the program makes, written out. */
module ApiCalls {
  import opened Bits
  import opened Wrappers
  import opened Mpack
  import opened Format
  import opened FormatMeaning
  import opened Requests
  import opened Wire

  // ----- reading a format from left to right

  /** A balanced format turns source `before` into these values and leaves source `after`. */
  ghost predicate Reads(fmt: string, before: Source, objs: seq<Obj>, after: Source) {
    exists items :: ItemsRead(items, fmt, before, objs, after)
  }

  ghost predicate ItemsRead(items: seq<Item>, fmt: string, before: Source, objs: seq<Obj>, after: Source) {
    WellFormed(items) && Show(items) == fmt && Denote(items, before) == Ok(Meaning(objs, after))
  }

  lemma ReadsNothing(src: Source)
    ensures Reads("", src, [], src)
  {
    assert ItemsRead([], "", src, [], src);
  }

  lemma ReadsBoth(f: string, g: string, s0: Source, s1: Source, s2: Source, a: seq<Obj>, b: seq<Obj>)
    requires Reads(f, s0, a, s1) && Reads(g, s1, b, s2)
    ensures Reads(f + g, s0, a + b, s2)
  {
    var i :| ItemsRead(i, f, s0, a, s1);
    var j :| ItemsRead(j, g, s1, b, s2);
    ShowConcat(i, j);
    DenoteConcat(i, j, s0);
    assert ItemsRead(i + j, f + g, s0, a + b, s2);
  }

  lemma ReadsValue(c: char, src: Source)
    requires IsLeaf(c) && Draw(c, src).Ok?
    ensures Reads([c], src, [Draw(c, src).value.obj], Draw(c, src).value.src)
  {
    ShowOne(Leaf(c));
    DenoteOne(Leaf(c), src);
    assert ItemsRead([Leaf(c)], [c], src, [Draw(c, src).value.obj], Draw(c, src).value.src);
  }

  lemma ReadsMark(c: char, src: Source)
    requires IsMark(c) && Switched(c, src).Ok?
    ensures Reads([c], src, [], Switched(c, src).value)
  {
    ShowOne(Mark(c));
    DenoteOne(Mark(c), src);
    assert ItemsRead([Mark(c)], [c], src, [], Switched(c, src).value);
  }

  lemma ReadsArray(f: string, before: Source, objs: seq<Obj>, after: Source)
    requires Reads(f, before, objs, after)
    ensures Reads("[" + f + "]", before, [Arr(objs)], after)
  {
    var i :| ItemsRead(i, f, before, objs, after);
    var group := Group('[', i, ']');
    ShowOne(group);
    DenoteOne(group, before);
    assert ItemsRead([group], "[" + f + "]", before, [Arr(objs)], after);
  }

  lemma ReadsDictionary(f: string, before: Source, objs: seq<Obj>, after: Source)
    requires Reads(f, before, objs, after) && |objs| % 2 == 0
    ensures Reads("{" + f + "}", before, [Dict(Paired(objs))], after)
  {
    var i :| ItemsRead(i, f, before, objs, after);
    var group := Group('{', i, '}');
    ShowOne(group);
    DenoteOne(group, before);
    assert ItemsRead([group], "{" + f + "}", before, [Dict(Paired(objs))], after);
  }

  /** A format that reads one value compiles to that value's encoding. */
  lemma ReadAndCompiled(fmt: string, args: seq<VArg>, o: Obj, after: Source)
    requires Reads(fmt, VaList(args), [o], after) && |fmt| < UINT32_MAX
    ensures Compile(fmt, args) == Ok(Some(Encode(o)))
  {
    var i :| ItemsRead(i, fmt, VaList(args), [o], after);
    CompileShow(i, args);
  }

  // ----- the alphabet

  predicate InAlphabet(c: char) {
    c in {'b', 'B', 'd', 'D', 'l', 'L', 'u', 'U', 's', 'S', 'c', 'C', 'n', 'N',
          '[', ']', '{', '}', ';', ':', '.', ' ', ',', '!', '@', '*'}
  }

  /** A format is refused for its characters if one of them is outside the alphabet and nothing before it is refused. */
  lemma {:induction false} AlphabetIff(st: Count, fmt: string)
    requires st.Valid()
    ensures CountRun(st, fmt).Ok? ==> forall i :: 0 <= i < |fmt| ==> InAlphabet(fmt[i])
    ensures CountRun(st, fmt) == Err(IllegalCharacter)
        <==> exists i :: 0 <= i < |fmt| && !InAlphabet(fmt[i]) && CountRun(st, fmt[..i]).Ok?
    decreases |fmt|
  {
    if |fmt| > 0 {
      OneCharacter(st, fmt[0]);
      var next := CountStep(st, fmt[0]);
      if next.Ok? {
        AlphabetIff(next.value, fmt[1..]);
        forall i | 0 <= i < |fmt[1..]|
          ensures fmt[1..][i] == fmt[i + 1] && CountRun(st, fmt[..i + 1]) == CountRun(next.value, fmt[1..][..i])
        {
          assert fmt[..i + 1][1..] == fmt[1..][..i];
        }
      } else {
        RefusedAtOnce(st, fmt);
      }
    }
  }

  lemma OneCharacter(st: Count, c: char)
    requires st.Valid()
    ensures InAlphabet(c) <==> IsLeaf(c) || IsOpen(c) || IsClose(c) || IsMark(c)
    ensures CountStep(st, c) == Err(IllegalCharacter) <==> !InAlphabet(c)
  {
  }

  lemma RefusedAtOnce(st: Count, fmt: string)
    requires st.Valid() && |fmt| > 0 && CountStep(st, fmt[0]).Err?
    ensures CountRun(st, fmt) == Err(CountStep(st, fmt[0]).error) && CountRun(st, fmt[..0]).Ok?
    ensures forall i :: 0 < i <= |fmt| ==> CountRun(st, fmt[..i]).Err?
  {
  }

  // ----- the value characters, from a plain list, behind "!" and behind "@"

  lemma ThreeSources(c: char, v: VArg, u: UArg, o: Obj, o': Obj)
    requires IsLeaf(c) && Lower(c) != 'n' && FromVariadic(c, v) == Some(o) && FromUnion(c, u) == Some(o')
    ensures Compile([c], [v]) == Ok(Some(Encode(o)))
    ensures Compile("[!" + [c] + "]", [VList([v])]) == Ok(Some(Encode(Arr([o]))))
    ensures Compile("[@" + [c] + "]", [VArrays([[u]])]) == Ok(Some(Encode(Arr([o']))))
  {
    PlainList(c, v, o);
    DrawnOne(c, v, o);
    assert "[!" == ['[', '!'] && "[@" == ['[', '@'];
    Switching("[!", '!', c, VList([v]), VaList([v]), o, VaList([]));
    Switching("[@", '@', c, VArrays([[u]]), Arrays([[u]], 0, 0), o', Arrays([[u]], 0, 1));
  }

  lemma DrawnOne(c: char, v: VArg, o: Obj)
    requires Lower(c) != 'n' && FromVariadic(c, v) == Some(o)
    ensures Draw(c, VaList([v])) == Ok(Drawn(o, VaList([])))
  {
    assert [v][1..] == [];
  }

  lemma PlainList(c: char, v: VArg, o: Obj)
    requires IsLeaf(c) && Lower(c) != 'n' && FromVariadic(c, v) == Some(o)
    ensures Compile([c], [v]) == Ok(Some(Encode(o)))
  {
    DrawnOne(c, v, o);
    ReadsValue(c, VaList([v]));
    ReadAndCompiled([c], [v], o, VaList([]));
  }

  /** One value behind a switch, in an array. */
  lemma Switching(opening: string, mark: char, c: char, arg: VArg, inner: Source, o: Obj, after: Source)
    requires opening == ['[', mark] && IsMark(mark) && Switched(mark, VaList([arg])) == Ok(inner)
    requires IsLeaf(c) && Draw(c, inner) == Ok(Drawn(o, after))
    ensures Compile(opening + [c] + "]", [arg]) == Ok(Some(Encode(Arr([o]))))
  {
    ReadsMark(mark, VaList([arg]));
    ReadsValue(c, inner);
    ReadsBoth([mark], [c], VaList([arg]), inner, after, [], [o]);
    assert [] + [o] == [o];
    InBrackets(opening, mark, [c], arg, [o], after);
  }

  lemma InBrackets(opening: string, mark: char, text: string, arg: VArg, objs: seq<Obj>, after: Source)
    requires opening == ['[', mark] && Reads([mark] + text, VaList([arg]), objs, after) && |text| < 100
    ensures Compile(opening + text + "]", [arg]) == Ok(Some(Encode(Arr(objs))))
  {
    ReadsArray([mark] + text, VaList([arg]), objs, after);
    assert "[" + ([mark] + text) + "]" == opening + text + "]";
    ReadAndCompiled(opening + text + "]", [arg], Arr(objs), after);
  }

  /** A variadic boolean is an int that is compared with zero; in an argument array it is a bool. */
  lemma BooleanSent(c: char, i: int32, b: bool)
    requires c in {'b', 'B'}
    ensures Compile([c], [VInt(i)]) == Ok(Some([if i != 0 then 0xC3 else 0xC2]))
    ensures Compile("[!" + [c] + "]", [VList([VInt(i)])]) == Ok(Some([0x91, if i != 0 then 0xC3 else 0xC2]))
    ensures Compile("[@" + [c] + "]", [VArrays([[UBool(b)]])]) == Ok(Some([0x91, if b then 0xC3 else 0xC2]))
  {
    ThreeSources(c, VInt(i), UBool(b), Bool(i != 0), Bool(b));
    ByteInArray(Bool(i != 0), if i != 0 then 0xC3 else 0xC2);
    ByteInArray(Bool(b), if b then 0xC3 else 0xC2);
  }

  lemma ByteInArray(o: Obj, b: byte)
    requires Encode(o) == [b]
    ensures Encode(Arr([o])) == [0x91, b]
  {
    EncodeOne(o);
    CompoundsWritten([], [o], []);
    ArrayHeaderWritten(1);
  }

  /** An int stays itself; a 64-bit number of an argument array is cut to the congruent int. */
  lemma IntSent(c: char, i: int32, n: int64, r: int32)
    requires c in {'d', 'D'} && (n - r) % 0x1_0000_0000 == 0
    ensures Compile([c], [VInt(i)]) == Ok(Some(Encode(Signed(i))))
    ensures Compile("[!" + [c] + "]", [VList([VInt(i)])]) == Ok(Some(Encode(Arr([Signed(i)]))))
    ensures Compile("[@" + [c] + "]", [VArrays([[UNum(n)]])]) == Ok(Some(Encode(Arr([Signed(r)]))))
  {
    OneResidue(n, r, ToInt32(n));
    ThreeSources(c, VInt(i), UNum(n), Signed(i), Signed(r));
  }

  lemma OneResidue(n: int, r: int32, s: int32)
    requires (n - r) % 0x1_0000_0000 == 0 && (n - s) % 0x1_0000_0000 == 0
    ensures r == s
  {
  }

  lemma LongSent(c: char, l: int64, n: int64)
    requires c in {'l', 'L'}
    ensures Compile([c], [VLong(l)]) == Ok(Some(Encode(Signed(l))))
    ensures Compile("[!" + [c] + "]", [VList([VLong(l)])]) == Ok(Some(Encode(Arr([Signed(l)]))))
    ensures Compile("[@" + [c] + "]", [VArrays([[UNum(n)]])]) == Ok(Some(Encode(Arr([Signed(n)]))))
  {
    ThreeSources(c, VLong(l), UNum(n), Signed(l), Signed(n));
  }

  lemma UnsignedSent(c: char, u: uint64, n: uint64)
    requires c in {'u', 'U'}
    ensures Compile([c], [VULong(u)]) == Ok(Some(Encode(Unsigned(u))))
    ensures Compile("[!" + [c] + "]", [VList([VULong(u)])]) == Ok(Some(Encode(Arr([Unsigned(u)]))))
    ensures Compile("[@" + [c] + "]", [VArrays([[UUint(n)]])]) == Ok(Some(Encode(Arr([Unsigned(n)]))))
  {
    ThreeSources(c, VULong(u), UUint(n), Unsigned(u), Unsigned(n));
  }

  lemma StringSent(c: char, s: Bytes, t: Bytes)
    requires c in {'s', 'S'}
    ensures Compile([c], [VStr(Some(s))]) == Ok(Some(Encode(Str(s))))
    ensures Compile("[!" + [c] + "]", [VList([VStr(Some(s))])]) == Ok(Some(Encode(Arr([Str(s)]))))
    ensures Compile("[@" + [c] + "]", [VArrays([[UStr(Some(t))]])]) == Ok(Some(Encode(Arr([Str(t)]))))
  {
    ThreeSources(c, VStr(Some(s)), UStr(Some(t)), Str(s), Str(t));
  }

  /** A null string is sent as an empty one. */
  lemma NullStringSent(c: char)
    requires c in {'s', 'S'}
    ensures Compile([c], [VStr(None)]) == Ok(Some([0xA0]))
    ensures Compile("[!" + [c] + "]", [VList([VStr(None)])]) == Ok(Some([0x91, 0xA0]))
    ensures Compile("[@" + [c] + "]", [VArrays([[UStr(None)]])]) == Ok(Some([0x91, 0xA0]))
  {
    EmptyString();
    ByteInArray(Str([]), 0xA0);
    ThreeSources(c, VStr(None), UStr(None), Str([]), Str([]));
  }

  lemma EmptyString()
    ensures Encode(Str([])) == [0xA0]
  {
    CompoundsWritten([], [], []);
    StringHeaderWritten(0);
    assert [0xA0] + [] == [0xA0];
  }

  lemma CharactersSent(c: char, s: Bytes, t: Bytes)
    requires c in {'c', 'C'}
    ensures Compile([c], [VChars(s)]) == Ok(Some(Encode(Str(s))))
    ensures Compile("[!" + [c] + "]", [VList([VChars(s)])]) == Ok(Some(Encode(Arr([Str(s)]))))
    ensures Compile("[@" + [c] + "]", [VArrays([[UChars(t)]])]) == Ok(Some(Encode(Arr([Str(t)]))))
  {
    ThreeSources(c, VChars(s), UChars(t), Str(s), Str(t));
  }

  /** Nil needs no argument and takes none: the next value reads the one that stood there. */
  lemma NilSent(c: char, n: int64)
    requires c in {'n', 'N'}
    ensures Compile([c], []) == Ok(Some([0xC0]))
    ensures Compile("[!" + [c, 'l'] + "]", [VList([VLong(n)])]) == Ok(Some(Encode(Arr([Nil, Signed(n)]))))
    ensures Compile("[@" + [c, 'l'] + "]", [VArrays([[UNum(n)]])]) == Ok(Some(Encode(Arr([Nil, Signed(n)]))))
  {
    ReadsValue(c, VaList([]));
    ReadAndCompiled([c], [], Nil, VaList([]));
    assert "[!" == ['[', '!'] && "[@" == ['[', '@'];
    DrawnOne('l', VLong(n), Signed(n));
    NilThenLong("[!", '!', c, VList([VLong(n)]), VaList([VLong(n)]), n, VaList([]));
    NilThenLong("[@", '@', c, VArrays([[UNum(n)]]), Arrays([[UNum(n)]], 0, 0), n, Arrays([[UNum(n)]], 0, 1));
  }

  lemma NilThenLong(opening: string, mark: char, c: char, arg: VArg, inner: Source, n: int64, after: Source)
    requires opening == ['[', mark] && IsMark(mark) && Switched(mark, VaList([arg])) == Ok(inner)
    requires c in {'n', 'N'} && Draw('l', inner) == Ok(Drawn(Signed(n), after))
    ensures Compile(opening + [c, 'l'] + "]", [arg]) == Ok(Some(Encode(Arr([Nil, Signed(n)]))))
  {
    ReadsMark(mark, VaList([arg]));
    ReadsValue(c, inner);
    ReadsValue('l', inner);
    ReadsThree(mark, c, 'l', VaList([arg]), inner, after, Nil, Signed(n));
    InBrackets(opening, mark, [c, 'l'], arg, [Nil, Signed(n)], after);
  }

  lemma ReadsThree(mark: char, c: char, d: char, before: Source, inner: Source, after: Source, a: Obj, b: Obj)
    requires Reads([mark], before, [], inner) && Reads([c], inner, [a], inner) && Reads([d], inner, [b], after)
    ensures Reads([mark] + [c, d], before, [a, b], after)
  {
    ReadsBoth([c], [d], inner, inner, after, [a], [b]);
    assert [c] + [d] == [c, d] && [a] + [b] == [a, b];
    ReadsBoth([mark], [c, d], before, inner, after, [], [a, b]);
    assert [] + [a, b] == [a, b];
  }

  // ----- flat pieces of a format

  predicate IsSeparator(c: char) { c in {',', ' ', ';', ':', '.'} }

  /** The k-th argument is read by the character at pos[k] as the k-th value, and nothing else stands in the text but separators. */
  ghost predicate Flat(f: string, pos: seq<nat>, args: seq<VArg>, objs: seq<Obj>) {
    && |pos| == |args| == |objs|
    && (forall k :: 0 <= k < |pos| ==> pos[k] < |f| && IsLeaf(f[pos[k]]) && Lower(f[pos[k]]) != 'n')
    && (forall k :: 0 <= k < |pos| && pos[k] < |f| ==> FromVariadic(f[pos[k]], args[k]) == Some(objs[k]))
    && (forall k, l :: 0 <= k < l < |pos| ==> pos[k] < pos[l])
    && (forall i :: 0 <= i < |f| && !IsSeparator(f[i]) ==> i in pos)
  }

  /** A flat piece takes its own arguments and leaves the rest. */
  lemma {:induction false} ReadsFlat(f: string, pos: seq<nat>, args: seq<VArg>, objs: seq<Obj>, more: seq<VArg>)
    requires Flat(f, pos, args, objs)
    ensures Reads(f, VaList(args + more), objs, VaList(more))
    decreases |f|
  {
    var m := |pos| - 1;
    if |f| == 0 {
      assert args + more == more;
      ReadsNothing(VaList(more));
    } else if m >= 0 && pos[m] == |f| - 1 {
      LastValue(f, pos, args, objs, more);
    } else {
      var n := |f| - 1;
      SeparatorLast(f, pos, args, objs);
      ReadsFlat(f[..n], pos, args, objs, more);
      SeparatorMore(f[..n], f[n], VaList(args + more), objs, VaList(more));
      Rejoined(f);
    }
  }

  lemma SeparatorLast(f: string, pos: seq<nat>, args: seq<VArg>, objs: seq<Obj>)
    requires Flat(f, pos, args, objs) && |f| > 0 && (|pos| > 0 ==> pos[|pos| - 1] != |f| - 1)
    ensures var n := |f| - 1; Flat(f[..n], pos, args, objs) && IsSeparator(f[n])
  {
    var n := |f| - 1;
    forall i | 0 <= i < n && !IsSeparator(f[..n][i])
      ensures i in pos
    {
      assert f[..n][i] == f[i];
    }
    assert n !in pos;
  }

  lemma SeparatorMore(f: string, c: char, before: Source, objs: seq<Obj>, after: Source)
    requires Reads(f, before, objs, after) && IsSeparator(c)
    ensures Reads(f + [c], before, objs, after)
  {
    ReadsMark(c, after);
    ReadsBoth(f, [c], before, after, after, objs, []);
    assert objs + [] == objs;
  }

  lemma {:induction false} LastValue(f: string, pos: seq<nat>, args: seq<VArg>, objs: seq<Obj>, more: seq<VArg>)
    requires Flat(f, pos, args, objs) && |pos| > 0 && pos[|pos| - 1] == |f| - 1
    ensures Reads(f, VaList(args + more), objs, VaList(more))
    decreases |f|, 0
  {
    var n, m := |f| - 1, |pos| - 1;
    FrontIsFlat(f, pos, args, objs);
    ReadsFlat(f[..n], pos[..m], args[..m], objs[..m], [args[m]] + more);
    LastMoved(args, more);
    OneMore(f[..n], f[n], VaList(args + more), args[m], objs[..m], objs[m], more);
    Rejoined(f);
    Rejoined(objs);
  }

  lemma LastMoved<T>(args: seq<T>, more: seq<T>)
    requires |args| > 0
    ensures var m := |args| - 1; args[..m] + ([args[m]] + more) == args + more
  {
  }

  lemma Rejoined<T>(s: seq<T>)
    requires |s| > 0
    ensures var m := |s| - 1; s[..m] + [s[m]] == s
  {
  }

  lemma FrontIsFlat(f: string, pos: seq<nat>, args: seq<VArg>, objs: seq<Obj>)
    requires Flat(f, pos, args, objs) && |pos| > 0 && pos[|pos| - 1] == |f| - 1
    ensures var n, m := |f| - 1, |pos| - 1; Flat(f[..n], pos[..m], args[..m], objs[..m])
  {
    var n, m := |f| - 1, |pos| - 1;
    forall i | 0 <= i < n && !IsSeparator(f[..n][i])
      ensures i in pos[..m]
    {
      assert f[..n][i] == f[i];
      var k :| 0 <= k < |pos| && pos[k] == i;
      assert pos[..m][k] == i;
    }
  }

  lemma OneMore(f: string, c: char, before: Source, arg: VArg, objs: seq<Obj>, o: Obj, more: seq<VArg>)
    requires Reads(f, before, objs, VaList([arg] + more))
    requires IsLeaf(c) && Lower(c) != 'n' && FromVariadic(c, arg) == Some(o)
    ensures Reads(f + [c], before, objs + [o], VaList(more))
  {
    assert ([arg] + more)[0] == arg && ([arg] + more)[1..] == more;
    ReadsValue(c, VaList([arg] + more));
    ReadsBoth(f, [c], before, VaList([arg] + more), VaList(more), objs, [o]);
  }

  // ----- the requests of the API functions

  /** The call of `name` with this format and these arguments is sent as the request [0, id, name, params]. */
  ghost predicate Sends(id: int32, name: Bytes, fmt: string, args: seq<VArg>, params: seq<Obj>) {
    Compile(GenericText(Some(fmt)), GenericArgs(id, name, Some(fmt), args))
      == Ok(Some(Encode(Arr([Signed(0), Signed(id), Str(name), Arr(params)]))))
  }

  lemma ReadAndSent(id: int32, name: Bytes, fmt: string, args: seq<VArg>, params: seq<Obj>, after: Source)
    requires Reads(fmt, VaList(args), params, after) && |fmt| < UINT32_MAX - 16
    ensures Sends(id, name, fmt, args, params)
  {
    var i :| ItemsRead(i, fmt, VaList(args), params, after);
    GenericCall(i, id, name, args);
  }

  lemma FlatSent(id: int32, name: Bytes, fmt: string, pos: seq<nat>, args: seq<VArg>, params: seq<Obj>)
    requires Flat(fmt, pos, args, params) && |fmt| < 100
    ensures Sends(id, name, fmt, args, params)
  {
    assert args + [] == args;
    ReadsFlat(fmt, pos, args, params, []);
    ReadAndSent(id, name, fmt, args, params, VaList([]));
  }

  /** nvim_command, nvim_eval, nvim_get_var and whatever else takes one string. */
  lemma StringCall(id: int32, name: Bytes, s: Bytes)
    ensures Sends(id, name, "s", [VStr(Some(s))], [Str(s)])
  {
    FlatSent(id, name, "s", [0], [VStr(Some(s))], [Str(s)]);
  }

  /** nvim_buf_line_count, nvim_buf_get_name, nvim_buf_get_changedtick. */
  lemma BufferCall(id: int32, name: Bytes, bufnum: int32)
    ensures Sends(id, name, "d", [VInt(bufnum)], [Signed(bufnum)])
  {
    FlatSent(id, name, "d", [0], [VInt(bufnum)], [Signed(bufnum)]);
  }

  /** nvim_buf_get_lines. */
  lemma LinesCall(id: int32, name: Bytes, bufnum: int32, start: int32, end: int32)
    ensures Sends(id, name, "d,d,d,d", [VInt(bufnum), VInt(start), VInt(end), VInt(0)],
                  [Signed(bufnum), Signed(start), Signed(end), Signed(0)])
  {
    FlatSent(id, name, "d,d,d,d", [0, 2, 4, 6], [VInt(bufnum), VInt(start), VInt(end), VInt(0)],
             [Signed(bufnum), Signed(start), Signed(end), Signed(0)]);
  }

  /** nvim_buf_get_var, nvim_buf_get_option. */
  lemma BufferStringCall(id: int32, name: Bytes, bufnum: int32, s: Bytes)
    ensures Sends(id, name, "d,s", [VInt(bufnum), VStr(Some(s))], [Signed(bufnum), Str(s)])
  {
    FlatSent(id, name, "d,s", [0, 2], [VInt(bufnum), VStr(Some(s))], [Signed(bufnum), Str(s)]);
  }

  /** nvim_set_option. */
  lemma TwoStringsCall(id: int32, name: Bytes, s: Bytes, t: Bytes)
    ensures Sends(id, name, "s,s", [VStr(Some(s)), VStr(Some(t))], [Str(s), Str(t)])
  {
    FlatSent(id, name, "s,s", [0, 2], [VStr(Some(s)), VStr(Some(t))], [Str(s), Str(t)]);
  }

  /** nvim_exec, nvim_get_hl_by_name. */
  lemma StringFlagCall(id: int32, name: Bytes, s: Bytes, flag: int32)
    ensures Sends(id, name, "sB", [VStr(Some(s)), VInt(flag)], [Str(s), Bool(flag != 0)])
  {
    FlatSent(id, name, "sB", [0, 1], [VStr(Some(s)), VInt(flag)], [Str(s), Bool(flag != 0)]);
  }

  /** nvim_get_hl_by_id. */
  lemma NumberFlagCall(id: int32, name: Bytes, hlId: int32, flag: int32)
    ensures Sends(id, name, "dB", [VInt(hlId), VInt(flag)], [Signed(hlId), Bool(flag != 0)])
  {
    FlatSent(id, name, "dB", [0, 1], [VInt(hlId), VInt(flag)], [Signed(hlId), Bool(flag != 0)]);
  }

  /** nvim_buf_clear_highlight, nvim_buf_clear_namespace. */
  lemma ClearCall(id: int32, name: Bytes, bufnum: int32, hlId: int32, start: int32, end: int32)
    ensures Sends(id, name, "dd,dd", [VInt(bufnum), VInt(hlId), VInt(start), VInt(end)],
                  [Signed(bufnum), Signed(hlId), Signed(start), Signed(end)])
  {
    FlatSent(id, name, "dd,dd", [0, 1, 3, 4], [VInt(bufnum), VInt(hlId), VInt(start), VInt(end)],
             [Signed(bufnum), Signed(hlId), Signed(start), Signed(end)]);
  }

  /** nvim_buf_add_highlight. */
  lemma HighlightCall(id: int32, name: Bytes, bufnum: int32, hlId: int32, group: Bytes, line: int32, start: int32, end: int32)
    ensures Sends(id, name, "dd,s,ddd", [VInt(bufnum), VInt(hlId), VStr(Some(group)), VInt(line), VInt(start), VInt(end)],
                  [Signed(bufnum), Signed(hlId), Str(group), Signed(line), Signed(start), Signed(end)])
  {
    FlatSent(id, name, "dd,s,ddd", [0, 1, 3, 5, 6, 7],
             [VInt(bufnum), VInt(hlId), VStr(Some(group)), VInt(line), VInt(start), VInt(end)],
             [Signed(bufnum), Signed(hlId), Str(group), Signed(line), Signed(start), Signed(end)]);
  }

  // ----- formats with brackets

  lemma ReadsEmptyArray(src: Source)
    ensures Reads("[]", src, [Arr([])], src)
  {
    ReadsNothing(src);
    ReadsArray("", src, [], src);
    assert "[" + "" + "]" == "[]";
  }

  lemma ReadsEmptyDictionary(src: Source)
    ensures Reads("{}", src, [Dict([])], src)
  {
    ReadsNothing(src);
    ReadsDictionary("", src, [], src);
    assert "{" + "" + "}" == "{}";
  }

  /** A flat piece and an empty list behind it. */
  lemma WithEmptyArray(id: int32, name: Bytes, f: string, fmt: string, pos: seq<nat>, args: seq<VArg>, objs: seq<Obj>)
    requires Flat(f, pos, args, objs) && fmt == f + "[]" && |f| < 100
    ensures Sends(id, name, fmt, args, objs + [Arr([])])
  {
    assert args + [] == args;
    ReadsFlat(f, pos, args, objs, []);
    ReadsEmptyArray(VaList([]));
    ReadsBoth(f, "[]", VaList(args), VaList([]), VaList([]), objs, [Arr([])]);
    ReadAndSent(id, name, fmt, args, objs + [Arr([])], VaList([]));
  }

  /** nvim_buf_attach: the buffer, whether to send its lines, no options. */
  lemma AttachCall(id: int32, name: Bytes, bufnum: int32, flag: int32)
    ensures Sends(id, name, "d,B,[]", [VInt(bufnum), VInt(flag)], [Signed(bufnum), Bool(flag != 0), Arr([])])
  {
    WithEmptyArray(id, name, "d,B,", "d,B,[]", [0, 2], [VInt(bufnum), VInt(flag)], [Signed(bufnum), Bool(flag != 0)]);
    assert [Signed(bufnum), Bool(flag != 0)] + [Arr([])] == [Signed(bufnum), Bool(flag != 0), Arr([])];
  }

  /** The parameters of that call on the wire: three elements, the number, true or false, and no elements. */
  lemma AttachBytes(bufnum: int32, flag: int32)
    requires 0 <= bufnum < 0x80
    ensures Encode(Arr([Signed(bufnum), Bool(flag != 0), Arr([])])) == [0x93, bufnum, if flag != 0 then 0xC3 else 0xC2, 0x90]
  {
    var none: seq<Obj> := [];
    ArrayHeaderWritten(0);
    ArrayHeaderWritten(3);
    SignedWritten(bufnum);
    NilAndBoolsWritten();
    CompoundsWritten([], none, []);
    ThreeEncoded(Signed(bufnum), Bool(flag != 0), Arr(none), bufnum, if flag != 0 then 0xC3 else 0xC2, 0x90);
  }

  lemma ThreeEncoded(a: Obj, b: Obj, c: Obj, x: byte, y: byte, z: byte)
    requires Encode(a) == [x] && Encode(b) == [y] && Encode(c) == [z]
    ensures Encode(Arr([a, b, c])) == [0x93, x, y, z]
  {
    EncodeOne(c);
    OneByteMore(b, y, [c], [z]);
    OneByteMore(a, x, [b] + [c], [y] + [z]);
    assert [a] + ([b] + [c]) == [a, b, c];
    CompoundsWritten([], [a, b, c], []);
    ArrayHeaderWritten(3);
    assert [0x93] + ([x] + ([y] + [z])) == [0x93, x, y, z];
  }

  lemma OneByteMore(o: Obj, x: byte, objs: seq<Obj>, bytes: seq<byte>)
    requires Encode(o) == [x] && EncodeAll(objs) == bytes
    ensures EncodeAll([o] + objs) == [x] + bytes
  {
    ElementsWritten(o, objs, Entry(o, o), []);
  }

  /** nvim_call_function without arguments. */
  lemma FunctionCall(id: int32, name: Bytes, function_: Bytes)
    ensures Sends(id, name, "s,[]", [VStr(Some(function_))], [Str(function_), Arr([])])
  {
    WithEmptyArray(id, name, "s,", "s,[]", [0], [VStr(Some(function_))], [Str(function_)]);
    assert [Str(function_)] + [Arr([])] == [Str(function_), Arr([])];
  }

  /** nvimext_call_function_fmt: the caller's own format gives the arguments of the function. */
  lemma FormattedFunctionCall(id: int32, name: Bytes, function_: Bytes, fmt: string, ap: seq<VArg>, objs: seq<Obj>, after: Source)
    requires Reads(fmt, VaList(ap), objs, after) && |fmt| < UINT32_MAX - 100
    ensures Sends(id, name, "s,[!" + fmt + "]", [VStr(Some(function_)), VList(ap)], [Str(function_), Arr(objs)])
  {
    var args, rest := [VStr(Some(function_)), VList(ap)], VaList([VList(ap)]);
    NameThenList(function_, ap);
    ReadsOwnList(fmt, ap, objs, after);
    ReadsArray(['!'] + fmt, rest, objs, after);
    ReadsBoth("s,", "[" + (['!'] + fmt) + "]", VaList(args), rest, after, [Str(function_)], [Arr(objs)]);
    FunctionText(fmt);
    assert [Str(function_)] + [Arr(objs)] == [Str(function_), Arr(objs)];
    ReadAndSent(id, name, "s,[!" + fmt + "]", args, [Str(function_), Arr(objs)], after);
  }

  lemma NameThenList(name: Bytes, ap: seq<VArg>)
    ensures Reads("s,", VaList([VStr(Some(name)), VList(ap)]), [Str(name)], VaList([VList(ap)]))
  {
    assert [VStr(Some(name)), VList(ap)] == [VStr(Some(name))] + [VList(ap)];
    ReadsFlat("s,", [0], [VStr(Some(name))], [Str(name)], [VList(ap)]);
  }

  /** Behind "!" a format reads the caller's own list. */
  lemma ReadsOwnList(fmt: string, ap: seq<VArg>, objs: seq<Obj>, after: Source)
    requires Reads(fmt, VaList(ap), objs, after)
    ensures Reads(['!'] + fmt, VaList([VList(ap)]), objs, after)
  {
    ReadsMark('!', VaList([VList(ap)]));
    ReadsBoth(['!'], fmt, VaList([VList(ap)]), VaList(ap), after, [], objs);
    assert [] + objs == objs;
  }

  lemma FunctionText(fmt: string)
    ensures "s," + ("[" + (['!'] + fmt) + "]") == "s,[!" + fmt + "]"
  {
  }

  /** nvim_set_var: the name and the values are the elements of one single parameter. */
  lemma SetVariableCall(id: int32, name: Bytes, variable: Bytes, fmt: string, ap: seq<VArg>, objs: seq<Obj>, after: Source)
    requires Reads(fmt, VaList(ap), objs, after) && |fmt| < UINT32_MAX - 100
    ensures Sends(id, name, "[s,!" + fmt + "]", [VStr(Some(variable)), VList(ap)], [Arr([Str(variable)] + objs)])
  {
    var args, rest := [VStr(Some(variable)), VList(ap)], VaList([VList(ap)]);
    NameThenList(variable, ap);
    ReadsOwnList(fmt, ap, objs, after);
    ReadsBoth("s,", ['!'] + fmt, VaList(args), rest, after, [Str(variable)], objs);
    ReadsArray("s," + (['!'] + fmt), VaList(args), [Str(variable)] + objs, after);
    VariableText(fmt);
    ReadAndSent(id, name, "[s,!" + fmt + "]", args, [Arr([Str(variable)] + objs)], after);
  }

  lemma VariableText(fmt: string)
    ensures "[" + ("s," + (['!'] + fmt)) + "]" == "[s,!" + fmt + "]"
  {
  }

  // ----- the client's own description

  /** The version dictionary: three keys with two numbers and a string. */
  lemma VersionRead(a: Bytes, major: int32, b: Bytes, minor: int32, c: Bytes, dev: Bytes, more: seq<VArg>)
    ensures Reads("{" + "s:d, s:d, s:s" + "}",
                  VaList([VStr(Some(a)), VInt(major)] + ([VStr(Some(b)), VInt(minor)] + ([VStr(Some(c)), VStr(Some(dev))] + more))),
                  [Dict([Entry(Str(a), Signed(major)), Entry(Str(b), Signed(minor)), Entry(Str(c), Str(dev))])], VaList(more))
  {
    var third := [VStr(Some(c)), VStr(Some(dev))] + more;
    var second := [VStr(Some(b)), VInt(minor)] + third;
    var all := [VStr(Some(a)), VInt(major)] + second;
    NumberEntryRead(a, major, second);
    NumberEntryRead(b, minor, third);
    StringEntryRead(c, dev, more);
    DictionaryOfThree("s:d, ", "s:d, ", "s:s", VaList(all), VaList(second), VaList(third), VaList(more),
                      Str(a), Signed(major), Str(b), Signed(minor), Str(c), Str(dev));
    VersionText();
  }

  lemma NumberEntryRead(key: Bytes, n: int32, more: seq<VArg>)
    ensures Reads("s:d, ", VaList([VStr(Some(key)), VInt(n)] + more), [Str(key), Signed(n)], VaList(more))
  {
    ReadsFlat("s:d, ", [0, 2], [VStr(Some(key)), VInt(n)], [Str(key), Signed(n)], more);
  }

  lemma StringEntryRead(key: Bytes, s: Bytes, more: seq<VArg>)
    ensures Reads("s:s", VaList([VStr(Some(key)), VStr(Some(s))] + more), [Str(key), Str(s)], VaList(more))
  {
    ReadsFlat("s:s", [0, 2], [VStr(Some(key)), VStr(Some(s))], [Str(key), Str(s)], more);
  }

  lemma VersionText()
    ensures "s:d, " + ("s:d, " + "s:s") == "s:d, s:d, s:s"
  {
  }

  lemma DictionaryOfThree(f: string, g: string, h: string, s0: Source, s1: Source, s2: Source, s3: Source,
                          a: Obj, b: Obj, c: Obj, d: Obj, e: Obj, o: Obj)
    requires Reads(f, s0, [a, b], s1) && Reads(g, s1, [c, d], s2) && Reads(h, s2, [e, o], s3)
    ensures Reads("{" + (f + (g + h)) + "}", s0, [Dict([Entry(a, b), Entry(c, d), Entry(e, o)])], s3)
  {
    ReadsBoth(g, h, s1, s2, s3, [c, d], [e, o]);
    ReadsBoth(f, g + h, s0, s1, s3, [a, b], [c, d] + [e, o]);
    assert [a, b] + ([c, d] + [e, o]) == [a, b, c, d, e, o];
    ReadsDictionary(f + (g + h), s0, [a, b, c, d, e, o], s3);
    ThreePairs(a, b, c, d, e, o);
  }

  lemma ThreePairs(a: Obj, b: Obj, c: Obj, d: Obj, e: Obj, f: Obj)
    ensures Paired([a, b, c, d, e, f]) == [Entry(a, b), Entry(c, d), Entry(e, f)]
  {
    OnePairMore(e, f, []);
    OnePairMore(c, d, [e, f]);
    OnePairMore(a, b, [c, d, e, f]);
    assert [e, f] == [e, f] + [] && [c, d, e, f] == [c, d] + [e, f] && [a, b, c, d, e, f] == [a, b] + [c, d, e, f];
  }

  lemma OnePairMore(key: Obj, value: Obj, others: seq<Obj>)
    requires |others| % 2 == 0
    ensures Paired([key, value] + others) == [Entry(key, value)] + Paired(others)
  {
    assert ([key, value] + others)[2..] == others;
  }

  /** What follows it: the client's type and two empty dictionaries. */
  lemma TypeRead(kind: Bytes)
    ensures Reads("; s; " + ("{}" + ("; " + "{}")), VaList([VStr(Some(kind))]), [Str(kind), Dict([]), Dict([])], VaList([]))
  {
    var none: seq<VArg> := [];
    var end := VaList(none);
    assert [VStr(Some(kind))] + none == [VStr(Some(kind))] && none + none == none;
    ReadsFlat("; s; ", [2], [VStr(Some(kind))], [Str(kind)], none);
    TwoEmpty(end);
    OneThenTwo("; s; ", "{}" + ("; " + "{}"), VaList([VStr(Some(kind))]), end, Str(kind), Dict([]));
  }

  lemma OneThenTwo(f: string, g: string, before: Source, end: Source, a: Obj, b: Obj)
    requires Reads(f, before, [a], end) && Reads(g, end, [b, b], end)
    ensures Reads(f + g, before, [a, b, b], end)
  {
    ReadsBoth(f, g, before, end, end, [a], [b, b]);
    assert [a] + [b, b] == [a, b, b];
  }

  lemma TwoEmpty(end: Source)
    requires end == VaList([])
    ensures Reads("{}" + ("; " + "{}"), end, [Dict([]), Dict([])], end)
  {
    SeparatorRead(end);
    ReadsEmptyDictionary(end);
    Twice("{}", "; ", end, Dict([]));
  }

  lemma SeparatorRead(end: Source)
    ensures Reads("; ", end, [], end)
  {
    ReadsNothing(end);
    SeparatorMore("", ';', end, [], end);
    assert "" + [';'] == [';'];
    SeparatorMore([';'], ' ', end, [], end);
    assert [';'] + [' '] == "; ";
  }

  lemma Twice(f: string, separator: string, src: Source, o: Obj)
    requires Reads(f, src, [o], src) && Reads(separator, src, [], src)
    ensures Reads(f + (separator + f), src, [o, o], src)
  {
    ReadsBoth(separator, f, src, src, src, [], [o]);
    assert [] + [o] == [o];
    ReadsBoth(f, separator + f, src, src, src, [o], [o]);
    assert [o] + [o] == [o, o];
  }

  const CLIENT_FORMAT := "s; {s:d, s:d, s:s}; s; {}; {}"

  /** nvim_set_client_info. */
  lemma ClientCall(id: int32, name: Bytes, client: Bytes, a: Bytes, major: int32, b: Bytes, minor: int32, c: Bytes, dev: Bytes, kind: Bytes)
    ensures Sends(id, name, CLIENT_FORMAT,
                  [VStr(Some(client)), VStr(Some(a)), VInt(major), VStr(Some(b)), VInt(minor), VStr(Some(c)), VStr(Some(dev)), VStr(Some(kind))],
                  [Str(client), Dict([Entry(Str(a), Signed(major)), Entry(Str(b), Signed(minor)), Entry(Str(c), Str(dev))]),
                   Str(kind), Dict([]), Dict([])])
  {
    var first, last := [VStr(Some(client))], [VStr(Some(kind))];
    var rest := [VStr(Some(a)), VInt(major)] + ([VStr(Some(b)), VInt(minor)] + ([VStr(Some(c)), VStr(Some(dev))] + last));
    var version := Dict([Entry(Str(a), Signed(major)), Entry(Str(b), Signed(minor)), Entry(Str(c), Str(dev))]);
    ReadsFlat("s; ", [0], first, [Str(client)], rest);
    VersionRead(a, major, b, minor, c, dev, last);
    TypeRead(kind);
    ClientRead(first + rest, client, rest, version, kind, last);
    assert first + rest ==
      [VStr(Some(client)), VStr(Some(a)), VInt(major), VStr(Some(b)), VInt(minor), VStr(Some(c)), VStr(Some(dev)), VStr(Some(kind))];
    ReadAndSent(id, name, CLIENT_FORMAT, first + rest, [Str(client), version, Str(kind), Dict([]), Dict([])], VaList([]));
  }

  lemma ClientRead(args: seq<VArg>, client: Bytes, rest: seq<VArg>, version: Obj, kind: Bytes, last: seq<VArg>)
    requires Reads("s; ", VaList(args), [Str(client)], VaList(rest))
    requires Reads("{" + "s:d, s:d, s:s" + "}", VaList(rest), [version], VaList(last))
    requires Reads("; s; " + ("{}" + ("; " + "{}")), VaList(last), [Str(kind), Dict([]), Dict([])], VaList([]))
    ensures Reads(CLIENT_FORMAT, VaList(args), [Str(client), version, Str(kind), Dict([]), Dict([])], VaList([]))
  {
    var f, g, tail := "{" + "s:d, s:d, s:s" + "}", "; s; " + ("{}" + ("; " + "{}")), [Str(kind), Dict([]), Dict([])];
    ReadsBoth(f, g, VaList(rest), VaList(last), VaList([]), [version], tail);
    ReadsBoth("s; ", f + g, VaList(args), VaList(rest), VaList([]), [Str(client)], [version] + tail);
    assert [Str(client)] + ([version] + tail) == [Str(client), version, Str(kind), Dict([]), Dict([])];
    ClientText();
  }

  lemma ClientText()
    ensures "s; " + (("{" + "s:d, s:d, s:s" + "}") + ("; s; " + ("{}" + ("; " + "{}")))) == CLIENT_FORMAT
  {
  }

  // ----- calls without a format

  /** nvim_list_bufs, nvim_get_current_buf, nvim_get_current_line, nvim_get_api_info. */
  lemma BareCall(id: int32, name: Bytes)
    ensures Compile(GenericText(None), GenericArgs(id, name, None, [])) == Ok(Some(Encode(Arr([Signed(0), Signed(id), Str(name), Arr([])]))))
  {
    GenericCallWithoutParameters(id, name);
  }
}
