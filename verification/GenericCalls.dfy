/** The generic call over arrays and stacks: which parameter formats fit, and what is sent for them. */
module GenericCalls {
  import opened Bits
  import opened Wrappers
  import opened Mpack
  import opened Format
  import opened Compiler
  import opened Requests
  import opened Batch

  lemma {:induction false} PeakIsReached(s: string) returns (i: nat)
    ensures i <= |s| && Nesting(s[..i]) == Peak(s)
  {
    if |s| == 0 {
      i := 0;
    } else {
      var n := |s| - 1;
      i := PeakIsReached(s[..n]);
      assert s[..n][..i] == s[..i] && s[..|s|] == s;
      if Nesting(s) >= Peak(s[..n]) {
        i := |s|;
      }
    }
  }

  /** No prefix of a string is nested deeper than a bound if and only if its peak is not. */
  lemma PeakIff(s: string, bound: int)
    ensures Peak(s) <= bound <==> forall i :: 0 <= i <= |s| ==> Nesting(s[..i]) <= bound
    ensures Peak(s) >= 0 && Nesting(s) <= Peak(s)
  {
    var at := PeakIsReached(s);
    forall i | 0 <= i <= |s|
      ensures Nesting(s[..i]) <= Peak(s)
    {
      PeakBounds(s, i);
    }
    assert s[..0] == "" && s[..|s|] == s;
  }

  /** There is room for 127 openings and six more for every call that is hinted at, and for 127 levels. */
  lemma FitsIff(sizeHint: nat, s: string)
    ensures FitsArrays(sizeHint, s) <==> Openings(s) < 128 + 6 * sizeHint && Peak(s) < 128
  {
    PeakIff(s, STACK_SIZE - 1);
  }

  lemma ShapeOfOpening()
    ensures Openings("[d,d,s:[!") == Nesting("[d,d,s:[!") == Peak("[d,d,s:[!") == 2
    ensures Openings("[d,d,s:[") == Nesting("[d,d,s:[") == Peak("[d,d,s:[") == 2
  {
    ShapeOfHead();
    ShapeOfOne('[');
    ShapeOfPlain("!");
    ShapeOfConcat("[d,d,s:", "[");
    assert "[d,d,s:" + "[" == "[d,d,s:[";
    ShapeOfConcat("[d,d,s:[", "!");
    assert "[d,d,s:[" + "!" == "[d,d,s:[!";
  }

  lemma GenericShape(f: string)
    ensures Openings("[d,d,s:[!" + f + "]]") == Openings(f) + 2 && Peak("[d,d,s:[!" + f + "]]") == Peak(f) + 2
  {
    ShapeOfOpening();
    ShapeOfClosing("]]");
    PeakIff(f, 0);
    ShapeOfConcat("[d,d,s:[!", f);
    ShapeOfConcat("[d,d,s:[!" + f, "]]");
  }

  /** The generic call stays inside the compiler's arrays if and only if its parameters have at most 125 openings and levels. */
  lemma GenericFitsIff(f: string)
    ensures FitsArrays(0, GenericText(Some(f))) <==> Openings(f) <= 125 && forall i :: 0 <= i <= |f| ==> Nesting(f[..i]) <= 125
  {
    FitsIff(0, "[d,d,s:[!" + f + "]]");
    GenericShape(f);
    PeakIff(f, 125);
  }

  lemma NoParametersFit()
    ensures FitsArrays(0, GenericText(None))
  {
    ShapeOfOpening();
    ShapeOfClosing("]]");
    ShapeOfConcat("[d,d,s:[", "]]");
    assert "[d,d,s:[" + "]]" == "[d,d,s:[]]";
    FitsIff(0, "[d,d,s:[]]");
  }

  /** The generic call up to the packed bytes. */
  method MakeGenericCall(fmt: Option<string>, id: int32, name: Bytes, ap: seq<VArg>) returns (pack: Result<Option<seq<byte>>, Failure>)
    requires fmt.Some? ==>
               && |fmt.value| <= UINT32_MAX - 16 && Openings(fmt.value) <= 125
               && forall i :: 0 <= i <= |fmt.value| ==> Nesting(fmt.value[..i]) <= 125
    ensures pack == Compile(GenericText(fmt), GenericArgs(id, name, fmt, ap))
  {
    if fmt.Some? {
      GenericFitsIff(fmt.value);
      pack := MpackEncodeFmt(0, "[d,d,s:[!" + fmt.value + "]]", [VInt(MES_REQUEST), VInt(id), VStr(Some(name)), VList(ap)]);
      assert GenericArgs(id, name, fmt, ap) == [VInt(MES_REQUEST), VInt(id), VStr(Some(name)), VList(ap)];
    } else {
      NoParametersFit();
      pack := MpackEncodeFmt(0, "[d,d,s:[]]", [VInt(MES_REQUEST), VInt(id), VStr(Some(name))]);
      assert GenericArgs(id, name, fmt, ap) == [VInt(MES_REQUEST), VInt(id), VStr(Some(name))];
    }
  }
}
