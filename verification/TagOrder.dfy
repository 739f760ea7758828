/** Tags and the order they are sorted in. */
module TagOrder {

  datatype Tag = Tag(kind: char, name: string)

  function Memcmp(a: string, b: string): int
    requires |a| == |b|
  {
    if |a| == 0 then 0
    else if a[0] != b[0] then a[0] as int - b[0] as int
    else Memcmp(a[1..], b[1..])
  }

  /** By kind, then by length, then by bytes. */
  function TagCmp(a: Tag, b: Tag): int {
    if a.kind == b.kind then
      if |a.name| == |b.name| then Memcmp(a.name, b.name) else |a.name| - |b.name|
    else a.kind as int - b.kind as int
  }

  lemma {:induction false} MemcmpSigns(a: string, b: string)
    requires |a| == |b|
    ensures Memcmp(a, b) == 0 <==> a == b
    ensures Memcmp(a, b) < 0 <==> Memcmp(b, a) > 0
  {
    if |a| > 0 {
      MemcmpSigns(a[1..], b[1..]);
      assert a == [a[0]] + a[1..] && b == [b[0]] + b[1..];
    }
  }

  lemma {:induction false} MemcmpTransitive(a: string, b: string, c: string)
    requires |a| == |b| == |c| && Memcmp(a, b) <= 0 && Memcmp(b, c) <= 0
    ensures Memcmp(a, c) <= 0
  {
    if |a| > 0 {
      if a[0] == b[0] == c[0] {
        MemcmpTransitive(a[1..], b[1..], c[1..]);
      }
    }
  }

  /** tag_cmp is a total order whose only ties are equal tags. */
  lemma TagCmpIsTotalOrder(a: Tag, b: Tag, c: Tag)
    ensures TagCmp(a, b) == 0 <==> a == b
    ensures TagCmp(a, b) < 0 <==> TagCmp(b, a) > 0
    ensures TagCmp(a, b) <= 0 && TagCmp(b, c) <= 0 ==> TagCmp(a, c) <= 0
    ensures TagCmp(a, b) <= 0 && TagCmp(b, c) < 0 ==> TagCmp(a, c) < 0
    ensures TagCmp(a, b) < 0 && TagCmp(b, c) <= 0 ==> TagCmp(a, c) < 0
  {
    Signs(a, b);
    Signs(b, c);
    Signs(a, c);
    if TagCmp(a, b) <= 0 && TagCmp(b, c) <= 0 {
      Transitive(a, b, c);
    }
    if TagCmp(b, c) <= 0 && TagCmp(c, a) <= 0 {
      Transitive(b, c, a);
    }
    if TagCmp(c, a) <= 0 && TagCmp(a, b) <= 0 {
      Transitive(c, a, b);
    }
  }

  lemma Signs(a: Tag, b: Tag)
    ensures TagCmp(a, b) == 0 <==> a == b
    ensures TagCmp(a, b) < 0 <==> TagCmp(b, a) > 0
  {
    if |a.name| == |b.name| {
      MemcmpSigns(a.name, b.name);
    }
  }

  lemma {:induction false} MemcmpIff(a: string, b: string)
    requires |a| == |b|
    ensures Memcmp(a, b) < 0
       <==> exists i :: 0 <= i < |a| && a[i] < b[i] && forall j :: 0 <= j < i ==> a[j] == b[j]
  {
    if |a| > 0 && a[0] == b[0] {
      var x, y := a[1..], b[1..];
      MemcmpIff(x, y);
      assert forall i :: 0 <= i < |x| ==> x[i] == a[i + 1] && y[i] == b[i + 1];
      if i :| 0 <= i < |a| && a[i] < b[i] && forall j :: 0 <= j < i ==> a[j] == b[j] {
        assert x[i - 1] < y[i - 1];
      }
      if i :| 0 <= i < |x| && x[i] < y[i] && forall j :: 0 <= j < i ==> x[j] == y[j] {
        assert a[i + 1] < b[i + 1];
        forall j | 0 <= j < i + 1
          ensures a[j] == b[j]
        {
          assert j > 0 ==> x[j - 1] == a[j];
        }
      }
    }
  }

  /** The smaller kind comes first, then the shorter name, then the name with the smaller character where two names first differ. */
  lemma ComesFirstIff(a: Tag, b: Tag)
    ensures TagCmp(a, b) < 0
       <==> || a.kind < b.kind
            || (a.kind == b.kind && |a.name| < |b.name|)
            || (a.kind == b.kind && |a.name| == |b.name|
                && exists i :: 0 <= i < |a.name| && a.name[i] < b.name[i] && forall j :: 0 <= j < i ==> a.name[j] == b.name[j])
  {
    if a.kind == b.kind && |a.name| == |b.name| {
      MemcmpIff(a.name, b.name);
    }
  }

  lemma Transitive(a: Tag, b: Tag, c: Tag)
    requires TagCmp(a, b) <= 0 && TagCmp(b, c) <= 0
    ensures TagCmp(a, c) <= 0
  {
    if a.kind == b.kind == c.kind && |a.name| == |b.name| == |c.name| {
      MemcmpTransitive(a.name, b.name, c.name);
    }
  }

  // ----- sorted and strictly increasing lists

  predicate Sorted(s: seq<Tag>) {
    forall i, j :: 0 <= i < j < |s| ==> TagCmp(s[i], s[j]) <= 0
  }

  predicate StrictlyIncreasing(s: seq<Tag>) {
    forall i, j :: 0 <= i < j < |s| ==> TagCmp(s[i], s[j]) < 0
  }

  /** A sorted list is determined by its elements with their multiplicities, whatever sorted them. */
  lemma {:induction false} SortedIsUnique(a: seq<Tag>, b: seq<Tag>)
    requires Sorted(a) && Sorted(b) && multiset(a) == multiset(b)
    ensures a == b
    decreases |a|
  {
    assert |a| == |multiset(a)| == |multiset(b)| == |b|;
    if |a| > 0 {
      assert a[0] in multiset(b) && b[0] in multiset(a);
      Least(a, b[0]);
      Least(b, a[0]);
      Signs(a[0], b[0]);
      TailMultiset(a);
      TailMultiset(b);
      SortedIsUnique(a[1..], b[1..]);
      HeadAndTail(a, b);
    }
  }

  lemma TailMultiset(s: seq<Tag>)
    requires |s| > 0
    ensures multiset(s[1..]) == multiset(s) - multiset{s[0]}
  {
    assert s == [s[0]] + s[1..];
  }

  lemma HeadAndTail(a: seq<Tag>, b: seq<Tag>)
    requires |a| > 0 && |b| > 0 && a[0] == b[0] && a[1..] == b[1..]
    ensures a == b
  {
    assert a == [a[0]] + a[1..] && b == [b[0]] + b[1..];
  }

  lemma Least(s: seq<Tag>, t: Tag)
    requires Sorted(s) && t in s
    ensures TagCmp(s[0], t) <= 0
  {
    var i :| 0 <= i < |s| && s[i] == t;
    Signs(t, t);
  }

  /** A strictly increasing list is determined by which tags it holds. */
  lemma {:induction false} IncreasingIsUnique(a: seq<Tag>, b: seq<Tag>)
    requires StrictlyIncreasing(a) && StrictlyIncreasing(b) && forall t :: t in a <==> t in b
    ensures a == b
    decreases |a|
  {
    assert |a| > 0 ==> a[0] in b;
    assert |b| > 0 ==> b[0] in a;
    if |a| > 0 {
      Least(a, b[0]);
      Least(b, a[0]);
      Signs(a[0], b[0]);
      TailMembers(a);
      TailMembers(b);
      IncreasingIsUnique(a[1..], b[1..]);
      HeadAndTail(a, b);
    }
  }

  lemma TailMembers(s: seq<Tag>)
    requires StrictlyIncreasing(s) && |s| > 0
    ensures StrictlyIncreasing(s[1..]) && forall t :: t in s[1..] <==> t in s && t != s[0]
  {
    Signs(s[0], s[0]);
    assert s == [s[0]] + s[1..];
    assert forall i :: 0 < i < |s| ==> TagCmp(s[0], s[i]) < 0;
  }

  // ----- a sort with qsort's promise

  function Inserted(s: seq<Tag>, t: Tag): (r: seq<Tag>)
    ensures multiset(r) == multiset(s) + multiset{t}
  {
    if |s| == 0 || TagCmp(t, s[0]) <= 0 then [t] + s
    else
      assert s == [s[0]] + s[1..];
      [s[0]] + Inserted(s[1..], t)
  }

  /** A sorted permutation. */
  function Sort(s: seq<Tag>): (r: seq<Tag>)
    ensures multiset(r) == multiset(s)
  {
    if |s| == 0 then []
    else
      assert s == [s[0]] + s[1..];
      Inserted(Sort(s[1..]), s[0])
  }

  lemma {:induction false} InsertedIsSorted(s: seq<Tag>, t: Tag)
    requires Sorted(s)
    ensures Sorted(Inserted(s, t))
  {
    if |s| > 0 {
      if TagCmp(t, s[0]) <= 0 {
        forall i | 0 <= i < |s| ensures TagCmp(t, s[i]) <= 0 {
          TagCmpIsTotalOrder(t, s[0], s[i]);
        }
      } else {
        InsertedIsSorted(s[1..], t);
        Signs(t, s[0]);
        var r := Inserted(s[1..], t);
        forall i | 0 <= i < |r| ensures TagCmp(s[0], r[i]) <= 0 {
          assert r[i] in multiset(r);
          assert r[i] == t || r[i] in s[1..];
        }
      }
    }
  }

  lemma {:induction false} SortIsSorted(s: seq<Tag>)
    ensures Sorted(Sort(s))
  {
    if |s| > 0 {
      SortIsSorted(s[1..]);
      InsertedIsSorted(Sort(s[1..]), s[0]);
    }
  }

  lemma SortKeepsMembers(s: seq<Tag>)
    ensures forall t :: t in Sort(s) <==> t in s
  {
    assert forall t :: t in Sort(s) <==> t in multiset(Sort(s));
    assert forall t :: t in s <==> t in multiset(s);
  }
}
