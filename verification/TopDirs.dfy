/** Project directories shared between buffers: creation, sharing and release in place. */
module TopDirs {
  import opened DirCounts

  class TopDir {
    /** Stands for the object's address where directories are seen as values. */
    ghost const id: nat
    const ftid: int
    const pathname: string
    const recurse: bool
    var refs: nat

    constructor (ghost id: nat, ftid: int, pathname: string, recurse: bool)
      ensures this.id == id && this.ftid == ftid && this.pathname == pathname && this.recurse == recurse && refs == 1
    {
      this.id, this.ftid, this.pathname, this.recurse := id, ftid, pathname, recurse;
      refs := 1;
    }

    ghost function Value(): Dir
      reads this
    {
      Dir(id, ftid, pathname, recurse, refs)
    }
  }

  ghost function Values(dirs: seq<TopDir>): (values: seq<Dir>)
    reads dirs
    ensures |values| == |dirs| && forall i :: 0 <= i < |dirs| ==> values[i] == dirs[i].Value()
  {
    seq(|dirs|, i requires 0 <= i < |dirs| reads dirs => dirs[i].Value())
  }

  ghost function Ids(users: map<nat, TopDir>): map<nat, nat> { map b | b in users :: users[b].id }

  class Registry {
    var topDirs: seq<TopDir>
    /** The live buffers and the directory each of them points to. */
    var users: map<nat, TopDir>
    /** Directories that are not searched recursively. */
    const norecurse: seq<string>
    ghost var next: nat

    /** The registry as a value. */
    ghost function Value(): State
      reads this, topDirs
    {
      State(Values(topDirs), Ids(users), next)
    }

    /** Buffers point to listed directories. */
    ghost predicate Linked()
      reads this
    {
      forall b :: b in users ==> users[b] in topDirs
    }

    ghost predicate Valid()
      reads this, topDirs
    {
      DirCounts.Valid(norecurse, Value()) && Linked()
    }

    constructor (norecurse: seq<string>)
      ensures Valid() && Value() == EMPTY && this.norecurse == norecurse && topDirs == []
    {
      this.norecurse := norecurse;
      topDirs, users := [], map[];
      next := 0;
    }

    /** The first listed directory with a filetype and a path. */
    method CheckOpenTopdirs(ftid: int, base: string) returns (ret: TopDir?, ghost i: nat)
      ensures i == FindDir(Values(topDirs), ftid, base)
      ensures ret == if i < |topDirs| then topDirs[i] else null
    {
      for k := 0 to |topDirs|
        invariant forall j :: 0 <= j < k ==> topDirs[j].ftid != ftid || topDirs[j].pathname != base
      {
        if topDirs[k].ftid == ftid && topDirs[k].pathname == base {
          FoundAt(Values(topDirs), ftid, base, k);
          return topDirs[k], k;
        }
      }
      FoundAt(Values(topDirs), ftid, base, |topDirs|);
      return null, |topDirs|;
    }

    method CheckNorecurseDirectories(dir: string) returns (recurse: bool)
      ensures recurse == (dir !in norecurse)
    {
      for i := 0 to |norecurse|
        invariant forall k :: 0 <= k < i ==> norecurse[k] != dir
      {
        if dir == norecurse[i] {
          return false;
        }
      }
      recurse := true;
    }

    /** A buffer is opened, unless it is open already. */
    method OpenBuffer(num: nat, ftid: int, dir: string, full: string) returns (isNew: bool)
      requires Valid()
      modifies this, topDirs
      ensures Valid() && isNew == (num !in old(users))
      ensures Value() == Open(norecurse, old(Value()), num, ftid, dir, full)
      ensures forall d :: d in topDirs ==> d in old(topDirs) || fresh(d)
    {
      OpenKeepsValid(norecurse, Value(), num, ftid, dir, full);
      ValidIdsDiffer(norecurse, topDirs, Value());
      isNew := num !in users;
      if isNew {
        InitTopdir(num, ftid, dir, full);
      }
    }

    /** The directory of a buffer that is being opened: a listed one or a new one. */
    method InitTopdir(num: nat, ftid: int, dir: string, full: string)
      requires num !in users && IdsDiffer(topDirs) && forall b :: b in users ==> users[b] in topDirs
      modifies this, topDirs
      ensures Value() == Open(norecurse, old(Value()), num, ftid, dir, full)
      ensures forall b :: b in users ==> users[b] in topDirs
      ensures forall d :: d in topDirs ==> d in old(topDirs) || fresh(d)
    {
      var recurse := CheckNorecurseDirectories(dir);
      var base := if recurse then dir else full;
      assert base == Base(norecurse, dir, full);
      var tdir;
      ghost var i;
      tdir, i := CheckOpenTopdirs(ftid, base);
      if tdir != null {
        ShareFound(num, ftid, dir, full, tdir, i);
      } else {
        ListNew(num, ftid, dir, full, recurse);
      }
    }

    method ShareFound(num: nat, ftid: int, dir: string, full: string, tdir: TopDir, ghost i: nat)
      requires num !in users && IdsDiffer(topDirs) && forall b :: b in users ==> users[b] in topDirs
      requires i == FindDir(Values(topDirs), ftid, Base(norecurse, dir, full)) < |topDirs| && topDirs[i] == tdir
      modifies this`users, tdir
      ensures Value() == Open(norecurse, old(Value()), num, ftid, dir, full)
      ensures topDirs == old(topDirs) && forall b :: b in users ==> users[b] in topDirs
    {
      ghost var s := Value();
      OpenShares(norecurse, s, num, ftid, dir, full, i);
      Share(num, tdir, i, s);
    }

    method ListNew(num: nat, ftid: int, dir: string, full: string, recurse: bool)
      requires num !in users && recurse == (dir !in norecurse) && forall b :: b in users ==> users[b] in topDirs
      requires FindDir(Values(topDirs), ftid, Base(norecurse, dir, full)) == |topDirs|
      modifies this
      ensures Value() == Open(norecurse, old(Value()), num, ftid, dir, full)
      ensures forall b :: b in users ==> users[b] in topDirs
      ensures forall d :: d in topDirs ==> d in old(topDirs) || fresh(d)
    {
      OpenLists(norecurse, Value(), num, ftid, dir, full);
      List(num, ftid, dir, recurse);
    }

    method Share(num: nat, tdir: TopDir, ghost i: nat, ghost s: State)
      requires num !in users && i < |topDirs| && topDirs[i] == tdir && IdsDiffer(topDirs) && s == Value()
      requires forall b :: b in users ==> users[b] in topDirs
      modifies this`users, tdir
      ensures Value() == State(s.dirs[i := s.dirs[i].(refs := Wrapped(s.dirs[i].refs + 1))], s.users[num := s.dirs[i].id], s.next)
      ensures forall b :: b in users ==> users[b] in topDirs
    {
      MoreIds(users, num, tdir);
      SetRefs(tdir, Wrapped(tdir.refs + 1), i);
      users := users[num := tdir];
    }

    /** The counter of one directory is set; the others keep theirs. */
    method SetRefs(dir: TopDir, refs: nat, ghost i: nat)
      requires i < |topDirs| && topDirs[i] == dir && IdsDiffer(topDirs)
      modifies dir
      ensures dir.refs == refs && Values(topDirs) == old(Values(topDirs)[i := dir.Value().(refs := refs)])
    {
      ghost var values := Values(topDirs)[i := dir.Value().(refs := refs)];
      OthersHaveOtherIds(topDirs, i);
      dir.refs := refs;
      ValuesAre(topDirs, values);
    }

    method List(num: nat, ftid: int, dir: string, recurse: bool)
      requires num !in users && recurse == (dir !in norecurse)
      requires forall b :: b in users ==> users[b] in topDirs
      modifies this
      ensures Value() == old(State(Values(topDirs) + [NewDir(norecurse, next, ftid, dir)], Ids(users)[num := next], next + 1))
      ensures forall b :: b in users ==> users[b] in topDirs
      ensures forall d :: d in topDirs ==> d in old(topDirs) || fresh(d)
    {
      ghost var values := Values(topDirs);
      var tdir := new TopDir(next, ftid, dir, recurse);
      MoreIds(users, num, tdir);
      ValuesAre(topDirs, values);
      OneValueMore(topDirs, tdir);
      topDirs, users, next := topDirs + [tdir], users[num := tdir], next + 1;
    }

    /** A buffer is closed; everything stays right exactly if its directory's counter has not wrapped onto one. */
    method CloseBuffer(num: nat)
      requires Valid()
      modifies this, topDirs
      ensures Value() == Close(old(Value()), num)
      ensures Valid() <==> !Wraps(old(Value()), num)
      ensures forall d :: d in topDirs ==> d in old(topDirs)
    {
      ghost var before := Value();
      CloseKeepsValidIff(norecurse, before, num);
      FewerIds(users, num);
      ValidIdsDiffer(norecurse, topDirs, before);
      if num in users {
        CloseReleases(before, num, FindId(Values(topDirs), users[num].id));
        Release(num, FindId(Values(topDirs), users[num].id));
        if DirCounts.Valid(norecurse, Value()) {
          ListedById(old(topDirs), topDirs, users);
        }
      }
    }

    /** The buffer's directory loses a reference, and its place in the list with the last one. */
    method Release(num: nat, ghost i: nat)
      requires num in users && i < |topDirs| && IdsDiffer(topDirs) && topDirs[i].id == users[num].id && users[num] in topDirs
      modifies this, topDirs
      ensures Values(topDirs) == old(Released(Values(topDirs), i)) && users == old(users) - {num} && next == old(next)
      ensures forall d :: d in topDirs ==> d in old(topDirs)
    {
      var dir := users[num];
      SameId(topDirs, dir, topDirs[i]);
      users := users - {num};
      SetRefs(dir, Wrapped(dir.refs - 1), i);
      if dir.refs == 0 {
        ghost var values := Without(Values(topDirs), i);
        OthersHaveOtherIds(topDirs, i);
        DestroyTopdir(dir, i);
        ValuesAre(topDirs, values);
        assert values == old(Without(Values(topDirs), i));
      }
    }

    /** Takes a directory off the list. */
    method DestroyTopdir(dir: TopDir, ghost i: nat)
      requires i < |topDirs| && topDirs[i] == dir && forall k :: 0 <= k < |topDirs| && k != i ==> topDirs[k] != dir
      modifies this`topDirs
      ensures topDirs == old(topDirs)[..i] + old(topDirs)[i + 1..]
    {
      for k := 0 to |topDirs|
        invariant k <= i && topDirs == old(topDirs)
      {
        if topDirs[k] == dir {
          topDirs := topDirs[..k] + topDirs[k + 1..];
          return;
        }
      }
    }

    /**
     One opening or closing after another, up to the first closing that meets a wrapped counter. Everything
     is right at the end if and only if there was none; beyond it the program would read a freed directory.
     */
    method HandleRun(run: seq<Action>)
      requires Valid() && UnwrappedBefore(norecurse, Value(), run, |run| - 1)
      modifies this, topDirs
      ensures Value() == After(norecurse, old(Value()), run)
      ensures Valid() <==> !WrapsIn(norecurse, old(Value()), run)
    {
      ghost var start := Value();
      if |run| > 0 {
        HandleFirst(start, run, |run| - 1);
        assert forall j :: 0 <= j < |topDirs| ==> topDirs[j] in old(topDirs) || fresh(topDirs[j]);
        HandleAction(start, run, |run| - 1);
        OnlyTheLastWraps(norecurse, start, run);
      }
    }

    /** The first k actions of a run, none of which meets a wrapped counter. */
    method HandleFirst(ghost start: State, run: seq<Action>, k: nat)
      requires k <= |run| && DirCounts.Valid(norecurse, start) && UnwrappedBefore(norecurse, start, run, k)
      requires Linked() && Value() == start
      modifies this, topDirs
      ensures Linked() && Value() == After(norecurse, start, run[..k])
      ensures forall d :: d in topDirs ==> d in old(topDirs) || fresh(d)
    {
      assert run[..0] == [];
      for j := 0 to k
        invariant Linked() && Value() == After(norecurse, start, run[..j])
        invariant forall d :: d in topDirs ==> d in old(topDirs) || fresh(d)
      {
        assert forall i :: 0 <= i < |topDirs| ==> topDirs[i] in old(topDirs) || fresh(topDirs[i]);
        HandleUnwrapped(start, run, k, j);
      }
    }

    method HandleUnwrapped(ghost start: State, run: seq<Action>, k: nat, j: nat)
      requires j < k <= |run| && DirCounts.Valid(norecurse, start) && UnwrappedBefore(norecurse, start, run, k)
      requires Linked() && Value() == After(norecurse, start, run[..j])
      modifies this, topDirs
      ensures Linked() && Value() == After(norecurse, start, run[..j + 1])
      ensures forall d :: d in topDirs ==> d in old(topDirs) || fresh(d)
    {
      assert !WrapsAt(norecurse, start, run, j);
      HandleAction(start, run, j);
    }

    /** The k-th action of a run. */
    method HandleAction(ghost start: State, run: seq<Action>, k: nat)
      requires k < |run| && DirCounts.Valid(norecurse, start) && UnwrappedBefore(norecurse, start, run, k)
      requires Linked() && Value() == After(norecurse, start, run[..k])
      modifies this, topDirs
      ensures Value() == After(norecurse, start, run[..k + 1])
      ensures Valid() <==> !WrapsAt(norecurse, start, run, k)
      ensures forall d :: d in topDirs ==> d in old(topDirs) || fresh(d)
    {
      UnwrappedStep(norecurse, start, run, k);
      match run[k] {
        case OpenAction(num, ftid, dir, full) => var isNew := OpenBuffer(num, ftid, dir, full);
        case CloseAction(num) => CloseBuffer(num);
      }
    }
  }

  lemma ValuesAre(dirs: seq<TopDir>, values: seq<Dir>)
    requires |values| == |dirs| && forall i :: 0 <= i < |dirs| ==> values[i] == dirs[i].Value()
    ensures Values(dirs) == values
  {
  }

  lemma OneValueMore(dirs: seq<TopDir>, dir: TopDir)
    ensures Values(dirs + [dir]) == Values(dirs) + [dir.Value()]
  {
    assert (dirs + [dir])[..|dirs|] == dirs;
  }

  lemma MoreIds(users: map<nat, TopDir>, num: nat, dir: TopDir)
    ensures Ids(users[num := dir]) == Ids(users)[num := dir.id]
  {
  }

  lemma FewerIds(users: map<nat, TopDir>, num: nat)
    ensures Ids(users - {num}) == Ids(users) - {num}
  {
  }

  lemma ValidIdsDiffer(norecurse: seq<string>, dirs: seq<TopDir>, s: State)
    requires DirCounts.Valid(norecurse, s) && s.dirs == Values(dirs)
    ensures IdsDiffer(dirs)
  {
    forall i, j | 0 <= i < j < |dirs|
      ensures dirs[i].id != dirs[j].id
    {
      assert Apart(s.dirs[i], s.dirs[j]);
    }
  }

  ghost predicate IdsDiffer(dirs: seq<TopDir>) { forall i, j :: 0 <= i < j < |dirs| ==> dirs[i].id != dirs[j].id }

  lemma OthersHaveOtherIds(dirs: seq<TopDir>, i: nat)
    requires IdsDiffer(dirs) && i < |dirs|
    ensures forall k :: 0 <= k < |dirs| && k != i ==> dirs[k].id != dirs[i].id
  {
    forall k | 0 <= k < |dirs| && k != i
      ensures dirs[k].id != dirs[i].id
    {
      assert if k < i then dirs[k].id != dirs[i].id else dirs[i].id != dirs[k].id;
    }
  }

  /** A directory whose id is listed is listed itself. */
  lemma ListedById(dirs: seq<TopDir>, dirs': seq<TopDir>, users: map<nat, TopDir>)
    requires IdsDiffer(dirs) && forall d :: d in dirs' ==> d in dirs
    requires forall b :: b in users ==> users[b] in dirs
    requires Listed(Values(dirs'), Ids(users))
    ensures forall b :: b in users ==> users[b] in dirs'
  {
    forall b | b in users
      ensures users[b] in dirs'
    {
      assert Lists(Values(dirs'), Ids(users)[b]);
      var j :| 0 <= j < |dirs'| && Values(dirs')[j].id == users[b].id;
      assert dirs'[j] in dirs' && dirs'[j].id == users[b].id;
      SameId(dirs, users[b], dirs'[j]);
    }
  }

  lemma SameId(dirs: seq<TopDir>, d: TopDir, e: TopDir)
    requires IdsDiffer(dirs) && d in dirs && e in dirs && d.id == e.id
    ensures d == e
  {
    var i :| 0 <= i < |dirs| && dirs[i] == d;
    OthersHaveOtherIds(dirs, i);
  }

  lemma FoundAt(dirs: seq<Dir>, ftid: int, path: string, k: nat)
    requires k <= |dirs| && (k < |dirs| ==> dirs[k].ftid == ftid && dirs[k].pathname == path)
    requires forall j :: 0 <= j < k ==> dirs[j].ftid != ftid || dirs[j].pathname != path
    ensures FindDir(dirs, ftid, path) == k
  {
  }
}
