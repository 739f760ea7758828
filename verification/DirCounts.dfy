/** What the shared project directories should look like: listed while used, counted, and distinct, over every run. */
module DirCounts {

  /** The reference count has 16 bits. */
  const REFS_RANGE: nat := 0x1_0000

  /** What a 16-bit counter shows. */
  function Wrapped(n: int): nat { n % REFS_RANGE }

  lemma WrappedSteps(n: nat)
    ensures Wrapped(Wrapped(n) + 1) == Wrapped(n + 1)
    ensures n > 0 ==> Wrapped(Wrapped(n) - 1) == Wrapped(n - 1) && (Wrapped(n - 1) == 0 <==> Wrapped(n) == 1)
  {
  }

  /** A project directory; the id stands for its address. */
  datatype Dir = Dir(id: nat, ftid: int, pathname: string, recurse: bool, refs: nat)

  /** The listed directories, the directory each live buffer points to, and the first id not used yet. */
  datatype State = State(dirs: seq<Dir>, users: map<nat, nat>, next: nat)

  const EMPTY := State([], map[], 0)

  // ----- the steps

  /** Where a buffer looks for a directory to share: its project directory, or its own file if that is not searched. */
  function Base(norecurse: seq<string>, dir: string, full: string): string { if dir !in norecurse then dir else full }

  /** The first directory of a filetype and path, or the number of directories. */
  function FindDir(dirs: seq<Dir>, ftid: int, path: string): (i: nat)
    ensures i <= |dirs| && (i < |dirs| ==> dirs[i].ftid == ftid && dirs[i].pathname == path)
    ensures forall j :: 0 <= j < i ==> dirs[j].ftid != ftid || dirs[j].pathname != path
  {
    if |dirs| == 0 || (dirs[0].ftid == ftid && dirs[0].pathname == path) then 0 else 1 + FindDir(dirs[1..], ftid, path)
  }

  function FindId(dirs: seq<Dir>, id: nat): (i: nat)
    ensures i <= |dirs| && (i < |dirs| ==> dirs[i].id == id)
    ensures forall j :: 0 <= j < i ==> dirs[j].id != id
  {
    if |dirs| == 0 || dirs[0].id == id then 0 else 1 + FindId(dirs[1..], id)
  }

  /** Where an element of the list without its i-th comes from. */
  function Origin(i: nat, k: nat): nat { if k < i then k else k + 1 }

  function Without(dirs: seq<Dir>, i: nat): seq<Dir>
    requires i < |dirs|
  {
    dirs[..i] + dirs[i + 1..]
  }

  /** A buffer is opened: it shares the directory found for it, or a new one is listed. */
  function Open(norecurse: seq<string>, s: State, num: nat, ftid: int, dir: string, full: string): State {
    var i := FindDir(s.dirs, ftid, Base(norecurse, dir, full));
    if num in s.users then s
    else if i < |s.dirs| then
      State(s.dirs[i := s.dirs[i].(refs := Wrapped(s.dirs[i].refs + 1))], s.users[num := s.dirs[i].id], s.next)
    else
      State(s.dirs + [NewDir(norecurse, s.next, ftid, dir)], s.users[num := s.next], s.next + 1)
  }

  lemma OpenShares(norecurse: seq<string>, s: State, num: nat, ftid: int, dir: string, full: string, i: nat)
    requires num !in s.users && i == FindDir(s.dirs, ftid, Base(norecurse, dir, full)) < |s.dirs|
    ensures Open(norecurse, s, num, ftid, dir, full)
         == State(s.dirs[i := s.dirs[i].(refs := Wrapped(s.dirs[i].refs + 1))], s.users[num := s.dirs[i].id], s.next)
  {
  }

  lemma OpenLists(norecurse: seq<string>, s: State, num: nat, ftid: int, dir: string, full: string)
    requires num !in s.users && FindDir(s.dirs, ftid, Base(norecurse, dir, full)) == |s.dirs|
    ensures Open(norecurse, s, num, ftid, dir, full)
         == State(s.dirs + [NewDir(norecurse, s.next, ftid, dir)], s.users[num := s.next], s.next + 1)
  {
  }

  /** The first listed directory of this filetype with this path is the i-th. */
  ghost predicate FirstListed(dirs: seq<Dir>, ftid: int, path: string, i: nat) {
    && i < |dirs| && dirs[i].ftid == ftid && dirs[i].pathname == path
    && forall j :: 0 <= j < i ==> dirs[j].ftid != ftid || dirs[j].pathname != path
  }

  ghost predicate NotListed(dirs: seq<Dir>, ftid: int, path: string) {
    forall j :: 0 <= j < |dirs| ==> dirs[j].ftid != ftid || dirs[j].pathname != path
  }

  /** The buffer points to the i-th directory, which has one reference more in 16 bits; nothing else changes. */
  ghost predicate SharedAt(s: State, t: State, num: nat, i: nat)
    requires i < |s.dirs|
  {
    t == State(s.dirs[i := s.dirs[i].(refs := (s.dirs[i].refs + 1) % 65536)], s.users[num := s.dirs[i].id], s.next)
  }

  /**
   A project directory that may be searched is shared by all files of a filetype: the first one that is opened
   lists it with one reference and each later one adds a reference in 16 bits.
   */
  lemma SearchedDirectoryIsShared(norecurse: seq<string>, s: State, num: nat, ftid: int, dir: string, full: string)
    requires num !in s.users && forall k :: 0 <= k < |norecurse| ==> norecurse[k] != dir
    ensures NotListed(s.dirs, ftid, dir)
       ==> Open(norecurse, s, num, ftid, dir, full)
           == State(s.dirs + [Dir(s.next, ftid, dir, true, 1)], s.users[num := s.next], s.next + 1)
    ensures var t := Open(norecurse, s, num, ftid, dir, full);
            forall i: nat :: FirstListed(s.dirs, ftid, dir, i) ==> SharedAt(s, t, num, i)
  {
  }

  /**
   A directory that must not be searched is not shared by its path: a file whose own path names no listed directory
   of the filetype lists the directory once more, even if it is listed already, and otherwise shares that one.
   */
  lemma UnsearchedDirectoryIsNotShared(norecurse: seq<string>, s: State, num: nat, ftid: int, dir: string, full: string, k: nat)
    requires num !in s.users && k < |norecurse| && norecurse[k] == dir
    ensures NotListed(s.dirs, ftid, full)
       ==> Open(norecurse, s, num, ftid, dir, full)
           == State(s.dirs + [Dir(s.next, ftid, dir, false, 1)], s.users[num := s.next], s.next + 1)
    ensures var t := Open(norecurse, s, num, ftid, dir, full);
            forall i: nat :: FirstListed(s.dirs, ftid, full, i) ==> SharedAt(s, t, num, i)
  {
    assert dir in norecurse;
  }

  /** So two files of such a directory get a directory each. */
  lemma TwoFilesTwoDirectories(norecurse: seq<string>, a: nat, b: nat, ftid: int, dir: string, full: string, other: string, k: nat)
    requires a != b && k < |norecurse| && norecurse[k] == dir && full != dir && other != dir
    ensures var s := Open(norecurse, Open(norecurse, EMPTY, a, ftid, dir, full), b, ftid, dir, other);
            s.dirs == [Dir(0, ftid, dir, false, 1), Dir(1, ftid, dir, false, 1)] && s.users == map[a := 0, b := 1]
  {
    UnsearchedDirectoryIsNotShared(norecurse, EMPTY, a, ftid, dir, full, k);
    var s := Open(norecurse, EMPTY, a, ftid, dir, full);
    assert s.dirs == [Dir(0, ftid, dir, false, 1)] && s.users == map[a := 0];
    UnsearchedDirectoryIsNotShared(norecurse, s, b, ftid, dir, other, k);
  }

  function NewDir(norecurse: seq<string>, id: nat, ftid: int, dir: string): Dir {
    Dir(id, ftid, dir, dir !in norecurse, 1)
  }

  /** A buffer is closed: its directory loses a reference and is taken off the list when none is left. */
  function Close(s: State, num: nat): State {
    if num !in s.users then s
    else
      var i := FindId(s.dirs, s.users[num]);
      State(if i < |s.dirs| then Released(s.dirs, i) else s.dirs, s.users - {num}, s.next)
  }

  /** One reference less, and without the directory if that was the last one. */
  function Released(dirs: seq<Dir>, i: nat): seq<Dir>
    requires i < |dirs|
  {
    var refs := Wrapped(dirs[i].refs - 1);
    if refs == 0 then Without(dirs, i) else dirs[i := dirs[i].(refs := refs)]
  }

  lemma CloseReleases(s: State, num: nat, i: nat)
    requires num in s.users && i == FindId(s.dirs, s.users[num]) < |s.dirs|
    ensures Close(s, num) == State(Released(s.dirs, i), s.users - {num}, s.next)
  {
  }

  // ----- what should hold

  /** The buffers that point to a directory. */
  function Users(users: map<nat, nat>, id: nat): set<nat> { set b | b in users && users[b] == id }

  predicate Lists(dirs: seq<Dir>, id: nat) { exists i :: 0 <= i < |dirs| && dirs[i].id == id }

  /** A directory in use, its counter showing the number of its users. */
  ghost predicate CountsUsers(d: Dir, users: map<nat, nat>) {
    |Users(users, d.id)| > 0 && d.refs == Wrapped(|Users(users, d.id)|)
  }

  ghost predicate Counted(dirs: seq<Dir>, users: map<nat, nat>) {
    forall i :: 0 <= i < |dirs| ==> CountsUsers(dirs[i], users)
  }

  /** Every directory in use is listed. */
  ghost predicate Listed(dirs: seq<Dir>, users: map<nat, nat>) {
    forall b :: b in users ==> Lists(dirs, users[b])
  }

  predicate Apart(d: Dir, e: Dir) {
    d.id != e.id && (d.recurse && e.recurse ==> d.ftid != e.ftid || d.pathname != e.pathname)
  }

  /** No directory is listed twice, and recursive ones differ in filetype or path. */
  ghost predicate Distinct(norecurse: seq<string>, dirs: seq<Dir>, next: nat) {
    && (forall i, j :: 0 <= i < j < |dirs| ==> Apart(dirs[i], dirs[j]))
    && (forall i :: 0 <= i < |dirs| ==> dirs[i].id < next && dirs[i].recurse == (dirs[i].pathname !in norecurse))
  }

  /** A directory is listed exactly while some buffer uses it, counted right, and distinct from the others. */
  ghost predicate Valid(norecurse: seq<string>, s: State) {
    Counted(s.dirs, s.users) && Listed(s.dirs, s.users) && Distinct(norecurse, s.dirs, s.next)
  }

  // ----- what a change of one counter leaves alone

  predicate SameButRefs(dirs: seq<Dir>, dirs': seq<Dir>) {
    |dirs| == |dirs'| && forall k :: 0 <= k < |dirs| ==> dirs'[k] == dirs[k].(refs := dirs'[k].refs)
  }

  lemma DistinctButRefs(norecurse: seq<string>, dirs: seq<Dir>, dirs': seq<Dir>, next: nat)
    requires Distinct(norecurse, dirs, next) && SameButRefs(dirs, dirs')
    ensures Distinct(norecurse, dirs', next)
  {
  }

  lemma StillLists(dirs: seq<Dir>, dirs': seq<Dir>, id: nat)
    requires Lists(dirs, id) && |dirs| <= |dirs'| && forall k :: 0 <= k < |dirs| ==> dirs'[k].id == dirs[k].id
    ensures Lists(dirs', id)
  {
    var k :| 0 <= k < |dirs| && dirs[k].id == id;
    assert dirs'[k].id == id;
  }

  // ----- opening

  lemma OneUserMore(users: map<nat, nat>, num: nat, id: nat, d: nat)
    requires num !in users
    ensures |Users(users[num := id], d)| == |Users(users, d)| + if d == id then 1 else 0
  {
    assert Users(users[num := id], d) == Users(users, d) + if d == id then {num} else {};
  }

  lemma SharingCounts(dirs: seq<Dir>, users: map<nat, nat>, num: nat, i: nat, dirs': seq<Dir>)
    requires Counted(dirs, users) && num !in users && i < |dirs|
    requires forall k :: 0 <= k < |dirs| && k != i ==> dirs[k].id != dirs[i].id
    requires dirs' == dirs[i := dirs[i].(refs := Wrapped(dirs[i].refs + 1))]
    ensures Counted(dirs', users[num := dirs[i].id])
  {
    forall k | 0 <= k < |dirs'|
      ensures CountsUsers(dirs'[k], users[num := dirs[i].id])
    {
      assert CountsUsers(dirs[k], users);
      OneUserMore(users, num, dirs[i].id, dirs[k].id);
      WrappedSteps(|Users(users, dirs[k].id)|);
    }
  }

  lemma SharingLists(dirs: seq<Dir>, users: map<nat, nat>, num: nat, i: nat, dirs': seq<Dir>)
    requires Listed(dirs, users) && i < |dirs| && SameButRefs(dirs, dirs')
    ensures Listed(dirs', users[num := dirs[i].id])
  {
    var more := users[num := dirs[i].id];
    forall b | b in more
      ensures Lists(dirs', more[b])
    {
      StillLists(dirs, dirs', more[b]);
    }
  }

  lemma SharingKeepsValid(norecurse: seq<string>, s: State, num: nat, i: nat, dirs': seq<Dir>)
    requires Valid(norecurse, s) && num !in s.users && i < |s.dirs|
    requires dirs' == s.dirs[i := s.dirs[i].(refs := Wrapped(s.dirs[i].refs + 1))]
    ensures Valid(norecurse, State(dirs', s.users[num := s.dirs[i].id], s.next))
  {
    OthersApart(norecurse, s, i);
    SharingCounts(s.dirs, s.users, num, i, dirs');
    SharingLists(s.dirs, s.users, num, i, dirs');
    DistinctButRefs(norecurse, s.dirs, dirs', s.next);
  }

  lemma OthersApart(norecurse: seq<string>, s: State, i: nat)
    requires Distinct(norecurse, s.dirs, s.next) && i < |s.dirs|
    ensures forall k :: 0 <= k < |s.dirs| && k != i ==> s.dirs[k].id != s.dirs[i].id
  {
    forall k | 0 <= k < |s.dirs| && k != i
      ensures s.dirs[k].id != s.dirs[i].id
    {
      assert if k < i then Apart(s.dirs[k], s.dirs[i]) else Apart(s.dirs[i], s.dirs[k]);
    }
  }

  lemma ListingCounts(dirs: seq<Dir>, users: map<nat, nat>, num: nat, d: Dir)
    requires Counted(dirs, users) && num !in users && d.refs == 1 && Users(users, d.id) == {}
    ensures Counted(dirs + [d], users[num := d.id])
  {
    forall k | 0 <= k < |dirs + [d]|
      ensures CountsUsers((dirs + [d])[k], users[num := d.id])
    {
      OneUserMore(users, num, d.id, (dirs + [d])[k].id);
      assert k < |dirs| ==> CountsUsers(dirs[k], users);
    }
  }

  lemma ListingLists(dirs: seq<Dir>, users: map<nat, nat>, num: nat, d: Dir)
    requires Listed(dirs, users)
    ensures Listed(dirs + [d], users[num := d.id])
  {
    var more := users[num := d.id];
    assert (dirs + [d])[|dirs|].id == d.id;
    forall b | b in more
      ensures Lists(dirs + [d], more[b])
    {
      if b != num {
        StillLists(dirs, dirs + [d], users[b]);
      }
    }
  }

  lemma ListingKeepsDistinct(norecurse: seq<string>, dirs: seq<Dir>, next: nat, d: Dir)
    requires Distinct(norecurse, dirs, next) && d.id == next && d.recurse == (d.pathname !in norecurse)
    requires d.recurse ==> forall k :: 0 <= k < |dirs| ==> dirs[k].ftid != d.ftid || dirs[k].pathname != d.pathname
    ensures Distinct(norecurse, dirs + [d], next + 1)
  {
  }

  lemma NewIdIsUnused(norecurse: seq<string>, s: State)
    requires Valid(norecurse, s)
    ensures Users(s.users, s.next) == {}
  {
    forall b | b in s.users
      ensures s.users[b] != s.next
    {
      assert Lists(s.dirs, s.users[b]);
    }
  }

  /** Opening a buffer keeps everything right. */
  lemma OpenKeepsValid(norecurse: seq<string>, s: State, num: nat, ftid: int, dir: string, full: string)
    requires Valid(norecurse, s)
    ensures Valid(norecurse, Open(norecurse, s, num, ftid, dir, full))
  {
    if num !in s.users {
      var i := FindDir(s.dirs, ftid, Base(norecurse, dir, full));
      if i < |s.dirs| {
        OpenShares(norecurse, s, num, ftid, dir, full, i);
        SharingKeepsValid(norecurse, s, num, i, s.dirs[i := s.dirs[i].(refs := Wrapped(s.dirs[i].refs + 1))]);
      } else {
        OpenLists(norecurse, s, num, ftid, dir, full);
        ListingKeepsValid(norecurse, s, num, NewDir(norecurse, s.next, ftid, dir));
      }
    }
  }

  lemma ListingKeepsValid(norecurse: seq<string>, s: State, num: nat, d: Dir)
    requires Valid(norecurse, s) && num !in s.users && d.id == s.next && d.refs == 1
    requires d.recurse == (d.pathname !in norecurse)
    requires d.recurse ==> forall k :: 0 <= k < |s.dirs| ==> s.dirs[k].ftid != d.ftid || s.dirs[k].pathname != d.pathname
    ensures Valid(norecurse, State(s.dirs + [d], s.users[num := d.id], s.next + 1))
  {
    NewIdIsUnused(norecurse, s);
    ListingCounts(s.dirs, s.users, num, d);
    ListingLists(s.dirs, s.users, num, d);
    ListingKeepsDistinct(norecurse, s.dirs, s.next, d);
  }

  // ----- closing

  lemma OneUserLess(users: map<nat, nat>, num: nat, d: nat)
    requires num in users
    ensures |Users(users, d)| == |Users(users - {num}, d)| + if d == users[num] then 1 else 0
  {
    assert Users(users, d) == Users(users - {num}, d) + if d == users[num] then {num} else {};
  }

  /** The closing of a buffer whose directory has other users while its counter shows one. */
  predicate Wraps(s: State, num: nat) {
    num in s.users && |Users(s.users, s.users[num])| > 1 && Wrapped(|Users(s.users, s.users[num])|) == 1
  }

  lemma WithoutMember(dirs: seq<Dir>, i: nat, k: nat)
    requires i < |dirs| && k < |Without(dirs, i)|
    ensures Origin(i, k) < |dirs| && Without(dirs, i)[k] == dirs[Origin(i, k)]
  {
  }

  lemma UnlistingCounts(dirs: seq<Dir>, users: map<nat, nat>, num: nat, i: nat)
    requires Counted(dirs, users) && num in users && i < |dirs|
    requires forall k :: 0 <= k < |dirs| && k != i ==> dirs[k].id != users[num]
    ensures Counted(Without(dirs, i), users - {num})
  {
    forall k | 0 <= k < |Without(dirs, i)|
      ensures CountsUsers(Without(dirs, i)[k], users - {num})
    {
      WithoutMember(dirs, i, k);
      assert CountsUsers(dirs[Origin(i, k)], users);
      OneUserLess(users, num, dirs[Origin(i, k)].id);
    }
  }

  lemma UnlistingLists(dirs: seq<Dir>, users: map<nat, nat>, num: nat, i: nat)
    requires Listed(dirs, users) && num in users && i < |dirs| && dirs[i].id == users[num] && |Users(users, users[num])| == 1
    ensures Listed(Without(dirs, i), users - {num})
  {
    var less := users - {num};
    OneUserLess(users, num, users[num]);
    forall b | b in less
      ensures Lists(Without(dirs, i), less[b])
    {
      assert b !in Users(less, users[num]);
      assert Lists(dirs, users[b]);
      var k :| 0 <= k < |dirs| && dirs[k].id == users[b];
      var j := if k < i then k else k - 1;
      assert k != i && Without(dirs, i)[j] == dirs[k];
    }
  }

  lemma UnlistingKeepsDistinct(norecurse: seq<string>, dirs: seq<Dir>, next: nat, i: nat)
    requires Distinct(norecurse, dirs, next) && i < |dirs|
    ensures Distinct(norecurse, Without(dirs, i), next)
  {
    var less := Without(dirs, i);
    forall j, k | 0 <= j < k < |less|
      ensures Apart(less[j], less[k])
    {
      WithoutMember(dirs, i, j);
      WithoutMember(dirs, i, k);
      assert Apart(dirs[Origin(i, j)], dirs[Origin(i, k)]);
    }
    forall k | 0 <= k < |less|
      ensures less[k].id < next && less[k].recurse == (less[k].pathname !in norecurse)
    {
      WithoutMember(dirs, i, k);
    }
  }

  lemma ReleasingCounts(dirs: seq<Dir>, users: map<nat, nat>, num: nat, i: nat, dirs': seq<Dir>)
    requires Counted(dirs, users) && num in users && i < |dirs| && dirs[i].id == users[num] && |Users(users, users[num])| > 1
    requires forall k :: 0 <= k < |dirs| && k != i ==> dirs[k].id != users[num]
    requires dirs' == dirs[i := dirs[i].(refs := Wrapped(dirs[i].refs - 1))]
    ensures Counted(dirs', users - {num})
  {
    forall k | 0 <= k < |dirs'|
      ensures CountsUsers(dirs'[k], users - {num})
    {
      assert CountsUsers(dirs[k], users);
      OneUserLess(users, num, dirs[k].id);
      WrappedSteps(|Users(users, dirs[k].id)|);
    }
  }

  lemma ReleasingLists(dirs: seq<Dir>, users: map<nat, nat>, num: nat, dirs': seq<Dir>)
    requires Listed(dirs, users) && SameButRefs(dirs, dirs')
    ensures Listed(dirs', users - {num})
  {
    var less := users - {num};
    forall b | b in less
      ensures Lists(dirs', less[b])
    {
      StillLists(dirs, dirs', users[b]);
    }
  }

  lemma UnlistingTooEarly(norecurse: seq<string>, s: State, num: nat, i: nat)
    requires Distinct(norecurse, s.dirs, s.next) && num in s.users && i < |s.dirs| && s.dirs[i].id == s.users[num]
    requires |Users(s.users, s.users[num])| > 1
    ensures !Listed(Without(s.dirs, i), s.users - {num})
  {
    var dirs, users, id := Without(s.dirs, i), s.users - {num}, s.users[num];
    OneUserLess(s.users, num, id);
    var b :| b in Users(users, id);
    OthersApart(norecurse, s, i);
    forall k | 0 <= k < |dirs|
      ensures dirs[k].id != id
    {
      WithoutMember(s.dirs, i, k);
    }
    assert users[b] == id && !Lists(dirs, id);
  }

  /** Closing a buffer keeps everything right if and only if the counter has not wrapped onto one. */
  lemma CloseKeepsValidIff(norecurse: seq<string>, s: State, num: nat)
    requires Valid(norecurse, s)
    ensures Valid(norecurse, Close(s, num)) <==> !Wraps(s, num)
    ensures num in s.users ==> FindId(s.dirs, s.users[num]) < |s.dirs|
  {
    if num in s.users {
      assert Lists(s.dirs, s.users[num]);
      CloseFoundKeepsValidIff(norecurse, s, num, FindId(s.dirs, s.users[num]));
    }
  }

  lemma CloseFoundKeepsValidIff(norecurse: seq<string>, s: State, num: nat, i: nat)
    requires Valid(norecurse, s) && num in s.users && i == FindId(s.dirs, s.users[num]) < |s.dirs|
    ensures Valid(norecurse, Close(s, num)) <==> !Wraps(s, num)
  {
    var n := |Users(s.users, s.users[num])|;
    assert CountsUsers(s.dirs[i], s.users);
    CloseReleases(s, num, i);
    WrappedSteps(n);
    if n == 1 {
      UnlistingKeepsValid(norecurse, s, num, i);
    } else if Wrapped(n) == 1 {
      UnlistingTooEarly(norecurse, s, num, i);
    } else {
      ReleasingKeepsValid(norecurse, s, num, i, Released(s.dirs, i));
    }
  }

  lemma UnlistingKeepsValid(norecurse: seq<string>, s: State, num: nat, i: nat)
    requires Valid(norecurse, s) && num in s.users && i < |s.dirs| && s.dirs[i].id == s.users[num]
    requires |Users(s.users, s.users[num])| == 1
    ensures Valid(norecurse, State(Without(s.dirs, i), s.users - {num}, s.next))
  {
    OthersApart(norecurse, s, i);
    UnlistingCounts(s.dirs, s.users, num, i);
    UnlistingLists(s.dirs, s.users, num, i);
    UnlistingKeepsDistinct(norecurse, s.dirs, s.next, i);
  }

  lemma ReleasingKeepsValid(norecurse: seq<string>, s: State, num: nat, i: nat, dirs': seq<Dir>)
    requires Valid(norecurse, s) && num in s.users && i < |s.dirs| && s.dirs[i].id == s.users[num]
    requires |Users(s.users, s.users[num])| > 1
    requires dirs' == s.dirs[i := s.dirs[i].(refs := Wrapped(s.dirs[i].refs - 1))]
    ensures Valid(norecurse, State(dirs', s.users - {num}, s.next))
  {
    OthersApart(norecurse, s, i);
    ReleasingCounts(s.dirs, s.users, num, i, dirs');
    ReleasingLists(s.dirs, s.users, num, dirs');
    DistinctButRefs(norecurse, s.dirs, dirs', s.next);
  }

  // ----- runs

  datatype Action =
    | OpenAction(num: nat, ftid: int, dir: string, full: string)
    | CloseAction(num: nat)

  function Step(norecurse: seq<string>, s: State, a: Action): State {
    match a
    case OpenAction(num, ftid, dir, full) => Open(norecurse, s, num, ftid, dir, full)
    case CloseAction(num) => Close(s, num)
  }

  function After(norecurse: seq<string>, s: State, run: seq<Action>): State {
    if |run| == 0 then s else Step(norecurse, After(norecurse, s, run[..|run| - 1]), run[|run| - 1])
  }

  /** Somewhere in the run a buffer is closed while its directory's counter has wrapped onto one. */
  ghost predicate WrapsIn(norecurse: seq<string>, s: State, run: seq<Action>) {
    exists k :: WrapsAt(norecurse, s, run, k)
  }

  predicate WrapsAt(norecurse: seq<string>, s: State, run: seq<Action>, k: nat) {
    k < |run| && run[k].CloseAction? && Wraps(After(norecurse, s, run[..k]), run[k].num)
  }

  ghost predicate ValidThroughout(norecurse: seq<string>, s: State, run: seq<Action>) {
    forall k :: 0 <= k <= |run| ==> Valid(norecurse, After(norecurse, s, run[..k]))
  }

  lemma StepKeepsValidIff(norecurse: seq<string>, s: State, a: Action)
    requires Valid(norecurse, s)
    ensures Valid(norecurse, Step(norecurse, s, a)) <==> !(a.CloseAction? && Wraps(s, a.num))
  {
    match a
    case OpenAction(num, ftid, dir, full) => OpenKeepsValid(norecurse, s, num, ftid, dir, full);
    case CloseAction(num) => CloseKeepsValidIff(norecurse, s, num);
  }

  lemma OneStepMore(norecurse: seq<string>, s: State, run: seq<Action>, k: nat)
    requires k < |run|
    ensures After(norecurse, s, run[..k + 1]) == Step(norecurse, After(norecurse, s, run[..k]), run[k])
  {
    assert run[..k + 1][..k] == run[..k];
  }

  /** Over every run everything stays right throughout if and only if no closing meets a wrapped counter. */
  lemma RunIsValidIff(norecurse: seq<string>, s: State, run: seq<Action>)
    requires Valid(norecurse, s)
    ensures ValidThroughout(norecurse, s, run) <==> !WrapsIn(norecurse, s, run)
  {
    if ValidThroughout(norecurse, s, run) {
      forall k | 0 <= k < |run|
        ensures !WrapsAt(norecurse, s, run, k)
      {
        OneStepMore(norecurse, s, run, k);
        StepKeepsValidIff(norecurse, After(norecurse, s, run[..k]), run[k]);
        assert Valid(norecurse, After(norecurse, s, run[..k + 1]));
      }
    } else if !WrapsIn(norecurse, s, run) {
      forall k | 0 <= k <= |run|
        ensures Valid(norecurse, After(norecurse, s, run[..k]))
      {
        UnwrappedIsValid(norecurse, s, run, k);
      }
    }
  }

  /** None of the first k actions closes a buffer whose directory's counter has wrapped onto one. */
  ghost predicate UnwrappedBefore(norecurse: seq<string>, s: State, run: seq<Action>, k: int) {
    forall j: nat :: j < k ==> !WrapsAt(norecurse, s, run, j)
  }

  lemma {:induction false} UnwrappedIsValid(norecurse: seq<string>, s: State, run: seq<Action>, k: nat)
    requires Valid(norecurse, s) && k <= |run| && UnwrappedBefore(norecurse, s, run, k)
    ensures Valid(norecurse, After(norecurse, s, run[..k]))
  {
    if k > 0 {
      UnwrappedIsValid(norecurse, s, run, k - 1);
      assert !WrapsAt(norecurse, s, run, k - 1);
      OneStepMore(norecurse, s, run, k - 1);
      StepKeepsValidIff(norecurse, After(norecurse, s, run[..k - 1]), run[k - 1]);
    }
  }

  lemma OnlyTheLastWraps(norecurse: seq<string>, s: State, run: seq<Action>)
    requires |run| > 0 && UnwrappedBefore(norecurse, s, run, |run| - 1)
    ensures WrapsIn(norecurse, s, run) <==> WrapsAt(norecurse, s, run, |run| - 1)
    ensures run[..|run|] == run
  {
    if WrapsIn(norecurse, s, run) {
      var k: nat :| WrapsAt(norecurse, s, run, k);
      assert k >= |run| - 1;
    }
  }

  lemma UnwrappedStep(norecurse: seq<string>, start: State, run: seq<Action>, k: nat)
    requires Valid(norecurse, start) && k < |run| && UnwrappedBefore(norecurse, start, run, k)
    ensures var s := After(norecurse, start, run[..k]);
            && Valid(norecurse, s) && ((run[k].CloseAction? && Wraps(s, run[k].num)) <==> WrapsAt(norecurse, start, run, k))
            && Step(norecurse, s, run[k]) == After(norecurse, start, run[..k + 1])
  {
    UnwrappedIsValid(norecurse, start, run, k);
    OneStepMore(norecurse, start, run, k);
  }

  /** No directory ever has more users than its counter can tell apart from one. */
  ghost predicate FewUsers(norecurse: seq<string>, s: State, run: seq<Action>) {
    forall k, id :: 0 <= k <= |run| ==> |Users(After(norecurse, s, run[..k]).users, id)| <= REFS_RANGE
  }

  lemma FewDoNotWrap(s: State, num: nat)
    requires forall id :: |Users(s.users, id)| <= REFS_RANGE
    ensures !Wraps(s, num)
  {
  }

  /** From an empty registry, runs in which no directory has more than 65536 users stay right throughout. */
  lemma FewUsersAreValid(norecurse: seq<string>, run: seq<Action>)
    requires FewUsers(norecurse, EMPTY, run)
    ensures ValidThroughout(norecurse, EMPTY, run)
  {
    forall k: nat
      ensures !WrapsAt(norecurse, EMPTY, run, k)
    {
      if k < |run| && run[k].CloseAction? {
        FewDoNotWrap(After(norecurse, EMPTY, run[..k]), run[k].num);
      }
    }
    RunIsValidIff(norecurse, EMPTY, run);
  }

  // ----- the bound is sharp

  /** Buffers 0 to n - 1 of one project are opened. */
  function Openings(n: nat): (run: seq<Action>)
    ensures |run| == n
  {
    seq(n, i requires 0 <= i => OpenAction(i, 0, "project", "file"))
  }

  /** All of them point to the first directory. */
  function Numbered(n: nat): (users: map<nat, nat>)
    ensures forall b: nat :: b in users <==> b < n
    ensures forall b :: b in users ==> users[b] == 0
  {
    if n == 0 then map[] else Numbered(n - 1)[n - 1 := 0]
  }

  lemma {:induction false} AllShare(n: nat)
    requires n > 0
    ensures After([], EMPTY, Openings(n)) == State([Dir(0, 0, "project", true, Wrapped(n))], Numbered(n), 1)
  {
    var run := Openings(n);
    assert run[..n - 1] == Openings(n - 1);
    if n == 1 {
      assert After([], EMPTY, run[..0]) == EMPTY;
      assert Numbered(0) == map[];
    } else {
      AllShare(n - 1);
      WrappedSteps(n - 1);
      var s := After([], EMPTY, Openings(n - 1));
      assert FindDir(s.dirs, 0, "project") == 0;
    }
  }

  lemma {:induction false} NumberedUsers(n: nat)
    ensures |Users(Numbered(n), 0)| == n
  {
    if n > 0 {
      NumberedUsers(n - 1);
      OneUserMore(Numbered(n - 1), n - 1, 0, 0);
    }
  }

  /** Once 65537 buffers share a directory, closing one of them unlists it under the others. */
  lemma TooManyUsers()
    ensures var s := After([], EMPTY, Openings(REFS_RANGE + 1));
            Valid([], s) && Close(s, 0).dirs == [] && |Close(s, 0).users| == REFS_RANGE && !Valid([], Close(s, 0))
  {
    SharedBy(REFS_RANGE + 1);
  }

  lemma SharedBy(n: nat)
    requires n > 1 && Wrapped(n) == 1
    ensures var s := After([], EMPTY, Openings(n));
            Valid([], s) && Close(s, 0).dirs == [] && |Close(s, 0).users| == n - 1 && !Valid([], Close(s, 0))
  {
    var s := After([], EMPTY, Openings(n));
    OpeningsAreValid(n);
    AllShare(n);
    NumberedUsers(n);
    CloseKeepsValidIff([], s, 0);
    assert s.users.Keys == Users(s.users, 0);
    assert (s.users - {0}).Keys == s.users.Keys - {0};
  }

  lemma OpeningsAreValid(n: nat)
    ensures Valid([], After([], EMPTY, Openings(n)))
  {
    assert forall k: nat :: !WrapsAt([], EMPTY, Openings(n), k);
    RunIsValidIff([], EMPTY, Openings(n));
    assert Openings(n)[..n] == Openings(n);
  }
}
