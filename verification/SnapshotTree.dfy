/**
A directory tree that is deleted while it is listed: what is left of a listing after a page of it has gone, and where
the next page then starts.
*/
module SnapshotTree {
  import opened DirTree

  /** A deleted entry: the inode of its directory and its name. */
  datatype Gone = Gone(parent: nat, name: string)

  // ---------------------------------------------------------------- what the two rounds do to a tree

  function CleanEntry(e: Entry): seq<Entry> {
    match e.node
    case File(_) => []
    case Dir(inode, es) => [Entry(e.name, Dir(inode, CleanFiles(es)))]
  }

  /** The tree without its files. */
  function CleanFiles(es: seq<Entry>): seq<Entry> {
    if es == [] then [] else CleanFiles(es[..|es| - 1]) + CleanEntry(es[|es| - 1])
  }

  function DirEntry(e: Entry): seq<Entry> { if e.node.Dir? then [e] else [] }

  /** A listing without its files. */
  function OnlyDirs(es: seq<Entry>): seq<Entry> {
    if es == [] then [] else OnlyDirs(es[..|es| - 1]) + DirEntry(es[|es| - 1])
  }

  function EntryFiles(parent: nat, e: Entry): multiset<Gone>
    decreases e
  {
    match e.node
    case File(_) => multiset{Gone(parent, e.name)}
    case Dir(inode, es) => FilesOf(inode, es)
  }

  /** Every file of the tree. */
  function FilesOf(parent: nat, es: seq<Entry>): multiset<Gone>
    decreases es
  {
    if es == [] then multiset{} else FilesOf(parent, es[..|es| - 1]) + EntryFiles(parent, es[|es| - 1])
  }

  function EntryPost(parent: nat, e: Entry): seq<Gone>
    decreases e
  {
    match e.node
    case File(_) => []
    case Dir(inode, es) => PostOrder(inode, es) + [Gone(parent, e.name)]
  }

  /** Every directory of the tree, each after all the directories below it. */
  function PostOrder(parent: nat, es: seq<Entry>): seq<Gone>
    decreases es
  {
    if es == [] then [] else PostOrder(parent, es[..|es| - 1]) + EntryPost(parent, es[|es| - 1])
  }

  // ---------------------------------------------------------------- appending

  lemma CleanSnoc(es: seq<Entry>, e: Entry)
    ensures CleanFiles(es + [e]) == CleanFiles(es) + CleanEntry(e)
  {
    hide CleanEntry;
    assert (es + [e])[..|es|] == es;
  }

  lemma OneMoreClean(a: seq<Entry>, b: seq<Entry>, e: Entry)
    requires CleanFiles(a + b) == CleanFiles(a) + CleanFiles(b)
    ensures CleanFiles(a + (b + [e])) == CleanFiles(a) + CleanFiles(b + [e])
  {
    hide CleanEntry, CleanFiles;
    CleanSnoc(b, e);
    CleanSnoc(a + b, e);
    assert a + b + [e] == a + (b + [e]);
  }

  lemma {:induction false} CleanAppend(a: seq<Entry>, b: seq<Entry>)
    ensures CleanFiles(a + b) == CleanFiles(a) + CleanFiles(b)
  {
    hide CleanEntry;
    if b == [] {
      assert a + b == a;
    } else {
      var rest, last := b[..|b| - 1], b[|b| - 1];
      CleanAppend(a, rest);
      OneMoreClean(a, rest, last);
      assert rest + [last] == b;
    }
  }

  lemma {:induction false} DirsAppend(a: seq<Entry>, b: seq<Entry>)
    ensures OnlyDirs(a + b) == OnlyDirs(a) + OnlyDirs(b)
  {
    hide DirEntry;
    if b == [] {
      assert a + b == a;
    } else {
      DirsAppend(a, b[..|b| - 1]);
      assert (a + b)[..|a + b| - 1] == a + b[..|b| - 1];
    }
  }

  lemma {:induction false} FilesAppend(parent: nat, a: seq<Entry>, b: seq<Entry>)
    ensures FilesOf(parent, a + b) == FilesOf(parent, a) + FilesOf(parent, b)
  {
    hide EntryFiles;
    if b == [] {
      assert a + b == a;
    } else {
      FilesAppend(parent, a, b[..|b| - 1]);
      assert (a + b)[..|a + b| - 1] == a + b[..|b| - 1];
    }
  }

  // ---------------------------------------------------------------- names

  lemma {:induction false} LessOneWay(a: string, b: string)
    requires Less(a, b)
    ensures !Less(b, a)
  {
    if a != "" && a[0] == b[0] {
      LessOneWay(a[1..], b[1..]);
    }
  }

  /** Every name of the listing comes before `name`. */
  ghost predicate AllBefore(es: seq<Entry>, name: string) { forall i :: 0 <= i < |es| ==> Less(es[i].name, name) }

  lemma {:induction false} CleanBefore(es: seq<Entry>, name: string)
    requires AllBefore(es, name)
    ensures AllBefore(CleanFiles(es), name) && AllBefore(OnlyDirs(es), name)
  {
    if es != [] {
      CleanBefore(es[..|es| - 1], name);
    }
  }

  lemma {:induction false} BeforeAll(es: seq<Entry>, rest: seq<Entry>, marker: string)
    requires AllBefore(es, marker) && (rest != [] ==> !Less(rest[0].name, marker))
    ensures Before(es + rest, marker) == |es|
  {
    if es == [] {
      assert es + rest == rest;
    } else {
      BeforeAll(es[1..], rest, marker);
      assert (es + rest)[1..] == es[1..] + rest;
    }
  }

  // ---------------------------------------------------------------- the next page of a listing that has shrunk

  /** Whether the marker is still listed after what is left of the first `c` entries. */
  predicate Kept(es: seq<Entry>, c: nat, left: seq<Entry>)
    requires 0 < c <= |es|
  {
    left != [] && left[|left| - 1].name == es[c - 1].name
  }

  /** What is left of the first `c` entries comes before the marker, or ends with it. */
  ghost predicate Shrunk(es: seq<Entry>, c: nat, left: seq<Entry>)
    requires 0 < c <= |es|
  {
    AllBefore(if Kept(es, c, left) then left[..|left| - 1] else left, es[c - 1].name)
  }

  lemma ShrunkBy(es: seq<Entry>, c: nat, init: seq<Entry>, last: seq<Entry>)
    requires 0 < c <= |es| && AllBefore(init, es[c - 1].name)
    requires last == [] || (|last| == 1 && last[0].name == es[c - 1].name)
    ensures Shrunk(es, c, init + last)
    ensures Kept(es, c, init + last) <==> last != []
  {
    NotLess(es[c - 1].name);
    assert last != [] ==> (init + last)[..|init|] == init;
    assert last == [] ==> init + last == init;
  }

  lemma ShrunkFiles(es: seq<Entry>, c: nat)
    requires WellFormed(es) && 0 < c <= |es|
    ensures Shrunk(es, c, CleanFiles(es[..c])) && Shrunk(es, c, OnlyDirs(es[..c]))
  {
    var init, last := es[..c - 1], es[c - 1];
    assert es[..c][..c - 1] == init && es[..c][c - 1] == last;
    CleanBefore(init, last.name);
    ShrunkBy(es, c, CleanFiles(init), CleanEntry(last));
    ShrunkBy(es, c, OnlyDirs(init), DirEntry(last));
  }

  /** Of the first `c` entries some are left, in order and under their names. */
  ghost predicate Remains(es: seq<Entry>, c: nat, left: seq<Entry>)
    requires c <= |es|
  {
    if c == 0 then left == []
    else
      || Remains(es, c - 1, left)
      || (left != [] && left[|left| - 1].name == es[c - 1].name && Remains(es, c - 1, left[..|left| - 1]))
  }

  lemma {:induction false} RemainsBefore(es: seq<Entry>, c: nat, left: seq<Entry>, d: nat)
    requires Sorted(es) && c <= d < |es| && Remains(es, c, left)
    ensures AllBefore(left, es[d].name)
    decreases c
  {
    if c > 0 {
      if Remains(es, c - 1, left) {
        RemainsBefore(es, c - 1, left, d);
      } else {
        RemainsBefore(es, c - 1, left[..|left| - 1], d);
      }
    }
  }

  lemma RemainsShrunk(es: seq<Entry>, c: nat, left: seq<Entry>)
    requires Sorted(es) && 0 < c <= |es| && Remains(es, c, left)
    ensures Shrunk(es, c, left)
  {
    hide Shrunk, Sorted;
    if Remains(es, c - 1, left) {
      RemainsBefore(es, c - 1, left, c - 1);
      ShrunkBy(es, c, left, []);
      assert left + [] == left;
    } else {
      var init, last := left[..|left| - 1], left[|left| - 1];
      RemainsBefore(es, c - 1, init, c - 1);
      ShrunkBy(es, c, init, [last]);
      assert init + [last] == left;
    }
  }

  lemma RemainsMore(es: seq<Entry>, c: nat, left: seq<Entry>, e: Entry)
    requires c < |es| && Remains(es, c, left)
    ensures Remains(es, c + 1, left)
    ensures e.name == es[c].name ==> Remains(es, c + 1, left + [e])
  {
    assert (left + [e])[..|left|] == left;
  }

  /** Where the page after the first `c` entries ends, with or without the marker in it. */
  function EndOf(n: nat, c: nat, kept: bool, limit: nat): nat
    requires c <= n && limit >= 2
  {
    var end := c + limit - if kept then 1 else 0;
    if end <= n then end else n
  }

  /** The page read from the marker holds the next entries, after the marker itself if that is still listed. */
  lemma PageAfter(es: seq<Entry>, c: nat, left: seq<Entry>, limit: nat)
    requires WellFormed(es) && 0 < c <= |es| && Shrunk(es, c, left) && limit >= 2
    ensures var kept := Kept(es, c, left);
            ReadDirLimit(left + es[c..], es[c - 1].name, limit)
            == (if kept then [left[|left| - 1]] else []) + es[c..EndOf(|es|, c, kept, limit)]
  {
    hide ReadDirLimit, NoSep, NodeWellFormed, Before, Less;
    var marker := es[c - 1].name;
    var rest := es[c..];
    NotBefore(es, c);
    if Kept(es, c, left) {
      NotLess(marker);
      var init, last := left[..|left| - 1], left[|left| - 1];
      BeforeAll(init, [last] + rest, marker);
      LastAgain(left, rest);
      KeptPage(init, last, es, c, marker, limit);
    } else {
      BeforeAll(left, rest, marker);
      FreshPage(left, es, c, marker, limit);
      NothingFirst(es[c..EndOf(|es|, c, false, limit)]);
    }
  }

  lemma NotBefore(es: seq<Entry>, c: nat)
    requires WellFormed(es) && 0 < c <= |es|
    ensures es[c..] != [] ==> !Less(es[c..][0].name, es[c - 1].name)
  {
    hide NoSep, NodeWellFormed;
    if c < |es| {
      LessOneWay(es[c - 1].name, es[c].name);
    }
  }

  lemma LastAgain(left: seq<Entry>, rest: seq<Entry>)
    requires left != []
    ensures left + rest == left[..|left| - 1] + ([left[|left| - 1]] + rest)
  {
  }

  lemma NothingFirst(es: seq<Entry>)
    ensures [] + es == es
  {
  }

  lemma KeptPage(init: seq<Entry>, last: Entry, es: seq<Entry>, c: nat, marker: string, limit: nat)
    requires c <= |es| && limit >= 2 && Before(init + ([last] + es[c..]), marker) == |init|
    ensures ReadDirLimit(init + ([last] + es[c..]), marker, limit) == [last] + es[c..EndOf(|es|, c, true, limit)]
  {
  }

  lemma FreshPage(left: seq<Entry>, es: seq<Entry>, c: nat, marker: string, limit: nat)
    requires c <= |es| && limit >= 2 && Before(left + es[c..], marker) == |left|
    ensures ReadDirLimit(left + es[c..], marker, limit) == es[c..EndOf(|es|, c, false, limit)]
  {
  }

  // ---------------------------------------------------------------- the order of round two

  lemma PostTo(parent: nat, es: seq<Entry>, k: nat)
    requires k < |es|
    ensures PostOrder(parent, es[..k + 1]) == PostOrder(parent, es[..k]) + EntryPost(parent, es[k])
  {
    assert es[..k + 1][..k] == es[..k];
  }

  /** Every directory of a tree. */
  function DirsOf(parent: nat, es: seq<Entry>): multiset<Gone>
    decreases es
  {
    if es == [] then multiset{} else DirsOf(parent, es[..|es| - 1]) + EntryDirs(parent, es[|es| - 1])
  }

  function EntryDirs(parent: nat, e: Entry): multiset<Gone>
    decreases e
  {
    match e.node
    case File(_) => multiset{}
    case Dir(inode, es) => DirsOf(inode, es) + multiset{Gone(parent, e.name)}
  }

  /** Round two deletes every directory once. */
  lemma {:induction false} PostOrderAll(parent: nat, es: seq<Entry>)
    ensures multiset(PostOrder(parent, es)) == DirsOf(parent, es)
    decreases es
  {
    if es != [] {
      PostOrderAll(parent, es[..|es| - 1]);
      EntryPostAll(parent, es[|es| - 1]);
    }
  }

  lemma {:induction false} EntryPostAll(parent: nat, e: Entry)
    ensures multiset(EntryPost(parent, e)) == EntryDirs(parent, e)
    decreases e
  {
    if e.node.Dir? {
      PostOrderAll(e.node.inode, e.node.entries);
    }
  }

  /** And right before it the directories below it, in the same way. */
  lemma {:induction false} PostOrderNested(parent: nat, es: seq<Entry>, i: nat)
    returns (before: seq<Gone>, after: seq<Gone>)
    requires i < |es| && es[i].node.Dir?
    ensures PostOrder(parent, es)
         == before + PostOrder(es[i].node.inode, es[i].node.entries) + [Gone(parent, es[i].name)] + after
  {
    var n := |es| - 1;
    if i == n {
      before, after := PostOrder(parent, es[..n]), [];
    } else {
      before, after := PostOrderNested(parent, es[..n], i);
      after := after + EntryPost(parent, es[n]);
    }
  }

  // ---------------------------------------------------------------- the entries of a tree, by the ways to them

  /** The components lead from a directory to the directory with inode `p` and listing `at`. */
  ghost predicate LeadsTo(parent: nat, es: seq<Entry>, cs: seq<string>, p: nat, at: seq<Entry>)
    decreases |cs|
  {
    if cs == [] then p == parent && at == es
    else
      exists i :: 0 <= i < |es| && es[i].name == cs[0] && es[i].node.Dir?
                  && LeadsTo(es[i].node.inode, es[i].node.entries, cs[1..], p, at)
  }

  /** The listing has a directory, or a file, of that name. */
  ghost predicate Has(dirs: bool, es: seq<Entry>, name: string) {
    exists i :: 0 <= i < |es| && es[i].name == name && es[i].node.Dir? == dirs
  }

  /** Somewhere in the tree there is the directory, or the file. */
  ghost predicate Holds(dirs: bool, parent: nat, es: seq<Entry>, g: Gone) {
    exists cs, at :: LeadsTo(parent, es, cs, g.parent, at) && Has(dirs, at, g.name)
  }

  /** No two directories of the tree have the same inode. */
  ghost predicate InodesDiffer(parent: nat, es: seq<Entry>) {
    forall cs, cs', p, at, at' :: LeadsTo(parent, es, cs, p, at) && LeadsTo(parent, es, cs', p, at') ==> cs == cs'
  }

  /** The directories of a tree, or its files. */
  function AllOf(dirs: bool, parent: nat, es: seq<Entry>): multiset<Gone> {
    if dirs then DirsOf(parent, es) else FilesOf(parent, es)
  }

  function Own(dirs: bool, parent: nat, e: Entry): multiset<Gone> {
    if e.node.Dir? == dirs then multiset{Gone(parent, e.name)} else multiset{}
  }

  function Inside(dirs: bool, e: Entry): multiset<Gone> {
    if e.node.Dir? then AllOf(dirs, e.node.inode, e.node.entries) else multiset{}
  }

  lemma AllOfLast(dirs: bool, parent: nat, es: seq<Entry>)
    requires es != []
    ensures var n := |es| - 1;
            AllOf(dirs, parent, es) == AllOf(dirs, parent, es[..n]) + (Own(dirs, parent, es[n]) + Inside(dirs, es[n]))
  {
    var last := es[|es| - 1];
    assert EntryFiles(parent, last) == Own(false, parent, last) + Inside(false, last);
    assert EntryDirs(parent, last) == Own(true, parent, last) + Inside(true, last);
  }

  lemma NoneOf(dirs: bool, parent: nat)
    ensures AllOf(dirs, parent, []) == multiset{}
  {
  }

  lemma LeadsInto(parent: nat, es: seq<Entry>, i: nat, cs: seq<string>, p: nat, at: seq<Entry>)
    requires i < |es| && es[i].node.Dir? && LeadsTo(es[i].node.inode, es[i].node.entries, cs, p, at)
    ensures LeadsTo(parent, es, [es[i].name] + cs, p, at)
  {
    assert ([es[i].name] + cs)[1..] == cs;
  }

  lemma LeadsFurther(parent: nat, es: seq<Entry>, n: nat, cs: seq<string>, p: nat, at: seq<Entry>)
    requires n <= |es| && LeadsTo(parent, es[..n], cs, p, at)
    ensures LeadsTo(parent, es, cs, p, if cs == [] then es else at)
  {
  }

  /** The way to an entry. */
  lemma {:induction false} WayTo(dirs: bool, parent: nat, es: seq<Entry>, g: Gone)
    returns (cs: seq<string>, at: seq<Entry>)
    requires g in AllOf(dirs, parent, es)
    ensures LeadsTo(parent, es, cs, g.parent, at) && Has(dirs, at, g.name)
    decreases Size(es)
  {
    hide AllOf;
    NoneOf(dirs, parent);
    var n := |es| - 1;
    var e := es[n];
    AllOfLast(dirs, parent, es);
    EntrySmaller(es, n);
    if g in Own(dirs, parent, e) {
      cs, at := [], es;
    } else if g in Inside(dirs, e) {
      cs, at := WayTo(dirs, e.node.inode, e.node.entries, g);
      LeadsInto(parent, es, n, cs, g.parent, at);
      cs := [e.name] + cs;
    } else {
      cs, at := WayTo(dirs, parent, es[..n], g);
      LeadsFurther(parent, es, n, cs, g.parent, at);
      at := if cs == [] then es else at;
    }
  }

  lemma {:induction false} EntryAmong(dirs: bool, parent: nat, es: seq<Entry>, i: nat)
    requires i < |es|
    ensures Own(dirs, parent, es[i]) + Inside(dirs, es[i]) <= AllOf(dirs, parent, es)
  {
    hide AllOf, Own, Inside;
    AllOfLast(dirs, parent, es);
    if i < |es| - 1 {
      EntryAmong(dirs, parent, es[..|es| - 1], i);
    }
  }

  lemma {:induction false} FoundByWay(dirs: bool, parent: nat, es: seq<Entry>, g: Gone, cs: seq<string>, at: seq<Entry>)
    requires LeadsTo(parent, es, cs, g.parent, at) && Has(dirs, at, g.name)
    ensures g in AllOf(dirs, parent, es)
    decreases |cs|
  {
    hide AllOf;
    if cs == [] {
      var i :| 0 <= i < |es| && es[i].name == g.name && es[i].node.Dir? == dirs;
      EntryAmong(dirs, parent, es, i);
    } else {
      var i :| 0 <= i < |es| && es[i].name == cs[0] && es[i].node.Dir?
               && LeadsTo(es[i].node.inode, es[i].node.entries, cs[1..], g.parent, at);
      EntryAmong(dirs, parent, es, i);
      FoundByWay(dirs, es[i].node.inode, es[i].node.entries, g, cs[1..], at);
    }
  }

  /** The bag of all entries against the ways through the tree. */
  lemma HeldIs(dirs: bool, parent: nat, es: seq<Entry>, g: Gone)
    ensures g in AllOf(dirs, parent, es) <==> Holds(dirs, parent, es, g)
  {
    hide AllOf, LeadsTo, Has;
    if g in AllOf(dirs, parent, es) {
      var cs, at := WayTo(dirs, parent, es, g);
    }
    if Holds(dirs, parent, es, g) {
      var cs, at :| LeadsTo(parent, es, cs, g.parent, at) && Has(dirs, at, g.name);
      FoundByWay(dirs, parent, es, g, cs, at);
    }
  }

  lemma InodesDifferIn(parent: nat, es: seq<Entry>, n: nat)
    requires InodesDiffer(parent, es) && n < |es|
    ensures InodesDiffer(parent, es[..n])
    ensures es[n].node.Dir? ==> InodesDiffer(es[n].node.inode, es[n].node.entries)
  {
    hide LeadsTo;
    forall cs, cs', p, at, at' | LeadsTo(parent, es[..n], cs, p, at) && LeadsTo(parent, es[..n], cs', p, at')
      ensures cs == cs'
    {
      LeadsFurther(parent, es, n, cs, p, at);
      LeadsFurther(parent, es, n, cs', p, at');
    }
    if es[n].node.Dir? {
      var inode, below, name := es[n].node.inode, es[n].node.entries, es[n].name;
      forall cs, cs', p, at, at' | LeadsTo(inode, below, cs, p, at) && LeadsTo(inode, below, cs', p, at')
        ensures cs == cs'
      {
        LeadsInto(parent, es, n, cs, p, at);
        LeadsInto(parent, es, n, cs', p, at');
        assert ([name] + cs)[1..] == cs && ([name] + cs')[1..] == cs';
      }
    }
  }

  /** Of the three places an entry can be in, it is in one. */
  lemma OnePlace(dirs: bool, parent: nat, es: seq<Entry>, g: Gone)
    requires es != [] && Sorted(es) && InodesDiffer(parent, es)
    ensures var n := |es| - 1;
            && !(g in Own(dirs, parent, es[n]) && g in Inside(dirs, es[n]))
            && !(g in AllOf(dirs, parent, es[..n]) && g in Own(dirs, parent, es[n]))
            && !(g in AllOf(dirs, parent, es[..n]) && g in Inside(dirs, es[n]))
  {
    hide AllOf, Less;
    var n := |es| - 1;
    var e := es[n];
    NotLess(e.name);
    assert LeadsTo(parent, es, [], parent, es);
    if g in Inside(dirs, e) && (g in Own(dirs, parent, e) || g in AllOf(dirs, parent, es[..n])) {
      var cs, at := WayTo(dirs, e.node.inode, e.node.entries, g);
      LeadsInto(parent, es, n, cs, g.parent, at);
      if g in AllOf(dirs, parent, es[..n]) {
        var cs', at' := WayTo(dirs, parent, es[..n], g);
        LeadsFurther(parent, es, n, cs', g.parent, at');
      }
      assert false;
    }
    if g in AllOf(dirs, parent, es[..n]) && g in Own(dirs, parent, e) {
      var cs, at := WayTo(dirs, parent, es[..n], g);
      LeadsFurther(parent, es, n, cs, g.parent, at);
      assert false;
    }
  }

  lemma {:induction false} HeldOnce(dirs: bool, parent: nat, es: seq<Entry>, g: Gone)
    requires WellFormed(es) && InodesDiffer(parent, es)
    ensures AllOf(dirs, parent, es)[g] <= 1
    decreases Size(es)
  {
    hide AllOf, InodesDiffer, NoSep, Less;
    if es == [] {
      NoneOf(dirs, parent);
    } else {
      var n := |es| - 1;
      EntrySmaller(es, n);
      InodesDifferIn(parent, es, n);
      AllOfLast(dirs, parent, es);
      OnePlace(dirs, parent, es, g);
      HeldOnce(dirs, parent, es[..n], g);
      if es[n].node.Dir? {
        HeldOnce(dirs, es[n].node.inode, es[n].node.entries, g);
      }
    }
  }

  /** Where inodes differ, every directory and every file of the tree occurs exactly once, and nothing else does. */
  lemma HeldExactly(dirs: bool, parent: nat, es: seq<Entry>, g: Gone)
    requires WellFormed(es) && InodesDiffer(parent, es)
    ensures AllOf(dirs, parent, es)[g] == if Holds(dirs, parent, es, g) then 1 else 0
  {
    hide AllOf, InodesDiffer, WellFormed, Holds;
    HeldIs(dirs, parent, es, g);
    HeldOnce(dirs, parent, es, g);
  }

  // ---------------------------------------------------------------- what is left without the files

  lemma LastOf(parent: nat, es: seq<Entry>, e: Entry)
    ensures FilesOf(parent, es + [e]) == FilesOf(parent, es) + EntryFiles(parent, e)
    ensures DirsOf(parent, es + [e]) == DirsOf(parent, es) + EntryDirs(parent, e)
  {
    hide EntryFiles, EntryDirs;
    assert (es + [e])[..|es|] == es;
  }

  /** Round one leaves no file, and every directory where it was. */
  lemma {:induction false} CleanHolds(parent: nat, es: seq<Entry>)
    ensures FilesOf(parent, CleanFiles(es)) == multiset{} && DirsOf(parent, CleanFiles(es)) == DirsOf(parent, es)
    decreases Size(es)
  {
    if es != [] {
      hide FilesOf, DirsOf, CleanFiles;
      var init, e := es[..|es| - 1], es[|es| - 1];
      assert init + [e] == es;
      EntrySmaller(es, |es| - 1);
      CleanHolds(parent, init);
      CleanSnoc(init, e);
      LastOf(parent, init, e);
      if e.node.Dir? {
        CleanHolds(e.node.inode, e.node.entries);
        LastOf(parent, CleanFiles(init), CleanEntry(e)[0]);
      } else {
        assert CleanFiles(es) == CleanFiles(init);
      }
    }
  }

  /** A listing without its files has each directory as often as the listing. */
  lemma {:induction false} OnlyDirsAre(es: seq<Entry>, e: Entry)
    ensures multiset(OnlyDirs(es))[e] == if e.node.Dir? then multiset(es)[e] else 0
  {
    if es != [] {
      OnlyDirsAre(es[..|es| - 1], e);
      assert es == es[..|es| - 1] + [es[|es| - 1]];
    }
  }
}
