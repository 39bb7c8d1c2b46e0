/**
Deleting a snapshot version: one round over the tree deletes the files, a second one the directories, while the listings
that are being paged through shrink.
*/
module SnapshotScan {
  import opened Bags
  import opened DirTree
  import opened SnapshotTree

  /** A directory waiting to be handled, with its listing, which nobody else changes. */
  datatype Waiting = Waiting(inode: nat, entries: seq<Entry>)

  function PendingFiles(ws: seq<Waiting>): multiset<Gone> {
    if ws == [] then multiset{}
    else PendingFiles(ws[..|ws| - 1]) + FilesOf(ws[|ws| - 1].inode, ws[|ws| - 1].entries)
  }

  function Weight(ws: seq<Waiting>): nat {
    if ws == [] then 0 else Weight(ws[..|ws| - 1]) + 1 + Size(ws[|ws| - 1].entries)
  }

  ghost predicate AllWellFormed(ws: seq<Waiting>) { forall k :: 0 <= k < |ws| ==> WellFormed(ws[k].entries) }

  // ---------------------------------------------------------------- names

  ghost predicate NamesDiffer(es: seq<Entry>) { forall i, j :: 0 <= i < j < |es| ==> es[i].name != es[j].name }

  lemma SortedDiffer(es: seq<Entry>)
    requires Sorted(es)
    ensures NamesDiffer(es)
  {
    forall i, j | 0 <= i < j < |es| ensures es[i].name != es[j].name {
      NotLess(es[i].name);
    }
  }

  method IndexOf(es: seq<Entry>, name: string) returns (i: nat)
    ensures i <= |es| && (i < |es| ==> es[i].name == name)
    ensures forall k :: 0 <= k < i ==> es[k].name != name
  {
    i := 0;
    while i < |es| && es[i].name != name
      invariant i <= |es| && forall k :: 0 <= k < i ==> es[k].name != name
    {
      i := i + 1;
    }
  }

  // ---------------------------------------------------------------- pages

  /** The paging loop has passed the first `c` entries of `es`; `left` is what remains of them in the listing. */
  ghost predicate Paged(es: seq<Entry>, marker: string, c: nat, left: seq<Entry>) {
    && c <= |es|
    && if c == 0 then marker == "" && left == [] else marker == es[c - 1].name && Shrunk(es, c, left)
  }

  ghost predicate IsPage(es: seq<Entry>, marker: string, c: nat, limit: nat, children: seq<Entry>) {
    && c + |children| <= |es| && children == es[c..c + |children|]
    && (|children| + (if marker == "" then 0 else 1) < limit ==> c + |children| == |es|)
    && (|children| + (if marker == "" then 0 else 1) >= limit ==> |children| > 0)
  }

  /** A page without the marker it was read from. */
  function Stripped(page: seq<Entry>, marker: string): seq<Entry> {
    if marker != "" && page != [] && page[0].name == marker then page[1..] else page
  }

  /** Whatever has gone of the entries before it, the next page neither skips an entry nor repeats one. */
  method NextPage(cur: seq<Entry>, marker: string, limit: nat, ghost es: seq<Entry>, ghost c: nat,
                  ghost left: seq<Entry>)
    returns (children: seq<Entry>)
    requires WellFormed(es) && limit >= 2 && Paged(es, marker, c, left) && cur == left + es[c..]
    ensures IsPage(es, marker, c, limit, children)
  {
    hide WellFormed, Paged, IsPage, ReadDirLimit;
    children := ReadDirLimit(cur, marker, limit);
    PageStripped(es, marker, c, left, limit);
    if marker != "" {
      if |children| >= 1 && marker == children[0].name {
        if |children| <= 1 {
          assert children[1..] == [];
          return [];
        } else {
          children := children[1..];
        }
      }
    }
  }

  lemma PageStripped(es: seq<Entry>, marker: string, c: nat, left: seq<Entry>, limit: nat)
    requires WellFormed(es) && limit >= 2 && Paged(es, marker, c, left)
    ensures IsPage(es, marker, c, limit, Stripped(ReadDirLimit(left + es[c..], marker, limit), marker))
  {
    hide WellFormed, IsPage, ReadDirLimit, Shrunk, EndOf;
    if c == 0 {
      assert left + es[c..] == es;
      FirstPage(es, limit);
    } else if Kept(es, c, left) {
      PageAfter(es, c, left, limit);
      StripKept(es, c, left[|left| - 1], limit);
    } else {
      PageAfter(es, c, left, limit);
      StripGone(es, c, limit);
    }
  }

  lemma FirstPage(es: seq<Entry>, limit: nat)
    requires limit >= 2
    ensures IsPage(es, "", 0, limit, Stripped(ReadDirLimit(es, "", limit), ""))
  {
    BeforeNothing(es);
  }

  lemma NamedAt(es: seq<Entry>, i: nat)
    requires WellFormed(es) && i < |es|
    ensures es[i].name != ""
  {
  }

  lemma StripKept(es: seq<Entry>, c: nat, last: Entry, limit: nat)
    requires WellFormed(es) && 0 < c <= |es| && limit >= 2 && last.name == es[c - 1].name
    ensures var marker := es[c - 1].name;
            IsPage(es, marker, c, limit, Stripped([last] + es[c..EndOf(|es|, c, true, limit)], marker))
  {
    hide WellFormed;
    NamedAt(es, c - 1);
    var page := es[c..EndOf(|es|, c, true, limit)];
    assert ([last] + page)[1..] == page;
  }

  lemma StripGone(es: seq<Entry>, c: nat, limit: nat)
    requires WellFormed(es) && 0 < c <= |es| && limit >= 2
    ensures var marker := es[c - 1].name;
            IsPage(es, marker, c, limit, Stripped([] + es[c..EndOf(|es|, c, false, limit)], marker))
  {
    hide WellFormed;
    NamedAt(es, c - 1);
    var page := es[c..EndOf(|es|, c, false, limit)];
    assert [] + page == page;
    if page != [] {
      NextDiffers(es, c);
    }
  }

  lemma NextDiffers(es: seq<Entry>, c: nat)
    requires WellFormed(es) && 0 < c < |es|
    ensures es[c].name != es[c - 1].name
  {
    hide NoSep, NodeWellFormed;
    NotLess(es[c].name);
  }

  // ---------------------------------------------------------------- the files of a page

  function OwnFile(parent: nat, e: Entry): multiset<Gone> {
    if e.node.File? then multiset{Gone(parent, e.name)} else multiset{}
  }

  /** The files of a listing itself. */
  function OwnFiles(parent: nat, es: seq<Entry>): multiset<Gone> {
    if es == [] then multiset{} else OwnFiles(parent, es[..|es| - 1]) + OwnFile(parent, es[|es| - 1])
  }

  function DirFile(e: Entry): multiset<Gone> {
    if e.node.Dir? then FilesOf(e.node.inode, e.node.entries) else multiset{}
  }

  /** The files below the directories of a listing. */
  function DirFiles(es: seq<Entry>): multiset<Gone> {
    if es == [] then multiset{} else DirFiles(es[..|es| - 1]) + DirFile(es[|es| - 1])
  }

  lemma {:induction false} OwnAndDirFiles(parent: nat, es: seq<Entry>)
    ensures FilesOf(parent, es) == OwnFiles(parent, es) + DirFiles(es)
  {
    if es != [] {
      OwnAndDirFiles(parent, es[..|es| - 1]);
    }
  }

  lemma OwnTo(parent: nat, es: seq<Entry>, k: nat)
    requires k < |es|
    ensures OwnFiles(parent, es[..k + 1])
         == OwnFiles(parent, es[..k]) + OwnFile(parent, es[k])
    ensures OnlyDirs(es[..k + 1]) == OnlyDirs(es[..k]) + DirEntry(es[k])
  {
    assert es[..k + 1][..k] == es[..k];
  }

  lemma DirTo(es: seq<Entry>, k: nat)
    requires k < |es|
    ensures DirFiles(es[..k + 1]) == DirFiles(es[..k]) + DirFile(es[k])
    ensures CleanFiles(es[..k + 1]) == CleanFiles(es[..k]) + CleanEntry(es[k])
    ensures OnlyDirs(es[k..]) == DirEntry(es[k]) + OnlyDirs(es[k + 1..])
  {
    hide CleanEntry, DirEntry, DirFile;
    assert es[..k + 1][..k] == es[..k];
    assert es[k..] == [es[k]] + es[k + 1..];
    DirsAppend([es[k]], es[k + 1..]);
    assert [es[k]][..0] == [];
  }

  lemma OwnGivenUp(parent: nat, es: seq<Entry>, k: nat, start: multiset<Gone>)
    requires k <= |es|
    ensures start + OwnFiles(parent, es[..k]) + OwnFiles(parent, es[k..]) == start + OwnFiles(parent, es)
  {
    hide OwnFiles;
    assert es[..k] + es[k..] == es;
    OwnAppend(parent, es[..k], es[k..]);
    Associative(start, OwnFiles(parent, es[..k]), OwnFiles(parent, es[k..]));
  }

  lemma OneMoreOwn(parent: nat, es: seq<Entry>, k: nat, start: multiset<Gone>)
    requires k < |es|
    ensures start + OwnFiles(parent, es[..k])
          + (if es[k].node.File? then multiset{Gone(parent, es[k].name)} else multiset{})
         == start + OwnFiles(parent, es[..k + 1])
  {
    hide OwnFiles;
    OwnTo(parent, es, k);
    Associative(start, OwnFiles(parent, es[..k]), OwnFile(parent, es[k]));
  }

  /** Taking the entry after `a` out of a listing. */
  lemma TakenOut(a: seq<Entry>, e: Entry, b: seq<Entry>)
    ensures (a + [e] + b)[|a|] == e
    ensures (a + [e] + b)[..|a|] + (a + [e] + b)[|a| + 1..] == a + b
  {
  }

  lemma NextEntry(left: seq<Entry>, dirs: seq<Entry>, children: seq<Entry>, k: nat, rest: seq<Entry>)
    requires k < |children|
    ensures left + dirs + (children[k..] + rest) == left + dirs + [children[k]] + (children[k + 1..] + rest)
    ensures left + dirs + [children[k]] == left + (dirs + [children[k]])
  {
  }

  /** The listing before entry `k` of a page is handled, and after: a file is taken out, a directory is left. */
  lemma NextOfPage(left: seq<Entry>, children: seq<Entry>, k: nat, rest: seq<Entry>)
    requires k < |children|
    ensures var before := left + OnlyDirs(children[..k]);
            var cur := before + (children[k..] + rest);
            && |before| < |cur| && cur[|before|] == children[k]
            && left + OnlyDirs(children[..k + 1]) + (children[k + 1..] + rest)
            == if children[k].node.Dir? then cur else cur[..|before|] + cur[|before| + 1..]
  {
    hide OnlyDirs;
    OwnTo(0, children, k);
    NextEntry(left, OnlyDirs(children[..k]), children, k, rest);
    TakenOut(left + OnlyDirs(children[..k]), children[k], children[k + 1..] + rest);
    assert children[k].node.File? ==> OnlyDirs(children[..k + 1]) == OnlyDirs(children[..k]);
  }

  /** Changing the entry after `a` in a listing. */
  lemma Changed(a: seq<Entry>, e: Entry, b: seq<Entry>, e': Entry)
    ensures (a + [e] + b)[|a|] == e && (a + [e] + b)[|a| := e'] == a + [e'] + b
  {
  }

  lemma StillDiffer(es: seq<Entry>, x: nat, e: Entry)
    requires NamesDiffer(es) && x < |es| && e.name == es[x].name
    ensures NamesDiffer(es[..x] + es[x + 1..]) && NamesDiffer(es[x := e])
  {
  }

  class SnapshotScanner {
    const limit: nat

    /** Whether no call to the metadata service fails. */
    const reachable: bool

    var deleted: seq<Gone>
    var inodeChan: seq<Waiting>

    /** ErrorSkippedNum. */
    var errors: nat

    /** The files that were given up because a call failed. */
    ghost var lost: multiset<Gone>

    constructor (limit: nat, reachable: bool)
      ensures this.limit == limit && this.reachable == reachable
      ensures deleted == [] && inodeChan == [] && errors == 0 && lost == multiset{}
    {
      this.limit, this.reachable := limit, reachable;
      deleted, inodeChan, errors, lost := [], [], 0, multiset{};
    }

    /** What was deleted or given up. */
    ghost function Settled(): multiset<Gone>
      reads `deleted, `lost
    {
      multiset(deleted) + lost
    }

    /** The files are settled; none of them is given up without an error being counted. */
    twostate predicate Settles(files: multiset<Gone>)
      reads this
    {
      && Settled() == old(Settled()) + files && errors >= old(errors)
      && (errors == old(errors) ==> lost == old(lost)) && (reachable ==> errors == old(errors))
    }

    ghost method GiveUp(files: multiset<Gone>)
      modifies `lost
      ensures lost == old(lost) + files && Settled() == old(Settled()) + files
    {
      Associative(multiset(deleted), lost, files);
      lost := lost + files;
    }

    /** A call to the metadata service that may fail, which is counted. */
    method Call() returns (ok: bool)
      modifies `errors
      ensures errors == (old(errors) + if ok then 0 else 1) && (reachable ==> ok)
    {
      ok := *;
      ok := ok || reachable;
      if !ok {
        errors := errors + 1;
      }
    }

    /** Delete_Ver_ll, on the listing of the parent directory, for an entry that is there. */
    method Delete(parent: nat, cur: seq<Entry>, name: string, ghost x: nat) returns (ok: bool, next: seq<Entry>)
      requires NamesDiffer(cur) && x < |cur| && cur[x].name == name
      modifies `deleted, `errors
      ensures NamesDiffer(next) && errors == (old(errors) + if ok then 0 else 1) && (reachable ==> ok)
      ensures ok ==> next == cur[..x] + cur[x + 1..] && deleted == old(deleted) + [Gone(parent, name)]
      ensures !ok ==> next == cur && deleted == old(deleted)
      ensures Settled() == old(Settled()) + if ok then multiset{Gone(parent, name)} else multiset{}
    {
      ok := Call();
      if !ok {
        return ok, cur;
      }
      var i := IndexOf(cur, name);
      StillDiffer(cur, x, cur[x]);
      next := cur[..i] + cur[i + 1..];
      Logged(deleted, lost, Gone(parent, name));
      deleted := deleted + [Gone(parent, name)];
    }

    /** Deletes the files of a page from the listing, up to the first failure. */
    method DeleteFiles(parent: nat, listing: seq<Entry>, children: seq<Entry>, ghost left: seq<Entry>,
                       ghost rest: seq<Entry>)
      returns (ok: bool, cur: seq<Entry>)
      requires NamesDiffer(listing) && listing == left + children + rest
      modifies `deleted, `errors, `lost
      ensures Settles(OwnFiles(parent, children)) && (ok <==> errors == old(errors))
      ensures ok ==> cur == left + OnlyDirs(children) + rest && NamesDiffer(cur)
    {
      hide OnlyDirs, OwnFiles, NamesDiffer, Settled;
      cur := listing;
      NoFiles(parent);
      for k := 0 to |children|
        invariant cur == left + OnlyDirs(children[..k]) + (children[k..] + rest) && NamesDiffer(cur)
        invariant Settled() == old(Settled()) + OwnFiles(parent, children[..k])
        invariant errors == old(errors) && lost == old(lost)
      {
        NextOfPage(left, children, k, rest);
        OneMoreOwn(parent, children, k, old(Settled()));
        if children[k].node.File? {
          ok, cur := Delete(parent, cur, children[k].name, |left + OnlyDirs(children[..k])|);
          if !ok {
            GiveUp(OwnFiles(parent, children[k..]));
            OwnGivenUp(parent, children, k, old(Settled()));
            return;
          }
        }
      }
      assert children[..|children|] == children && children[|children|..] + rest == rest;
      ok := true;
    }

    // -------------------------------------------------------------- round one, depth first

    /** Handles the directories of a page whose files are gone. */
    method CleanDirs(listing: seq<Entry>, children: seq<Entry>, ghost left: seq<Entry>, ghost rest: seq<Entry>,
                     ghost es: seq<Entry>, ghost c: nat)
      returns (cur: seq<Entry>, ghost left': seq<Entry>)
      requires limit >= 2 && NamesDiffer(listing) && listing == left + OnlyDirs(children) + rest
      requires WellFormed(es) && c + |children| <= |es| && children == es[c..c + |children|] && Remains(es, c, left)
      modifies `deleted, `errors, `lost
      ensures cur == left' + rest && NamesDiffer(cur) && Remains(es, c + |children|, left')
      ensures Settles(DirFiles(children)) && (errors == old(errors) ==> left' == left + CleanFiles(children))
      decreases Size(es), 0
    {
      hide OnlyDirs, OwnFiles, DirFiles, CleanFiles, NamesDiffer, FilesOf, Size, Remains, WellFormed, Settled;
      cur, left' := listing, left;
      NoFiles(0);
      assert left + [] == left && children[0..] == children;
      for k := 0 to |children|
        invariant cur == left' + (OnlyDirs(children[k..]) + rest) && NamesDiffer(cur) && Remains(es, c + k, left')
        invariant Settles(DirFiles(children[..k]))
        invariant errors == old(errors) ==> left' == left + CleanFiles(children[..k])
      {
        DirTo(children, k);
        var child := children[k];
        assert child == es[c + k];
        if child.node.Dir? {
          ghost var after := OnlyDirs(children[k + 1..]) + rest;
          assert [child] + OnlyDirs(children[k + 1..]) + rest == [child] + after;
          assert cur == left' + [child] + after;
          ghost var done := old(Settled());
          cur, left' := CleanDir(cur, child, left', after, es, c + k);
          Associative(done, DirFiles(children[..k]), DirFile(child));
        } else {
          RemainsMore(es, c + k, left', child);
        }
      }
      assert children[..|children|] == children && children[|children|..] == [];
      assert [] + rest == rest;
    }

    /** One directory of a page. */
    method CleanDir(listing: seq<Entry>, child: Entry, ghost left: seq<Entry>, ghost after: seq<Entry>,
                    ghost es: seq<Entry>, ghost c: nat)
      returns (cur: seq<Entry>, ghost left': seq<Entry>)
      requires limit >= 2 && NamesDiffer(listing) && listing == left + [child] + after
      requires WellFormed(es) && c < |es| && child == es[c] && child.node.Dir? && Remains(es, c, left)
      modifies `deleted, `errors, `lost
      ensures cur == left' + after && NamesDiffer(cur) && Remains(es, c + 1, left')
      ensures Settles(DirFile(child)) && (errors == old(errors) ==> left' == left + CleanEntry(child))
      decreases Size(es), 0, 0
    {
      hide CleanFiles, NamesDiffer, FilesOf, Size, Remains;
      EntrySmaller(es, c);
      var sub := DepthFirstFiles(child.node.inode, child.node.entries);
      var cleaned := Entry(child.name, Dir(child.node.inode, sub));
      Changed(left, child, after, cleaned);
      StillDiffer(listing, |left|, cleaned);
      var i := IndexOf(listing, child.name);
      FoundAt(listing, child.name, i, |left|);
      cur, left' := listing[i := cleaned], left + [cleaned];
      RemainsMore(es, c, left, cleaned);
    }

    /** A page of a directory in round one: its files are deleted, then its directories handled in turn. */
    method DepthFirstPage(inode: nat, listing: seq<Entry>, children: seq<Entry>, ghost left: seq<Entry>,
                          ghost es: seq<Entry>, ghost c: nat)
      returns (ok: bool, cur: seq<Entry>, ghost left': seq<Entry>)
      requires limit >= 2 && WellFormed(es) && c + |children| <= |es| && children == es[c..c + |children|]
      requires listing == left + es[c..] && NamesDiffer(listing) && Remains(es, c, left)
      modifies `deleted, `errors, `lost
      ensures Settles(FilesOf(inode, children)) && (!ok ==> errors > old(errors))
      ensures ok ==> cur == left' + es[c + |children|..] && NamesDiffer(cur) && Remains(es, c + |children|, left')
      ensures errors == old(errors) ==> left' == left + CleanFiles(children)
      decreases Size(es), 1
    {
      hide CleanFiles, OwnFiles, DirFiles, OnlyDirs, FilesOf, NamesDiffer, WellFormed, Size, Remains;
      ghost var rest := es[c + |children|..];
      left' := left;
      Divided(es, c, c + |children|);
      assert listing == left + children + rest;
      OwnAndDirFiles(inode, children);
      ghost var before := Settled();
      Associative(before, OwnFiles(inode, children), DirFiles(children));
      ok, cur := DeleteFiles(inode, listing, children, left, rest);
      if !ok {
        GiveUp(DirFiles(children));
        return;
      }
      cur, left' := CleanDirs(cur, children, left, rest, es, c);
    }

    /** handlVerDelDepthFirst in round one: a failed call gives up what is left of the directory. */
    method DepthFirstFiles(inode: nat, es: seq<Entry>) returns (cur: seq<Entry>)
      requires limit >= 2 && WellFormed(es)
      modifies `deleted, `errors, `lost
      ensures Settles(FilesOf(inode, es)) && (errors == old(errors) ==> cur == CleanFiles(es))
      decreases Size(es), 2
    {
      hide CleanFiles, OnlyDirs, FilesOf, FilesGone, WellFormed, Size, Paged, IsPage, Shrunk, Remains, NamesDiffer;
      hide Settled;
      cur := es;
      var marker, done := "", false;
      ghost var c, left, start := 0, [], Settled();
      Begin(inode, es, start);
      while !done
        invariant c <= |es| && (if done then c == |es| else Paged(es, marker, c, left))
        invariant FilesGone(inode, es, c, cur, left, start, Settled()) && errors >= old(errors)
        invariant reachable ==> errors == old(errors)
        invariant errors == old(errors) ==> lost == old(lost) && left == CleanFiles(es[..c])
        decreases |es| - c, !done
      {
        ListingIs(inode, es, c, cur, left, start, Settled());
        GivenUp(inode, es, c, start);
        var ok := Call();
        if !ok {
          GiveUp(FilesOf(inode, es[c..]));
          return;
        }
        var children := NextPage(cur, marker, limit, es, c, left);
        PageIs(es, marker, c, limit, children);
        ghost var before, end := marker, c + |children|;
        ghost var now := Settled();
        ok, cur, left := DepthFirstPage(inode, cur, children, left, es, c);
        PageSettled(inode, es, c, children, end, start, now, Settled());
        if !ok {
          GiveUp(FilesOf(inode, es[end..]));
          return;
        }
        NowGone(inode, es, end, cur, left, start, Settled());
        done, marker := Advance(children, marker, limit);
        RemainsPaged(es, before, c, limit, children, done, marker, end, left);
        c := end;
      }
      AllGone(inode, es, cur, left, start, Settled());
    }

    // -------------------------------------------------------------- round one, breadth first

    /** A page of a directory handled breadth first: its directories wait, its files are deleted. */
    method BreadthFirstPage(inode: nat, listing: seq<Entry>, children: seq<Entry>,
                            ghost es: seq<Entry>, ghost c: nat, ghost waiting: seq<Waiting>)
      returns (ok: bool, cur: seq<Entry>)
      requires WellFormed(es) && c + |children| <= |es| && children == es[c..c + |children|]
      requires listing == OnlyDirs(es[..c]) + es[c..] && NamesDiffer(listing) && DirsWait(es, c, waiting, inodeChan)
      modifies `deleted, `inodeChan, `errors, `lost
      ensures Settles(OwnFiles(inode, children)) && (ok <==> errors == old(errors))
      ensures ok ==> cur == OnlyDirs(es[..c + |children|]) + es[c + |children|..] && NamesDiffer(cur)
      ensures DirsWait(es, c + |children|, waiting, inodeChan)
    {
      hide CleanFiles, OwnFiles, OnlyDirs, NamesDiffer, WellFormed, DirsWait;
      for k := 0 to |children|
        invariant DirsWait(es, c + k, waiting, inodeChan)
        invariant deleted == old(deleted) && errors == old(errors) && lost == old(lost)
      {
        assert children[k] == es[c + k];
        OneMoreWaiting(es, c + k, waiting, inodeChan);
        if children[k].node.Dir? {
          inodeChan := inodeChan + [Waiting(children[k].node.inode, children[k].node.entries)];
        }
      }
      ghost var left, rest := OnlyDirs(es[..c]), es[c + |children|..];
      Divided(es, c, c + |children|);
      assert listing == left + children + rest;
      ok, cur := DeleteFiles(inode, listing, children, left, rest);
      OwnPassed(inode, es, c, children);
    }

    /** handlVerDelBreadthFirst: a failed call gives up what is left of the directory. */
    method BreadthFirst(inode: nat, es: seq<Entry>) returns (cur: seq<Entry>)
      requires limit >= 2 && WellFormed(es) && AllWellFormed(inodeChan)
      modifies `deleted, `inodeChan, `errors, `lost
      ensures AllWellFormed(inodeChan) && Weight(inodeChan) <= old(Weight(inodeChan)) + Size(es)
      ensures Settled() + PendingFiles(inodeChan) == old(Settled() + PendingFiles(inodeChan)) + FilesOf(inode, es)
      ensures errors >= old(errors) && (errors == old(errors) ==> lost == old(lost) && cur == OnlyDirs(es))
      ensures reachable ==> errors == old(errors)
    {
      hide CleanFiles, OnlyDirs, OwnGone, DirsWait, WellFormed, AllWellFormed, Paged, IsPage, Shrunk;
      hide PendingFiles, Weight, FilesOf, Size, OwnFiles, NamesDiffer;
      cur := es;
      var marker, done := "", false;
      ghost var c, start, waiting := 0, Settled(), inodeChan;
      BeginBreadth(inode, es, start, inodeChan);
      while !done
        invariant c <= |es| && (if done then c == |es| else Paged(es, marker, c, OnlyDirs(es[..c])))
        invariant OwnGone(inode, es, c, cur, start, Settled()) && DirsWait(es, c, waiting, inodeChan)
        invariant errors == old(errors) && lost == old(lost)
        decreases |es| - c, !done
      {
        OwnListingIs(inode, es, c, cur, start, Settled());
        var ok := Call();
        if !ok {
          BreadthGivenUp(inode, es, c, start, waiting, inodeChan);
          GiveUp(FilesOf(inode, es[c..]));
          return;
        }
        var children := NextPage(cur, marker, limit, es, c, OnlyDirs(es[..c]));
        PageIs(es, marker, c, limit, children);
        ghost var before, end := marker, c + |children|;
        OwnPagePassed(inode, es, c, children, start);
        ok, cur := BreadthFirstPage(inode, cur, children, es, c, waiting);
        if !ok {
          BreadthGivenUp(inode, es, end, start, waiting, inodeChan);
          GiveUp(FilesOf(inode, es[end..]));
          return;
        }
        OwnNowGone(inode, es, end, cur, start, Settled());
        done, marker := Advance(children, marker, limit);
        if 0 < end {
          ShrunkFiles(es, end);
        }
        PagedOn(es, before, c, limit, children, done, marker, end, OnlyDirs(es[..end]));
        c := end;
      }
      BreadthDone(inode, es, cur, start, Settled(), waiting, inodeChan);
    }

    // -------------------------------------------------------------- round two

    /** A page of a directory in round two: every directory in it is emptied and then deleted. */
    method DeleteDirsPage(inode: nat, listing: seq<Entry>, children: seq<Entry>, ghost left: seq<Entry>,
                          ghost es: seq<Entry>, ghost c: nat)
      returns (cur: seq<Entry>, ghost left': seq<Entry>, ghost gone: seq<Gone>)
      requires limit >= 2 && WellFormed(es) && c + |children| <= |es| && children == es[c..c + |children|]
      requires AllDirs(es) && listing == left + es[c..] && NamesDiffer(listing) && Remains(es, c, left)
      modifies `deleted, `errors
      ensures cur == left' + es[c + |children|..] && NamesDiffer(cur) && Remains(es, c + |children|, left')
      ensures deleted == old(deleted) + gone && Skipping(gone, PostOrder(inode, children)) && errors >= old(errors)
      ensures errors == old(errors) ==> left' == left && gone == PostOrder(inode, children)
      ensures reachable ==> errors == old(errors)
      decreases Size(es), 0
    {
      hide PostOrder, NamesDiffer, Size, Skipping, Remains, WellFormed, EntryPost;
      cur, left', gone := listing, left, [];
      SkipNothing(PostOrder(inode, children[..0]));
      NoDirs(inode);
      for k := 0 to |children|
        invariant cur == left' + es[c + k..] && NamesDiffer(cur) && Remains(es, c + k, left')
        invariant deleted == old(deleted) + gone && Skipping(gone, PostOrder(inode, children[..k]))
        invariant errors >= old(errors) && (reachable ==> errors == old(errors))
        invariant errors == old(errors) ==> left' == left && gone == PostOrder(inode, children[..k])
      {
        assert children[k] == es[c + k] && es[c + k..] == [es[c + k]] + es[c + k + 1..];
        assert left' + es[c + k..] == left' + [children[k]] + es[c + k + 1..];
        PostTo(inode, children, k);
        ghost var one, before := [], gone;
        cur, left', one := DeleteDir(inode, cur, children[k], left', es, c + k);
        SkipBoth(before, PostOrder(inode, children[..k]), one, EntryPost(inode, children[k]));
        gone := gone + one;
      }
      assert children[..|children|] == children;
    }

    /** One directory of a page: what a failed call leaves stays listed. */
    method DeleteDir(inode: nat, listing: seq<Entry>, child: Entry, ghost left: seq<Entry>,
                     ghost es: seq<Entry>, ghost c: nat)
      returns (cur: seq<Entry>, ghost left': seq<Entry>, ghost gone: seq<Gone>)
      requires limit >= 2 && WellFormed(es) && c < |es| && child == es[c] && child.node.Dir?
      requires listing == left + [child] + es[c + 1..] && NamesDiffer(listing) && Remains(es, c, left)
      modifies `deleted, `errors
      ensures cur == left' + es[c + 1..] && NamesDiffer(cur) && Remains(es, c + 1, left')
      ensures deleted == old(deleted) + gone && Skipping(gone, EntryPost(inode, child)) && errors >= old(errors)
      ensures errors == old(errors) ==> left' == left && gone == EntryPost(inode, child)
      ensures reachable ==> errors == old(errors)
      decreases Size(es), 0, 0
    {
      hide PostOrder, NamesDiffer, Size, Skipping, Remains, Settled;
      EntrySmaller(es, c);
      RemainsMore(es, c, left, child);
      var ok;
      ok, gone := DepthFirstDirs(child.node.inode, child.node.entries);
      cur, left' := listing, left + [child];
      ghost var below, own := PostOrder(child.node.inode, child.node.entries), [Gone(inode, child.name)];
      SkipNothing(own);
      SkipItself(own);
      SkipBoth(gone, below, [], own);
      SkipBoth(gone, below, own, own);
      assert gone + [] == gone;
      if ok {
        TakenOut(left, child, es[c + 1..]);
        ok, cur := Delete(inode, listing, child.name, |left|);
        if ok {
          left', gone := left, gone + own;
        }
      }
    }

    /**
    handlVerDelDepthFirst in round two, up to the deletion of the directory itself, which it does not get to when a page
    cannot be read.
    */
    method DepthFirstDirs(inode: nat, entries: seq<Entry>) returns (ok: bool, ghost gone: seq<Gone>)
      requires limit >= 2 && WellFormed(entries)
      modifies `deleted, `errors
      ensures deleted == old(deleted) + gone && Skipping(gone, PostOrder(inode, entries)) && errors >= old(errors)
      ensures errors == old(errors) ==> ok && gone == PostOrder(inode, entries)
      ensures reachable ==> errors == old(errors)
      decreases Size(entries), 1
    {
      hide PostOrder, DirsGone, WellFormed, Size, Paged, IsPage, Shrunk, OnlyDirs, AllDirs, Skipping, Remains;
      hide NamesDiffer;
      var es := OnlyDirs(entries);
      OnlyDirsPost(inode, entries);
      OnlyDirsFormed(entries);
      var cur, marker, done := es, "", false;
      ghost var c, left := 0, [];
      gone := [];
      BeginDirs(inode, es);
      while !done
        invariant c <= |es| && (if done then c == |es| else Paged(es, marker, c, left))
        invariant DirsGone(inode, es, c, cur, left, gone) && deleted == old(deleted) + gone && errors >= old(errors)
        invariant errors == old(errors) ==> left == [] && gone == PostOrder(inode, es[..c])
        invariant reachable ==> errors == old(errors)
        decreases |es| - c, !done
      {
        DirsListingIs(inode, es, c, cur, left, gone);
        ok := Call();
        if !ok {
          return;
        }
        var children := NextPage(cur, marker, limit, es, c, left);
        PageIs(es, marker, c, limit, children);
        ghost var before, end, log, more := marker, c + |children|, gone, [];
        cur, left, more := DeleteDirsPage(inode, cur, children, left, es, c);
        DirsPassed(inode, es, c, children, log, more);
        gone := gone + more;
        DirsNowGone(inode, es, end, cur, left, gone);
        done, marker := Advance(children, marker, limit);
        RemainsPaged(es, before, c, limit, children, done, marker, end, left);
        c := end;
      }
      DirsDone(inode, es, cur, left, gone);
      ok := true;
    }

    // -------------------------------------------------------------- both rounds

    /** scan in round one: takes waiting directories, in any order, and handles each in one of the two ways. */
    method ScanFiles()
      requires limit >= 2 && AllWellFormed(inodeChan)
      modifies `deleted, `inodeChan, `errors, `lost
      ensures inodeChan == [] && Settles(old(PendingFiles(inodeChan)))
    {
      hide PendingFiles, Weight, FilesOf, Size, WellFormed, CleanFiles, OnlyDirs;
      NothingWaits();
      while inodeChan != []
        invariant AllWellFormed(inodeChan)
        invariant Settled() + PendingFiles(inodeChan) == old(Settled() + PendingFiles(inodeChan))
        invariant errors >= old(errors) && (errors == old(errors) ==> lost == old(lost))
        invariant reachable ==> errors == old(errors)
        decreases Weight(inodeChan)
      {
        var k :| 0 <= k < |inodeChan|;
        var dentry := inodeChan[k];
        PendingWithout(inodeChan, k);
        inodeChan := inodeChan[..k] + inodeChan[k + 1..];
        ghost var files, rest := Settled(), PendingFiles(inodeChan);
        var crowded: bool := *;
        if crowded {
          var _ := DepthFirstFiles(dentry.inode, dentry.entries);
        } else {
          var _ := BreadthFirst(dentry.inode, dentry.entries);
        }
        OneLessWaiting(files, rest, FilesOf(dentry.inode, dentry.entries), Settled(), PendingFiles(inodeChan));
      }
    }

    /**
    Start, with any of the calls failing: round one deletes a file of the version at most once, round two a directory
    below the root at most once, and each only after those below it that it deletes. A run that counts no error has
    deleted everything, and when no call fails there is none.
    */
    method Start(root: nat, es: seq<Entry>) returns (ghost files: seq<Gone>, ghost dirs: seq<Gone>)
      requires limit >= 2 && WellFormed(es) && deleted == [] && inodeChan == [] && errors == 0 && lost == multiset{}
      modifies `deleted, `inodeChan, `errors, `lost
      ensures deleted == files + dirs && multiset(files) + lost == FilesOf(root, es)
      ensures Skipping(dirs, PostOrder(root, es)) && multiset(dirs) <= DirsOf(root, es)
      ensures errors == 0 ==> multiset(files) == FilesOf(root, es) && dirs == PostOrder(root, es)
      ensures OnlyHeld(false, root, es, files) && OnlyHeld(true, root, es, dirs)
      ensures errors == 0 ==> AllHeld(false, root, es, files) && AllHeld(true, root, es, dirs)
      ensures InodesDiffer(root, es) ==> NoneTwice(files) && NoneTwice(dirs)
      ensures reachable ==> errors == 0
    {
      hide FilesOf, PostOrder, WellFormed, Skipping, DirsOf, OnlyHeld, AllHeld, NoneTwice, InodesDiffer;
      inodeChan := inodeChan + [Waiting(root, es)];
      PendingSnoc([], Waiting(root, es));
      NothingWaits();
      ScanFiles();
      files := deleted;
      var ok;
      ok, dirs := DepthFirstDirs(root, es);
      SkipBag(dirs, PostOrder(root, es));
      PostOrderAll(root, es);
      RunDeletes(root, es, files, lost, dirs);
    }
  }

  /** Everything deleted was in the tree. */
  ghost predicate OnlyHeld(dirs: bool, root: nat, es: seq<Entry>, log: seq<Gone>) {
    forall g :: g in log ==> Holds(dirs, root, es, g)
  }

  /** Everything in the tree was deleted. */
  ghost predicate AllHeld(dirs: bool, root: nat, es: seq<Entry>, log: seq<Gone>) {
    forall g :: Holds(dirs, root, es, g) ==> g in log
  }

  ghost predicate NoneTwice(log: seq<Gone>) { forall i, j :: 0 <= i < j < |log| ==> log[i] != log[j] }

  lemma DeletedAre(dirs: bool, root: nat, es: seq<Entry>, log: seq<Gone>)
    requires WellFormed(es) && multiset(log) <= AllOf(dirs, root, es)
    ensures OnlyHeld(dirs, root, es, log)
    ensures multiset(log) == AllOf(dirs, root, es) ==> AllHeld(dirs, root, es, log)
    ensures InodesDiffer(root, es) ==> NoneTwice(log)
  {
    hide AllOf, WellFormed, Holds, InodesDiffer;
    forall g ensures g in AllOf(dirs, root, es) <==> Holds(dirs, root, es, g) {
      HeldIs(dirs, root, es, g);
    }
    assert forall g :: g in log <==> g in multiset(log);
    if InodesDiffer(root, es) {
      forall i, j | 0 <= i < j < |log| ensures log[i] != log[j] {
        HeldOnce(dirs, root, es, log[i]);
        Twice(log, i, j);
      }
    }
  }

  lemma RunDeletes(root: nat, es: seq<Entry>, files: seq<Gone>, lost: multiset<Gone>, dirs: seq<Gone>)
    requires WellFormed(es) && multiset(files) + lost == FilesOf(root, es) && multiset(dirs) <= DirsOf(root, es)
    ensures OnlyHeld(false, root, es, files) && OnlyHeld(true, root, es, dirs)
    ensures multiset(files) == FilesOf(root, es) ==> AllHeld(false, root, es, files)
    ensures multiset(dirs) == DirsOf(root, es) ==> AllHeld(true, root, es, dirs)
    ensures InodesDiffer(root, es) ==> NoneTwice(files) && NoneTwice(dirs)
  {
    hide FilesOf, DirsOf, WellFormed, OnlyHeld, AllHeld, NoneTwice, InodesDiffer;
    assert multiset(files) <= multiset(files) + lost;
    DeletedAre(false, root, es, files);
    DeletedAre(true, root, es, dirs);
  }

  lemma Twice(log: seq<Gone>, i: nat, j: nat)
    requires i < j < |log|
    ensures log[i] == log[j] ==> multiset(log)[log[i]] >= 2
  {
    assert log == log[..i] + [log[i]] + log[i + 1..j] + [log[j]] + log[j + 1..];
  }

  lemma Logged(log: seq<Gone>, lost: multiset<Gone>, g: Gone)
    ensures multiset(log + [g]) + lost == multiset(log) + lost + multiset{g}
  {
    assert multiset(log + [g]) == multiset(log) + multiset{g};
  }

  lemma FoundAt(es: seq<Entry>, name: string, i: nat, x: nat)
    requires NamesDiffer(es) && i <= |es| && (i < |es| ==> es[i].name == name) && x < |es| && es[x].name == name
    requires forall k :: 0 <= k < i ==> es[k].name != name
    ensures i == x
  {
  }

  /** The first `c` entries have been passed, with `left` left of them, and their files are settled. */
  ghost predicate FilesGone(inode: nat, es: seq<Entry>, c: nat, cur: seq<Entry>, left: seq<Entry>,
                            start: multiset<Gone>, now: multiset<Gone>) {
    && c <= |es| && cur == left + es[c..] && NamesDiffer(cur) && Remains(es, c, left)
    && now == start + FilesOf(inode, es[..c])
  }

  lemma ListingIs(inode: nat, es: seq<Entry>, c: nat, cur: seq<Entry>, left: seq<Entry>,
                  start: multiset<Gone>, now: multiset<Gone>)
    requires FilesGone(inode, es, c, cur, left, start, now)
    ensures c <= |es| && cur == left + es[c..] && NamesDiffer(cur) && Remains(es, c, left)
    ensures now == start + FilesOf(inode, es[..c])
  {
  }

  lemma NowGone(inode: nat, es: seq<Entry>, c: nat, cur: seq<Entry>, left: seq<Entry>,
                start: multiset<Gone>, now: multiset<Gone>)
    requires c <= |es| && cur == left + es[c..] && NamesDiffer(cur) && Remains(es, c, left)
    requires now == start + FilesOf(inode, es[..c])
    ensures FilesGone(inode, es, c, cur, left, start, now)
  {
  }

  /** With the rest of the directory given up, all its files are settled. */
  lemma GivenUp(inode: nat, es: seq<Entry>, c: nat, start: multiset<Gone>)
    requires c <= |es|
    ensures start + FilesOf(inode, es[..c]) + FilesOf(inode, es[c..]) == start + FilesOf(inode, es)
  {
    hide FilesOf;
    assert es[..c] + es[c..] == es;
    FilesAppend(inode, es[..c], es[c..]);
    Associative(start, FilesOf(inode, es[..c]), FilesOf(inode, es[c..]));
  }

  lemma AllGone(inode: nat, es: seq<Entry>, cur: seq<Entry>, left: seq<Entry>,
                start: multiset<Gone>, now: multiset<Gone>)
    requires FilesGone(inode, es, |es|, cur, left, start, now)
    ensures cur == left && es[..|es|] == es && now == start + FilesOf(inode, es)
  {
    hide FilesOf;
    assert es[..|es|] == es && es[|es|..] == [];
  }

  lemma Begin(inode: nat, es: seq<Entry>, start: multiset<Gone>)
    requires WellFormed(es)
    ensures Paged(es, "", 0, []) && FilesGone(inode, es, 0, es, [], start, start) && CleanFiles(es[..0]) == []
  {
    SortedDiffer(es);
  }

  lemma Divided(es: seq<Entry>, c: nat, end: nat)
    requires c <= end <= |es|
    ensures es[c..] == es[c..end] + es[end..]
  {
  }

  lemma PageIs(es: seq<Entry>, marker: string, c: nat, limit: nat, children: seq<Entry>)
    requires IsPage(es, marker, c, limit, children)
    ensures c + |children| <= |es| && children == es[c..c + |children|]
  {
  }

  /** A page of round one, put together with what went before. */
  lemma PagePassed(inode: nat, es: seq<Entry>, c: nat, children: seq<Entry>, start: multiset<Gone>)
    requires c + |children| <= |es| && children == es[c..c + |children|]
    ensures CleanFiles(es[..c + |children|]) == CleanFiles(es[..c]) + CleanFiles(children)
    ensures start + FilesOf(inode, es[..c]) + FilesOf(inode, children) == start + FilesOf(inode, es[..c + |children|])
  {
    hide CleanFiles, FilesOf;
    assert es[..c + |children|] == es[..c] + children;
    CleanAppend(es[..c], children);
    FilesAppend(inode, es[..c], children);
    Associative(start, FilesOf(inode, es[..c]), FilesOf(inode, children));
  }

  lemma PageSettled(inode: nat, es: seq<Entry>, c: nat, children: seq<Entry>, end: nat,
                    start: multiset<Gone>, now: multiset<Gone>, after: multiset<Gone>)
    requires end == c + |children| <= |es| && children == es[c..end]
    requires now == start + FilesOf(inode, es[..c]) && after == now + FilesOf(inode, children)
    ensures CleanFiles(es[..end]) == CleanFiles(es[..c]) + CleanFiles(children)
    ensures after == start + FilesOf(inode, es[..end])
    ensures after + FilesOf(inode, es[end..]) == start + FilesOf(inode, es)
  {
    hide CleanFiles, FilesOf;
    PagePassed(inode, es, c, children, start);
    GivenUp(inode, es, end, start);
  }

  /** The paging loop after a page, when some of the entries up to its end are left. */
  lemma RemainsPaged(es: seq<Entry>, marker: string, c: nat, limit: nat, children: seq<Entry>, done: bool, next: string,
                     end: nat, left: seq<Entry>)
    requires WellFormed(es) && IsPage(es, marker, c, limit, children) && end == c + |children|
    requires done == (|children| + (if marker == "" then 0 else 1) < limit)
    requires !done ==> |children| > 0 && next == children[|children| - 1].name
    requires end <= |es| && Remains(es, end, left)
    ensures if done then end == |es| else c < end && Paged(es, next, end, left)
  {
    hide IsPage, Shrunk, Remains, Paged;
    if 0 < end {
      RemainsShrunk(es, end, left);
    }
    PagedOn(es, marker, c, limit, children, done, next, end, left);
  }

  /** The paging loop after a page, for whatever is left of the entries up to its end. */
  lemma PagedOn(es: seq<Entry>, marker: string, c: nat, limit: nat, children: seq<Entry>, done: bool, next: string,
                end: nat, left: seq<Entry>)
    requires IsPage(es, marker, c, limit, children) && end == c + |children|
    requires done == (|children| + (if marker == "" then 0 else 1) < limit)
    requires !done ==> |children| > 0 && next == children[|children| - 1].name
    requires 0 < end ==> Shrunk(es, end, left)
    ensures if done then end == |es| else c < end && Paged(es, next, end, left)
  {
    hide Shrunk;
    assert |children| > 0 ==> children[|children| - 1] == es[end - 1];
  }

  // ---------------------------------------------------------------- breadth first, in round one

  /** The files directly among the first `c` entries have been deleted. */
  ghost predicate OwnGone(inode: nat, es: seq<Entry>, c: nat, cur: seq<Entry>,
                          start: multiset<Gone>, now: multiset<Gone>) {
    && c <= |es| && cur == OnlyDirs(es[..c]) + es[c..] && NamesDiffer(cur)
    && now == start + OwnFiles(inode, es[..c])
  }

  /** The directories among the first `c` entries wait, after what waited before. */
  ghost predicate DirsWait(es: seq<Entry>, c: nat, before: seq<Waiting>, now: seq<Waiting>) {
    && c <= |es| && AllWellFormed(now)
    && PendingFiles(now) == PendingFiles(before) + DirFiles(es[..c])
    && Weight(now) <= Weight(before) + Size(es[..c])
  }

  lemma OneMoreWaiting(es: seq<Entry>, k: nat, before: seq<Waiting>, now: seq<Waiting>)
    requires WellFormed(es) && k < |es| && DirsWait(es, k, before, now)
    ensures var next := if es[k].node.Dir? then now + [Waiting(es[k].node.inode, es[k].node.entries)] else now;
            DirsWait(es, k + 1, before, next)
  {
    hide FilesOf, Size, Sorted, NoSep, CleanFiles, OnlyDirs, PendingFiles, Weight, DirFiles;
    DirTo(es, k);
    SizeTo(es, k);
    if es[k].node.Dir? {
      PendingSnoc(now, Waiting(es[k].node.inode, es[k].node.entries));
      Associative(PendingFiles(before), DirFiles(es[..k]), DirFile(es[k]));
    } else {
      assert DirFiles(es[..k + 1]) == DirFiles(es[..k]);
    }
  }

  lemma PendingSnoc(ws: seq<Waiting>, w: Waiting)
    ensures PendingFiles(ws + [w]) == PendingFiles(ws) + FilesOf(w.inode, w.entries)
    ensures Weight(ws + [w]) == Weight(ws) + 1 + Size(w.entries)
  {
    hide FilesOf, Size;
    assert (ws + [w])[..|ws|] == ws;
  }

  lemma NothingWaits()
    ensures PendingFiles([]) == multiset{}
  {
  }

  lemma {:induction false} PendingAppend(a: seq<Waiting>, b: seq<Waiting>)
    ensures PendingFiles(a + b) == PendingFiles(a) + PendingFiles(b) && Weight(a + b) == Weight(a) + Weight(b)
  {
    hide FilesOf, Size;
    if b == [] {
      assert a + b == a;
    } else {
      PendingAppend(a, b[..|b| - 1]);
      assert (a + b)[..|a + b| - 1] == a + b[..|b| - 1];
    }
  }

  lemma PendingWithout(ws: seq<Waiting>, k: nat)
    requires k < |ws|
    ensures PendingFiles(ws) == PendingFiles(ws[..k] + ws[k + 1..]) + FilesOf(ws[k].inode, ws[k].entries)
    ensures Weight(ws) == Weight(ws[..k] + ws[k + 1..]) + 1 + Size(ws[k].entries)
  {
    hide FilesOf, Size, PendingFiles, Weight;
    assert ws == ws[..k] + [ws[k]] + ws[k + 1..];
    PendingSnoc(ws[..k], ws[k]);
    PendingAppend(ws[..k] + [ws[k]], ws[k + 1..]);
    PendingAppend(ws[..k], ws[k + 1..]);
    Swapped(PendingFiles(ws[..k]), FilesOf(ws[k].inode, ws[k].entries), PendingFiles(ws[k + 1..]));
  }

  lemma OneLessWaiting(files: multiset<Gone>, rest: multiset<Gone>, one: multiset<Gone>,
                       files': multiset<Gone>, rest': multiset<Gone>)
    requires (files' == files + one && rest' == rest) || files' + rest' == (files + rest) + one
    ensures files' + rest' == files + (rest + one)
  {
    if files' == files + one && rest' == rest {
      assert files' + rest' == (files + rest) + one;
    }
  }

  lemma OwnPassed(inode: nat, es: seq<Entry>, c: nat, children: seq<Entry>)
    requires c + |children| <= |es| && children == es[c..c + |children|]
    ensures OnlyDirs(es[..c + |children|]) == OnlyDirs(es[..c]) + OnlyDirs(children)
    ensures OwnFiles(inode, es[..c + |children|]) == OwnFiles(inode, es[..c]) + OwnFiles(inode, children)
  {
    assert es[..c + |children|] == es[..c] + children;
    DirsAppend(es[..c], children);
    OwnAppend(inode, es[..c], children);
  }

  lemma {:induction false} OwnAppend(parent: nat, a: seq<Entry>, b: seq<Entry>)
    ensures OwnFiles(parent, a + b) == OwnFiles(parent, a) + OwnFiles(parent, b)
  {
    hide OwnFile;
    if b == [] {
      assert a + b == a;
    } else {
      OwnAppend(parent, a, b[..|b| - 1]);
      assert (a + b)[..|a + b| - 1] == a + b[..|b| - 1];
    }
  }

  lemma OwnListingIs(inode: nat, es: seq<Entry>, c: nat, cur: seq<Entry>, start: multiset<Gone>, now: multiset<Gone>)
    requires OwnGone(inode, es, c, cur, start, now)
    ensures c <= |es| && cur == OnlyDirs(es[..c]) + es[c..] && NamesDiffer(cur)
    ensures now == start + OwnFiles(inode, es[..c])
  {
  }

  lemma OwnNowGone(inode: nat, es: seq<Entry>, c: nat, cur: seq<Entry>, start: multiset<Gone>, now: multiset<Gone>)
    requires c <= |es| && cur == OnlyDirs(es[..c]) + es[c..] && NamesDiffer(cur)
    requires now == start + OwnFiles(inode, es[..c])
    ensures OwnGone(inode, es, c, cur, start, now)
  {
  }

  lemma BeginBreadth(inode: nat, es: seq<Entry>, start: multiset<Gone>, waiting: seq<Waiting>)
    requires WellFormed(es) && AllWellFormed(waiting)
    ensures Paged(es, "", 0, OnlyDirs(es[..0])) && OwnGone(inode, es, 0, es, start, start)
    ensures DirsWait(es, 0, waiting, waiting)
  {
    SortedDiffer(es);
  }

  lemma OwnPagePassed(inode: nat, es: seq<Entry>, c: nat, children: seq<Entry>, start: multiset<Gone>)
    requires c + |children| <= |es| && children == es[c..c + |children|]
    ensures start + OwnFiles(inode, es[..c]) + OwnFiles(inode, children)
         == start + OwnFiles(inode, es[..c + |children|])
  {
    hide OwnFiles, OnlyDirs;
    OwnPassed(inode, es, c, children);
    Associative(start, OwnFiles(inode, es[..c]), OwnFiles(inode, children));
  }

  /** With the rest of the directory given up, all its files are settled or wait. */
  lemma BreadthGivenUp(inode: nat, es: seq<Entry>, c: nat, start: multiset<Gone>,
                       before: seq<Waiting>, now: seq<Waiting>)
    requires DirsWait(es, c, before, now)
    ensures AllWellFormed(now) && Weight(now) <= Weight(before) + Size(es)
    ensures start + OwnFiles(inode, es[..c]) + FilesOf(inode, es[c..]) + PendingFiles(now)
         == start + PendingFiles(before) + FilesOf(inode, es)
  {
    hide FilesOf, OwnFiles, DirFiles, PendingFiles, Weight, Size, AllWellFormed;
    assert es[..c] + es[c..] == es;
    FilesAppend(inode, es[..c], es[c..]);
    OwnAndDirFiles(inode, es[..c]);
    SizeAppend(es[..c], es[c..]);
    Regrouped(start, OwnFiles(inode, es[..c]), FilesOf(inode, es[c..]), PendingFiles(before), DirFiles(es[..c]));
  }

  lemma Regrouped(start: multiset<Gone>, own: multiset<Gone>, rest: multiset<Gone>, waited: multiset<Gone>,
                  dirs: multiset<Gone>)
    ensures start + own + rest + (waited + dirs) == start + waited + (own + dirs + rest)
  {
  }

  lemma BreadthDone(inode: nat, es: seq<Entry>, cur: seq<Entry>, start: multiset<Gone>, now: multiset<Gone>,
                    before: seq<Waiting>, wait: seq<Waiting>)
    requires OwnGone(inode, es, |es|, cur, start, now) && DirsWait(es, |es|, before, wait)
    ensures cur == OnlyDirs(es) && AllWellFormed(wait) && Weight(wait) <= Weight(before) + Size(es)
    ensures now + PendingFiles(wait) == (start + PendingFiles(before)) + FilesOf(inode, es)
  {
    hide FilesOf, OwnFiles, DirFiles, PendingFiles, Weight, Size, OnlyDirs, AllWellFormed;
    assert es[..|es|] == es && es[|es|..] == [];
    OwnAndDirFiles(inode, es);
  }

  // ---------------------------------------------------------------- round two

  lemma BeginDirs(inode: nat, es: seq<Entry>)
    requires WellFormed(es)
    ensures Paged(es, "", 0, []) && DirsGone(inode, es, 0, es, [], []) && PostOrder(inode, es[..0]) == []
  {
    SortedDiffer(es);
  }

  lemma NoDirs(inode: nat)
    ensures PostOrder(inode, []) == []
  {
  }

  lemma DirsListingIs(inode: nat, es: seq<Entry>, c: nat, cur: seq<Entry>, left: seq<Entry>, gone: seq<Gone>)
    requires DirsGone(inode, es, c, cur, left, gone)
    ensures c <= |es| && cur == left + es[c..] && NamesDiffer(cur) && Remains(es, c, left)
    ensures Skipping(gone, PostOrder(inode, es)) && Skipping(gone, PostOrder(inode, es[..c]))
  {
    hide PostOrder, Remains, NamesDiffer, Skipping;
    assert es[..c] + es[c..] == es;
    PostAppend(inode, es[..c], es[c..]);
    SkipNothing(PostOrder(inode, es[c..]));
    SkipBoth(gone, PostOrder(inode, es[..c]), [], PostOrder(inode, es[c..]));
    assert gone + [] == gone;
  }

  lemma DirsNowGone(inode: nat, es: seq<Entry>, c: nat, cur: seq<Entry>, left: seq<Entry>, gone: seq<Gone>)
    requires c <= |es| && cur == left + es[c..] && NamesDiffer(cur) && Remains(es, c, left)
    requires Skipping(gone, PostOrder(inode, es[..c]))
    ensures DirsGone(inode, es, c, cur, left, gone)
  {
  }

  lemma DirsPassed(inode: nat, es: seq<Entry>, c: nat, children: seq<Entry>, gone: seq<Gone>, more: seq<Gone>)
    requires c + |children| <= |es| && children == es[c..c + |children|]
    requires Skipping(gone, PostOrder(inode, es[..c])) && Skipping(more, PostOrder(inode, children))
    ensures PostOrder(inode, es[..c + |children|]) == PostOrder(inode, es[..c]) + PostOrder(inode, children)
    ensures Skipping(gone + more, PostOrder(inode, es[..c + |children|]))
  {
    hide PostOrder, Skipping;
    assert es[..c + |children|] == es[..c] + children;
    PostAppend(inode, es[..c], children);
    SkipBoth(gone, PostOrder(inode, es[..c]), more, PostOrder(inode, children));
  }

  lemma {:induction false} PostAppend(parent: nat, a: seq<Entry>, b: seq<Entry>)
    ensures PostOrder(parent, a + b) == PostOrder(parent, a) + PostOrder(parent, b)
  {
    hide EntryPost;
    if b == [] {
      assert a + b == a;
    } else {
      PostAppend(parent, a, b[..|b| - 1]);
      assert (a + b)[..|a + b| - 1] == a + b[..|b| - 1];
    }
  }

  lemma DirsDone(inode: nat, es: seq<Entry>, cur: seq<Entry>, left: seq<Entry>, gone: seq<Gone>)
    requires DirsGone(inode, es, |es|, cur, left, gone)
    ensures es[..|es|] == es && Skipping(gone, PostOrder(inode, es))
  {
    hide PostOrder, Skipping;
    assert es[..|es|] == es;
  }

  // ---------------------------------------------------------------- leaving some out

  /** The one is the other with some left out. */
  ghost predicate Skipping(some: seq<Gone>, all: seq<Gone>) {
    if all == [] then some == []
    else
      || Skipping(some, all[..|all| - 1])
      || (some != [] && some[|some| - 1] == all[|all| - 1] && Skipping(some[..|some| - 1], all[..|all| - 1]))
  }

  lemma {:induction false} SkipNothing(all: seq<Gone>)
    ensures Skipping([], all)
  {
    if all != [] {
      SkipNothing(all[..|all| - 1]);
    }
  }

  lemma {:induction false} SkipItself(all: seq<Gone>)
    ensures Skipping(all, all)
  {
    if all != [] {
      SkipItself(all[..|all| - 1]);
    }
  }

  lemma {:induction false} SkipBoth(a: seq<Gone>, b: seq<Gone>, c: seq<Gone>, d: seq<Gone>)
    requires Skipping(a, b) && Skipping(c, d)
    ensures Skipping(a + c, b + d)
    decreases |d|
  {
    if d == [] {
      assert a + c == a && b + d == b;
    } else {
      var n := |d| - 1;
      assert (b + d)[..|b + d| - 1] == b + d[..n];
      if Skipping(c, d[..n]) {
        SkipBoth(a, b, c, d[..n]);
      } else {
        SkipBoth(a, b, c[..|c| - 1], d[..n]);
        assert (a + c)[..|a + c| - 1] == a + c[..|c| - 1];
      }
    }
  }

  /** Nothing occurs more often than in the whole. */
  lemma {:induction false} SkipBag(some: seq<Gone>, all: seq<Gone>)
    requires Skipping(some, all)
    ensures multiset(some) <= multiset(all)
  {
    if all != [] {
      var n := |all| - 1;
      assert all == all[..n] + [all[n]];
      if Skipping(some, all[..n]) {
        SkipBag(some, all[..n]);
      } else {
        SkipBag(some[..|some| - 1], all[..n]);
        assert some == some[..|some| - 1] + [all[n]];
      }
    }
  }

  /** Listing only the directories does not change what round two deletes. */
  lemma {:induction false} OnlyDirsPost(parent: nat, es: seq<Entry>)
    ensures PostOrder(parent, OnlyDirs(es)) == PostOrder(parent, es)
  {
    if es != [] {
      var rest, e := es[..|es| - 1], es[|es| - 1];
      OnlyDirsPost(parent, rest);
      if e.node.Dir? {
        PostSnoc(parent, OnlyDirs(rest), e);
      } else {
        assert OnlyDirs(es) == OnlyDirs(rest) && PostOrder(parent, es) == PostOrder(parent, rest);
      }
    }
  }

  lemma PostSnoc(parent: nat, es: seq<Entry>, e: Entry)
    ensures PostOrder(parent, es + [e]) == PostOrder(parent, es) + EntryPost(parent, e)
    ensures Size(es + [e]) == Size(es) + 1 + NodeSize(e.node)
  {
    hide EntryPost, NodeSize;
    assert (es + [e])[..|es|] == es;
  }

  lemma FormedSnoc(es: seq<Entry>, e: Entry)
    requires WellFormed(es) && AllBefore(es, e.name) && e.name != "" && NoSep(e.name) && NodeWellFormed(e.node)
    ensures WellFormed(es + [e])
  {
    hide NoSep, NodeWellFormed, Less;
  }

  lemma {:induction false} OnlyDirsFormed(es: seq<Entry>)
    requires WellFormed(es)
    ensures WellFormed(OnlyDirs(es)) && Size(OnlyDirs(es)) <= Size(es)
    ensures AllDirs(OnlyDirs(es))
  {
    hide NoSep, NodeWellFormed, PostOrder, CleanFiles, Less, NodeSize;
    if es != [] {
      var rest, e := es[..|es| - 1], es[|es| - 1];
      assert WellFormed(rest) && AllBefore(rest, e.name);
      OnlyDirsFormed(rest);
      CleanBefore(rest, e.name);
      if e.node.Dir? {
        PostSnoc(0, OnlyDirs(rest), e);
        FormedSnoc(OnlyDirs(rest), e);
      } else {
        assert OnlyDirs(es) == OnlyDirs(rest);
      }
    }
  }

  ghost predicate AllDirs(es: seq<Entry>) { forall i :: 0 <= i < |es| ==> es[i].node.Dir? }

  /** The first `c` directories have been passed, with `left` left of them; `gone` are the deleted ones. */
  ghost predicate DirsGone(inode: nat, es: seq<Entry>, c: nat, cur: seq<Entry>, left: seq<Entry>, gone: seq<Gone>) {
    && c <= |es| && cur == left + es[c..] && NamesDiffer(cur) && Remains(es, c, left)
    && Skipping(gone, PostOrder(inode, es[..c]))
  }

  lemma NoFiles(parent: nat)
    ensures OwnFiles(parent, []) == multiset{} && OnlyDirs([]) == []
    ensures DirFiles([]) == multiset{} && CleanFiles([]) == []
  {
  }
}
