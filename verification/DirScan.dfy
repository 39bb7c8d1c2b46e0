/**
The lifecycle scanner: a paged traversal that handles each directory depth first or breadth first, whichever the state
of the directory channel suggests at that moment.
*/
module DirScan {
  import opened Bags
  import opened DirTree

  /** A directory waiting to be handled. The first one has no name. */
  datatype Dentry = Dentry(name: string, path: string, entries: seq<Entry>)

  /** The files the scanner has to find below a directory. */
  function Expect(d: Dentry): multiset<Sent> {
    if d.name == TRASH then multiset{} else Listed(d.entries, d.path)
  }

  function Pending(ds: seq<Dentry>): multiset<Sent> {
    if ds == [] then multiset{} else Pending(ds[..|ds| - 1]) + Expect(ds[|ds| - 1])
  }

  /** What is left to do: an upper bound on the directories still to be handled. */
  function Weight(ds: seq<Dentry>): nat {
    if ds == [] then 0 else Weight(ds[..|ds| - 1]) + 1 + Size(ds[|ds| - 1].entries)
  }

  ghost predicate AllWellFormed(ds: seq<Dentry>) { forall k :: 0 <= k < |ds| ==> WellFormed(ds[k].entries) }

  // ---------------------------------------------------------------- appending

  lemma OneMoreFile(files: seq<Sent>, file: Sent, rest: multiset<Sent>)
    ensures multiset(files + [file]) + rest == (multiset(files) + rest) + multiset{file}
  {
  }

  /** Handling one waiting directory moves what it stands for to the files. */
  lemma OneLessWaiting(files: multiset<Sent>, rest: multiset<Sent>, lost: multiset<Sent>, one: multiset<Sent>,
                       files': multiset<Sent>, rest': multiset<Sent>, lost': multiset<Sent>)
    requires || (files' + lost' == (files + lost) + one && rest' == rest)
             || files' + rest' + lost' == (files + rest + lost) + one
    ensures files' + rest' + lost' == files + (rest + one) + lost
  {
    if files' + lost' == (files + lost) + one && rest' == rest {
      assert files' + rest' + lost' == (files' + lost') + rest;
    }
  }

  lemma ListedSnoc(es: seq<Entry>, e: Entry, path: string)
    ensures Listed(es + [e], path) == Listed(es, path) + Below(e, path)
  {
    hide Below;
    assert (es + [e])[..|es|] == es;
  }

  lemma OneMoreListed(a: seq<Entry>, b: seq<Entry>, e: Entry, path: string)
    requires Listed(a + b, path) == Listed(a, path) + Listed(b, path)
    ensures Listed(a + (b + [e]), path) == Listed(a, path) + Listed(b + [e], path)
  {
    hide Below, Listed;
    ListedSnoc(b, e, path);
    ListedSnoc(a + b, e, path);
    assert a + b + [e] == a + (b + [e]);
    Associative(Listed(a, path), Listed(b, path), Below(e, path));
  }

  lemma {:induction false} ListedAppend(a: seq<Entry>, b: seq<Entry>, path: string)
    ensures Listed(a + b, path) == Listed(a, path) + Listed(b, path)
  {
    hide Below;
    if b == [] {
      assert a + b == a;
    } else {
      var rest, last := b[..|b| - 1], b[|b| - 1];
      ListedAppend(a, rest, path);
      OneMoreListed(a, rest, last, path);
      assert rest + [last] == b;
    }
  }

  lemma {:induction false} PendingAppend(a: seq<Dentry>, b: seq<Dentry>)
    ensures Pending(a + b) == Pending(a) + Pending(b) && Weight(a + b) == Weight(a) + Weight(b)
  {
    hide Expect, Size;
    if b == [] {
      assert a + b == a;
    } else {
      PendingAppend(a, b[..|b| - 1]);
      assert (a + b)[..|a + b| - 1] == a + b[..|b| - 1];
    }
  }

  lemma PendingSnoc(ds: seq<Dentry>, d: Dentry)
    ensures Pending(ds + [d]) == Pending(ds) + Expect(d) && Weight(ds + [d]) == Weight(ds) + 1 + Size(d.entries)
  {
    hide Expect, Size;
    assert (ds + [d])[..|ds|] == ds;
  }

  lemma PendingTo(ds: seq<Dentry>, k: nat)
    requires k < |ds|
    ensures Pending(ds[..k + 1]) == Pending(ds[..k]) + Expect(ds[k])
  {
    assert ds[..k + 1] == ds[..k] + [ds[k]];
    PendingSnoc(ds[..k], ds[k]);
  }

  lemma ListedTo(es: seq<Entry>, k: nat, path: string)
    requires k < |es|
    ensures Listed(es[..k + 1], path) == Listed(es[..k], path) + Below(es[k], path)
  {
    assert es[..k + 1][..k] == es[..k];
  }

  lemma PendingWithout(ds: seq<Dentry>, k: nat)
    requires k < |ds|
    ensures Pending(ds) == Pending(ds[..k] + ds[k + 1..]) + Expect(ds[k])
    ensures Weight(ds) == Weight(ds[..k] + ds[k + 1..]) + 1 + Size(ds[k].entries)
  {
    hide Expect, Size, Pending, Weight;
    assert ds == ds[..k] + [ds[k]] + ds[k + 1..];
    PendingSnoc(ds[..k], ds[k]);
    PendingAppend(ds[..k] + [ds[k]], ds[k + 1..]);
    PendingAppend(ds[..k], ds[k + 1..]);
    Swapped(Pending(ds[..k]), Expect(ds[k]), Pending(ds[k + 1..]));
  }

  // ---------------------------------------------------------------- pages

  /** The marker after the first `c` entries. */
  ghost predicate AtMarker(es: seq<Entry>, marker: string, c: nat) {
    c <= |es| && marker == if c == 0 then "" else es[c - 1].name
  }

  /** Where the page after the first `c` entries ends. */
  function PageEnd(n: nat, c: nat, limit: nat): nat {
    var end := (if c == 0 then 0 else c - 1) + limit;
    if end <= n then end else n
  }

  /** Reading from the marker and dropping the entry that was the marker gives the next entries, and no gap. */
  method NextPage(es: seq<Entry>, marker: string, limit: nat, ghost c: nat) returns (children: seq<Entry>)
    requires WellFormed(es) && limit >= 2 && AtMarker(es, marker, c)
    ensures c <= PageEnd(|es|, c, limit) && children == es[c..PageEnd(|es|, c, limit)]
    ensures c + |children| <= |es| && children == es[c..c + |children|]
  {
    MarkerPlace(es, marker, c);
    children := ReadDirLimit(es, marker, limit);
    if marker != "" {
      if |children| >= 1 && marker == children[0].name {
        if |children| <= 1 {
          return [];
        } else {
          children := children[1..];
        }
      }
    }
  }

  lemma FirstMarker(es: seq<Entry>)
    ensures AtMarker(es, "", 0)
  {
  }

  /** Unless a page is short, and then it was the last, the next marker is the last entry read. */
  lemma MarkerAdvances(es: seq<Entry>, marker: string, limit: nat, c: nat, children: seq<Entry>, done: bool,
                       next: string)
    requires WellFormed(es) && limit >= 2 && AtMarker(es, marker, c)
    requires c <= PageEnd(|es|, c, limit) && children == es[c..PageEnd(|es|, c, limit)]
    requires done == (|children| + (if marker == "" then 0 else 1) < limit)
    requires !done ==> |children| > 0 && next == children[|children| - 1].name
    ensures c + |children| <= |es| && children == es[c..c + |children|]
    ensures if done then c + |children| == |es| else |children| > 0 && AtMarker(es, next, c + |children|)
  {
    MarkerPlace(es, marker, c);
  }

  lemma MarkerPlace(es: seq<Entry>, marker: string, c: nat)
    requires WellFormed(es) && AtMarker(es, marker, c)
    ensures Before(es, marker) == if c == 0 then 0 else c - 1
    ensures marker == "" <==> c == 0
  {
    if c == 0 {
      BeforeNothing(es);
    } else {
      BeforeMarker(es, c - 1);
    }
  }

  class LcScanner {
    const limit: nat

    /** Whether no call to the metadata service fails. */
    const reachable: bool

    var fileChan: seq<Sent>
    var dirChan: seq<Dentry>
    var readErrors: nat

    /** The files that were not reached because a directory could not be read. */
    ghost var lost: multiset<Sent>

    constructor (limit: nat, reachable: bool)
      ensures this.limit == limit && this.reachable == reachable
      ensures fileChan == [] && dirChan == [] && readErrors == 0 && lost == multiset{}
    {
      this.limit, this.reachable := limit, reachable;
      fileChan, dirChan, readErrors, lost := [], [], 0, multiset{};
    }

    /** A page of a directory handled depth first: its files are sent, then its directories handled in turn. */
    method DepthFirstPage(d: Dentry, children: seq<Entry>, ghost c: nat)
      requires limit >= 2 && WellFormed(d.entries) && c + |children| <= |d.entries|
      requires children == d.entries[c..c + |children|]
      modifies `fileChan, `readErrors, `lost
      ensures multiset(fileChan) + lost == old(multiset(fileChan) + lost) + Listed(children, d.path)
      ensures readErrors >= old(readErrors) && (readErrors == old(readErrors) ==> lost == old(lost))
      ensures reachable ==> readErrors == old(readErrors)
      decreases Size(d.entries), 0
    {
      hide Listed, Pending, Size, Expect, WellFormed;
      var files, dirs := SplitPage(d, children, c);
      fileChan := fileChan + files;
      NothingPending(d.path);
      var k := 0;
      while k < |dirs|
        invariant k <= |dirs|
        invariant multiset(fileChan) + lost == old(multiset(fileChan) + lost) + multiset(files) + Pending(dirs[..k])
        invariant readErrors >= old(readErrors) && (readErrors == old(readErrors) ==> lost == old(lost))
        invariant reachable ==> readErrors == old(readErrors)
      {
        PendingTo(dirs, k);
        DepthFirst(dirs[k]);
        k := k + 1;
      }
      assert dirs[..k] == dirs;
    }

    /** handleDirLimitDepthFirst. */
    method DepthFirst(d: Dentry)
      requires limit >= 2 && WellFormed(d.entries)
      modifies `fileChan, `readErrors, `lost
      ensures multiset(fileChan) + lost == old(multiset(fileChan) + lost) + Expect(d)
      ensures readErrors >= old(readErrors) && (readErrors == old(readErrors) ==> lost == old(lost))
      ensures reachable ==> readErrors == old(readErrors)
      decreases Size(d.entries), 1
    {
      hide Listed, Size, WellFormed, PageEnd, AtMarker;
      if d.name == TRASH {
        return;
      }
      var marker, done := "", false;
      ghost var c := 0;
      FirstMarker(d.entries);
      NothingPending(d.path);
      while !done
        invariant c <= |d.entries| && if done then c == |d.entries| else AtMarker(d.entries, marker, c)
        invariant multiset(fileChan) + lost == old(multiset(fileChan) + lost) + Listed(d.entries[..c], d.path)
        invariant readErrors >= old(readErrors) && (readErrors == old(readErrors) ==> lost == old(lost))
        invariant reachable ==> readErrors == old(readErrors)
        decreases |d.entries| - c, !done
      {
        var failed: bool := *;
        if failed && !reachable {
          readErrors := readErrors + 1;
          RestListed(d, c, |d.entries|);
          Associative(multiset(fileChan), lost, Listed(d.entries[c..], d.path));
          lost := lost + Listed(d.entries[c..], d.path);
          return;
        }
        var children := NextPage(d.entries, marker, limit, c);
        DepthFirstPage(d, children, c);
        RestListed(d, c, c + |children|);
        ghost var before := marker;
        done, marker := Advance(children, marker, limit);
        MarkerAdvances(d.entries, before, limit, c, children, done, marker);
        c := c + |children|;
      }
      assert d.entries[..c] == d.entries;
    }

    /** A page of a directory handled breadth first: files and directories go to their channels as they come. */
    method BreadthFirstPage(d: Dentry, children: seq<Entry>, ghost c: nat)
      requires WellFormed(d.entries) && c + |children| <= |d.entries| && children == d.entries[c..c + |children|]
      requires AllWellFormed(dirChan)
      modifies `fileChan, `dirChan
      ensures AllWellFormed(dirChan) && Weight(dirChan) <= old(Weight(dirChan)) + Size(children)
      ensures multiset(fileChan) + Pending(dirChan)
           == old(multiset(fileChan) + Pending(dirChan)) + Listed(children, d.path)
    {
      hide Listed, Pending, Weight, Size, Expect, Sorted, NoSep, Child;
      NothingPending(d.path);
      for i := 0 to |children|
        invariant AllWellFormed(dirChan) && Weight(dirChan) <= old(Weight(dirChan)) + Size(children[..i])
        invariant multiset(fileChan) + Pending(dirChan)
               == old(multiset(fileChan) + Pending(dirChan)) + Listed(children[..i], d.path)
      {
        var child := children[i];
        assert child == d.entries[c + i];
        ListedTo(children, i, d.path);
        SizeTo(children, i);
        Associative(old(multiset(fileChan) + Pending(dirChan)), Listed(children[..i], d.path), Below(child, d.path));
        match child.node
        case File(inode) =>
          OneMoreFile(fileChan, Sent(Child(d.path, child.name), inode), Pending(dirChan));
          fileChan := fileChan + [Sent(Child(d.path, child.name), inode)];
        case Dir(_, es) =>
          var dir := Dentry(child.name, Child(d.path, child.name), es);
          PendingSnoc(dirChan, dir);
          SameExpect(child, d.path);
          Associative(multiset(fileChan), Pending(dirChan), Expect(dir));
          dirChan := dirChan + [dir];
      }
      assert children[..|children|] == children;
    }

    /** handleDirLimitBreadthFirst. */
    method BreadthFirst(d: Dentry)
      requires limit >= 2 && WellFormed(d.entries) && AllWellFormed(dirChan)
      modifies `fileChan, `dirChan, `readErrors, `lost
      ensures AllWellFormed(dirChan) && Weight(dirChan) <= old(Weight(dirChan)) + Size(d.entries)
      ensures multiset(fileChan) + Pending(dirChan) + lost
           == old(multiset(fileChan) + Pending(dirChan) + lost) + Expect(d)
      ensures readErrors >= old(readErrors) && (readErrors == old(readErrors) ==> lost == old(lost))
      ensures reachable ==> readErrors == old(readErrors)
    {
      hide Listed, Pending, Weight, Size, WellFormed, PageEnd, AtMarker, AllWellFormed;
      if d.name == TRASH {
        return;
      }
      var marker, done := "", false;
      ghost var c := 0;
      FirstMarker(d.entries);
      NothingPending(d.path);
      while !done
        invariant c <= |d.entries| && if done then c == |d.entries| else AtMarker(d.entries, marker, c)
        invariant AllWellFormed(dirChan) && Weight(dirChan) <= old(Weight(dirChan)) + Size(d.entries[..c])
        invariant multiset(fileChan) + Pending(dirChan)
               == old(multiset(fileChan) + Pending(dirChan)) + Listed(d.entries[..c], d.path)
        invariant readErrors == old(readErrors) && lost == old(lost)
        decreases |d.entries| - c, !done
      {
        var failed: bool := *;
        if failed && !reachable {
          readErrors := readErrors + 1;
          RestListed(d, c, |d.entries|);
          RestSize(d.entries, c, |d.entries|);
          lost := lost + Listed(d.entries[c..], d.path);
          return;
        }
        var children := NextPage(d.entries, marker, limit, c);
        BreadthFirstPage(d, children, c);
        RestListed(d, c, c + |children|);
        RestSize(d.entries, c, c + |children|);
        ghost var before := marker;
        done, marker := Advance(children, marker, limit);
        MarkerAdvances(d.entries, before, limit, c, children, done, marker);
        c := c + |children|;
      }
      assert d.entries[..c] == d.entries;
    }

    /** handleDirChan: takes waiting directories, in any order, and handles each in one of the two ways. */
    method HandleDirChan()
      requires limit >= 2 && AllWellFormed(dirChan)
      modifies `fileChan, `dirChan, `readErrors, `lost
      ensures dirChan == []
      ensures multiset(fileChan) + lost == old(multiset(fileChan) + Pending(dirChan) + lost)
      ensures readErrors >= old(readErrors) && (readErrors == old(readErrors) ==> lost == old(lost))
      ensures reachable ==> readErrors == old(readErrors)
    {
      hide Pending, Weight, Size, Expect;
      NothingPending("");
      while dirChan != []
        invariant AllWellFormed(dirChan)
        invariant multiset(fileChan) + Pending(dirChan) + lost == old(multiset(fileChan) + Pending(dirChan) + lost)
        invariant readErrors >= old(readErrors) && (readErrors == old(readErrors) ==> lost == old(lost))
        invariant reachable ==> readErrors == old(readErrors)
        decreases Weight(dirChan)
      {
        var k :| 0 <= k < |dirChan|;
        var dentry := dirChan[k];
        PendingWithout(dirChan, k);
        dirChan := dirChan[..k] + dirChan[k + 1..];
        ghost var files, rest, gone := multiset(fileChan), Pending(dirChan), lost;
        var crowded: bool := *;
        if crowded {
          DepthFirst(dentry);
        } else {
          BreadthFirst(dentry);
        }
        OneLessWaiting(files, rest, gone, Expect(dentry), multiset(fileChan), Pending(dirChan), lost);
      }
    }

    /**
    A whole scan of the directory at `path`: every file below it that is not in a trash directory is sent exactly once,
    whatever way each directory is handled, unless a directory could not be read.
    */
    method Scan(path: string, entries: seq<Entry>)
      requires limit >= 2 && WellFormed(entries) && fileChan == [] && dirChan == [] && lost == multiset{}
      modifies `fileChan, `dirChan, `readErrors, `lost
      ensures multiset(fileChan) + lost == Listed(entries, path)
      ensures readErrors == old(readErrors) ==> multiset(fileChan) == Listed(entries, path)
      ensures reachable ==> readErrors == old(readErrors)
    {
      var first := Dentry("", path, entries);
      dirChan := dirChan + [first];
      PendingSnoc([], first);
      NothingPending(path);
      HandleDirChan();
    }
  }

  /** The files and the directories of a page. */
  method SplitPage(d: Dentry, children: seq<Entry>, ghost c: nat) returns (files: seq<Sent>, dirs: seq<Dentry>)
    requires WellFormed(d.entries) && c + |children| <= |d.entries| && children == d.entries[c..c + |children|]
    ensures multiset(files) + Pending(dirs) == Listed(children, d.path)
    ensures AllSmaller(d, dirs)
  {
    hide Listed, Pending, Size, Expect, Sorted, NoSep, Child;
    files, dirs := [], [];
    NothingPending(d.path);
    for i := 0 to |children|
      invariant multiset(files) + Pending(dirs) == Listed(children[..i], d.path)
      invariant AllSmaller(d, dirs)
    {
      var child := children[i];
      assert child == d.entries[c + i];
      ListedTo(children, i, d.path);
      match child.node
      case File(inode) =>
        files := files + [Sent(Child(d.path, child.name), inode)];
      case Dir(_, es) =>
        var dir := Dentry(child.name, Child(d.path, child.name), es);
        EntrySmaller(d.entries, c + i);
        PendingSnoc(dirs, dir);
        SameExpect(child, d.path);
        dirs := dirs + [dir];
    }
    assert children[..|children|] == children;
  }

  ghost predicate AllSmaller(d: Dentry, dirs: seq<Dentry>) {
    forall k :: 0 <= k < |dirs| ==> WellFormed(dirs[k].entries) && Size(dirs[k].entries) < Size(d.entries)
  }

  lemma NothingPending(path: string)
    ensures Pending([]) == multiset{} && Listed([], path) == multiset{}
  {
  }

  lemma SameExpect(e: Entry, path: string)
    requires e.node.Dir?
    ensures Expect(Dentry(e.name, Child(path, e.name), e.node.entries)) == Below(e, path)
  {
  }

  lemma RestSize(es: seq<Entry>, c: nat, e: nat)
    requires c <= e <= |es|
    ensures Size(es[..e]) == Size(es[..c]) + Size(es[c..e]) && es[..|es|] == es
  {
    assert es[..e] == es[..c] + es[c..e];
    SizeAppend(es[..c], es[c..e]);
  }

  /** The entries from `c` to `e` add what they list. */
  lemma RestListed(d: Dentry, c: nat, e: nat)
    requires c <= e <= |d.entries|
    ensures Listed(d.entries[..e], d.path) == Listed(d.entries[..c], d.path) + Listed(d.entries[c..e], d.path)
    ensures d.entries[c..] == d.entries[c..|d.entries|] && d.entries[..|d.entries|] == d.entries
  {
    assert d.entries[..e] == d.entries[..c] + d.entries[c..e];
    ListedAppend(d.entries[..c], d.entries[c..e], d.path);
  }
}
