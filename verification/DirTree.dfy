/**
A directory tree as the lifecycle scanner sees it: directories listed in name order and read in pages.
*/
module DirTree {

  datatype Node = File(inode: nat) | Dir(inode: nat, entries: seq<Entry>)

  datatype Entry = Entry(name: string, node: Node)

  /** A file as it is sent to the file channel. */
  datatype Sent = Sent(path: string, inode: nat)

  const TRASH := ".Trash"
  const SEP := '/'

  // ---------------------------------------------------------------- names and paths

  /** Byte order of names. */
  predicate Less(a: string, b: string) {
    if b == "" then false
    else if a == "" then true
    else a[0] < b[0] || (a[0] == b[0] && Less(a[1..], b[1..]))
  }

  lemma {:induction false} NotLess(a: string)
    ensures !Less(a, a)
  {
    if a != "" {
      NotLess(a[1..]);
    }
  }

  /** The order of names: a prefix comes first, and else the first character that differs decides. */
  lemma {:induction false} LessIs(a: string, b: string)
    ensures Less(a, b) <==>
              exists k :: 0 <= k <= |a| && k < |b| && a[..k] == b[..k] && (k < |a| ==> a[k] < b[k])
  {
    if a != "" && b != "" && a[0] == b[0] {
      LessIs(a[1..], b[1..]);
      if Less(a, b) {
        var k :| && 0 <= k <= |a| - 1 && k < |b| - 1 && a[1..][..k] == b[1..][..k]
                 && (k < |a| - 1 ==> a[1..][k] < b[1..][k]);
        assert a[..k + 1] == [a[0]] + a[1..][..k] && b[..k + 1] == [b[0]] + b[1..][..k];
      } else {
        forall k | 0 <= k <= |a| && k < |b| && a[..k] == b[..k] ensures k < |a| && a[k] >= b[k] {
          if k > 0 {
            assert a[1..][..k - 1] == a[..k][1..] && b[1..][..k - 1] == b[..k][1..];
          }
        }
      }
    } else {
      assert a[..0] == b[..0];
    }
  }

  predicate NoSep(name: string) { forall k :: 0 <= k < |name| ==> name[k] != SEP }

  function TrimSep(path: string): string { if path != "" && path[0] == SEP then path[1..] else path }

  /** The path of an entry of the directory at `path`. */
  function Child(path: string, name: string): string { TrimSep(path + [SEP] + name) }

  /** What the paths of everything below a directory begin with. */
  function Base(path: string): string { if path == "" then "" else path + [SEP] }

  predicate Relative(path: string) { path != "" ==> path[0] != SEP }

  lemma ChildIs(path: string, name: string)
    requires Relative(path) && name != "" && NoSep(name)
    ensures Child(path, name) == Base(path) + name
    ensures Child(path, name) != "" && Relative(Child(path, name))
    ensures Base(Child(path, name)) == Base(path) + name + [SEP]
  {
  }

  // ---------------------------------------------------------------- directories

  ghost predicate Sorted(es: seq<Entry>) { forall i, j :: 0 <= i < j < |es| ==> Less(es[i].name, es[j].name) }

  ghost predicate NodeWellFormed(node: Node) { node.Dir? ==> WellFormed(node.entries) }

  /** Entries are in name order, all the way down, and names are non-empty and hold no separator. */
  ghost predicate WellFormed(es: seq<Entry>) {
    && Sorted(es)
    && forall i :: 0 <= i < |es| ==> es[i].name != "" && NoSep(es[i].name) && NodeWellFormed(es[i].node)
  }

  /** The number of entries at any depth. */
  function Size(es: seq<Entry>): nat {
    if es == [] then 0 else Size(es[..|es| - 1]) + 1 + NodeSize(es[|es| - 1].node)
  }

  function NodeSize(node: Node): nat { if node.Dir? then Size(node.entries) else 0 }

  lemma {:induction false} EntrySmaller(es: seq<Entry>, i: nat)
    requires i < |es|
    ensures NodeSize(es[i].node) < Size(es)
  {
    if i < |es| - 1 {
      EntrySmaller(es[..|es| - 1], i);
    }
  }

  lemma {:induction false} SizeAppend(a: seq<Entry>, b: seq<Entry>)
    ensures Size(a + b) == Size(a) + Size(b)
  {
    if b == [] {
      assert a + b == a;
    } else {
      SizeAppend(a, b[..|b| - 1]);
      assert (a + b)[..|a + b| - 1] == a + b[..|b| - 1];
    }
  }

  lemma SizeTo(es: seq<Entry>, k: nat)
    requires k < |es|
    ensures Size(es[..k + 1]) == Size(es[..k]) + 1 + NodeSize(es[k].node)
  {
    assert es[..k + 1][..k] == es[..k];
  }

  // ---------------------------------------------------------------- pages

  /** The number of leading entries before the marker. */
  function Before(es: seq<Entry>, marker: string): (n: nat)
    ensures n <= |es|
  {
    if es != [] && Less(es[0].name, marker) then 1 + Before(es[1..], marker) else 0
  }

  /** readDirLimit: at most `limit` entries from the marker on. */
  function ReadDirLimit(es: seq<Entry>, marker: string, limit: nat): seq<Entry> {
    var from := Before(es, marker);
    es[from..if from + limit <= |es| then from + limit else |es|]
  }

  lemma BeforeNothing(es: seq<Entry>)
    ensures Before(es, "") == 0
  {
  }

  /** The marker of a page is found again at its place. */
  lemma {:induction false} BeforeMarker(es: seq<Entry>, c: nat)
    requires Sorted(es) && c < |es|
    ensures Before(es, es[c].name) == c
  {
    if c == 0 {
      NotLess(es[0].name);
    } else {
      BeforeMarker(es[1..], c - 1);
    }
  }

  /** The end of a turn of a paging loop: a short page is the last, and otherwise its last name is the next marker. */
  method Advance(children: seq<Entry>, marker: string, limit: nat) returns (done: bool, next: string)
    requires limit >= 2
    ensures done == (|children| + (if marker == "" then 0 else 1) < limit)
    ensures !done ==> |children| > 0 && next == children[|children| - 1].name
    ensures done ==> next == marker
  {
    var childrenNr := |children|;
    if (marker == "" && childrenNr < limit) || (marker != "" && childrenNr + 1 < limit) {
      done, next := true, marker;
    } else {
      done, next := false, children[childrenNr - 1].name;
    }
  }

  // ---------------------------------------------------------------- the files below a directory

  function Below(e: Entry, path: string): multiset<Sent> {
    match e.node
    case File(inode) => multiset{Sent(Child(path, e.name), inode)}
    case Dir(_, es) => if e.name == TRASH then multiset{} else Listed(es, Child(path, e.name))
  }

  /** Every file below the directory at `path` that is not in a trash directory, with its path. */
  function Listed(es: seq<Entry>, path: string): multiset<Sent> {
    if es == [] then multiset{} else Listed(es[..|es| - 1], path) + Below(es[|es| - 1], path)
  }

  /** Independently: the components lead from the directory to the file. */
  ghost predicate Resolves(es: seq<Entry>, cs: seq<string>, inode: nat)
    decreases |cs|, 0
  {
    cs != [] && exists i :: 0 <= i < |es| && es[i].name == cs[0] && Leads(es[i].node, cs[1..], inode)
  }

  ghost predicate Leads(node: Node, cs: seq<string>, inode: nat)
    decreases |cs|, 1
  {
    if cs == [] then node == File(inode) else node.Dir? && Resolves(node.entries, cs, inode)
  }

  /** No directory on the way is a trash directory. */
  predicate NoTrash(cs: seq<string>) { forall i :: 0 <= i < |cs| - 1 ==> cs[i] != TRASH }

  function PathTo(path: string, cs: seq<string>): string
    decreases |cs|
  {
    if cs == [] then path else PathTo(Child(path, cs[0]), cs[1..])
  }

  // ---------------------------------------------------------------- every such file is listed, nothing else is

  lemma {:induction false} ListedEntry(es: seq<Entry>, path: string, i: nat)
    requires i < |es|
    ensures Below(es[i], path) <= Listed(es, path)
  {
    if i < |es| - 1 {
      ListedEntry(es[..|es| - 1], path, i);
    }
  }

  lemma {:induction false} ListedAll(es: seq<Entry>, path: string, cs: seq<string>, inode: nat)
    requires Resolves(es, cs, inode) && NoTrash(cs)
    ensures Sent(PathTo(path, cs), inode) in Listed(es, path)
    decreases |cs|
  {
    var i :| 0 <= i < |es| && es[i].name == cs[0] && Leads(es[i].node, cs[1..], inode);
    ListedEntry(es, path, i);
    if |cs| > 1 {
      assert NoTrash(cs[1..]) by {
        assert forall k :: 0 <= k < |cs| - 2 ==> cs[1..][k] == cs[k + 1];
      }
      ListedAll(es[i].node.entries, Child(path, cs[0]), cs[1..], inode);
    }
  }

  /** The components that lead to a listed file. */
  lemma {:induction false} ListedOnly(es: seq<Entry>, path: string, d: Sent) returns (cs: seq<string>)
    requires d in Listed(es, path)
    ensures Resolves(es, cs, d.inode) && NoTrash(cs) && PathTo(path, cs) == d.path
    decreases Size(es), 1
  {
    var n := |es| - 1;
    if d in Below(es[n], path) {
      cs := BelowOnly(es, path, n, d);
    } else {
      cs := ListedOnly(es[..n], path, d);
    }
  }

  lemma {:induction false} BelowOnly(es: seq<Entry>, path: string, i: nat, d: Sent) returns (cs: seq<string>)
    requires i < |es| && d in Below(es[i], path)
    ensures Resolves(es, cs, d.inode) && NoTrash(cs) && PathTo(path, cs) == d.path
    decreases Size(es), 0
  {
    var e := es[i];
    if e.node.File? {
      cs := [e.name];
      assert PathTo(Child(path, e.name), []) == d.path;
    } else {
      EntrySmaller(es, i);
      var rest := ListedOnly(e.node.entries, Child(path, e.name), d);
      cs := [e.name] + rest;
      assert cs[1..] == rest;
      assert forall k :: 0 < k < |cs| ==> cs[k] == rest[k - 1];
    }
  }

  // ---------------------------------------------------------------- and it is listed once

  /** `path` lies at or below the entry `name` of the directory at `base`. */
  ghost predicate Under(path: string, base: string, name: string) {
    || path == Base(base) + name
    || Base(base) + name + [SEP] <= path
  }

  lemma UnderOne(path: string, base: string, name: string, other: string)
    requires Under(path, base, name) && Under(path, base, other) && NoSep(name) && NoSep(other)
    ensures name == other
  {
    var k := |Base(base)|;
    assert path[..k] == Base(base);
    SameName(path[k..], name, other);
  }

  lemma SameName(rest: string, name: string, other: string)
    requires rest == name || name + [SEP] <= rest
    requires rest == other || other + [SEP] <= rest
    requires NoSep(name) && NoSep(other)
    ensures name == other
  {
    assert rest[..|name|] == name && rest[..|other|] == other;
    assert forall k :: 0 <= k < |name| ==> rest[k] == name[k];
    assert forall k :: 0 <= k < |other| ==> rest[k] == other[k];
    assert |name| < |rest| ==> rest[|name|] == SEP;
    assert |other| < |rest| ==> rest[|other|] == SEP;
  }

  /** Every path listed below a directory lies under one of its entries. */
  lemma {:induction false} ListedUnder(es: seq<Entry>, path: string, d: Sent) returns (i: nat)
    requires WellFormed(es) && Relative(path) && d in Listed(es, path)
    ensures i < |es| && d in Below(es[i], path) && Under(d.path, path, es[i].name)
    decreases Size(es), 1
  {
    var n := |es| - 1;
    if d in Below(es[n], path) {
      BelowUnder(es, path, n, d);
      i := n;
    } else {
      i := ListedUnder(es[..n], path, d);
    }
  }

  lemma {:induction false} BelowUnder(es: seq<Entry>, path: string, i: nat, d: Sent)
    requires WellFormed(es) && Relative(path) && i < |es| && d in Below(es[i], path)
    ensures Under(d.path, path, es[i].name)
    decreases Size(es), 0
  {
    var e := es[i];
    ChildIs(path, e.name);
    if e.node.Dir? {
      EntrySmaller(es, i);
      var k := ListedUnder(e.node.entries, Child(path, e.name), d);
      assert Base(path) + e.name + [SEP] <= Base(Child(path, e.name)) + e.node.entries[k].name;
    }
  }

  lemma {:induction false} ListedOnce(es: seq<Entry>, path: string, d: Sent)
    requires WellFormed(es) && Relative(path)
    ensures Listed(es, path)[d] <= 1
    decreases Size(es)
  {
    if es != [] {
      var n := |es| - 1;
      ListedOnce(es[..n], path, d);
      BelowOnce(es, path, n, d);
      if d in Listed(es[..n], path) && d in Below(es[n], path) {
        var i := ListedUnder(es[..n], path, d);
        BelowUnder(es, path, n, d);
        UnderOne(d.path, path, es[i].name, es[n].name);
        NotLess(es[n].name);
        assert false;
      }
    }
  }

  lemma {:induction false} BelowOnce(es: seq<Entry>, path: string, i: nat, d: Sent)
    requires WellFormed(es) && Relative(path) && i < |es|
    ensures Below(es[i], path)[d] <= 1
    decreases Size(es), 0
  {
    if es[i].node.Dir? {
      ChildIs(path, es[i].name);
      EntrySmaller(es, i);
      ListedOnce(es[i].node.entries, Child(path, es[i].name), d);
    }
  }

  /**
  The listing against path resolution: a file is listed exactly once, under the path its names spell, if they lead to it
  without passing a trash directory, and not at all otherwise.
  */
  lemma ListedExactly(es: seq<Entry>, path: string, d: Sent)
    requires WellFormed(es) && Relative(path)
    ensures Listed(es, path)[d]
         == if exists cs :: Resolves(es, cs, d.inode) && NoTrash(cs) && PathTo(path, cs) == d.path then 1 else 0
  {
    ListedOnce(es, path, d);
    if d in Listed(es, path) {
      var cs := ListedOnly(es, path, d);
    } else if exists cs :: Resolves(es, cs, d.inode) && NoTrash(cs) && PathTo(path, cs) == d.path {
      var cs :| Resolves(es, cs, d.inode) && NoTrash(cs) && PathTo(path, cs) == d.path;
      ListedAll(es, path, cs, d.inode);
    }
  }
}
