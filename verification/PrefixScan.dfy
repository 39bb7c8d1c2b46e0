/**
A lifecycle rule with a prefix: the scan starts at the deepest directory the prefix names, and files are filtered by
prefix. It handles what a scan of the whole volume would.
*/
module PrefixScan {
  import opened DirTree
  import opened DirScan

  datatype Option<T> = Some(value: T) | None

  // ---------------------------------------------------------------- splitting a prefix

  /** The place of the first separator, or the length. */
  function SepAt(s: string): (k: nat)
    ensures k <= |s| && NoSep(s[..k]) && (k < |s| ==> s[k] == SEP)
  {
    if s == "" || s[0] == SEP then 0
    else
      var k := SepAt(s[1..]);
      assert s[..k + 1] == [s[0]] + s[1..][..k];
      k + 1
  }

  function Split(s: string): seq<string> {
    var k := SepAt(s);
    if k == |s| then [s] else [s[..k]] + Split(s[k + 1..])
  }

  function Join(parts: seq<string>): string {
    if parts == [] then "" else if |parts| == 1 then parts[0] else parts[0] + [SEP] + Join(parts[1..])
  }

  ghost predicate NoSeps(parts: seq<string>) { forall i :: 0 <= i < |parts| ==> NoSep(parts[i]) }

  lemma JoinCons(part: string, parts: seq<string>)
    requires parts != []
    ensures Join([part] + parts) == part + [SEP] + Join(parts)
  {
    assert ([part] + parts)[1..] == parts;
  }

  lemma {:induction false} SplitJoins(s: string)
    ensures Split(s) != [] && Join(Split(s)) == s && NoSeps(Split(s))
    decreases |s|
  {
    hide Join, NoSep;
    var k := SepAt(s);
    if k < |s| {
      SplitJoins(s[k + 1..]);
      JoinCons(s[..k], Split(s[k + 1..]));
      assert s == s[..k] + [SEP] + s[k + 1..];
    } else {
      JoinOne(s);
    }
  }

  lemma JoinOne(s: string)
    ensures Join([s]) == s && s[..|s|] == s
  {
  }

  // ---------------------------------------------------------------- where a prefix leads

  function Lookup(es: seq<Entry>, name: string): Option<Node> {
    if es == [] then None
    else if es[|es| - 1].name == name then Some(es[|es| - 1].node)
    else Lookup(es[..|es| - 1], name)
  }

  /** The directory reached by all components but the last. */
  function StartDir(es: seq<Entry>, parts: seq<string>): Option<seq<Entry>>
    decreases |parts|
  {
    if |parts| <= 1 then Some(es)
    else
      match Lookup(es, parts[0])
      case Some(Dir(_, sub)) => StartDir(sub, parts[1..])
      case _ => None
  }

  /** Some directory the prefix names is a trash directory. */
  predicate TrashOnTheWay(parts: seq<string>) { exists i :: 0 <= i < |parts| - 1 && parts[i] == TRASH }

  lemma {:induction false} LookupFinds(es: seq<Entry>, name: string)
    ensures Lookup(es, name).Some? ==> exists i :: 0 <= i < |es| && es[i] == Entry(name, Lookup(es, name).value)
    ensures Lookup(es, name).None? ==> forall i :: 0 <= i < |es| ==> es[i].name != name
  {
    if es != [] && es[|es| - 1].name != name {
      LookupFinds(es[..|es| - 1], name);
    }
  }

  /** Of the files under one name, exactly what the entry of that name holds is listed. */
  lemma OnlyUnderName(es: seq<Entry>, path: string, i: nat, d: Sent)
    requires WellFormed(es) && Relative(path) && i < |es| && Under(d.path, path, es[i].name)
    ensures Listed(es, path)[d] == Below(es[i], path)[d]
  {
    ListedOnce(es, path, d);
    BelowOnce(es, path, i, d);
    ListedEntry(es, path, i);
    if d in Listed(es, path) {
      var k := ListedUnder(es, path, d);
      UnderOne(d.path, path, es[i].name, es[k].name);
      NotLess(es[i].name);
    }
  }

  lemma NothingUnderName(es: seq<Entry>, path: string, name: string, d: Sent)
    requires WellFormed(es) && Relative(path) && NoSep(name) && Under(d.path, path, name)
    requires forall i :: 0 <= i < |es| ==> es[i].name != name
    ensures d !in Listed(es, path)
  {
    if d in Listed(es, path) {
      var k := ListedUnder(es, path, d);
      UnderOne(d.path, path, name, es[k].name);
    }
  }

  /** How many times a scan from the directory of the prefix sends a file. */
  function SentFrom(es: seq<Entry>, path: string, parts: seq<string>, d: Sent): nat
    requires parts != []
  {
    match StartDir(es, parts)
    case Some(sub) => Listed(sub, PathTo(path, parts[..|parts| - 1]))[d]
    case None => 0
  }

  /** One component of the prefix is passed. */
  lemma FirstComponent(es: seq<Entry>, path: string, parts: seq<string>, d: Sent)
    requires WellFormed(es) && Relative(path) && |parts| > 1 && NoSeps(parts)
    requires Base(path) + Join(parts) <= d.path
    ensures Under(d.path, path, parts[0])
    ensures d.path != Base(path) + parts[0]
    ensures Lookup(es, parts[0]).None? ==> Listed(es, path)[d] == 0
    ensures Lookup(es, parts[0]).Some? ==>
              Listed(es, path)[d] == Below(Entry(parts[0], Lookup(es, parts[0]).value), path)[d]
  {
    assert Base(path) + parts[0] + [SEP] <= Base(path) + Join(parts);
    LookupFinds(es, parts[0]);
    if Lookup(es, parts[0]).Some? {
      var i :| 0 <= i < |es| && es[i] == Entry(parts[0], Lookup(es, parts[0]).value);
      OnlyUnderName(es, path, i, d);
    } else {
      NothingUnderName(es, path, parts[0], d);
    }
  }

  /**
  A file with the prefix is sent by the scan of the whole volume as often as by the scan from the directory of the
  prefix, unless that directory is in a trash directory: then the whole scan does not send it.
  */
  lemma {:induction false} PrefixExact(es: seq<Entry>, path: string, parts: seq<string>, d: Sent)
    requires WellFormed(es) && Relative(path) && parts != [] && NoSeps(parts)
    requires Base(path) + Join(parts) <= d.path
    ensures Listed(es, path)[d] == if TrashOnTheWay(parts) then 0 else SentFrom(es, path, parts, d)
    decreases |parts|
  {
    if |parts| == 1 {
      assert PathTo(path, parts[..0]) == path;
    } else {
      FirstComponent(es, path, parts, d);
      match Lookup(es, parts[0])
      case None =>
      case Some(File(_)) =>
        NotTheFile(es, path, parts[0], d);
      case Some(Dir(inode, sub)) =>
        NextComponent(es, path, parts, sub, inode, d);
    }
  }

  lemma NotTheFile(es: seq<Entry>, path: string, name: string, d: Sent)
    requires WellFormed(es) && Relative(path) && Lookup(es, name).Some? && Lookup(es, name).value.File?
    requires d.path != Base(path) + name
    ensures Below(Entry(name, Lookup(es, name).value), path)[d] == 0
  {
    LookupFinds(es, name);
    ChildIs(path, name);
  }

  lemma {:induction false} NextComponent(es: seq<Entry>, path: string, parts: seq<string>, sub: seq<Entry>,
                                         inode: nat, d: Sent)
    requires WellFormed(es) && Relative(path) && |parts| > 1 && NoSeps(parts)
    requires Base(path) + Join(parts) <= d.path && Lookup(es, parts[0]) == Some(Dir(inode, sub))
    requires Listed(es, path)[d] == Below(Entry(parts[0], Dir(inode, sub)), path)[d]
    ensures Listed(es, path)[d] == if TrashOnTheWay(parts) then 0 else SentFrom(es, path, parts, d)
    decreases |parts|, 0
  {
    hide NoSep, Base, Child, Sorted;
    LookupFinds(es, parts[0]);
    ChildIs(path, parts[0]);
    if parts[0] != TRASH {
      PrefixOfRest(path, parts, d.path);
      PrefixExact(sub, Child(path, parts[0]), parts[1..], d);
      TrashLater(parts);
      assert parts[..|parts| - 1][1..] == parts[1..][..|parts| - 2];
      assert PathTo(path, parts[..|parts| - 1]) == PathTo(Child(path, parts[0]), parts[1..][..|parts| - 2]);
    }
  }

  lemma PrefixOfRest(path: string, parts: seq<string>, file: string)
    requires |parts| > 1 && Base(path) + Join(parts) <= file
    requires Base(Child(path, parts[0])) == Base(path) + parts[0] + [SEP]
    ensures Base(Child(path, parts[0])) + Join(parts[1..]) <= file
  {
    hide Base, Child;
    Grouped(Base(path), parts[0], [SEP], Join(parts[1..]));
  }

  lemma Grouped(a: string, b: string, c: string, d: string)
    ensures a + (b + c + d) == a + b + c + d
  {
  }

  lemma TrashLater(parts: seq<string>)
    requires |parts| > 1 && parts[0] != TRASH
    ensures TrashOnTheWay(parts) <==> TrashOnTheWay(parts[1..])
  {
    if TrashOnTheWay(parts) {
      var i :| 0 <= i < |parts| - 1 && parts[i] == TRASH;
      assert parts[1..][i - 1] == TRASH;
    }
  }

  // ---------------------------------------------------------------- a rule is run

  /** FindPrefixInode: the directory to start from and its path, or none when the prefix leads nowhere. */
  method FindPrefixInode(root: seq<Entry>, prefix: string) returns (start: Option<seq<Entry>>, prefixDirs: seq<string>)
    ensures start == StartDir(root, Split(prefix))
    ensures start.Some? ==> prefixDirs == Split(prefix)[..|Split(prefix)| - 1]
  {
    prefixDirs := [];
    SplitJoins(prefix);
    var dirs := if prefix != "" then Split(prefix) else [];
    if |dirs| <= 1 {
      return Some(root), prefixDirs;
    }
    var parent := root;
    var index := 0;
    while index + 1 < |dirs|
      invariant index < |dirs| && prefixDirs == dirs[..index]
      invariant StartDir(root, dirs) == StartDir(parent, dirs[index..])
    {
      match Lookup(parent, dirs[index])
      case None =>
        return None, [];
      case Some(File(_)) =>
        return None, [];
      case Some(Dir(_, sub)) =>
        assert dirs[index..][1..] == dirs[index + 1..];
        prefixDirs := prefixDirs + [dirs[index]];
        parent := sub;
        index := index + 1;
    }
    start := Some(parent);
  }

  function Matching(files: seq<Sent>, prefix: string): seq<Sent> {
    if files == [] then []
    else
      var rest := Matching(files[..|files| - 1], prefix);
      if prefix <= files[|files| - 1].path then rest + [files[|files| - 1]] else rest
  }

  /** handleFileChan: the files whose path has the prefix. */
  method HandleFileChan(files: seq<Sent>, prefix: string) returns (handled: seq<Sent>)
    ensures handled == Matching(files, prefix)
  {
    handled := [];
    for i := 0 to |files|
      invariant handled == Matching(files[..i], prefix)
    {
      assert files[..i + 1][..i] == files[..i];
      if prefix <= files[i].path {
        handled := handled + [files[i]];
      }
    }
    assert files[..|files|] == files;
  }

  lemma {:induction false} MatchingCount(files: seq<Sent>, prefix: string, d: Sent)
    ensures multiset(Matching(files, prefix))[d] == if prefix <= d.path then multiset(files)[d] else 0
  {
    if files != [] {
      MatchingCount(files[..|files| - 1], prefix, d);
      assert files == files[..|files| - 1] + [files[|files| - 1]];
    }
  }

  lemma {:induction false} StartWellFormed(es: seq<Entry>, path: string, parts: seq<string>)
    requires WellFormed(es) && Relative(path) && parts != [] && NoSeps(parts) && StartDir(es, parts).Some?
    ensures WellFormed(StartDir(es, parts).value)
    ensures Relative(PathTo(path, parts[..|parts| - 1]))
    decreases |parts|
  {
    hide Base, Child, NoSep, Sorted, Join;
    if |parts| > 1 {
      LookupFinds(es, parts[0]);
      ChildIs(path, parts[0]);
      StartWellFormed(Lookup(es, parts[0]).value.entries, Child(path, parts[0]), parts[1..]);
      assert parts[..|parts| - 1][1..] == parts[1..][..|parts| - 2];
    }
  }

  /** The path of the first directory, as Start joins it from the components. */
  lemma {:induction false} StartPath(es: seq<Entry>, path: string, parts: seq<string>)
    requires WellFormed(es) && Relative(path) && |parts| > 1 && NoSeps(parts) && StartDir(es, parts).Some?
    ensures PathTo(path, parts[..|parts| - 1]) == Base(path) + Join(parts[..|parts| - 1])
    decreases |parts|
  {
    hide Base, Child, NoSep, Sorted, Join;
    LookupFinds(es, parts[0]);
    ChildIs(path, parts[0]);
    var rest := parts[1..][..|parts| - 2];
    assert parts[..|parts| - 1][1..] == rest && parts[..|parts| - 1] == [parts[0]] + rest;
    if |parts| > 2 {
      StartPath(Lookup(es, parts[0]).value.entries, Child(path, parts[0]), parts[1..]);
      JoinCons(parts[0], rest);
      Grouped(Base(path), parts[0], [SEP], Join(rest));
    } else {
      assert [parts[0]] + rest == [parts[0]];
      JoinOne(parts[0]);
    }
  }

  /** PrefixExact for the root directory and the prefix as the rule has it. */
  lemma RuleExact(root: seq<Entry>, prefix: string, d: Sent)
    requires WellFormed(root) && prefix <= d.path
    ensures Split(prefix) != []
    ensures Listed(root, "")[d] == if TrashOnTheWay(Split(prefix)) then 0 else SentFrom(root, "", Split(prefix), d)
  {
    hide Listed, Split, Join, WellFormed, StartDir, TrashOnTheWay, SentFrom;
    SplitJoins(prefix);
    assert Base("") + Join(Split(prefix)) == prefix;
    PrefixExact(root, "", Split(prefix), d);
  }

  /** The exception is real: a prefix that names a trash directory has its files handled, which no other rule has. */
  lemma PrefixIntoTrash(inode: nat)
    ensures var root := [Entry(TRASH, Dir(1, [Entry("a", File(inode))]))];
            var d := Sent(".Trash/a", inode);
            && SentFrom(root, "", [TRASH, ""], d) == 1 && Listed(root, "")[d] == 0
  {
    var sub := [Entry("a", File(inode))];
    var root := [Entry(TRASH, Dir(1, sub))];
    assert root[..0] == [] && sub[..0] == [];
    assert Lookup(root, TRASH) == Some(Dir(1, sub));
    assert StartDir(root, [TRASH, ""]) == Some(sub) by {
      assert [TRASH, ""][1..] == [""];
    }
    assert PathTo("", [TRASH]) == TRASH by {
      assert [TRASH][1..] == [];
      ChildIs("", TRASH);
    }
    assert [TRASH, ""][..1] == [TRASH];
    ChildIs(TRASH, "a");
    assert TRASH + [SEP] + "a" == ".Trash/a";
    assert Listed(sub, TRASH) == multiset{} + Below(sub[0], TRASH);
    assert Listed(root, "") == multiset{} + Below(root[0], "");
  }

  /** What a rule handles: exactly the files with the prefix that a scan from its directory sends. */
  ghost predicate HandledFrom(root: seq<Entry>, prefix: string, handled: seq<Sent>)
    requires Split(prefix) != []
  {
    forall d :: multiset(handled)[d] == if prefix <= d.path then SentFrom(root, "", Split(prefix), d) else 0
  }

  /** What a scan of everything would give the rule: the listed files with the prefix. */
  ghost predicate AsFullScan(root: seq<Entry>, prefix: string, handled: seq<Sent>) {
    forall d :: multiset(handled)[d] == if prefix <= d.path then Listed(root, "")[d] else 0
  }

  /** The prefix leads to a directory below which some file has the prefix. */
  ghost predicate LeadsToFiles(root: seq<Entry>, prefix: string)
    requires Split(prefix) != []
  {
    exists d: Sent :: prefix <= d.path && SentFrom(root, "", Split(prefix), d) > 0
  }

  /** A rule differs from the scan of everything exactly when it leads to files in a trash directory. */
  lemma AgreesIff(root: seq<Entry>, prefix: string, handled: seq<Sent>)
    requires WellFormed(root) && Split(prefix) != [] && HandledFrom(root, prefix, handled)
    ensures AsFullScan(root, prefix, handled) <==> !TrashOnTheWay(Split(prefix)) || !LeadsToFiles(root, prefix)
  {
    hide Listed, Split, WellFormed, StartDir, TrashOnTheWay, SentFrom;
    forall d: Sent | prefix <= d.path
      ensures Listed(root, "")[d] == if TrashOnTheWay(Split(prefix)) then 0 else SentFrom(root, "", Split(prefix), d)
    {
      RuleExact(root, prefix, d);
    }
  }

  /** Start, with the scan and the filter it sets going. */
  method RunRule(scanner: LcScanner, root: seq<Entry>, prefix: string) returns (failed: bool, handled: seq<Sent>)
    requires scanner.limit >= 2 && WellFormed(root)
    requires scanner.fileChan == [] && scanner.dirChan == [] && scanner.lost == multiset{}
    modifies scanner
    ensures failed <==> StartDir(root, Split(prefix)).None?
    ensures scanner.reachable ==> scanner.readErrors == old(scanner.readErrors)
    ensures Split(prefix) != []
    ensures scanner.readErrors == old(scanner.readErrors) ==> HandledFrom(root, prefix, handled)
    ensures scanner.readErrors == old(scanner.readErrors) ==>
              (AsFullScan(root, prefix, handled) <==> !TrashOnTheWay(Split(prefix)) || !LeadsToFiles(root, prefix))
  {
    hide Listed, Split, Join, WellFormed, StartDir, TrashOnTheWay, Matching, LeadsToFiles, AsFullScan;
    handled := [];
    SplitJoins(prefix);
    var start, prefixDirs := FindPrefixInode(root, prefix);
    failed := start.None?;
    if !failed {
      StartWellFormed(root, "", Split(prefix));
      if |Split(prefix)| > 1 {
        StartPath(root, "", Split(prefix));
      } else {
        JoinNothing();
      }
      var currentPath := TrimSep(Join(prefixDirs));
      assert currentPath == PathTo("", prefixDirs);
      scanner.Scan(currentPath, start.value);
      handled := HandleFileChan(scanner.fileChan, prefix);
      forall d: Sent ensures multiset(handled)[d] == if prefix <= d.path then multiset(scanner.fileChan)[d] else 0 {
        MatchingCount(scanner.fileChan, prefix, d);
      }
    }
    if scanner.readErrors == old(scanner.readErrors) {
      AgreesIff(root, prefix, handled);
    }
  }

  lemma {:induction false} SplitDir(name: string)
    requires NoSep(name)
    ensures Split(name + [SEP]) == [name, ""]
  {
    var s := name + [SEP];
    var k := SepAt(s);
    assert s[|name|] == SEP && k == |name|;
    assert s[..k] == name && s[k + 1..] == "";
    assert Split("") == [""];
  }

  lemma TrashTree(inode: nat)
    ensures WellFormed([Entry(TRASH, Dir(1, [Entry("a", File(inode))]))])
  {
    var sub := [Entry("a", File(inode))];
    assert WellFormed(sub);
    assert NodeWellFormed(Dir(1, sub));
  }

  /** A rule for the trash directory, run: the file in it is handled, which the scan of everything passes over. */
  method TrashRule(scanner: LcScanner, inode: nat) returns (root: seq<Entry>, d: Sent, handled: seq<Sent>)
    requires scanner.limit >= 2
    requires scanner.fileChan == [] && scanner.dirChan == [] && scanner.lost == multiset{}
    modifies scanner
    ensures WellFormed(root) && Listed(root, "")[d] == 0
    ensures scanner.readErrors == old(scanner.readErrors) ==> multiset(handled)[d] == 1
    ensures scanner.reachable ==> scanner.readErrors == old(scanner.readErrors)
  {
    hide Listed, Split, SentFrom, WellFormed;
    root, d := [Entry(TRASH, Dir(1, [Entry("a", File(inode))]))], Sent(".Trash/a", inode);
    PrefixIntoTrash(inode);
    TrashTree(inode);
    SplitDir(TRASH);
    assert TRASH + [SEP] == ".Trash/" && ".Trash/" <= d.path;
    var failed;
    failed, handled := RunRule(scanner, root, ".Trash/");
  }

  lemma JoinNothing()
    ensures Join([]) == "" && PathTo("", []) == ""
  {
  }
}
