/**
 Finding the files of a source: a bounded traversal of the source's directories, and the listing that a snapshot
 is made from. The directory tree is fixed; how it is listed and which entry types are reported is not.
 */
module Discovery {
  import opened Wrappers
  import opened Bytes
  import opened Collections
  import opened QueryState
  import opened PathOrder
  import Utf8

  const MAX_DISCOVERY_RULES_PER_SOURCE: nat := 64
  const MAX_DISCOVERY_SUFFIXES: nat := 32
  const MAX_DISCOVERY_SUFFIX_BYTES: nat := 128
  const MAX_DISCOVERY_ENTRIES: nat := 50_000
  const MAX_DISCOVERY_DIRECTORIES: nat := 10_000
  const MAX_REGISTERED_FILES_PER_SOURCE: nat := 10_000

  // ---------- the tree ----------

  /** What an entry really is; `Special` is a socket, a pipe or a device. */
  datatype Kind = Directory | Regular(identity: FileIdentity, size: nat) | Symlink | Special

  /** Everything below the root that is reached through real directories; `[]` is the root. */
  type Tree = map<Path, Kind>

  function Parent(p: Path): Path
    requires p != []
  {
    p[..|p| - 1]
  }

  function FileName(p: Path): Name
    requires p != []
  {
    p[|p| - 1]
  }

  predicate IsDirectory(tree: Tree, p: Path) {
    p in tree && tree[p] == Directory
  }

  predicate IsRegular(tree: Tree, p: Path) {
    p in tree && tree[p].Regular?
  }

  ghost predicate IsTree(tree: Tree) {
    IsDirectory(tree, []) && forall p :: p in tree && p != [] ==> IsDirectory(tree, Parent(p))
  }

  lemma {:induction false} AncestorIsDirectory(tree: Tree, p: Path, k: nat)
    requires IsTree(tree) && p in tree && k < |p|
    ensures IsDirectory(tree, p[..k])
  {
    if k == |p| - 1 {
    } else {
      AncestorIsDirectory(tree, Parent(p), k);
      assert Parent(p)[..k] == p[..k];
    }
  }

  // ---------- rules ----------

  datatype DirectoryRule = DirectoryRule(path: Path, recursive: bool, includeSuffixes: seq<seq<Byte>>)

  /** `DirectoryDiscoveryRule::from_config`: the rules that reach discovery. */
  predicate ValidRule(rule: DirectoryRule) {
    && (forall i :: 0 <= i < |rule.path| ==> NormalName(rule.path[i]))
    && 0 < |rule.includeSuffixes| <= MAX_DISCOVERY_SUFFIXES
    && (forall i :: 0 <= i < |rule.includeSuffixes| ==> ValidSuffix(rule.includeSuffixes[i]))
    && forall i, j :: 0 <= i < j < |rule.includeSuffixes| ==> rule.includeSuffixes[i] != rule.includeSuffixes[j]
  }

  predicate ValidSuffix(suffix: seq<Byte>) {
    && 0 < |suffix| <= MAX_DISCOVERY_SUFFIX_BYTES
    && suffix[0] == 46
    && 47 !in suffix && 0 !in suffix && CR !in suffix && LF !in suffix
  }

  predicate EndsWith(name: Name, suffix: seq<Byte>) {
    |suffix| <= |name| && name[|name| - |suffix|..] == suffix
  }

  predicate HasSuffix(rule: DirectoryRule, name: Name) {
    exists i :: 0 <= i < |rule.includeSuffixes| && EndsWith(name, rule.includeSuffixes[i])
  }

  /** `DirectoryDiscoveryRule::matches`. */
  predicate Matches(rule: DirectoryRule, p: Path) {
    p != [] && HasSuffix(rule, FileName(p))
  }

  /** `directory_rule_allows`: whether configuration allows a path. */
  predicate DirectoryRuleAllows(rule: DirectoryRule, p: Path) {
    && p != [] && Utf8.Valid(FileName(p)) && HasSuffix(rule, FileName(p))
    && rule.path <= p && |p| > |rule.path|
    && (rule.recursive || |p| == |rule.path| + 1)
  }

  /** The path leads from the rule's directory to a name that is some stem with one of the suffixes. */
  predicate Leads(rule: DirectoryRule, p: Path, directories: seq<Name>, stem: Name, i: nat) {
    && i < |rule.includeSuffixes| && p == rule.path + directories + [stem + rule.includeSuffixes[i]]
    && (directories != [] ==> rule.recursive)
  }

  /** Which paths a rule allows: files with one of its suffixes in its directory and, if it is recursive, below it. */
  lemma RuleAllowsMeans(rule: DirectoryRule, p: Path)
    ensures DirectoryRuleAllows(rule, p)
       <==> exists directories: seq<Name>, stem: Name, i: nat ::
              Leads(rule, p, directories, stem, i) && Utf8.Valid(stem + rule.includeSuffixes[i])
  {
    hide Utf8.Valid;
    if DirectoryRuleAllows(rule, p) {
      var i :| 0 <= i < |rule.includeSuffixes| && EndsWith(FileName(p), rule.includeSuffixes[i]);
      var name, suffix := FileName(p), rule.includeSuffixes[i];
      var stem, directories := name[..|name| - |suffix|], p[|rule.path|..|p| - 1];
      assert name == stem + suffix;
      assert p == rule.path + directories + [name];
      assert Leads(rule, p, directories, stem, i);
    }
    forall directories: seq<Name>, stem: Name, i: nat | Leads(rule, p, directories, stem, i)
      ensures FileName(p) == stem + rule.includeSuffixes[i]
      ensures HasSuffix(rule, FileName(p))
    {
      assert EndsWith(FileName(p), rule.includeSuffixes[i]);
    }
  }

  predicate PathIsConfigured(explicitFiles: seq<Path>, rules: seq<DirectoryRule>, p: Path) {
    p in explicitFiles || exists i :: 0 <= i < |rules| && DirectoryRuleAllows(rules[i], p)
  }

  /** Every name below the rule's directory is a string. */
  predicate StringsBelow(rule: DirectoryRule, p: Path) {
    forall i :: |rule.path| <= i < |p| ==> Utf8.Valid(p[i])
  }

  // ---------- what a rule finds ----------

  /** The directories a rule looks into. */
  predicate LooksInto(tree: Tree, rule: DirectoryRule, d: Path) {
    && IsDirectory(tree, d) && rule.path <= d && StringsBelow(rule, d)
    && (rule.recursive || d == rule.path)
  }

  ghost function Visited(tree: Tree, rule: DirectoryRule): set<Path> {
    set d | d in tree && LooksInto(tree, rule, d)
  }

  /** Everything listed in these directories. */
  ghost function EntriesIn(tree: Tree, directories: set<Path>): set<Path> {
    set p | p in tree && p != [] && Parent(p) in directories
  }

  predicate Taken(tree: Tree, rule: DirectoryRule, p: Path) {
    IsRegular(tree, p) && Matches(rule, p) && Utf8.Valid(FileName(p))
  }

  /** The files a rule takes from these directories. */
  ghost function FilesIn(tree: Tree, rule: DirectoryRule, directories: set<Path>): set<Path> {
    set p | p in EntriesIn(tree, directories) && Taken(tree, rule, p)
  }

  ghost function FilesOf(tree: Tree, rule: DirectoryRule): set<Path> {
    FilesIn(tree, rule, Visited(tree, rule))
  }

  /**
   The files a rule finds are exactly the regular files that configuration allows for it, except those below a
   directory whose name is no string.
   */
  lemma FilesOfRule(tree: Tree, rule: DirectoryRule, p: Path)
    requires IsTree(tree) && IsDirectory(tree, rule.path)
    ensures p in FilesOf(tree, rule) <==> IsRegular(tree, p) && DirectoryRuleAllows(rule, p) && StringsBelow(rule, p)
  {
    hide Utf8.Valid, HasSuffix;
    if p != [] && p in tree {
      ParentLooked(tree, rule, p);
    }
  }

  /** A file below a directory whose only byte is no string: allowed by a valid rule, and never found. */
  lemma UnnamedDirectoryIsSkipped()
    ensures var rule := DirectoryRule([], true, [[46, 97]]);
            var d: Path := [[255]];
            var p: Path := [[255], [98, 46, 97]];
            var tree: Tree := map[[] := Directory, d := Directory, p := Regular(FileIdentity(0, 1), 1)];
            && ValidRule(rule) && IsTree(tree)
            && IsRegular(tree, p) && DirectoryRuleAllows(rule, p) && p !in FilesOf(tree, rule)
  {
    hide FilesOf;
    var rule := DirectoryRule([], true, [[46, 97]]);
    var d: Path := [[255]];
    var name: Name := [98, 46, 97];
    var p: Path := [[255], name];
    var tree: Tree := map[[] := Directory, d := Directory, p := Regular(FileIdentity(0, 1), 1)];
    assert Parent(p) == d && Parent(d) == [];
    assert IsTree(tree);
    assert FileName(p) == name && !Utf8.Valid(p[0]);
    assert name[1..] == [46, 97] && name[1..][1..] == [97];
    assert EndsWith(name, rule.includeSuffixes[0]);
    FilesOfRule(tree, rule, p);
  }

  lemma ParentLooked(tree: Tree, rule: DirectoryRule, p: Path)
    requires IsTree(tree) && IsDirectory(tree, rule.path) && p != [] && p in tree
    ensures LooksInto(tree, rule, Parent(p)) && Utf8.Valid(FileName(p)) <==>
              && StringsBelow(rule, p) && rule.path <= p && |p| > |rule.path|
              && (rule.recursive || |p| == |rule.path| + 1)
  {
    hide Utf8.Valid;
    var parent := Parent(p);
    assert p == parent + [FileName(p)];
    assert forall i :: 0 <= i < |parent| ==> parent[i] == p[i];
    if rule.path <= p && |p| > |rule.path| {
      assert rule.path <= parent;
      assert |p| == |rule.path| + 1 ==> parent == rule.path;
    }
  }

  // ---------- the map of files found ----------

  datatype DiscoveredFile = DiscoveredFile(relativePath: Path, identity: FileIdentity, size: nat)

  /** A `BTreeMap` by path, as its values in order. */
  ghost predicate InOrder(files: seq<DiscoveredFile>) {
    forall i, j :: 0 <= i < j < |files| ==> PathLess(files[i].relativePath, files[j].relativePath)
  }

  predicate HasPath(files: seq<DiscoveredFile>, p: Path) {
    exists i :: 0 <= i < |files| && files[i].relativePath == p
  }

  function InsertFile(f: DiscoveredFile, files: seq<DiscoveredFile>): seq<DiscoveredFile> {
    if files == [] || PathLess(f.relativePath, files[0].relativePath) then [f] + files
    else [files[0]] + InsertFile(f, files[1..])
  }

  ghost function PathsOf(files: seq<DiscoveredFile>): set<Path> {
    set i | 0 <= i < |files| :: files[i].relativePath
  }

  /** The files are regular files of the tree, with their identity and size. */
  ghost predicate Genuine(tree: Tree, files: seq<DiscoveredFile>) {
    forall i :: 0 <= i < |files| ==>
      IsRegular(tree, files[i].relativePath) && files[i] == FileAt(tree, files[i].relativePath)
  }

  function FileAt(tree: Tree, p: Path): DiscoveredFile
    requires IsRegular(tree, p)
  {
    DiscoveredFile(p, tree[p].identity, tree[p].size)
  }

  lemma {:induction false} InsertKeepsOrder(f: DiscoveredFile, files: seq<DiscoveredFile>)
    requires InOrder(files) && !HasPath(files, f.relativePath)
    ensures var more := InsertFile(f, files);
            InOrder(more) && |more| == |files| + 1 && PathsOf(more) == PathsOf(files) + {f.relativePath}
    ensures forall x :: x in InsertFile(f, files) <==> x == f || x in files
  {
    hide PathLess;
    if files == [] || PathLess(f.relativePath, files[0].relativePath) {
      FirstIsLeast(f, files);
    } else {
      var rest := files[1..];
      assert forall i :: 0 <= i < |rest| ==> rest[i] == files[i + 1];
      InsertKeepsOrder(f, rest);
      PathsOrdered(f.relativePath, files[0].relativePath);
      PrependLeast(files[0], f, rest);
      assert files == [files[0]] + rest;
      SameMembers(files[0], rest);
      SameMembers(files[0], InsertFile(f, rest));
    }
  }

  lemma FirstIsLeast(f: DiscoveredFile, files: seq<DiscoveredFile>)
    requires InOrder(files) && (files == [] || PathLess(f.relativePath, files[0].relativePath))
    ensures InOrder([f] + files) && PathsOf([f] + files) == PathsOf(files) + {f.relativePath}
  {
    hide PathLess;
    var more := [f] + files;
    forall i, j | 0 <= i < j < |more|
      ensures PathLess(more[i].relativePath, more[j].relativePath)
    {
      if i == 0 && j > 1 {
        PathsTransitive(f.relativePath, files[0].relativePath, files[j - 1].relativePath);
      }
    }
    SameMembers(f, files);
  }

  lemma SameMembers(f: DiscoveredFile, files: seq<DiscoveredFile>)
    ensures PathsOf([f] + files) == PathsOf(files) + {f.relativePath}
  {
    var more := [f] + files;
    assert more[0] == f && forall i :: 0 <= i < |files| ==> files[i] == more[i + 1];
  }

  lemma PrependLeast(first: DiscoveredFile, f: DiscoveredFile, rest: seq<DiscoveredFile>)
    requires InOrder([first] + rest) && PathLess(first.relativePath, f.relativePath)
    requires InOrder(InsertFile(f, rest)) && forall x :: x in InsertFile(f, rest) ==> x == f || x in rest
    ensures InOrder([first] + InsertFile(f, rest))
  {
    hide PathLess, InsertFile;
    var before, later := [first] + rest, InsertFile(f, rest);
    forall j | 0 <= j < |later|
      ensures PathLess(first.relativePath, later[j].relativePath)
    {
      var x := later[j];
      assert x in later;
      if x != f {
        var k :| 0 <= k < |rest| && rest[k] == x;
        assert before[0] == first && before[k + 1] == x;
      }
    }
  }

  lemma HasPathIsMember(files: seq<DiscoveredFile>, p: Path)
    ensures HasPath(files, p) <==> p in PathsOf(files)
  {
  }

  /** Files in order have distinct paths. */
  lemma {:induction false} OrderedCount(files: seq<DiscoveredFile>)
    requires InOrder(files)
    ensures |PathsOf(files)| == |files|
  {
    hide PathLess;
    if files == [] {
    } else {
      var last := |files| - 1;
      OrderedCount(files[..last]);
      assert PathsOf(files) == PathsOf(files[..last]) + {files[last].relativePath};
      forall i | 0 <= i < last
        ensures files[i].relativePath != files[last].relativePath
      {
        PathsOrdered(files[i].relativePath, files[last].relativePath);
      }
    }
  }

  // ---------- listing one directory ----------

  /** The names in a directory, in any order. */
  method ListDirectory(tree: Tree, directory: Path) returns (names: seq<Name>)
    ensures NoDuplicates(names) && forall n :: n in names <==> directory + [n] in tree
  {
    var k := |directory|;
    var rest := set p | p in tree && |p| == k + 1 && p[..k] == directory :: p[k];
    assert forall n :: n in rest <==> directory + [n] in tree by {
      forall n | directory + [n] in tree
        ensures n in rest
      {
        var p := directory + [n];
        assert p[..k] == directory && p[k] == n;
      }
      forall n | n in rest
        ensures directory + [n] in tree
      {
        var p :| p in tree && |p| == k + 1 && p[..k] == directory && p[k] == n;
        assert p == directory + [n];
      }
    }
    ghost var all := rest;
    names := [];
    while rest != {}
      invariant NoDuplicates(names) && (forall n :: n in names <==> n in all && n !in rest) && rest <= all
    {
      var n :| n in rest;
      names := names + [n];
      rest := rest - {n};
    }
  }

  ghost function Under(directory: Path, names: seq<Name>): set<Path> {
    set i | 0 <= i < |names| :: directory + [names[i]]
  }

  lemma {:induction false} UnderCount(directory: Path, names: seq<Name>)
    requires NoDuplicates(names)
    ensures |Under(directory, names)| == |names|
  {
    if names == [] {
    } else {
      var last := |names| - 1;
      UnderCount(directory, names[..last]);
      assert Under(directory, names) == Under(directory, names[..last]) + {directory + [names[last]]};
      forall i | 0 <= i < last
        ensures directory + [names[i]] != directory + [names[last]]
      {
        assert (directory + [names[i]])[|directory|] != (directory + [names[last]])[|directory|];
      }
    }
  }

  lemma UnderIsEntries(tree: Tree, directory: Path, names: seq<Name>)
    requires forall n :: n in names <==> directory + [n] in tree
    ensures Under(directory, names) == EntriesIn(tree, {directory})
  {
    forall p | p in EntriesIn(tree, {directory})
      ensures p in Under(directory, names)
    {
      assert p == directory + [FileName(p)];
    }
    forall p | p in Under(directory, names)
      ensures p in EntriesIn(tree, {directory})
    {
      assert Parent(p) == directory;
    }
  }

  datatype DiscoveryError = InvalidRule | TooManyEntries | TooManyDirectories | TooManyFiles | SafeOpen

  /** The first loop over a directory: every entry is counted, names that are no strings are left out. */
  method ReadEntries(tree: Tree, directory: Path, entriesSeen: nat)
    returns (r: Result<seq<Name>, DiscoveryError>, seen: nat)
    requires entriesSeen <= MAX_DISCOVERY_ENTRIES
    ensures r.Ok? <==> entriesSeen + |EntriesIn(tree, {directory})| <= MAX_DISCOVERY_ENTRIES
    ensures r.Err? ==> r.error == TooManyEntries
    ensures r.Ok? ==> seen == entriesSeen + |EntriesIn(tree, {directory})|
    ensures r.Ok? ==> NoDuplicates(r.value) && forall n :: n in r.value <==> directory + [n] in tree && Utf8.Valid(n)
  {
    hide Utf8.Valid, EntriesIn;
    var names := ListDirectory(tree, directory);
    UnderCount(directory, names);
    UnderIsEntries(tree, directory, names);
    var entries: seq<Name> := [];
    seen := entriesSeen;
    for i := 0 to |names|
      invariant seen == entriesSeen + i <= MAX_DISCOVERY_ENTRIES
      invariant NoDuplicates(entries) && forall n :: n in entries <==> n in names[..i] && Utf8.Valid(n)
    {
      seen := seen + 1;
      if seen > MAX_DISCOVERY_ENTRIES {
        return Err(TooManyEntries), seen;
      }
      assert names[..i + 1] == names[..i] + [names[i]];
      if Utf8.Valid(names[i]) {
        assert names[i] !in names[..i];
        entries := entries + [names[i]];
      }
    }
    assert names[..|names|] == names;
    return Ok(entries), seen;
  }

  // ---------- the entries of one directory ----------

  /** What a listing says of an entry; some file systems do not tell, and special files have no type of their own. */
  datatype EntryType = DirectoryEntry | FileEntry | LinkEntry | OtherEntry

  method ReportedType(tree: Tree, p: Path) returns (t: EntryType)
    requires p in tree
    ensures t.DirectoryEntry? ==> IsDirectory(tree, p)
    ensures t.FileEntry? ==> IsRegular(tree, p)
    ensures t.LinkEntry? ==> tree[p] == Symlink
  {
    if {
      case true => t := OtherEntry;
      case tree[p].Directory? => t := DirectoryEntry;
      case tree[p].Regular? => t := FileEntry;
      case tree[p].Symlink? => t := LinkEntry;
    }
  }

  /** `record_file`, and the same for an entry of unknown type: a path is taken once. */
  method RecordFile(tree: Tree, p: Path, files: seq<DiscoveredFile>, maxFiles: nat)
    returns (r: Result<seq<DiscoveredFile>, DiscoveryError>)
    requires IsRegular(tree, p) && InOrder(files) && Genuine(tree, files) && |files| <= maxFiles
    ensures r.Ok? <==> |PathsOf(files) + {p}| <= maxFiles
    ensures r.Err? ==> r.error == TooManyFiles
    ensures r.Ok? ==>
              InOrder(r.value) && Genuine(tree, r.value) && |r.value| <= maxFiles
              && PathsOf(r.value) == PathsOf(files) + {p}
  {
    hide InOrder, PathsOf, HasPath;
    HasPathIsMember(files, p);
    OrderedCount(files);
    if HasPath(files, p) {
      assert PathsOf(files) + {p} == PathsOf(files);
      return Ok(files);
    }
    InsertKeepsOrder(FileAt(tree, p), files);
    var more := InsertFile(FileAt(tree, p), files);
    OrderedCount(more);
    forall i | 0 <= i < |more|
      ensures IsRegular(tree, more[i].relativePath) && more[i] == FileAt(tree, more[i].relativePath)
    {
      assert more[i] in more;
    }
    if |more| > maxFiles {
      return Err(TooManyFiles);
    }
    return Ok(more);
  }

  /** The files with one more entry, if it is taken. */
  ghost function WithEntry(tree: Tree, rule: DirectoryRule, p: Path, paths: set<Path>): set<Path> {
    paths + if Taken(tree, rule, p) then {p} else {}
  }

  /** One entry: recorded as a file, kept as a directory, or passed over. */
  method VisitEntry(tree: Tree, rule: DirectoryRule, p: Path, files: seq<DiscoveredFile>, maxFiles: nat)
    returns (r: Result<seq<DiscoveredFile>, DiscoveryError>, isChild: bool)
    requires p in tree && p != [] && Utf8.Valid(FileName(p))
    requires InOrder(files) && Genuine(tree, files) && |files| <= maxFiles
    ensures r.Ok? <==> |WithEntry(tree, rule, p, PathsOf(files))| <= maxFiles
    ensures r.Err? ==> r.error == TooManyFiles
    ensures r.Ok? ==>
              && InOrder(r.value) && Genuine(tree, r.value) && |r.value| <= maxFiles
              && PathsOf(r.value) == WithEntry(tree, rule, p, PathsOf(files))
              && isChild == (rule.recursive && IsDirectory(tree, p))
  {
    hide Utf8.Valid, InOrder, Genuine, PathsOf, Matches;
    OrderedCount(files);
    assert PathsOf(files) + {} == PathsOf(files);
    r, isChild := Ok(files), false;
    var t := ReportedType(tree, p);
    match t {
      case LinkEntry =>
      case DirectoryEntry =>
        isChild := rule.recursive;
      case FileEntry =>
        if Matches(rule, p) {
          r := RecordFile(tree, p, files, maxFiles);
        }
      case OtherEntry =>
        if rule.recursive && IsDirectory(tree, p) {
          isChild := true;
        } else if Matches(rule, p) && IsRegular(tree, p) {
          r := RecordFile(tree, p, files, maxFiles);
        }
    }
  }

  /** The second loop over a directory: files are recorded, directories are kept for later. */
  method VisitEntries(tree: Tree, rule: DirectoryRule, directory: Path, names: seq<Name>, files: seq<DiscoveredFile>,
                      maxFiles: nat)
    returns (r: Result<seq<DiscoveredFile>, DiscoveryError>, children: seq<Path>)
    requires NoDuplicates(names) && forall n :: n in names <==> directory + [n] in tree && Utf8.Valid(n)
    requires InOrder(files) && Genuine(tree, files) && |files| <= maxFiles
    ensures r.Ok? <==> |PathsOf(files) + FilesIn(tree, rule, {directory})| <= maxFiles
    ensures r.Err? ==> r.error == TooManyFiles
    ensures r.Ok? ==>
              && InOrder(r.value) && Genuine(tree, r.value) && |r.value| <= maxFiles
              && PathsOf(r.value) == PathsOf(files) + FilesIn(tree, rule, {directory})
              && Children(tree, rule, directory, names, children)
  {
    hide Utf8.Valid, InOrder, Genuine, PathsOf, Matches, Taken, FilesIn, Children, TakenOf, NoDuplicates;
    var found := files;
    children := [];
    NothingTaken(tree, rule, directory, files);
    NoChildren(tree, rule, directory);
    assert names[..0] == [];
    for i := 0 to |names|
      invariant InOrder(found) && Genuine(tree, found) && |found| <= maxFiles
      invariant PathsOf(found) == PathsOf(files) + TakenOf(tree, rule, directory, names[..i])
      invariant Children(tree, rule, directory, names[..i], children)
    {
      var p := directory + [names[i]];
      assert names[i] in names && FileName(p) == names[i];
      OneMoreTaken(tree, rule, directory, names, i);
      TooManyTaken(tree, rule, directory, names, i, files, maxFiles);
      var visited, isChild := VisitEntry(tree, rule, p, found, maxFiles);
      assert WithEntry(tree, rule, p, PathsOf(found))
          == PathsOf(files) + TakenOf(tree, rule, directory, names[..i + 1]);
      if visited.Err? {
        return visited, children;
      }
      OneMoreChild(tree, rule, directory, names, i, children, isChild);
      found := visited.value;
      if isChild {
        children := children + [p];
      }
    }
    assert names[..|names|] == names;
    AllTaken(tree, rule, directory, names);
    OrderedCount(found);
    return Ok(found), children;
  }

  /** The directories among the names, each once. */
  ghost predicate Children(tree: Tree, rule: DirectoryRule, directory: Path, names: seq<Name>, children: seq<Path>) {
    && NoDuplicates(children)
    && (forall p :: p in children ==> p != [] && Parent(p) == directory && FileName(p) in names)
    && (forall n :: n in names ==> (directory + [n] in children
                                    <==> rule.recursive && IsDirectory(tree, directory + [n])))
  }

  lemma NoChildren(tree: Tree, rule: DirectoryRule, directory: Path)
    ensures Children(tree, rule, directory, [], [])
  {
  }

  lemma OneMoreChild(tree: Tree, rule: DirectoryRule, directory: Path, names: seq<Name>, i: nat, children: seq<Path>,
                     isChild: bool)
    requires i < |names| && NoDuplicates(names) && Children(tree, rule, directory, names[..i], children)
    requires isChild == (rule.recursive && IsDirectory(tree, directory + [names[i]]))
    ensures Children(tree, rule, directory, names[..i + 1],
                     if isChild then children + [directory + [names[i]]] else children)
  {
    var p := directory + [names[i]];
    assert names[i] !in names[..i];
    assert Parent(p) == directory && FileName(p) == names[i];
    assert names[..i + 1] == names[..i] + [names[i]];
    forall n | n in names[..i]
      ensures directory + [n] != p
    {
      assert FileName(directory + [n]) == n;
    }
  }

  /** The files taken among the first names. */
  ghost function TakenOf(tree: Tree, rule: DirectoryRule, directory: Path, names: seq<Name>): set<Path> {
    set p | p in Under(directory, names) && Taken(tree, rule, p)
  }

  lemma NothingTaken(tree: Tree, rule: DirectoryRule, directory: Path, files: seq<DiscoveredFile>)
    ensures PathsOf(files) + TakenOf(tree, rule, directory, []) == PathsOf(files)
  {
  }

  lemma OneMoreTaken(tree: Tree, rule: DirectoryRule, directory: Path, names: seq<Name>, i: nat)
    requires i < |names|
    ensures var p := directory + [names[i]];
            TakenOf(tree, rule, directory, names[..i + 1])
            == TakenOf(tree, rule, directory, names[..i]) + if Taken(tree, rule, p) then {p} else {}
  {
    hide Taken;
    assert Under(directory, names[..i + 1]) == Under(directory, names[..i]) + {directory + [names[i]]};
  }

  lemma AllTaken(tree: Tree, rule: DirectoryRule, directory: Path, names: seq<Name>)
    requires forall n :: n in names <==> directory + [n] in tree && Utf8.Valid(n)
    ensures TakenOf(tree, rule, directory, names) == FilesIn(tree, rule, {directory})
  {
    hide Utf8.Valid, Matches;
    forall p | p in FilesIn(tree, rule, {directory})
      ensures p in TakenOf(tree, rule, directory, names)
    {
      assert p == directory + [FileName(p)] && FileName(p) in names;
      var k :| 0 <= k < |names| && names[k] == FileName(p);
    }
    forall p | p in TakenOf(tree, rule, directory, names)
      ensures p in FilesIn(tree, rule, {directory})
    {
      assert Parent(p) == directory;
    }
  }

  /** More files among the first names are more files in the directory. */
  lemma TooManyTaken(tree: Tree, rule: DirectoryRule, directory: Path, names: seq<Name>, i: nat,
                     files: seq<DiscoveredFile>, maxFiles: nat)
    requires forall n :: n in names <==> directory + [n] in tree && Utf8.Valid(n)
    requires i < |names|
    ensures |PathsOf(files) + TakenOf(tree, rule, directory, names[..i + 1])|
            <= |PathsOf(files) + FilesIn(tree, rule, {directory})|
  {
    hide Utf8.Valid, Matches, PathsOf, FilesIn;
    AllTaken(tree, rule, directory, names);
    var some, all := TakenOf(tree, rule, directory, names[..i + 1]), TakenOf(tree, rule, directory, names);
    assert some <= all;
    FewerMembers(PathsOf(files) + some, PathsOf(files) + all);
  }

  // ---------- one rule ----------

  datatype Progress = Progress(files: seq<DiscoveredFile>, entriesSeen: nat, directoriesSeen: nat)

  ghost predicate Sound(tree: Tree, progress: Progress, maxFiles: nat) {
    && InOrder(progress.files) && Genuine(tree, progress.files) && |progress.files| <= maxFiles
    && progress.entriesSeen <= MAX_DISCOVERY_ENTRIES && progress.directoriesSeen <= MAX_DISCOVERY_DIRECTORIES
  }

  /** The traversal has looked into these directories and nothing else. */
  ghost predicate Explored(tree: Tree, rule: DirectoryRule, start: Progress, now: Progress, visited: set<Path>) {
    && PathsOf(now.files) == PathsOf(start.files) + FilesIn(tree, rule, visited)
    && now.entriesSeen == start.entriesSeen + |EntriesIn(tree, visited)|
    && now.directoriesSeen == start.directoriesSeen + |visited|
  }

  /** What is still to be visited lies at or below a pending directory, and nothing is visited twice. */
  ghost predicate Frontier(tree: Tree, rule: DirectoryRule, visited: set<Path>, pending: seq<Path>) {
    && visited <= Visited(tree, rule) && NoDuplicates(pending)
    && (forall q :: q in pending ==> q in Visited(tree, rule) && q !in visited)
    && Linked(rule, visited, pending)
    && (forall d :: d in Visited(tree, rule) ==> d in visited || Covered(pending, d))
  }

  /** Directories are met through directories that were visited before. */
  ghost predicate Linked(rule: DirectoryRule, visited: set<Path>, pending: seq<Path>) {
    forall y :: y in visited || y in pending ==> y == rule.path || (y != [] && Parent(y) in visited)
  }

  ghost predicate Covered(pending: seq<Path>, d: Path) {
    exists i :: 0 <= i < |pending| && pending[i] <= d
  }

  lemma FrontierStart(tree: Tree, rule: DirectoryRule)
    requires IsDirectory(tree, rule.path)
    ensures Frontier(tree, rule, {}, [rule.path])
  {
    hide Utf8.Valid;
    assert LooksInto(tree, rule, rule.path);
    forall d | d in Visited(tree, rule)
      ensures Covered([rule.path], d)
    {
      assert [rule.path][0] <= d;
    }
  }

  /** Visiting a directory and putting its subdirectories in its place keeps the frontier. */
  lemma FrontierStep(tree: Tree, rule: DirectoryRule, visited: set<Path>, rest: seq<Path>, x: Path, names: seq<Name>,
                     children: seq<Path>)
    requires IsTree(tree) && Frontier(tree, rule, visited, rest + [x])
    requires forall n :: n in names <==> x + [n] in tree && Utf8.Valid(n)
    requires Children(tree, rule, x, names, children)
    ensures Frontier(tree, rule, visited + {x}, rest + children)
  {
    hide Utf8.Valid, Visited, Covered, NoDuplicates, IsTree, Children, Linked;
    LastApart(rest, x);
    InBoth(rest, [x]);
    InBoth(rest, children);
    forall c | c in children
      ensures c in Visited(tree, rule) && c != [] && Parent(c) == x && c != rule.path
    {
      ChildVisited(tree, rule, x, names, children, c);
    }
    LinkedStep(rule, visited, rest, x, children);
    ChildrenAreNew(rule, visited, rest, x, children);
    ChildrenApart(tree, rule, x, names, children);
    BothApart(rest, children);
    forall d | d in Visited(tree, rule) && d !in visited + {x}
      ensures Covered(rest + children, d)
    {
      CoveredStep(tree, rule, rest, x, names, children, d);
    }
  }

  lemma LinkedStep(rule: DirectoryRule, visited: set<Path>, rest: seq<Path>, x: Path, children: seq<Path>)
    requires Linked(rule, visited, rest + [x])
    requires forall c :: c in children ==> c != [] && Parent(c) == x
    ensures Linked(rule, visited + {x}, rest + children)
  {
    InBoth(rest, [x]);
    InBoth(rest, children);
  }

  /** A subdirectory of a directory that was not visited was not met either. */
  lemma ChildrenAreNew(rule: DirectoryRule, visited: set<Path>, rest: seq<Path>, x: Path, children: seq<Path>)
    requires Linked(rule, visited, rest + [x]) && x !in visited
    requires forall c :: c in children ==> c != [] && Parent(c) == x && c != rule.path
    ensures forall c :: c in children ==> c !in visited && c !in rest && c != x
  {
    InBoth(rest, [x]);
    forall c | c in children
      ensures c !in visited && c !in rest && c != x
    {
      NotMet(rule, visited, rest + [x], x, c);
    }
  }

  lemma NotMet(rule: DirectoryRule, visited: set<Path>, pending: seq<Path>, x: Path, c: Path)
    requires Linked(rule, visited, pending) && x !in visited
    requires c != [] && Parent(c) == x && c != rule.path
    ensures c !in visited && c !in pending
  {
  }

  lemma InBoth(a: seq<Path>, b: seq<Path>)
    ensures forall q :: q in a + b <==> q in a || q in b
  {
  }

  lemma ChildrenApart(tree: Tree, rule: DirectoryRule, x: Path, names: seq<Name>, children: seq<Path>)
    requires Children(tree, rule, x, names, children)
    ensures NoDuplicates(children)
  {
  }

  lemma LastApart<T>(rest: seq<T>, x: T)
    requires NoDuplicates(rest + [x])
    ensures NoDuplicates(rest) && x !in rest
  {
    var all := rest + [x];
    assert all[|rest|] == x && forall i :: 0 <= i < |rest| ==> all[i] == rest[i];
  }

  lemma BothApart<T>(a: seq<T>, b: seq<T>)
    requires NoDuplicates(a) && NoDuplicates(b) && forall x :: x in b ==> x !in a
    ensures NoDuplicates(a + b)
  {
    var all := a + b;
    forall i, j | 0 <= i < j < |all|
      ensures all[i] != all[j]
    {
      assert all[i] == if i < |a| then a[i] else b[i - |a|];
      assert all[j] == if j < |a| then a[j] else b[j - |a|];
      assert i < |a| ==> a[i] in a;
      assert j >= |a| ==> b[j - |a|] in b;
    }
  }

  lemma ChildVisited(tree: Tree, rule: DirectoryRule, x: Path, names: seq<Name>, children: seq<Path>, c: Path)
    requires x in Visited(tree, rule) && c in children && Children(tree, rule, x, names, children)
    requires forall n :: n in names <==> x + [n] in tree && Utf8.Valid(n)
    ensures c in Visited(tree, rule) && c != [] && Parent(c) == x && c != rule.path
  {
    hide Utf8.Valid;
    var n := FileName(c);
    assert c == x + [n] && n in names;
    assert LooksInto(tree, rule, x);
    assert forall i :: |rule.path| <= i < |x| ==> c[i] == x[i];
    assert LooksInto(tree, rule, c);
  }

  lemma CoveredStep(tree: Tree, rule: DirectoryRule, rest: seq<Path>, x: Path, names: seq<Name>, children: seq<Path>,
                    d: Path)
    requires IsTree(tree) && d in Visited(tree, rule) && d != x && x in Visited(tree, rule) && Covered(rest + [x], d)
    requires forall n :: n in names <==> x + [n] in tree && Utf8.Valid(n)
    requires Children(tree, rule, x, names, children)
    ensures Covered(rest + children, d)
  {
    hide Utf8.Valid;
    var before, after := rest + [x], rest + children;
    var i :| 0 <= i < |before| && before[i] <= d;
    if i < |rest| {
      assert after[i] == before[i];
    } else {
      assert x <= d && |d| > |x|;
      assert LooksInto(tree, rule, d) && LooksInto(tree, rule, x);
      var c := d[..|x| + 1];
      assert c == x + [d[|x|]];
      if |x| + 1 < |d| {
        AncestorIsDirectory(tree, d, |x| + 1);
      } else {
        assert c == d;
      }
      assert d[|x|] in names;
      assert c in children;
      var k :| 0 <= k < |children| && children[k] == c;
      assert after[|rest| + k] == c && c <= d;
    }
  }

  lemma FrontierEnd(tree: Tree, rule: DirectoryRule, visited: set<Path>)
    requires Frontier(tree, rule, visited, [])
    ensures visited == Visited(tree, rule)
  {
    forall d | d in Visited(tree, rule)
      ensures d in visited
    {
      assert !Covered([], d);
    }
  }

  /** One more directory, with its files and entries. */
  lemma ExploredMore(tree: Tree, rule: DirectoryRule, visited: set<Path>, x: Path)
    requires x !in visited && x in Visited(tree, rule) && visited <= Visited(tree, rule)
    ensures FilesIn(tree, rule, visited + {x}) == FilesIn(tree, rule, visited) + FilesIn(tree, rule, {x})
    ensures |EntriesIn(tree, visited + {x})|
            == |EntriesIn(tree, visited)| + |EntriesIn(tree, {x})| <= |EntriesIn(tree, Visited(tree, rule))|
    ensures |visited + {x}| == |visited| + 1 <= |Visited(tree, rule)|
    ensures FilesIn(tree, rule, visited + {x}) <= FilesOf(tree, rule)
  {
    hide Taken, LooksInto;
    assert EntriesIn(tree, visited + {x}) == EntriesIn(tree, visited) + EntriesIn(tree, {x});
    assert EntriesIn(tree, visited) !! EntriesIn(tree, {x});
    FewerMembers(EntriesIn(tree, visited + {x}), EntriesIn(tree, Visited(tree, rule)));
    FewerMembers(visited + {x}, Visited(tree, rule));
  }

  /** Why a rule's traversal gives up. */
  ghost predicate Refused(tree: Tree, rule: DirectoryRule, start: Progress, maxFiles: nat, error: DiscoveryError) {
    match error
    case SafeOpen => !IsDirectory(tree, rule.path)
    case TooManyDirectories =>
      start.directoriesSeen + |Visited(tree, rule)| > MAX_DISCOVERY_DIRECTORIES || !IsDirectory(tree, rule.path)
    case TooManyEntries => start.entriesSeen + |EntriesIn(tree, Visited(tree, rule))| > MAX_DISCOVERY_ENTRIES
    case TooManyFiles => |PathsOf(start.files) + FilesOf(tree, rule)| > maxFiles
    case InvalidRule => false
  }

  lemma RefusedFiles(tree: Tree, rule: DirectoryRule, start: Progress, now: Progress, visited: set<Path>, x: Path,
                     maxFiles: nat)
    requires Explored(tree, rule, start, now, visited)
    requires x !in visited && x in Visited(tree, rule) && visited <= Visited(tree, rule)
    requires |PathsOf(now.files) + FilesIn(tree, rule, {x})| > maxFiles
    ensures |PathsOf(start.files) + FilesOf(tree, rule)| > maxFiles
  {
    hide FilesIn, EntriesIn, PathsOf;
    ExploredMore(tree, rule, visited, x);
    FewerMembers(PathsOf(now.files) + FilesIn(tree, rule, {x}), PathsOf(start.files) + FilesOf(tree, rule));
  }

  /** Everything of one directory. */
  method VisitDirectory(tree: Tree, rule: DirectoryRule, x: Path, now: Progress, maxFiles: nat, ghost start: Progress,
                        ghost visited: set<Path>)
    returns (r: Result<Progress, DiscoveryError>, children: seq<Path>, ghost names: seq<Name>)
    requires Sound(tree, now, maxFiles) && now.directoriesSeen > 0
    requires Explored(tree, rule, start, now.(directoriesSeen := now.directoriesSeen - 1), visited)
    requires x !in visited && x in Visited(tree, rule) && visited <= Visited(tree, rule)
    ensures r.Err? ==> Refused(tree, rule, start, maxFiles, r.error)
    ensures r.Ok? ==>
              && Sound(tree, r.value, maxFiles) && Explored(tree, rule, start, r.value, visited + {x})
              && (forall n :: n in names <==> x + [n] in tree && Utf8.Valid(n))
              && Children(tree, rule, x, names, children)
  {
    hide Utf8.Valid, InOrder, Genuine, PathsOf, FilesIn, EntriesIn, Children, LooksInto, NoDuplicates;
    ExploredMore(tree, rule, visited, x);
    children, names := [], [];
    var entries, seen := ReadEntries(tree, x, now.entriesSeen);
    if entries.Err? {
      return Err(entries.error), children, names;
    }
    names := entries.value;
    var files;
    files, children := VisitEntries(tree, rule, x, entries.value, now.files, maxFiles);
    if files.Err? {
      RefusedFiles(tree, rule, start, now.(directoriesSeen := now.directoriesSeen - 1), visited, x, maxFiles);
      return Err(files.error), children, names;
    }
    return Ok(Progress(files.value, seen, now.directoriesSeen)), children, names;
  }

  /** The traversal of one rule ends, and finds exactly the rule's files. */
  method DiscoverRule(tree: Tree, rule: DirectoryRule, start: Progress, maxFiles: nat)
    returns (r: Result<Progress, DiscoveryError>)
    requires IsTree(tree) && Sound(tree, start, maxFiles)
    ensures r.Err? ==> Refused(tree, rule, start, maxFiles, r.error)
    ensures r.Ok? ==>
              && IsDirectory(tree, rule.path) && Sound(tree, r.value, maxFiles)
              && Explored(tree, rule, start, r.value, Visited(tree, rule))
  {
    hide Frontier, Explored, Refused, InOrder, Genuine, Visited, IsTree;
    var now, pending := start, [rule.path];
    ghost var visited: set<Path> := {};
    if IsDirectory(tree, rule.path) {
      FrontierStart(tree, rule);
    }
    NothingExplored(tree, rule, start);
    while pending != []
      invariant Sound(tree, now, maxFiles) && Explored(tree, rule, start, now, visited)
      invariant if IsDirectory(tree, rule.path) then Frontier(tree, rule, visited, pending) else pending == [rule.path]
      decreases Visited(tree, rule) - visited
    {
      var directory := pending[|pending| - 1];
      var rest := pending[..|pending| - 1];
      assert pending == rest + [directory];
      now := now.(directoriesSeen := now.directoriesSeen + 1);
      if IsDirectory(tree, rule.path) {
        NextDirectory(tree, rule, visited, rest, directory);
      }
      if now.directoriesSeen > MAX_DISCOVERY_DIRECTORIES {
        TooManyVisited(tree, rule, start, now, visited, directory, maxFiles);
        return Err(TooManyDirectories);
      }
      if !IsDirectory(tree, directory) {
        NotOpened(tree, rule, start, maxFiles);
        return Err(SafeOpen);
      }
      ghost var names;
      var next, children;
      next, children, names := VisitDirectory(tree, rule, directory, now, maxFiles, start, visited);
      if next.Err? {
        return next;
      }
      FrontierStep(tree, rule, visited, rest, directory, names, children);
      now, pending, visited := next.value, rest + children, visited + {directory};
    }
    FrontierEnd(tree, rule, visited);
    return Ok(now);
  }

  lemma NothingExplored(tree: Tree, rule: DirectoryRule, start: Progress)
    ensures Explored(tree, rule, start, start, {})
  {
    assert EntriesIn(tree, {}) == {} && FilesIn(tree, rule, {}) == {};
  }

  lemma NextDirectory(tree: Tree, rule: DirectoryRule, visited: set<Path>, rest: seq<Path>, x: Path)
    requires Frontier(tree, rule, visited, rest + [x])
    ensures x in Visited(tree, rule) && x !in visited && visited <= Visited(tree, rule) && IsDirectory(tree, x)
  {
    assert (rest + [x])[|rest|] == x;
  }

  lemma TooManyVisited(tree: Tree, rule: DirectoryRule, start: Progress, now: Progress, visited: set<Path>, x: Path,
                       maxFiles: nat)
    requires now.directoriesSeen > MAX_DISCOVERY_DIRECTORIES
    requires Explored(tree, rule, start, now.(directoriesSeen := now.directoriesSeen - 1), visited)
    requires IsDirectory(tree, rule.path) ==>
               x in Visited(tree, rule) && x !in visited && visited <= Visited(tree, rule)
    ensures Refused(tree, rule, start, maxFiles, TooManyDirectories)
  {
    hide Visited, EntriesIn, FilesIn, PathsOf;
    if IsDirectory(tree, rule.path) {
      ExploredMore(tree, rule, visited, x);
    }
  }

  lemma NotOpened(tree: Tree, rule: DirectoryRule, start: Progress, maxFiles: nat)
    requires !IsDirectory(tree, rule.path)
    ensures Refused(tree, rule, start, maxFiles, SafeOpen)
  {
  }

  // ---------- all rules ----------

  ghost function FilesOfRules(tree: Tree, rules: seq<DirectoryRule>): set<Path> {
    if rules == [] then {}
    else FilesOfRules(tree, rules[..|rules| - 1]) + FilesOf(tree, rules[|rules| - 1])
  }

  ghost function DirectoryCount(tree: Tree, rules: seq<DirectoryRule>): nat {
    if rules == [] then 0
    else DirectoryCount(tree, rules[..|rules| - 1]) + |Visited(tree, rules[|rules| - 1])|
  }

  ghost function EntryCount(tree: Tree, rules: seq<DirectoryRule>): nat {
    if rules == [] then 0
    else EntryCount(tree, rules[..|rules| - 1]) + |EntriesIn(tree, Visited(tree, rules[|rules| - 1]))|
  }

  /** What the bounds of a discovery allow. */
  ghost predicate WithinBounds(tree: Tree, rules: seq<DirectoryRule>, maxFiles: nat) {
    && |rules| <= 64
    && (forall i :: 0 <= i < |rules| ==> IsDirectory(tree, rules[i].path))
    && DirectoryCount(tree, rules) <= 10_000
    && EntryCount(tree, rules) <= 50_000
    && |FilesOfRules(tree, rules)| <= maxFiles
    && (rules != [] ==> maxFiles > 0)
  }

  lemma MoreRules(tree: Tree, rules: seq<DirectoryRule>, i: nat)
    requires i < |rules|
    ensures FilesOfRules(tree, rules[..i + 1]) == FilesOfRules(tree, rules[..i]) + FilesOf(tree, rules[i])
    ensures DirectoryCount(tree, rules[..i + 1]) == DirectoryCount(tree, rules[..i]) + |Visited(tree, rules[i])|
    ensures EntryCount(tree, rules[..i + 1])
            == EntryCount(tree, rules[..i]) + |EntriesIn(tree, Visited(tree, rules[i]))|
  {
    assert rules[..i + 1][..i] == rules[..i];
  }

  lemma {:induction false} CountsGrow(tree: Tree, rules: seq<DirectoryRule>, i: nat, j: nat)
    requires i <= j <= |rules|
    ensures DirectoryCount(tree, rules[..i]) <= DirectoryCount(tree, rules[..j])
    ensures EntryCount(tree, rules[..i]) <= EntryCount(tree, rules[..j])
    ensures FilesOfRules(tree, rules[..i]) <= FilesOfRules(tree, rules[..j])
  {
    hide FilesOf, Visited, EntriesIn;
    if i == j {
    } else {
      CountsGrow(tree, rules, i, j - 1);
      MoreRules(tree, rules, j - 1);
    }
  }

  /** A refusal at one rule means that the whole discovery exceeds its bounds. */
  lemma RefusedIsBeyond(tree: Tree, rules: seq<DirectoryRule>, i: nat, start: Progress, maxFiles: nat,
                        error: DiscoveryError)
    requires i < |rules| && Refused(tree, rules[i], start, maxFiles, error)
    requires Collected(tree, rules, i, start)
    ensures !WithinBounds(tree, rules, maxFiles)
  {
    hide FilesOf, Visited, EntriesIn, PathsOf, FilesOfRules, DirectoryCount, EntryCount;
    MoreRules(tree, rules, i);
    CountsGrow(tree, rules, i + 1, |rules|);
    assert rules[..|rules|] == rules;
    FewerMembers(FilesOfRules(tree, rules[..i + 1]), FilesOfRules(tree, rules));
  }

  /** The first `i` rules have been traversed. */
  ghost predicate Collected(tree: Tree, rules: seq<DirectoryRule>, i: nat, now: Progress)
    requires i <= |rules|
  {
    && PathsOf(now.files) == FilesOfRules(tree, rules[..i])
    && now.directoriesSeen == DirectoryCount(tree, rules[..i])
    && now.entriesSeen == EntryCount(tree, rules[..i])
    && forall k :: 0 <= k < i ==> IsDirectory(tree, rules[k].path)
  }

  /**
   On a fixed tree discovery succeeds exactly within its bounds, and then returns the files of all rules, in path
   order and each once, however directories are listed and whatever entry types they report.
   */
  method DiscoverRegularFiles(tree: Tree, rules: seq<DirectoryRule>, maxFiles: nat)
    returns (r: Result<seq<DiscoveredFile>, DiscoveryError>)
    requires IsTree(tree)
    ensures r.Ok? <==> WithinBounds(tree, rules, maxFiles)
    ensures r.Ok? ==> InOrder(r.value) && Genuine(tree, r.value) && PathsOf(r.value) == FilesOfRules(tree, rules)
  {
    hide Refused, InOrder, Genuine, Visited, IsTree, FilesOfRules, DirectoryCount, EntryCount, EntriesIn, PathsOf,
         Collected;
    var now := Progress([], 0, 0);
    NothingCollected(tree, rules);
    if |rules| > MAX_DISCOVERY_RULES_PER_SOURCE {
      return Err(InvalidRule);
    }
    if rules == [] {
      CollectedAll(tree, rules, now, maxFiles);
      return Ok([]);
    }
    if maxFiles == 0 {
      return Err(TooManyFiles);
    }
    for i := 0 to |rules|
      invariant Sound(tree, now, maxFiles) && Collected(tree, rules, i, now)
    {
      ghost var start := now;
      var next := DiscoverRule(tree, rules[i], now, maxFiles);
      if next.Err? {
        RefusedIsBeyond(tree, rules, i, start, maxFiles, next.error);
        return Err(next.error);
      }
      now := next.value;
      CollectedMore(tree, rules, i, start, now);
    }
    CollectedAll(tree, rules, now, maxFiles);
    return Ok(now.files);
  }

  lemma NothingCollected(tree: Tree, rules: seq<DirectoryRule>)
    ensures Collected(tree, rules, 0, Progress([], 0, 0)) && InOrder([]) && Genuine(tree, [])
  {
  }

  lemma CollectedMore(tree: Tree, rules: seq<DirectoryRule>, i: nat, start: Progress, now: Progress)
    requires i < |rules| && Collected(tree, rules, i, start) && IsDirectory(tree, rules[i].path)
    requires Explored(tree, rules[i], start, now, Visited(tree, rules[i]))
    ensures Collected(tree, rules, i + 1, now)
  {
    hide FilesIn, Visited, EntriesIn, PathsOf, FilesOfRules, DirectoryCount, EntryCount;
    MoreRules(tree, rules, i);
  }

  lemma CollectedAll(tree: Tree, rules: seq<DirectoryRule>, now: Progress, maxFiles: nat)
    requires Collected(tree, rules, |rules|, now) && Sound(tree, now, maxFiles)
    requires |rules| <= MAX_DISCOVERY_RULES_PER_SOURCE && (rules != [] ==> maxFiles > 0)
    ensures WithinBounds(tree, rules, maxFiles) && PathsOf(now.files) == FilesOfRules(tree, rules)
  {
    hide FilesOfRules, DirectoryCount, EntryCount, PathsOf, InOrder, Genuine;
    assert rules[..|rules|] == rules;
    OrderedCount(now.files);
  }

  /** The discovered paths are exactly those of regular files that some rule allows, below string-named directories. */
  lemma {:induction false} DiscoveredExactly(tree: Tree, rules: seq<DirectoryRule>, p: Path)
    requires IsTree(tree) && forall i :: 0 <= i < |rules| ==> IsDirectory(tree, rules[i].path)
    ensures p in FilesOfRules(tree, rules) <==>
              && IsRegular(tree, p)
              && exists i :: 0 <= i < |rules| && DirectoryRuleAllows(rules[i], p) && StringsBelow(rules[i], p)
  {
    hide IsTree, FilesOf, DirectoryRuleAllows, StringsBelow;
    if rules == [] {
    } else {
      var last := |rules| - 1;
      DiscoveredExactly(tree, rules[..last], p);
      FilesOfRule(tree, rules[last], p);
    }
  }

  // ---------- the listing of a source ----------

  datatype Source = Source(sourceId: string, explicitFiles: seq<Path>, rules: seq<DirectoryRule>)

  datatype ListingError = TooManyListed | ExplicitFileUnavailable | DiscoveryFailed(error: DiscoveryError)

  /** The paths a snapshot lists. */
  ghost function ListedPaths(tree: Tree, source: Source): set<Path> {
    (set p | p in source.explicitFiles) + FilesOfRules(tree, source.rules)
  }

  /** What is recorded of a listed file. */
  function Listed(tree: Tree, p: Path, sourceId: string, index: nat, fileId: (string, Path, nat) -> string)
    : SourceFileSnapshot
    requires IsRegular(tree, p)
  {
    SourceFileSnapshot(sourceId := sourceId, fileId := fileId(sourceId, p, index), relativePath := p,
                       identity := tree[p].identity, sizeAtSnapshot := tree[p].size)
  }

  /** `snapshot_files`: which files make up the source now; `fileId` stands for the hash of source, path and index. */
  method SnapshotFiles(tree: Tree, source: Source, maxFiles: nat, fileId: (string, Path, nat) -> string)
    returns (r: Result<seq<SourceFileSnapshot>, ListingError>)
    requires IsTree(tree)
    ensures r.Ok? <==>
              && 0 < maxFiles <= 10_000
              && (forall p :: p in source.explicitFiles ==> IsRegular(tree, p))
              && WithinBounds(tree, source.rules, maxFiles)
              && |ListedPaths(tree, source)| <= maxFiles
    ensures r.Ok? ==>
              && (forall p :: p in ListedPaths(tree, source) <==>
                    exists i :: 0 <= i < |r.value| && r.value[i].relativePath == p)
              && (forall i, j :: 0 <= i < j < |r.value| ==> PathLess(r.value[i].relativePath, r.value[j].relativePath))
              && forall i :: 0 <= i < |r.value| ==>
                   && IsRegular(tree, r.value[i].relativePath)
                   && r.value[i] == Listed(tree, r.value[i].relativePath, source.sourceId, i, fileId)
    ensures r.Err? ==>
              if maxFiles == 0 || maxFiles > 10_000 then r.error == TooManyListed
              else if exists p :: p in source.explicitFiles && !IsRegular(tree, p) then
                r.error == ExplicitFileUnavailable
              else if !WithinBounds(tree, source.rules, maxFiles) then r.error.DiscoveryFailed?
              else r.error == TooManyListed
  {
    hide WithinBounds, FilesOfRules, IsTree, InOrder, Genuine, PathsOf, PathLess;
    if maxFiles == 0 || maxFiles > MAX_REGISTERED_FILES_PER_SOURCE {
      return Err(TooManyListed);
    }
    var configured := OpenExplicit(tree, source.explicitFiles);
    if configured.None? {
      return Err(ExplicitFileUnavailable);
    }
    var discovered := DiscoverRegularFiles(tree, source.rules, maxFiles);
    if discovered.Err? {
      return Err(DiscoveryFailed(discovered.error));
    }
    var candidates := MergeAll(tree, configured.value, discovered.value);
    OrderedCount(candidates);
    if |candidates| > maxFiles {
      return Err(TooManyListed);
    }
    var snapshots := Snapshots(candidates, source.sourceId, fileId);
    ListedInOrder(tree, candidates, snapshots, source.sourceId, fileId);
    return Ok(snapshots);
  }

  /** The explicitly configured files, which must all be there. */
  method OpenExplicit(tree: Tree, explicitFiles: seq<Path>) returns (r: Option<seq<DiscoveredFile>>)
    ensures r.Some? <==> forall p :: p in explicitFiles ==> IsRegular(tree, p)
    ensures r.Some? ==> InOrder(r.value) && Genuine(tree, r.value) && PathsOf(r.value) == set p | p in explicitFiles
  {
    hide InOrder, Genuine, PathsOf;
    var candidates := [];
    NothingListed(tree);
    for i := 0 to |explicitFiles|
      invariant InOrder(candidates) && Genuine(tree, candidates)
      invariant PathsOf(candidates) == set p | p in explicitFiles[..i]
      invariant forall p :: p in explicitFiles[..i] ==> IsRegular(tree, p)
    {
      var p := explicitFiles[i];
      assert explicitFiles[..i + 1] == explicitFiles[..i] + [p];
      if !IsRegular(tree, p) {
        assert p in explicitFiles;
        return None;
      }
      candidates := Merge(tree, FileAt(tree, p), candidates);
    }
    assert explicitFiles[..|explicitFiles|] == explicitFiles;
    return Some(candidates);
  }

  /** The discovered files are added to the explicit ones. */
  method MergeAll(tree: Tree, files: seq<DiscoveredFile>, found: seq<DiscoveredFile>)
    returns (candidates: seq<DiscoveredFile>)
    requires InOrder(files) && Genuine(tree, files) && Genuine(tree, found)
    ensures InOrder(candidates) && Genuine(tree, candidates) && PathsOf(candidates) == PathsOf(files) + PathsOf(found)
  {
    hide InOrder, Genuine, PathsOf;
    candidates := files;
    NothingListed(tree);
    assert found[..0] == [];
    for i := 0 to |found|
      invariant InOrder(candidates) && Genuine(tree, candidates)
      invariant PathsOf(candidates) == PathsOf(files) + PathsOf(found[..i])
    {
      GenuineAt(tree, found, i);
      candidates := Merge(tree, found[i], candidates);
    }
    assert found[..|found|] == found;
  }

  /** Inserting a path that is there already changes nothing: its file is the same. */
  method Merge(tree: Tree, f: DiscoveredFile, files: seq<DiscoveredFile>) returns (more: seq<DiscoveredFile>)
    requires InOrder(files) && Genuine(tree, files) && IsRegular(tree, f.relativePath)
             && f == FileAt(tree, f.relativePath)
    ensures InOrder(more) && Genuine(tree, more) && PathsOf(more) == PathsOf(files) + {f.relativePath}
  {
    hide InOrder, PathsOf, HasPath;
    HasPathIsMember(files, f.relativePath);
    if HasPath(files, f.relativePath) {
      assert PathsOf(files) + {f.relativePath} == PathsOf(files);
      return files;
    }
    InsertKeepsOrder(f, files);
    more := InsertFile(f, files);
    forall i | 0 <= i < |more|
      ensures IsRegular(tree, more[i].relativePath) && more[i] == FileAt(tree, more[i].relativePath)
    {
      assert more[i] in more;
    }
  }

  lemma NothingListed(tree: Tree)
    ensures InOrder([]) && Genuine(tree, []) && PathsOf([]) == {}
  {
  }

  lemma GenuineAt(tree: Tree, files: seq<DiscoveredFile>, i: nat)
    requires Genuine(tree, files) && i < |files|
    ensures IsRegular(tree, files[i].relativePath) && files[i] == FileAt(tree, files[i].relativePath)
    ensures PathsOf(files[..i + 1]) == PathsOf(files[..i]) + {files[i].relativePath}
  {
    var more := files[..i + 1];
    assert more[i] == files[i] && forall k :: 0 <= k < i ==> more[k] == files[..i][k];
  }

  function SnapshotOf(f: DiscoveredFile, sourceId: string, index: nat, fileId: (string, Path, nat) -> string)
    : SourceFileSnapshot
  {
    SourceFileSnapshot(sourceId, fileId(sourceId, f.relativePath, index), f.relativePath, f.identity, f.size)
  }

  function Snapshots(files: seq<DiscoveredFile>, sourceId: string, fileId: (string, Path, nat) -> string)
    : (s: seq<SourceFileSnapshot>)
    ensures |s| == |files|
    ensures forall i :: 0 <= i < |files| ==> s[i] == SnapshotOf(files[i], sourceId, i, fileId)
  {
    if files == [] then []
    else
      var last := |files| - 1;
      Snapshots(files[..last], sourceId, fileId) + [SnapshotOf(files[last], sourceId, last, fileId)]
  }

  lemma ListedInOrder(tree: Tree, files: seq<DiscoveredFile>, snapshots: seq<SourceFileSnapshot>, sourceId: string,
                      fileId: (string, Path, nat) -> string)
    requires InOrder(files) && Genuine(tree, files) && snapshots == Snapshots(files, sourceId, fileId)
    ensures forall p :: p in PathsOf(files) <==> exists i :: 0 <= i < |snapshots| && snapshots[i].relativePath == p
    ensures forall i, j :: 0 <= i < j < |snapshots| ==> PathLess(snapshots[i].relativePath, snapshots[j].relativePath)
    ensures forall i :: 0 <= i < |snapshots| ==>
              && IsRegular(tree, snapshots[i].relativePath)
              && snapshots[i] == Listed(tree, snapshots[i].relativePath, sourceId, i, fileId)
  {
    hide Snapshots, PathLess;
    assert forall i :: 0 <= i < |files| ==> snapshots[i].relativePath == files[i].relativePath;
  }

  /** Every listed path is a configured one, so a snapshot's file is never refused as not configured. */
  lemma ListedIsConfigured(tree: Tree, source: Source, p: Path)
    requires IsTree(tree) && (forall i :: 0 <= i < |source.rules| ==> IsDirectory(tree, source.rules[i].path))
    requires p in ListedPaths(tree, source)
    ensures PathIsConfigured(source.explicitFiles, source.rules, p)
  {
    hide DirectoryRuleAllows, StringsBelow, FilesOfRules, IsTree;
    if p !in source.explicitFiles {
      DiscoveredExactly(tree, source.rules, p);
    }
  }
}
