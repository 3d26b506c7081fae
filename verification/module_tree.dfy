/** `gen_lib_rs_tool.py`: package files are sorted into a tree of modules, and the tree is
    printed as nested `pub mod` blocks that include the files. */
module ModuleTree {
  import opened Sequences

  type Path = seq<string>

  // ------------------------------------------------------------- file names

  function Prepend(c: char, parts: seq<string>): (more: seq<string>)
    requires parts != []
    ensures more != []
  {
    if c == '.' then [""] + parts else [[c] + parts[0]] + parts[1..]
  }

  /** Python's `s.split('.')`. */
  function Split(s: string): (parts: seq<string>)
    ensures parts != []
  {
    if s == "" then [""] else Prepend(s[0], Split(s[1..]))
  }

  /** `'.'.join(parts)`. */
  function Join(parts: seq<string>): string {
    if parts == [] then "" else if |parts| == 1 then parts[0] else parts[0] + "." + Join(parts[1..])
  }

  lemma {:induction false} SplitPartsHaveNoDots(s: string)
    ensures forall part :: part in Split(s) ==> '.' !in part
    decreases |s|
  {
    if s != "" {
      var rest := Split(s[1..]);
      SplitPartsHaveNoDots(s[1..]);
      assert rest[0] in rest;
      forall part | part in rest[1..] ensures '.' !in part { assert part in rest; }
    }
  }

  lemma {:induction false} JoinSplit(s: string)
    ensures Join(Split(s)) == s
    decreases |s|
  {
    if s != "" {
      var rest := Split(s[1..]);
      JoinSplit(s[1..]);
      if s[0] == '.' {
        assert ([""] + rest)[1..] == rest;
        assert "" + "." + Join(rest) == s;
      } else {
        var parts := [[s[0]] + rest[0]] + rest[1..];
        assert parts[1..] == rest[1..];
        assert s == [s[0]] + s[1..];
      }
    }
  }

  lemma PrependConcat(c: char, x: seq<string>, y: seq<string>)
    requires x != []
    ensures Prepend(c, x + y) == Prepend(c, x) + y
  {
    assert (x + y)[1..] == x[1..] + y;
  }

  lemma SplitCons(c: char, s: string)
    ensures Split([c] + s) == Prepend(c, Split(s))
  {
    assert ([c] + s)[1..] == s;
  }

  lemma {:induction false} SplitAtDot(a: string, b: string)
    ensures Split(a + (['.'] + b)) == Split(a) + Split(b)
    decreases |a|
  {
    if a == "" {
      assert a + (['.'] + b) == ['.'] + b;
      SplitCons('.', b);
    } else {
      var tail := a[1..] + (['.'] + b);
      assert a + (['.'] + b) == [a[0]] + tail;
      SplitAtDot(a[1..], b);
      SplitCons(a[0], tail);
      PrependConcat(a[0], Split(a[1..]), Split(b));
    }
  }

  predicate IsPackageFile(file: string) {
    |file| >= 6 && file[|file| - 6..] == ".pb.rs"
  }

  lemma {:induction false} NoDotsSplit(s: string)
    requires '.' !in s
    ensures Split(s) == [s]
    decreases |s|
  {
    if s != "" { NoDotsSplit(s[1..]); assert s == [s[0]] + s[1..]; }
  }

  lemma SuffixParts()
    ensures Split("pb.rs") == ["pb", "rs"]
  {
    assert "pb.rs" == "pb" + (['.'] + "rs");
    SplitAtDot("pb", "rs");
    NoDotsSplit("pb");
    NoDotsSplit("rs");
  }

  lemma PackageFileParts(file: string)
    requires IsPackageFile(file)
    ensures |Split(file)| >= 3
    ensures var parts := Split(file)[..|Split(file)| - 2];
      parts == Split(file[..|file| - 6]) && Join(parts) + ".pb.rs" == file
  {
    var base := file[..|file| - 6];
    assert file == base + (['.'] + "pb.rs");
    SplitAtDot(base, "pb.rs");
    SuffixParts();
    assert Split(file) == Split(base) + ["pb", "rs"];
    assert Split(file)[..|Split(file)| - 2] == Split(base);
    JoinSplit(base);
    assert base + ".pb.rs" == file;
  }

  /** `filepath.split('.')[:-2]`. */
  function Parts(file: string): Path
    requires IsPackageFile(file)
  {
    PackageFileParts(file);
    Split(file)[..|Split(file)| - 2]
  }

  /** `'.'.join(package_parts) + '.pb.rs'`. */
  function StoredName(parts: Path): string {
    Join(parts) + ".pb.rs"
  }

  /** The name stored in the tree is the file, so different files have different paths. */
  lemma PartsRoundTrip(file: string)
    requires IsPackageFile(file)
    ensures StoredName(Parts(file)) == file && Parts(file) != []
    ensures forall part :: part in Parts(file) ==> '.' !in part
  {
    PackageFileParts(file);
    SplitPartsHaveNoDots(file[..|file| - 6]);
  }

  lemma {:induction false} SplitJoin(parts: Path)
    requires parts != [] && forall part :: part in parts ==> '.' !in part
    ensures Split(Join(parts)) == parts
    decreases |parts|
  {
    NoDotsSplit(parts[0]);
    if |parts| > 1 {
      assert parts == [parts[0]] + parts[1..];
      assert Join(parts) == parts[0] + (['.'] + Join(parts[1..]));
      SplitAtDot(parts[0], Join(parts[1..]));
      SplitJoin(parts[1..]);
    }
  }

  /** And every path of names without dots is that of exactly one file. */
  lemma PartsAreAnyPath(parts: Path)
    requires parts != [] && forall part :: part in parts ==> '.' !in part
    ensures IsPackageFile(StoredName(parts)) && Parts(StoredName(parts)) == parts
  {
    var file := StoredName(parts);
    assert file[..|file| - 6] == Join(parts) && file[|file| - 6..] == ".pb.rs";
    PackageFileParts(file);
    SplitJoin(parts);
  }

  /** The tool refuses a path with a part that is "." or "..", to keep files inside the root
      directory. A split at dots never has such a part, so the check accepts everything. */
  lemma DirectoryCheckIsVacuous(file: string)
    requires IsPackageFile(file)
    ensures "." !in Parts(file) && ".." !in Parts(file)
  {
    SplitPartsHaveNoDots(file);
    forall part | part in Parts(file) ensures '.' !in part { assert part in Split(file); }
    assert '.' in "." && '.' in "..";
  }

  /** A relative path leads out of the root directory. */
  predicate IsOutside(file: string) {
    |file| >= 3 && file[0] == '.' && file[1] == '.' && file[2] == '/'
  }

  /** What a check of the parts can see of that: two empty parts and then a slash. */
  predicate LeadsOut(parts: Path) {
    |parts| >= 3 && parts[0] == "" && parts[1] == "" && parts[2] != "" && parts[2][0] == '/'
  }

  /** The first part is empty exactly if nothing comes before the first dot. */
  lemma SplitHead(s: string)
    ensures Split(s)[0] == "" <==> s == "" || s[0] == '.'
    ensures Split(s)[0] != "" ==> Split(s)[0][0] == s[0]
  {
  }

  lemma OutsideShowsInTheSplit(s: string)
    ensures IsOutside(s) <==> LeadsOut(Split(s))
  {
    if |s| >= 2 && s[0] == '.' && s[1] == '.' {
      var rest := s[2..];
      assert s == ['.'] + (['.'] + rest);
      SplitCons('.', rest);
      SplitCons('.', ['.'] + rest);
      assert Split(s) == [""] + ([""] + Split(rest));
      SplitHead(rest);
    } else if s != "" {
      SplitHead(s);
      if s[0] == '.' {
        assert s == ['.'] + s[1..];
        SplitCons('.', s[1..]);
        SplitHead(s[1..]);
      }
    }
  }

  lemma EndingIsNoMatter(base: string)
    ensures IsOutside(base + ".pb.rs") <==> IsOutside(base)
  {
    var file := base + ".pb.rs";
    assert |base| == 2 ==> file[2] == '.';
    assert |base| == 1 ==> file[2] == 'p';
    assert |base| == 0 ==> file[1] == 'p';
  }

  lemma OutsideShowsInTheParts(file: string)
    requires IsPackageFile(file)
    ensures IsOutside(file) <==> LeadsOut(Parts(file))
  {
    var base := file[..|file| - 6];
    PackageFileParts(file);
    assert Parts(file) == Split(base);
    assert file == base + ".pb.rs";
    EndingIsNoMatter(base);
    OutsideShowsInTheSplit(base);
  }

  // -------------------------------------------------------------- the tree

  /** A node; its children keep the order in which they were added. */
  datatype Node = Node(filename: Option<string>, children: Forest)
  datatype Forest = Nil | Cons(name: string, node: Node, rest: Forest)

  const EMPTY := Node(None, Nil)

  /** One round of the loop in `main`: walk down the parts, adding missing nodes, and store
      the file name. `None` is the assertion that fails on a duplicate package. */
  function Insert(n: Node, parts: Path, file: string): Option<Node>
    decreases |parts|, n
  {
    if parts == [] then if n.filename.Some? then None else Some(Node(Some(file), n.children))
    else match InsertIn(n.children, parts, file)
      case None => None
      case Some(f) => Some(Node(n.filename, f))
  }

  function InsertIn(f: Forest, parts: Path, file: string): Option<Forest>
    requires parts != []
    decreases |parts|, f
  {
    match f
    case Nil =>
      (match Insert(EMPTY, parts[1..], file)
       case None => None
       case Some(n) => Some(Cons(parts[0], n, Nil)))
    case Cons(name, node, rest) =>
      if name == parts[0] then
        (match Insert(node, parts[1..], file)
         case None => None
         case Some(n) => Some(Cons(name, n, rest)))
      else
        (match InsertIn(rest, parts, file)
         case None => None
         case Some(r) => Some(Cons(name, node, r)))
  }

  /** The files of a subtree with their module paths, a node's own file first. */
  function Files(n: Node, at: Path): seq<(Path, string)> {
    (if n.filename.Some? then [(at, n.filename.value)] else []) + FilesIn(n.children, at)
  }

  function FilesIn(f: Forest, at: Path): seq<(Path, string)> {
    if f.Nil? then [] else Files(f.node, at + [f.name]) + FilesIn(f.rest, at)
  }

  function Lookup(n: Node, parts: Path): Option<string>
    decreases |parts|, n
  {
    if parts == [] then n.filename else LookupIn(n.children, parts)
  }

  function LookupIn(f: Forest, parts: Path): Option<string>
    requires parts != []
    decreases |parts|, f
  {
    if f.Nil? then None
    else if f.name == parts[0] then Lookup(f.node, parts[1..])
    else LookupIn(f.rest, parts)
  }

  /** An insertion is refused exactly if the path is taken; otherwise it changes what is found
      at that path and nowhere else. */
  lemma {:induction false} InsertIsAWrite(n: Node, parts: Path, file: string)
    ensures Insert(n, parts, file).None? <==> Lookup(n, parts).Some?
    ensures Insert(n, parts, file).Some? ==>
      forall q :: Lookup(Insert(n, parts, file).value, q) == if q == parts then Some(file) else Lookup(n, q)
    decreases |parts|, n, 1
  {
    if parts != [] { InsertInIsAWrite(n.children, parts, file); }
  }

  lemma EmptyFindsNothing()
    ensures forall q :: Lookup(EMPTY, q).None?
  {
  }

  lemma {:induction false} InsertInIsAWrite(f: Forest, parts: Path, file: string)
    requires parts != []
    ensures InsertIn(f, parts, file).None? <==> LookupIn(f, parts).Some?
    ensures InsertIn(f, parts, file).Some? ==>
      forall q :: q != [] ==>
        LookupIn(InsertIn(f, parts, file).value, q) == if q == parts then Some(file) else LookupIn(f, q)
    decreases |parts|, f, 0
  {
    assert parts == [parts[0]] + parts[1..];
    assert forall q: Path :: q != [] ==> q == [q[0]] + q[1..];
    match f
    case Nil =>
      EmptyFindsNothing();
      InsertIsAWrite(EMPTY, parts[1..], file);
    case Cons(name, node, rest) =>
      if name == parts[0] {
        InsertIsAWrite(node, parts[1..], file);
      } else {
        InsertInIsAWrite(rest, parts, file);
      }
  }

  /** The files in the tree are those that were there and the new one. */
  lemma {:induction false} InsertAddsOneFile(n: Node, parts: Path, file: string, at: Path)
    requires Insert(n, parts, file).Some?
    ensures multiset(Files(Insert(n, parts, file).value, at)) == multiset(Files(n, at)) + multiset{(at + parts, file)}
    decreases |parts|, n, 1
  {
    if parts == [] {
      assert at + [] == at;
    } else {
      InsertInAddsOneFile(n.children, parts, file, at);
    }
  }

  lemma {:induction false} InsertInAddsOneFile(f: Forest, parts: Path, file: string, at: Path)
    requires parts != [] && InsertIn(f, parts, file).Some?
    ensures multiset(FilesIn(InsertIn(f, parts, file).value, at)) ==
      multiset(FilesIn(f, at)) + multiset{(at + parts, file)}
    decreases |parts|, f, 0
  {
    assert at + [parts[0]] + parts[1..] == at + parts;
    match f
    case Nil => InsertAddsOneFile(EMPTY, parts[1..], file, at + [parts[0]]);
    case Cons(name, node, rest) =>
      if name == parts[0] {
        InsertAddsOneFile(node, parts[1..], file, at + [name]);
      } else {
        InsertInAddsOneFile(rest, parts, file, at);
      }
  }

  /** No node has two children of the same name. */
  ghost predicate Proper(n: Node) {
    ProperIn(n.children)
  }

  ghost predicate Named(f: Forest, name: string) {
    f.Cons? && (f.name == name || Named(f.rest, name))
  }

  ghost predicate ProperIn(f: Forest) {
    f.Cons? ==> !Named(f.rest, f.name) && Proper(f.node) && ProperIn(f.rest)
  }

  lemma {:induction false} InsertKeepsProper(n: Node, parts: Path, file: string)
    requires Proper(n) && Insert(n, parts, file).Some?
    ensures Proper(Insert(n, parts, file).value)
    decreases |parts|, n, 1
  {
    if parts != [] { InsertInKeepsProper(n.children, parts, file); }
  }

  lemma {:induction false} InsertInKeepsProper(f: Forest, parts: Path, file: string)
    requires parts != [] && ProperIn(f) && InsertIn(f, parts, file).Some?
    ensures ProperIn(InsertIn(f, parts, file).value)
    ensures forall name :: Named(InsertIn(f, parts, file).value, name) <==> Named(f, name) || name == parts[0]
    decreases |parts|, f, 0
  {
    match f
    case Nil => InsertKeepsProper(EMPTY, parts[1..], file);
    case Cons(name, node, rest) =>
      if name == parts[0] {
        InsertKeepsProper(node, parts[1..], file);
      } else {
        InsertInKeepsProper(rest, parts, file);
      }
  }

  /** The names of the children in the order in which they are printed. */
  function ChildNames(f: Forest): seq<string> {
    if f.Nil? then [] else [f.name] + ChildNames(f.rest)
  }

  /** A module keeps its place among its siblings, and a new one comes last. */
  lemma {:induction false} ChildrenKeepTheirOrder(f: Forest, parts: Path, file: string)
    requires parts != [] && InsertIn(f, parts, file).Some?
    ensures ChildNames(InsertIn(f, parts, file).value) ==
      ChildNames(f) + if parts[0] in ChildNames(f) then [] else [parts[0]]
    decreases f
  {
    if f.Cons? && f.name != parts[0] { ChildrenKeepTheirOrder(f.rest, parts, file); }
  }

  /** The paths of the modules below a node, in the order in which they are opened. */
  function Modules(n: Node, at: Path): seq<Path> {
    ModulesIn(n.children, at)
  }

  function ModulesIn(f: Forest, at: Path): seq<Path> {
    if f.Nil? then [] else [at + [f.name]] + Modules(f.node, at + [f.name]) + ModulesIn(f.rest, at)
  }

  lemma {:induction false} BelowExtends(f: Forest, at: Path)
    ensures forall p :: p in ModulesIn(f, at) ==> |at| < |p| && p[..|at|] == at
    decreases f
  {
    if f.Cons? {
      var own := at + [f.name];
      BelowExtends(f.node.children, own);
      BelowExtends(f.rest, at);
      forall p | p in Modules(f.node, own) ensures |at| < |p| && p[..|at|] == at {
        assert p[..|at|] == p[..|own|][..|at|];
      }
    }
  }

  lemma NoDupConcat(a: seq<Path>, b: seq<Path>)
    requires NoDup(a) && NoDup(b) && forall p :: p in a ==> p !in b
    ensures NoDup(a + b)
  {
    var s := a + b;
    forall i, j | 0 <= i < j < |s| ensures s[i] != s[j] {
      if i < |a| <= j { assert s[i] in a && s[j] in b; }
    }
  }

  /** No module is there twice: every path below a node goes through one child. */
  lemma {:induction false} ModulesAreDistinct(f: Forest, at: Path)
    requires ProperIn(f)
    ensures forall p :: p in ModulesIn(f, at) ==> |at| < |p| && Named(f, p[|at|])
    ensures NoDup(ModulesIn(f, at))
    decreases f
  {
    if f.Cons? {
      var own, below, rest := at + [f.name], Modules(f.node, at + [f.name]), ModulesIn(f.rest, at);
      ModulesAreDistinct(f.node.children, own);
      ModulesAreDistinct(f.rest, at);
      BelowExtends(f.node.children, own);
      assert forall p :: p in below ==> |own| < |p| && p[..|own|] == own && p[|at|] == f.name;
      NoDupConcat([own] + below, rest);
    }
  }

  // ------------------------------------------------- the loop over the files

  predicate AllPackageFiles(files: seq<string>) {
    forall i :: 0 <= i < |files| ==> IsPackageFile(files[i])
  }

  /** Where each file belongs. */
  function Placed(files: seq<string>): seq<(Path, string)>
    requires AllPackageFiles(files)
  {
    seq(|files|, i requires 0 <= i < |files| => (Parts(files[i]), files[i]))
  }

  ghost predicate Taken(files: seq<string>, q: Path)
    requires AllPackageFiles(files)
  {
    exists i :: 0 <= i < |files| && Parts(files[i]) == q
  }

  /** The tree has exactly the given files, each at the path spelled by its dotted name. */
  ghost predicate Holds(n: Node, files: seq<string>)
    requires AllPackageFiles(files)
  {
    && Proper(n)
    && multiset(Files(n, [])) == multiset(Placed(files))
    && forall q :: Lookup(n, q).Some? <==> Taken(files, q)
  }

  lemma TakenByAnEqualFile(front: seq<string>, last: string)
    requires AllPackageFiles(front) && IsPackageFile(last)
    ensures Taken(front, Parts(last)) <==> last in front
  {
    forall i | 0 <= i < |front| && Parts(front[i]) == Parts(last) ensures last in front {
      PartsRoundTrip(front[i]);
      PartsRoundTrip(last);
    }
    if last in front {
      var i :| 0 <= i < |front| && front[i] == last;
      assert Parts(front[i]) == Parts(last);
    }
  }

  lemma TakenSnoc(front: seq<string>, last: string, q: Path)
    requires AllPackageFiles(front) && IsPackageFile(last) && AllPackageFiles(front + [last])
    ensures Taken(front + [last], q) <==> Taken(front, q) || q == Parts(last)
  {
    var files := front + [last];
    assert forall i :: 0 <= i < |front| ==> files[i] == front[i];
    assert files[|front|] == last;
    if i :| 0 <= i < |front| && Parts(front[i]) == q { assert Parts(files[i]) == q; }
    if q == Parts(last) { assert Parts(files[|front|]) == q; }
  }

  /** A file is refused exactly if it was added before, because the path determines the file. */
  lemma {:induction false} OneMoreFile(tree: Node, front: seq<string>, last: string)
    requires AllPackageFiles(front) && IsPackageFile(last) && Holds(tree, front)
    ensures Insert(tree, Parts(last), last).Some? <==> last !in front
    ensures AllPackageFiles(front + [last])
    ensures last !in front ==> Holds(Insert(tree, Parts(last), last).value, front + [last])
  {
    var files := front + [last];
    assert forall i :: 0 <= i < |front| ==> files[i] == front[i];
    assert files[|front|] == last;
    TakenByAnEqualFile(front, last);
    InsertIsAWrite(tree, Parts(last), last);
    if last !in front {
      InsertKeepsProper(tree, Parts(last), last);
      InsertAddsOneFile(tree, Parts(last), last, []);
      assert [] + Parts(last) == Parts(last);
      assert Placed(files) == Placed(front) + [(Parts(last), last)];
      forall q ensures Taken(files, q) <==> Taken(front, q) || q == Parts(last) {
        TakenSnoc(front, last, q);
      }
    }
  }

  // ---------------------------------------------------------------- printing

  /** A printed line: `include!("file");`, `pub mod name {` or `}`, behind four spaces per
      level of indentation. */
  datatype Line = Include(indent: nat, file: string) | Open(indent: nat, name: string) | Close(indent: nat)

  /** `print_package_part_to_mod`. */
  function Printed(n: Node, indent: nat): seq<Line> {
    (if n.filename.Some? then [Include(indent, n.filename.value)] else []) + PrintedIn(n.children, indent)
  }

  function PrintedIn(f: Forest, indent: nat): seq<Line> {
    if f.Nil? then []
    else [Open(indent, f.name)] + Printed(f.node, indent + 1) + [Close(indent)] + PrintedIn(f.rest, indent)
  }

  /** A reader with a stack of open modules. `ok` is lost when a line is not indented by the
      depth of the module it is in, or closes a module that is not open. */
  datatype Reader = Reader(open: Path, modules: seq<Path>, found: seq<(Path, string)>, ok: bool)

  const START := Reader([], [], [], true)

  function ReadLine(r: Reader, line: Line): Reader {
    match line
    case Include(indent, file) => r.(found := r.found + [(r.open, file)], ok := r.ok && indent == |r.open|)
    case Open(indent, name) =>
      r.(open := r.open + [name], modules := r.modules + [r.open + [name]], ok := r.ok && indent == |r.open|)
    case Close(indent) =>
      if r.open == [] then r.(ok := false)
      else r.(open := r.open[..|r.open| - 1], ok := r.ok && indent == |r.open| - 1)
  }

  function Read(r: Reader, lines: seq<Line>): Reader
    decreases |lines|
  {
    if lines == [] then r else Read(ReadLine(r, lines[0]), lines[1..])
  }

  lemma {:induction false} ReadAppend(r: Reader, a: seq<Line>, b: seq<Line>)
    ensures Read(r, a + b) == Read(Read(r, a), b)
    decreases |a|
  {
    if a == [] {
      assert a + b == b;
    } else {
      assert (a + b)[1..] == a[1..] + b;
      ReadAppend(ReadLine(r, a[0]), a[1..], b);
    }
  }

  lemma ReadOne(r: Reader, line: Line)
    ensures Read(r, [line]) == ReadLine(r, line)
  {
    assert [line][1..] == [];
  }

  /** What reading a block at the reader's depth should give: the block's files and modules,
      in the module in which the block starts and ends. */
  function Gained(r: Reader, files: seq<(Path, string)>, modules: seq<Path>): Reader {
    r.(found := r.found + files, modules := r.modules + modules)
  }

  lemma GainedTwice(r: Reader, f: seq<(Path, string)>, m: seq<Path>, g: seq<(Path, string)>, k: seq<Path>)
    ensures Gained(Gained(r, f, m), g, k) == Gained(r, f + g, m + k)
  {
    assert r.found + f + g == r.found + (f + g);
    assert r.modules + m + k == r.modules + (m + k);
  }

  /** Reading the printed block of a module finds its files in their modules, with every brace
      balanced and every line indented. */
  lemma {:induction false} ReadPrinted(r: Reader, n: Node)
    requires r.ok
    ensures Read(r, Printed(n, |r.open|)) == Gained(r, Files(n, r.open), Modules(n, r.open))
    decreases n, 1
  {
    var own := if n.filename.Some? then [Include(|r.open|, n.filename.value)] else [];
    var mine := if n.filename.Some? then [(r.open, n.filename.value)] else [];
    ReadAppend(r, own, PrintedIn(n.children, |r.open|));
    if n.filename.Some? { ReadOne(r, own[0]); }
    assert Read(r, own) == Gained(r, mine, []);
    ReadPrintedIn(Gained(r, mine, []), n.children);
    GainedTwice(r, mine, [], FilesIn(n.children, r.open), Modules(n, r.open));
    assert [] + Modules(n, r.open) == Modules(n, r.open);
  }

  lemma {:induction false} ReadPrintedIn(r: Reader, f: Forest)
    requires r.ok
    ensures Read(r, PrintedIn(f, |r.open|)) == Gained(r, FilesIn(f, r.open), ModulesIn(f, r.open))
    decreases f, 0
  {
    if f.Nil? {
      assert r.found + [] == r.found && r.modules + [] == r.modules;
    } else {
      var at := r.open + [f.name];
      var files, modules := Files(f.node, at), [at] + Modules(f.node, at);
      ReadModule(r, f.name, f.node, PrintedIn(f.rest, |r.open|));
      ReadPrintedIn(Gained(r, files, modules), f.rest);
      GainedTwice(r, files, modules, FilesIn(f.rest, r.open), ModulesIn(f.rest, r.open));
    }
  }

  lemma {:induction false} ReadModule(r: Reader, name: string, node: Node, rest: seq<Line>)
    requires r.ok
    ensures var at := r.open + [name];
      Read(r, [Open(|r.open|, name)] + Printed(node, |r.open| + 1) + [Close(|r.open|)] + rest) ==
      Read(Gained(r, Files(node, at), [at] + Modules(node, at)), rest)
    decreases node, 2
  {
    var depth, body, at := |r.open|, Printed(node, |r.open| + 1), r.open + [name];
    var inside := ReadLine(r, Open(depth, name));
    ReadAppend(r, [Open(depth, name)] + body + [Close(depth)], rest);
    ReadAppend(r, [Open(depth, name)] + body, [Close(depth)]);
    ReadAppend(r, [Open(depth, name)], body);
    ReadOne(r, Open(depth, name));
    ReadPrinted(inside, node);
    ReadOne(Read(inside, body), Close(depth));
    assert at[..depth] == r.open;
    assert r.modules + [at] + Modules(node, at) == r.modules + ([at] + Modules(node, at));
  }

  /** Read back, the text has exactly the given files, each once, in the module whose path is
      its dotted name. Its braces are balanced, its lines are indented by depth, and no module
      is opened twice. */
  ghost predicate IncludesExactly(lines: seq<Line>, files: seq<string>)
    requires AllPackageFiles(files)
  {
    var r := Read(START, lines);
    r.ok && r.open == [] && NoDup(r.modules) && multiset(r.found) == multiset(Placed(files))
  }

  lemma PrintedTreeIsReadable(n: Node, files: seq<string>)
    requires AllPackageFiles(files) && Holds(n, files)
    ensures IncludesExactly(Printed(n, 0), files)
  {
    ReadPrinted(START, n);
    ModulesAreDistinct(n.children, []);
    assert [] + Files(n, []) == Files(n, []);
    assert [] + Modules(n, []) == Modules(n, []);
  }

  // ----------------------------------------------------------- the program

  /** The lines printed so far. */
  class Output {
    var lines: seq<Line>

    constructor ()
      ensures lines == []
    {
      lines := [];
    }

    /** `print_package_part_to_mod`: the own file, then a block for each child in turn. */
    method PrintPackagePart(n: Node, indent: nat)
      modifies this
      ensures lines == old(lines) + Printed(n, indent)
      decreases n
    {
      if n.filename.Some? {
        lines := lines + [Include(indent, n.filename.value)];
      }
      var todo := n.children;
      while todo.Cons?
        invariant todo.Cons? ==> todo.node < n
        invariant todo.Nil? || todo < n
        invariant old(lines) + Printed(n, indent) == lines + PrintedIn(todo, indent)
        decreases todo
      {
        ghost var before := lines;
        lines := lines + [Open(indent, todo.name)];
        PrintPackagePart(todo.node, indent + 1);
        lines := lines + [Close(indent)];
        ghost var block := Printed(todo.node, indent + 1);
        Regroup(before, [Open(indent, todo.name)], block, [Close(indent)], PrintedIn(todo.rest, indent), []);
        todo := todo.rest;
      }
    }
  }

  /** The lists that `main` does not fail on: every file is a package file, none is there
      twice. */
  ghost predicate Accepted(files: seq<string>) {
    AllPackageFiles(files) && NoDup(files)
  }

  /** A file outside of the root directory is among them. */
  lemma OutsideFileIsAccepted()
    ensures IsOutside("../a.pb.rs") && Accepted(["../a.pb.rs"])
  {
    var file := "../a.pb.rs";
    assert IsPackageFile(file);
  }

  /** The generated text includes only files inside of the root directory exactly if every
      given file is inside, that is, if no list of parts leads out. */
  lemma InsideExactly(lines: seq<Line>, files: seq<string>)
    requires AllPackageFiles(files) && IncludesExactly(lines, files)
    ensures (forall f :: f in Read(START, lines).found ==> !IsOutside(f.1)) <==>
      forall i :: 0 <= i < |files| ==> !LeadsOut(Parts(files[i]))
  {
    var found, placed := Read(START, lines).found, Placed(files);
    forall i | 0 <= i < |files| ensures IsOutside(files[i]) <==> LeadsOut(Parts(files[i])) {
      OutsideShowsInTheParts(files[i]);
    }
    forall f ensures f in found <==> f in placed {
      assert f in found <==> f in multiset(found);
      assert f in placed <==> f in multiset(placed);
    }
    forall i | 0 <= i < |files| ensures (Parts(files[i]), files[i]) in found {
      assert placed[i] == (Parts(files[i]), files[i]);
    }
  }

  /** The loop of `main` has added the first `i` files. */
  ghost predicate Added(root: Node, files: seq<string>, i: nat) {
    i <= |files| && AllPackageFiles(files[..i]) && NoDup(files[..i]) && Holds(root, files[..i])
  }

  lemma NothingAdded(files: seq<string>)
    ensures Added(EMPTY, files, 0)
  {
    EmptyFindsNothing();
  }

  lemma NextFile(root: Node, files: seq<string>, i: nat)
    requires Added(root, files, i) && i < |files| && IsPackageFile(files[i])
    ensures var inserted := Insert(root, Parts(files[i]), StoredName(Parts(files[i])));
      if inserted.Some? then Added(inserted.value, files, i + 1) else !NoDup(files)
  {
    PartsRoundTrip(files[i]);
    assert files[..i + 1] == files[..i] + [files[i]];
    OneMoreFile(root, files[..i], files[i]);
    NoDupSnoc(files[..i], files[i]);
    if files[i] in files[..i] {
      var k :| 0 <= k < i && files[..i][k] == files[i];
      assert files[k] == files[i];
    }
  }

  /** The loop of `main`: it fails on a file that is not a package file and on a file given
      twice, and on nothing else. */
  method BuildTree(files: seq<string>) returns (tree: Option<Node>)
    ensures tree.Some? <==> Accepted(files)
    ensures tree.Some? ==> Holds(tree.value, files)
  {
    var root := EMPTY;
    NothingAdded(files);
    var i := 0;
    while i < |files|
      invariant Added(root, files, i)
    {
      if !IsPackageFile(files[i]) {
        return None;
      }
      NextFile(root, files, i);
      var parts := Parts(files[i]);
      var inserted := Insert(root, parts, StoredName(parts));
      if inserted.None? {
        return None;
      }
      root := inserted.value;
      i := i + 1;
    }
    assert files[..i] == files;
    tree := Some(root);
  }

  /** `main`: the text, unless building fails. */
  method Generate(files: seq<string>) returns (lines: Option<seq<Line>>)
    ensures lines.Some? <==> Accepted(files)
    ensures lines.Some? ==> IncludesExactly(lines.value, files)
  {
    var tree := BuildTree(files);
    if tree.None? {
      return None;
    }
    var output := new Output();
    output.PrintPackagePart(tree.value, 0);
    PrintedTreeIsReadable(tree.value, files);
    assert output.lines == Printed(tree.value, 0);
    lines := Some(output.lines);
  }

  /** So a file outside of the root directory does end up in the text. */
  method IncludeAFileFromOutside() returns (lines: seq<Line>)
    ensures exists f :: f in Read(START, lines).found && IsOutside(f.1)
  {
    var files := ["../a.pb.rs"];
    OutsideFileIsAccepted();
    var generated := Generate(files);
    lines := generated.value;
    OutsideShowsInTheParts(files[0]);
    InsideExactly(lines, files);
  }
}
