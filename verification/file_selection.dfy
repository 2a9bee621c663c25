/** The selection of WSJ recordings (`.wv1`) and transcriptions (`.dot`):
    the per-variant patterns, the directory and file filters built from
    them, and `list_files`, which walks the corpus tree with `os.walk`. */
module FileSelection {
  import opened Results
  import opened Text

  // ---------------------------------------------------------------------
  // Corpus variants and the filters they induce

  /** The class-level configuration of a WSJ preparator: its name, the
      character expected at index 3 of selected file names (`file_pattern`)
      and the accepted directory names (`directory_pattern`). */
  datatype Variant = Variant(name: string, filePattern: Option<char>, directoryPattern: Option<seq<string>>)

  /** `WallStreetJournalPreparator`: the whole corpus. */
  const WallStreetJournal := Variant("WallStreetJournal", None, None)

  /** `JournalistReadPreparator` sets `dir_pattern`, an attribute nothing reads,
      so its `directory_pattern` is the inherited None. */
  const JournalistRead := Variant("WallStreetJournal-journalist-read", Some('c'), None)

  const JournalistSpontaneous :=
    Variant("WallStreetJournal-journalist-spontaneous", Some('s'), Some(["si_tr_jd"]))

  const MainRead :=
    Variant("WallStreetJournal-main-read", Some('c'), Some(["si_tr_s", "si_tr_l", "sd_tr_s", "sd_tr_l"]))

  /** `dir_filter`: any directory when there is no pattern, else one of the listed names. */
  predicate DirFilter(v: Variant, d: string)
  {
    v.directoryPattern.None? || d in v.directoryPattern.value
  }

  /** `filter_dot` (ext = ".dot") and `filter_wv1` (ext = ".wv1"): the name ends
      with the extension and, when a file pattern is set, its 4th character is
      the pattern; with a pattern set, a name shorter than 4 characters makes
      `f[3]` raise. */
  function FileFilter(v: Variant, ext: string, f: string): (r: Result<bool>)
    requires |ext| == 4
    ensures r.Err? <==> v.filePattern.Some? && |f| < 4
    ensures r.Err? ==> r.error == IndexError
    ensures r == Ok(true) <==>
      EndsWith(f, ext) && (v.filePattern.Some? ==> |f| >= 4 && f[3] == v.filePattern.value)
  {
    TakeLastIsEndsWith(f, ext);
    if v.filePattern.None? then Ok(TakeLast(f, 4) == ext)
    else if |f| < 4 then Err(IndexError)
    else Ok(f[3] == v.filePattern.value && TakeLast(f, 4) == ext)
  }

  /** The journalist-read variant selects every directory. */
  lemma JournalistReadSelectsAllDirectories(d: string)
    ensures DirFilter(JournalistRead, d)
  {
  }

  // ---------------------------------------------------------------------
  // The directory tree and os.walk

  /** A directory entry as `os.walk` sees it; children keep the order in which
      their directory lists them. */
  datatype Node = File(name: string) | Dir(name: string, children: seq<Node>)

  /** One triple yielded by `os.walk`: the directory, its sub-directories (as
      nodes, so that they can be walked into) and the names of its files. */
  datatype WalkEntry = WalkEntry(path: Path, dirs: seq<Node>, files: seq<string>)

  /** A file met during the walk: the directory it was listed in and its name. */
  datatype Found = Found(dir: Path, name: string)

  function SubDirs(ch: seq<Node>): seq<Node>
  {
    if ch == [] then []
    else (if ch[0].Dir? then [ch[0]] else []) + SubDirs(ch[1..])
  }

  function FileNames(ch: seq<Node>): seq<string>
  {
    if ch == [] then []
    else (if ch[0].File? then [ch[0].name] else []) + FileNames(ch[1..])
  }

  /** `os.walk(path)` (top-down) over a directory with children `ch`. */
  function Walk(path: Path, ch: seq<Node>): seq<WalkEntry>
    decreases ch, 1
  {
    [WalkEntry(path, SubDirs(ch), FileNames(ch))] + WalkChildren(path, ch)
  }

  /** The walks of the sub-directories of `path`, one after the other. */
  function WalkChildren(path: Path, ch: seq<Node>): seq<WalkEntry>
    decreases ch, 0
  {
    if ch == [] then [] else HeadWalk(path, ch[0]) + WalkChildren(path, ch[1..])
  }

  /** The walk below one child of `path`: nothing for a file. */
  function HeadWalk(path: Path, d: Node): seq<WalkEntry>
    decreases d, 2
  {
    match d case File(_) => [] case Dir(n, c) => Walk(PathJoin(path, n), c)
  }

  // ---------------------------------------------------------------------
  // What list_files visits, in the order its loops visit it

  /** The files of one walk entry. */
  function EntryFiles(e: WalkEntry): seq<Found>
  {
    seq(|e.files|, i requires 0 <= i < |e.files| => Found(e.path, e.files[i]))
  }

  /** The files of a walk, entry after entry: `for d_path, _, files in os.walk(...)`. */
  function WalkFiles(es: seq<WalkEntry>): seq<Found>
  {
    Flatten(EntryFiles, es)
  }

  /** The runs of files `f` gives for each of `xs`, one after the other. */
  function Flatten<T>(f: T -> seq<Found>, xs: seq<T>): seq<Found>
  {
    if xs == [] then [] else Flatten(f, xs[..|xs| - 1]) + f(xs[|xs| - 1])
  }

  /** The files walked under the sub-directories `ds` of `path` that pass the
      directory filter: `for d in (d for d in dirs if dir_filter(d))`. */
  function DirVisits(path: Path, ds: seq<Node>, v: Variant): seq<Found>
  {
    Flatten(VisitOf(path, v), ds)
  }

  /** `DirVisit` below `path`, as a function of the sub-directory. */
  function VisitOf(path: Path, v: Variant): Node -> seq<Found>
  {
    (d: Node) => DirVisit(path, d, v)
  }

  /** The files walked under one sub-directory `d` of `path`, if it passes the directory filter. */
  function DirVisit(path: Path, d: Node, v: Variant): seq<Found>
  {
    match d
    case File(_) => []
    case Dir(n, c) => if DirFilter(v, n) then WalkFiles(Walk(PathJoin(path, n), c)) else []
  }

  /** Every file the outer `os.walk` loop of `list_files` makes it visit. */
  function Visited(es: seq<WalkEntry>, v: Variant): seq<Found>
  {
    Flatten(VisitsOf(v), es)
  }

  /** `DirVisits` of a walk entry's directory and sub-directories. */
  function VisitsOf(v: Variant): WalkEntry -> seq<Found>
  {
    (e: WalkEntry) => DirVisits(e.path, e.dirs, v)
  }

  /** The file filter applied to visited files in order, starting from `acc`;
      the first IndexError ends the listing and nothing further is evaluated. */
  function MatchFrom(acc: Result<seq<Path>>, fs: seq<Found>, v: Variant, ext: string): Result<seq<Path>>
    requires |ext| == 4
  {
    if fs == [] then acc
    else match MatchFrom(acc, fs[..|fs| - 1], v, ext)
      case Err(e) => Err(e)
      case Ok(m) =>
        var f := fs[|fs| - 1];
        match FileFilter(v, ext, f.name)
        case Err(e) => Err(e)
        case Ok(keep) => Ok(if keep then m + [PathJoin(f.dir, f.name)] else m)
  }

  /** The value `list_files(dir_filter, file_filter)` returns for a corpus
      rooted at `root` with children `tree`. */
  function ListFilesSpec(root: Path, tree: seq<Node>, v: Variant, ext: string): Result<seq<Path>>
    requires |ext| == 4
  {
    MatchFrom(Ok([]), Visited(Walk(root, tree), v), v, ext)
  }

  /** Filtering the concatenation of two runs of visited files is filtering
      the first, then the second from where the first left off. */
  lemma {:induction false} MatchFromAppend(acc: Result<seq<Path>>, a: seq<Found>, b: seq<Found>, v: Variant, ext: string)
    requires |ext| == 4
    ensures MatchFrom(acc, a + b, v, ext) == MatchFrom(MatchFrom(acc, a, v, ext), b, v, ext)
    decreases |b|
  {
    if b == [] {
      assert a + b == a;
    } else {
      assert (a + b)[..|a + b| - 1] == a + b[..|b| - 1];
      assert (a + b)[|a + b| - 1] == b[|b| - 1];
      MatchFromAppend(acc, a, b[..|b| - 1], v, ext);
    }
  }

  /** The innermost loop of `list_files`: `for f in files: if file_filter(f): matched.append(...)`. */
  method FilterFiles(acc: Result<seq<Path>>, e: WalkEntry, v: Variant, ext: string) returns (r: Result<seq<Path>>)
    requires |ext| == 4
    ensures r == MatchFrom(acc, EntryFiles(e), v, ext)
  {
    r := acc;
    var l := 0;
    while l < |e.files|
      invariant 0 <= l <= |e.files|
      invariant r == MatchFrom(acc, EntryFiles(e)[..l], v, ext)
    {
      assert EntryFiles(e)[..l + 1][..l] == EntryFiles(e)[..l];
      if r.Ok? {
        var keep := FileFilter(v, ext, e.files[l]);
        if keep.Err? {
          r := Err(keep.error);
        } else if keep.value {
          r := Ok(r.value + [PathJoin(e.path, e.files[l])]);
        }
      }
      l := l + 1;
    }
    assert EntryFiles(e)[..|e.files|] == EntryFiles(e);
  }

  /** The walk of one selected sub-directory: `for d_path, _, files in os.walk(join(dirpath, d))`. */
  method FilterWalk(acc: Result<seq<Path>>, sub: seq<WalkEntry>, v: Variant, ext: string) returns (r: Result<seq<Path>>)
    requires |ext| == 4
    ensures r == MatchFrom(acc, WalkFiles(sub), v, ext)
  {
    r := acc;
    var k := 0;
    while k < |sub|
      invariant 0 <= k <= |sub|
      invariant r == MatchFrom(acc, WalkFiles(sub[..k]), v, ext)
    {
      assert sub[..k + 1] == sub[..k] + [sub[k]];
      FlattenSnoc(EntryFiles, sub[..k], sub[k]);
      MatchFromAppend(acc, WalkFiles(sub[..k]), EntryFiles(sub[k]), v, ext);
      r := FilterFiles(r, sub[k], v, ext);
      k := k + 1;
    }
    assert sub[..|sub|] == sub;
  }

  /** One sub-directory of a walked directory: `if dir_filter(d): ...`. */
  method FilterDir(acc: Result<seq<Path>>, path: Path, d: Node, v: Variant, ext: string) returns (r: Result<seq<Path>>)
    requires |ext| == 4
    ensures r == MatchFrom(acc, DirVisit(path, d, v), v, ext)
  {
    if d.Dir? && DirFilter(v, d.name) {
      r := FilterWalk(acc, Walk(PathJoin(path, d.name), d.children), v, ext);
    } else {
      r := acc;
    }
  }

  /** The sub-directories of one walked directory: `for d in dirs: if dir_filter(d): ...`. */
  method FilterDirs(acc: Result<seq<Path>>, path: Path, dirs: seq<Node>, v: Variant, ext: string)
    returns (r: Result<seq<Path>>)
    requires |ext| == 4
    ensures r == MatchFrom(acc, DirVisits(path, dirs, v), v, ext)
  {
    r := acc;
    var j := 0;
    while j < |dirs|
      invariant 0 <= j <= |dirs|
      invariant r == MatchFrom(acc, DirVisits(path, dirs[..j], v), v, ext)
    {
      assert dirs[..j + 1] == dirs[..j] + [dirs[j]];
      DirVisitsSnoc(path, dirs[..j], dirs[j], v);
      MatchFromAppend(acc, DirVisits(path, dirs[..j], v), DirVisit(path, dirs[j], v), v, ext);
      r := FilterDir(r, path, dirs[j], v, ext);
      j := j + 1;
    }
    assert dirs[..|dirs|] == dirs;
  }

  /** `list_files`: for each directory the walk meets, for each of its
      sub-directories that passes the directory filter, walk that
      sub-directory and collect the files that pass the file filter. */
  method ListFiles(root: Path, tree: seq<Node>, v: Variant, ext: string) returns (r: Result<seq<Path>>)
    requires |ext| == 4
    ensures r == ListFilesSpec(root, tree, v, ext)
  {
    r := FilterVisits(Walk(root, tree), v, ext);
  }

  /** The outer loop of `list_files`: `for dirpath, dirs, _ in os.walk(...)`. */
  method FilterVisits(walk: seq<WalkEntry>, v: Variant, ext: string) returns (r: Result<seq<Path>>)
    requires |ext| == 4
    ensures r == MatchFrom(Ok([]), Visited(walk, v), v, ext)
  {
    r := Ok([]);
    var i := 0;
    while i < |walk|
      invariant 0 <= i <= |walk|
      invariant r == MatchFrom(Ok([]), Visited(walk[..i], v), v, ext)
    {
      MatchVisitedStep(walk, i, v, ext);
      r := FilterDirs(r, walk[i].path, walk[i].dirs, v, ext);
      i := i + 1;
    }
    assert walk[..|walk|] == walk;
  }

  /** Filtering what one more walk entry visits continues from the filter
      of what the entries before it visit. */
  lemma MatchVisitedStep(walk: seq<WalkEntry>, i: nat, v: Variant, ext: string)
    requires |ext| == 4 && i < |walk|
    ensures MatchFrom(Ok([]), Visited(walk[..i + 1], v), v, ext) ==
      MatchFrom(MatchFrom(Ok([]), Visited(walk[..i], v), v, ext), DirVisits(walk[i].path, walk[i].dirs, v), v, ext)
  {
    assert walk[..i + 1] == walk[..i] + [walk[i]];
    VisitedSnoc(walk[..i], walk[i], v);
    MatchFromAppend(Ok([]), Visited(walk[..i], v), DirVisits(walk[i].path, walk[i].dirs, v), v, ext);
  }

  // ---------------------------------------------------------------------
  // What is listed, independently of the walk order

  /** The files of the tree below `path` that lie inside some directory, at
      any depth strictly below the corpus root, whose name passes the
      directory filter; `inside` says whether such a directory has already
      been entered on the way down to `path`. */
  function RefSet(path: Path, ch: seq<Node>, v: Variant, inside: bool): set<Found>
    decreases ch, 1
  {
    (if inside then (set f | f in FileNames(ch) :: Found(path, f)) else {}) + RefList(path, ch, v, inside)
  }

  function RefList(path: Path, ch: seq<Node>, v: Variant, inside: bool): set<Found>
    decreases ch, 0
  {
    if ch == [] then {} else HeadRef(path, ch[0], v, inside) + RefList(path, ch[1..], v, inside)
  }

  /** The reference set below one child of `path`: nothing for a file; a
      directory is entered as selected if it passes the directory filter. */
  function HeadRef(path: Path, d: Node, v: Variant, inside: bool): set<Found>
    decreases d, 2
  {
    match d case File(_) => {} case Dir(n, c) => RefSet(PathJoin(path, n), c, v, inside || DirFilter(v, n))
  }

  /** The files of a run, regardless of order and repetition. */
  function Members(fs: seq<Found>): set<Found>
  {
    set f | f in fs
  }

  lemma WalkFilesAppend(a: seq<WalkEntry>, b: seq<WalkEntry>)
    ensures WalkFiles(a + b) == WalkFiles(a) + WalkFiles(b)
  {
    FlattenAppend(EntryFiles, a, b);
  }

  lemma VisitedAppend(a: seq<WalkEntry>, b: seq<WalkEntry>, v: Variant)
    ensures Visited(a + b, v) == Visited(a, v) + Visited(b, v)
  {
    FlattenAppend(VisitsOf(v), a, b);
  }

  /** Visiting one more walk entry appends what its sub-directories visit. */
  lemma VisitedSnoc(es: seq<WalkEntry>, e: WalkEntry, v: Variant)
    ensures Visited(es + [e], v) == Visited(es, v) + DirVisits(e.path, e.dirs, v)
  {
    FlattenSnoc(VisitsOf(v), es, e);
  }

  lemma {:induction false} FlattenAppend<T>(f: T -> seq<Found>, a: seq<T>, b: seq<T>)
    ensures Flatten(f, a + b) == Flatten(f, a) + Flatten(f, b)
    decreases |b|
  {
    if b == [] {
      assert a + b == a;
    } else {
      assert (a + b)[..|a + b| - 1] == a + b[..|b| - 1];
      FlattenAppend(f, a, b[..|b| - 1]);
    }
  }

  lemma FlattenSnoc<T>(f: T -> seq<Found>, xs: seq<T>, x: T)
    ensures Flatten(f, xs + [x]) == Flatten(f, xs) + f(x)
  {
    assert (xs + [x])[..|xs|] == xs;
  }

  lemma FlattenOne<T>(f: T -> seq<Found>, x: T)
    ensures Flatten(f, [x]) == f(x)
  {
    assert [x][..0] == [];
  }

  lemma DirVisitsAppend(path: Path, a: seq<Node>, b: seq<Node>, v: Variant)
    ensures DirVisits(path, a + b, v) == DirVisits(path, a, v) + DirVisits(path, b, v)
  {
    FlattenAppend(VisitOf(path, v), a, b);
  }

  /** The files of a single walk entry, as a set. */
  lemma EntryFilesSet(e: WalkEntry)
    ensures Members(EntryFiles(e)) == set f | f in e.files :: Found(e.path, f)
  {
    forall x | x in Members(EntryFiles(e)) ensures x in set f | f in e.files :: Found(e.path, f) {
      var i :| 0 <= i < |EntryFiles(e)| && EntryFiles(e)[i] == x;
      assert e.files[i] in e.files;
    }
    forall x | x in set f | f in e.files :: Found(e.path, f) ensures x in Members(EntryFiles(e)) {
      var f :| f in e.files && x == Found(e.path, f);
      var i :| 0 <= i < |e.files| && e.files[i] == f;
      assert EntryFiles(e)[i] == x;
    }
  }

  /** Walking a directory meets each file below it, and only those. */
  lemma {:induction false} WalkFilesIsRefSet(path: Path, ch: seq<Node>, v: Variant)
    ensures Members(WalkFiles(Walk(path, ch))) == RefSet(path, ch, v, true)
    decreases ch, 1
  {
    var e := WalkEntry(path, SubDirs(ch), FileNames(ch));
    WalkFilesAppend([e], WalkChildren(path, ch));
    FlattenOne(EntryFiles, e);
    EntryFilesSet(e);
    WalkChildrenFilesIsRefList(path, ch, v);
  }

  lemma {:induction false} WalkChildrenFilesIsRefList(path: Path, ch: seq<Node>, v: Variant)
    ensures Members(WalkFiles(WalkChildren(path, ch))) == RefList(path, ch, v, true)
    decreases ch, 0
  {
    if ch != [] {
      var head := match ch[0] case File(_) => [] case Dir(n, c) => Walk(PathJoin(path, n), c);
      WalkFilesAppend(head, WalkChildren(path, ch[1..]));
      WalkChildrenFilesIsRefList(path, ch[1..], v);
      match ch[0]
      case File(_) =>
      case Dir(n, c) =>
        WalkFilesIsRefSet(PathJoin(path, n), c, v);
    }
  }

  /** Having entered a selected directory can only add files. */
  lemma {:induction false} RefSetMonotone(path: Path, ch: seq<Node>, v: Variant)
    ensures RefSet(path, ch, v, false) <= RefSet(path, ch, v, true)
    decreases ch, 1
  {
    RefListMonotone(path, ch, v);
  }

  lemma {:induction false} RefListMonotone(path: Path, ch: seq<Node>, v: Variant)
    ensures RefList(path, ch, v, false) <= RefList(path, ch, v, true)
    decreases ch, 0
  {
    if ch != [] {
      RefListMonotone(path, ch[1..], v);
      match ch[0]
      case File(_) =>
      case Dir(n, c) =>
        if !DirFilter(v, n) {
          RefSetMonotone(PathJoin(path, n), c, v);
        }
    }
  }

  /** What the loops of `list_files` visit below `path` is the reference set:
      files inside a selected directory strictly below `path`. */
  lemma {:induction false} VisitedIsRefSet(path: Path, ch: seq<Node>, v: Variant)
    ensures Members(Visited(Walk(path, ch), v)) == RefSet(path, ch, v, false)
    decreases ch, 1
  {
    var e := WalkEntry(path, SubDirs(ch), FileNames(ch));
    VisitedAppend([e], WalkChildren(path, ch), v);
    FlattenOne(VisitsOf(v), e);
    VisitedChildrenIsRefList(path, ch, v);
  }

  lemma {:induction false} VisitedChildrenIsRefList(path: Path, ch: seq<Node>, v: Variant)
    ensures Members(DirVisits(path, SubDirs(ch), v)) + Members(Visited(WalkChildren(path, ch), v)) == RefList(path, ch, v, false)
    decreases ch, 0
  {
    if ch != [] {
      var first := if ch[0].Dir? then [ch[0]] else [];
      var head := HeadWalk(path, ch[0]);
      var restDirs := DirVisits(path, SubDirs(ch[1..]), v);
      var restWalk := Visited(WalkChildren(path, ch[1..]), v);
      assert SubDirs(ch) == first + SubDirs(ch[1..]);
      assert WalkChildren(path, ch) == head + WalkChildren(path, ch[1..]);
      DirVisitsAppend(path, first, SubDirs(ch[1..]), v);
      VisitedAppend(head, WalkChildren(path, ch[1..]), v);
      VisitedChildrenIsRefList(path, ch[1..], v);
      HeadIsRefSet(path, ch[0], v);
      MembersAppend(DirVisits(path, first, v), restDirs);
      MembersAppend(Visited(head, v), restWalk);
    }
  }

  lemma MembersAppend(a: seq<Found>, b: seq<Found>)
    ensures Members(a + b) == Members(a) + Members(b)
  {
  }

  /** One child of a directory contributes, to the files `list_files` visits,
      its reference set, entered if the child itself passes the directory filter. */
  lemma HeadIsRefSet(path: Path, d: Node, v: Variant)
    ensures Members(DirVisits(path, if d.Dir? then [d] else [], v)) + Members(Visited(HeadWalk(path, d), v)) ==
      HeadRef(path, d, v, false)
    decreases d, 2
  {
    match d
    case File(_) =>
      assert DirVisits(path, [], v) == [];
      assert Visited([], v) == [];
    case Dir(n, c) =>
      DirVisitsOne(path, d, v);
      VisitedIsRefSet(PathJoin(path, n), c, v);
      if DirFilter(v, n) {
        WalkFilesIsRefSet(PathJoin(path, n), c, v);
        RefSetMonotone(PathJoin(path, n), c, v);
      }
  }

  /** The file filter over a run of visited files: it fails exactly when some
      file makes it raise, and otherwise keeps exactly the paths of the files
      it accepts. */
  lemma {:induction false} MatchFromMembers(fs: seq<Found>, v: Variant, ext: string)
    requires |ext| == 4
    ensures MatchFrom(Ok([]), fs, v, ext).Err? <==> exists f :: f in fs && FileFilter(v, ext, f.name).Err?
    ensures MatchFrom(Ok([]), fs, v, ext).Ok? ==>
      forall p :: p in MatchFrom(Ok([]), fs, v, ext).value <==>
        exists f :: f in fs && FileFilter(v, ext, f.name) == Ok(true) && p == PathJoin(f.dir, f.name)
    decreases |fs|
  {
    if fs != [] {
      var init := fs[..|fs| - 1];
      var last := fs[|fs| - 1];
      MatchFromMembers(init, v, ext);
      assert forall f :: f in fs <==> f in init || f == last by {
        assert fs == init + [last];
      }
    }
  }

  /** `list_files` fails exactly when a file of a selected directory has a
      name too short for the file pattern; otherwise it returns the path of
      every file inside a selected directory strictly below the corpus root
      that passes the file filter, and nothing else. Files lying directly in
      the root are never listed. */
  lemma ListedFiles(root: Path, tree: seq<Node>, v: Variant, ext: string)
    requires |ext| == 4
    ensures ListFilesSpec(root, tree, v, ext).Err? <==>
      exists f :: f in RefSet(root, tree, v, false) && FileFilter(v, ext, f.name).Err?
    ensures ListFilesSpec(root, tree, v, ext).Ok? ==>
      forall p :: p in ListFilesSpec(root, tree, v, ext).value <==>
        exists f :: f in RefSet(root, tree, v, false) && FileFilter(v, ext, f.name) == Ok(true) && p == PathJoin(f.dir, f.name)
  {
    VisitedIsRefSet(root, tree, v);
    MatchFromMembers(Visited(Walk(root, tree), v), v, ext);
  }

  /** The walk of a directory whose only child is the directory `n`. */
  lemma WalkOneDir(path: Path, n: string, c: seq<Node>)
    ensures Walk(path, [Dir(n, c)]) == [WalkEntry(path, [Dir(n, c)], [])] + Walk(PathJoin(path, n), c)
  {
    var ch := [Dir(n, c)];
    assert ch[1..] == [];
    assert SubDirs(ch) == ch;
    assert FileNames(ch) == [];
    assert WalkChildren(path, ch) == HeadWalk(path, ch[0]) + WalkChildren(path, []);
  }

  /** The walk of a directory whose only child is the file `x`. */
  lemma WalkOneFile(path: Path, x: string)
    ensures Walk(path, [File(x)]) == [WalkEntry(path, [], [x])]
  {
    var ch := [File(x)];
    assert ch[1..] == [];
    assert SubDirs(ch) == [];
    assert FileNames(ch) == [x];
    assert WalkChildren(path, ch) == HeadWalk(path, ch[0]) + WalkChildren(path, []);
  }

  lemma DirVisitsOne(path: Path, d: Node, v: Variant)
    ensures DirVisits(path, [d], v) == DirVisit(path, d, v)
  {
    FlattenOne(VisitOf(path, v), d);
  }

  /** Visiting one more sub-directory appends what it visits. */
  lemma DirVisitsSnoc(path: Path, ds: seq<Node>, d: Node, v: Variant)
    ensures DirVisits(path, ds + [d], v) == DirVisits(path, ds, v) + DirVisit(path, d, v)
  {
    FlattenSnoc(VisitOf(path, v), ds, d);
  }

  /** The walk of `root/a/b/x`: one entry per directory. */
  lemma NestedWalk(root: Path, a: string, b: string, x: string)
    ensures var pa := PathJoin(root, a); var pb := PathJoin(pa, b);
      Walk(root, [Dir(a, [Dir(b, [File(x)])])]) ==
        [WalkEntry(root, [Dir(a, [Dir(b, [File(x)])])], []),
         WalkEntry(pa, [Dir(b, [File(x)])], []),
         WalkEntry(pb, [], [x])]
  {
    var pa := PathJoin(root, a);
    var pb := PathJoin(pa, b);
    WalkOneFile(pb, x);
    WalkOneDir(pa, b, [File(x)]);
    WalkOneDir(root, a, [Dir(b, [File(x)])]);
  }

  /** The files `list_files` visits when walking `root/a/b/x` with `a` and
      `b` both selected. */
  lemma NestedVisits(root: Path, a: string, b: string, x: string, v: Variant)
    requires DirFilter(v, a) && DirFilter(v, b)
    ensures var pb := PathJoin(PathJoin(root, a), b);
      Visited(Walk(root, [Dir(a, [Dir(b, [File(x)])])]), v) == [Found(pb, x), Found(pb, x)]
  {
    var inner := [Dir(b, [File(x)])];
    var tree := [Dir(a, inner)];
    var pa := PathJoin(root, a);
    var pb := PathJoin(pa, b);
    NestedWalk(root, a, b, x);
    VisitedThree(WalkEntry(root, tree, []), WalkEntry(pa, inner, []), WalkEntry(pb, [], [x]), v);
    OuterVisits(root, a, b, x, v);
    InnerVisits(pa, b, x, v);
    assert DirVisits(pb, [], v) == [];
  }

  /** Walking the selected `a` of `root/a/b/x` visits `x` once. */
  lemma OuterVisits(root: Path, a: string, b: string, x: string, v: Variant)
    requires DirFilter(v, a)
    ensures DirVisits(root, [Dir(a, [Dir(b, [File(x)])])], v) == [Found(PathJoin(PathJoin(root, a), b), x)]
  {
    var pa := PathJoin(root, a);
    var ea := WalkEntry(pa, [Dir(b, [File(x)])], []);
    var eb := WalkEntry(PathJoin(pa, b), [], [x]);
    SelectedDirVisits(root, a, [Dir(b, [File(x)])], v);
    WalkOneFile(PathJoin(pa, b), x);
    WalkOneDir(pa, b, [File(x)]);
    assert Walk(pa, [Dir(b, [File(x)])]) == [ea, eb];
    FileOnlyWalkFiles(ea, eb);
    OneEntryFiles(eb);
  }

  /** Walking the selected `b` of `pa/b/x` visits `x` once. */
  lemma InnerVisits(pa: Path, b: string, x: string, v: Variant)
    requires DirFilter(v, b)
    ensures DirVisits(pa, [Dir(b, [File(x)])], v) == [Found(PathJoin(pa, b), x)]
  {
    SelectedDirVisits(pa, b, [File(x)], v);
    WalkOneFile(PathJoin(pa, b), x);
    OneEntryFiles(WalkEntry(PathJoin(pa, b), [], [x]));
  }

  /** The files of a walk of one entry holding one file. */
  lemma OneEntryFiles(e: WalkEntry)
    requires |e.files| == 1
    ensures WalkFiles([e]) == [Found(e.path, e.files[0])]
  {
    FlattenOne(EntryFiles, e);
  }

  /** The files visited from a walk of three entries. */
  lemma VisitedThree(e1: WalkEntry, e2: WalkEntry, e3: WalkEntry, v: Variant)
    ensures Visited([e1, e2, e3], v) ==
      DirVisits(e1.path, e1.dirs, v) + DirVisits(e2.path, e2.dirs, v) + DirVisits(e3.path, e3.dirs, v)
  {
    assert [e1, e2, e3] == [e1, e2] + [e3] && [e1, e2] == [e1] + [e2];
    VisitedAppend([e1, e2], [e3], v);
    VisitedAppend([e1], [e2], v);
    SingleVisit(e1, v);
    SingleVisit(e2, v);
    SingleVisit(e3, v);
  }

  /** A selected directory is walked. */
  lemma SelectedDirVisits(path: Path, n: string, c: seq<Node>, v: Variant)
    requires DirFilter(v, n)
    ensures DirVisits(path, [Dir(n, c)], v) == WalkFiles(Walk(PathJoin(path, n), c))
  {
    DirVisitsOne(path, Dir(n, c), v);
  }

  /** An entry without files adds nothing to the files of a walk. */
  lemma FileOnlyWalkFiles(e: WalkEntry, f: WalkEntry)
    requires e.files == []
    ensures WalkFiles([e, f]) == WalkFiles([f])
  {
    assert [e, f] == [e] + [f];
    FlattenSnoc(EntryFiles, [e], f);
    FlattenOne(EntryFiles, e);
    FlattenOne(EntryFiles, f);
  }

  lemma SingleVisit(e: WalkEntry, v: Variant)
    ensures Visited([e], v) == DirVisits(e.path, e.dirs, v)
  {
    FlattenOne(VisitsOf(v), e);
  }

  /** Filtering a single visited file the filter accepts lists its path. */
  lemma MatchOne(found: Found, v: Variant, ext: string)
    requires |ext| == 4 && FileFilter(v, ext, found.name) == Ok(true)
    ensures MatchFrom(Ok([]), [found], v, ext) == Ok([PathJoin(found.dir, found.name)])
  {
    var fs := [found];
    var acc: Result<seq<Path>> := Ok([]);
    var m: seq<Path> := [];
    assert fs[..|fs| - 1] == [] && fs[|fs| - 1] == found;
    assert MatchFrom(acc, fs[..|fs| - 1], v, ext) == Ok(m);
    assert MatchFrom(acc, fs, v, ext) == Ok(m + [PathJoin(found.dir, found.name)]);
    assert m + [PathJoin(found.dir, found.name)] == [PathJoin(found.dir, found.name)];
  }

  /** A selected directory inside a selected directory is walked twice, so
      its files are listed twice: once from each selected ancestor. */
  lemma NestedSelectionListsTwice(root: Path, a: string, b: string, x: string, v: Variant, ext: string)
    requires |ext| == 4 && DirFilter(v, a) && DirFilter(v, b) && FileFilter(v, ext, x) == Ok(true)
    ensures var p := PathJoin(PathJoin(PathJoin(root, a), b), x);
      ListFilesSpec(root, [Dir(a, [Dir(b, [File(x)])])], v, ext) == Ok([p, p])
  {
    NestedVisits(root, a, b, x, v);
    var found := Found(PathJoin(PathJoin(root, a), b), x);
    var p := PathJoin(found.dir, x);
    MatchOne(found, v, ext);
    var none: Result<seq<Path>> := Ok([]);
    assert MatchFrom(none, [found], v, ext) == Ok([p]);
    MatchFromAppend(none, [found], [found], v, ext);
    var acc: Result<seq<Path>> := Ok([p]);
    var fs := [found];
    assert fs[..|fs| - 1] == [] && fs[|fs| - 1] == found;
    assert MatchFrom(acc, fs[..|fs| - 1], v, ext) == Ok([p]);
    assert MatchFrom(acc, fs, v, ext) == Ok([p] + [p]);
    assert [found] + [found] == [found, found] && [p] + [p] == [p, p];
    assert MatchFrom(none, [found] + [found], v, ext) == MatchFrom(acc, [found], v, ext);
    assert MatchFrom(none, [found, found], v, ext) == Ok([p, p]);
  }
}
