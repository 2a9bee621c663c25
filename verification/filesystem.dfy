/** The part of the operating system the preparators touch: a set of
    directories and a map from file paths to their lines, with the `os` and
    `shutil` calls that change them (`os.makedirs`, `shutil.rmtree`, and
    `open(path, 'w')` followed by `write` calls). */
module FileSystems {
  import opened Results
  import opened Text

  /** A state of the file system. */
  datatype Fs = Fs(dirs: set<Path>, files: map<Path, seq<string>>)

  /** A state change and the outcome of the call that made it. */
  datatype After = After(fs: Fs, outcome: Outcome)

  /** `os.path.exists(p)`. */
  predicate Exists(s: Fs, p: Path)
  {
    p in s.dirs || p in s.files
  }

  /** The proper ancestors of `p`: its prefixes that end just before a slash. */
  function Ancestors(p: Path): (r: set<Path>)
    ensures forall a :: a in r ==> StartsWith(p, a) && 0 < |a| < |p| && p[|a|] == '/'
  {
    set k | 0 < k < |p| && p[k] == '/' :: p[..k]
  }

  /** `q` is `p` or lies below it. */
  predicate Under(q: Path, p: Path)
  {
    q == p || StartsWith(q, p + "/")
  }

  /** Nothing is both a file and a directory, and the ancestors of every
      existing path are directories. */
  ghost predicate WellFormed(s: Fs)
  {
    (forall q :: q in s.dirs ==> q !in s.files) &&
    (forall q, a :: Exists(s, q) && a in Ancestors(q) ==> a in s.dirs)
  }

  /** `os.makedirs(p)`: OSError when `p` exists or one of its ancestors is a
      file; otherwise `p` and all its ancestors are directories afterwards. */
  function MakeDirsSpec(s: Fs, p: Path): (r: After)
    ensures r.outcome.Fail? <==> Exists(s, p) || exists a :: a in Ancestors(p) && a in s.files
    ensures r.outcome.Fail? ==> r == After(s, Fail(OSError(p)))
    ensures r.outcome.Pass? ==>
      r.fs.files == s.files && p in r.fs.dirs && Ancestors(p) <= r.fs.dirs &&
      forall q :: q in r.fs.dirs <==> q in s.dirs || q == p || q in Ancestors(p)
  {
    if Exists(s, p) || exists a :: a in Ancestors(p) && a in s.files then After(s, Fail(OSError(p)))
    else After(Fs(s.dirs + {p} + Ancestors(p), s.files), Pass)
  }

  /** `shutil.rmtree(p)`: OSError when `p` is not a directory; otherwise
      `p` and everything below it is gone and nothing else changes. */
  function RemoveTreeSpec(s: Fs, p: Path): (r: After)
    ensures r.outcome.Fail? <==> p !in s.dirs
    ensures r.outcome.Fail? ==> r == After(s, Fail(OSError(p)))
    ensures r.outcome.Pass? ==>
      (forall q :: q in r.fs.dirs <==> q in s.dirs && !Under(q, p)) &&
      (forall q :: q in r.fs.files <==> q in s.files && !Under(q, p)) &&
      (forall q :: q in r.fs.files ==> r.fs.files[q] == s.files[q])
  {
    if p !in s.dirs then After(s, Fail(OSError(p)))
    else After(Fs(set q | q in s.dirs && !Under(q, p), map q | q in s.files && !Under(q, p) :: s.files[q]), Pass)
  }

  // ---------------------------------------------------------------------
  // Facts about paths

  lemma AncestorsTransitive(p: Path, a: Path, b: Path)
    requires a in Ancestors(p) && b in Ancestors(a)
    ensures b in Ancestors(p)
  {
    assert p[..|a|] == a && a[..|b|] == b;
    assert p[..|b|] == b && p[|b|] == '/';
  }

  /** A path below `p` has `p` among its ancestors. */
  lemma BelowHasAncestor(q: Path, p: Path)
    requires p != "" && StartsWith(q, p + "/")
    ensures p in Ancestors(q)
  {
    assert q[..|p|] == p && q[|p|] == '/';
  }

  /** An ancestor of a path below `out` is an ancestor of `out`, `out` itself,
      or below `out`. */
  lemma AncestorsBelow(out: Path, q: Path)
    requires StartsWith(q, out + "/")
    ensures forall a :: a in Ancestors(q) ==> a in Ancestors(out) || Under(a, out)
  {
    forall a | a in Ancestors(q) ensures a in Ancestors(out) || Under(a, out) {
      var k := |a|;
      if k < |out| {
        assert out[..k] == q[..k] == a && out[k] == q[k] == '/';
      } else if k > |out| {
        assert a[..|out| + 1] == q[..|out| + 1] == out + "/";
      } else {
        assert a == q[..k] == out;
      }
    }
  }

  /** In a well-formed state nothing exists below a path that does not exist. */
  lemma NothingBelowMissing(s: Fs, out: Path)
    requires WellFormed(s) && out != "" && !Exists(s, out)
    ensures forall q :: Under(q, out) ==> !Exists(s, q)
  {
    forall q | Under(q, out) ensures !Exists(s, q) {
      if q != out && Exists(s, q) {
        BelowHasAncestor(q, out);
      }
    }
  }

  // ---------------------------------------------------------------------
  // The changes keep the state well formed

  lemma MakeDirsWellFormed(s: Fs, p: Path)
    requires WellFormed(s)
    ensures WellFormed(MakeDirsSpec(s, p).fs)
  {
    var r := MakeDirsSpec(s, p);
    if r.outcome.Pass? {
      forall q, a | Exists(r.fs, q) && a in Ancestors(q) ensures a in r.fs.dirs {
        if q in Ancestors(p) {
          AncestorsTransitive(p, q, a);
        }
      }
    }
  }

  lemma RemoveTreeWellFormed(s: Fs, p: Path)
    requires WellFormed(s)
    ensures WellFormed(RemoveTreeSpec(s, p).fs)
  {
    var r := RemoveTreeSpec(s, p);
    if r.outcome.Pass? {
      forall q, a | Exists(r.fs, q) && a in Ancestors(q) ensures a in r.fs.dirs {
        assert Exists(s, q) && !Under(q, p);
      }
    }
  }

  // ---------------------------------------------------------------------
  // The file system as an object the preparators update in place

  class FileSystem {
    var dirs: set<Path>
    var files: map<Path, seq<string>>

    function State(): Fs
      reads this
    {
      Fs(dirs, files)
    }

    constructor (s: Fs)
      ensures State() == s
    {
      dirs := s.dirs;
      files := s.files;
    }

    method MakeDirs(p: Path) returns (o: Outcome)
      modifies this
      ensures After(State(), o) == MakeDirsSpec(old(State()), p)
    {
      if p in dirs || p in files || exists a :: a in Ancestors(p) && a in files {
        o := Fail(OSError(p));
      } else {
        dirs := dirs + {p} + Ancestors(p);
        o := Pass;
      }
    }

    method RemoveTree(p: Path) returns (o: Outcome)
      modifies this
      ensures After(State(), o) == RemoveTreeSpec(old(State()), p)
    {
      if p !in dirs {
        o := Fail(OSError(p));
      } else {
        dirs := set q | q in dirs && !Under(q, p);
        files := map q | q in files && !Under(q, p) :: files[q];
        o := Pass;
      }
    }

    /** `open(p, 'w')`: the file exists afterwards and is empty. */
    method Open(p: Path)
      modifies this
      ensures State() == Fs(old(dirs), old(files)[p := []])
    {
      files := files[p := []];
    }

    /** `out.write(line)` on a file opened for writing. */
    method Write(p: Path, line: string)
      requires p in files
      modifies this
      ensures State() == Fs(old(dirs), old(files)[p := old(files)[p] + [line]])
    {
      files := files[p := files[p] + [line]];
    }
  }
}
