/** `AbstractPreparator`: the output layout every corpus preparator creates
    on construction, the fixed order of the preparation steps, the stubs of
    the steps a corpus must implement, and the phone inventory writer. */
module Preparation {
  import opened Results
  import opened Text
  import opened FileSystems

  // ---------------------------------------------------------------------
  // Output layout

  /** The paths a preparator fixes on construction. */
  datatype Layout = Layout(
    name: string,
    inputDir: Path,
    outputDir: Path,
    dataDir: Path,
    wavsDir: Path,
    segmentsFile: Path,
    speakerFile: Path,
    transcriptionFile: Path,
    lexiconFile: Path,
    phonesFile: Path,
    variantsFile: Path,
    silencesFile: Path,
    logsDir: Path)

  /** The fixed names of the seven manifests, in the order the paths are set. */
  const ManifestNames: seq<string> :=
    ["segments.txt", "utt2spk.txt", "text.txt", "lexicon.txt", "phones.txt", "variants.txt", "silences.txt"]

  /** The output directory: the given one, or `DEFAULT_OUTPUT_DIR/name`. */
  function OutputDir(name: string, outputDir: Option<Path>, defaultOutputDir: Path): Path
  {
    match outputDir
    case None => PathJoin(defaultOutputDir, name)
    case Some(d) => d
  }

  function LayoutOf(name: string, inputDir: Path, out: Path): Layout
  {
    var data := PathJoin(out, "data");
    Layout(name, inputDir, out, data, PathJoin(data, "wavs"),
      PathJoin(data, ManifestNames[0]), PathJoin(data, ManifestNames[1]), PathJoin(data, ManifestNames[2]),
      PathJoin(data, ManifestNames[3]), PathJoin(data, ManifestNames[4]), PathJoin(data, ManifestNames[5]),
      PathJoin(data, ManifestNames[6]), PathJoin(out, "logs"))
  }

  function Manifests(l: Layout): seq<Path>
  {
    [l.segmentsFile, l.speakerFile, l.transcriptionFile, l.lexiconFile, l.phonesFile, l.variantsFile, l.silencesFile]
  }

  /** An absolute, normalised directory path: not empty and without a final slash. */
  predicate Plain(p: Path)
  {
    p != "" && p[|p| - 1] != '/'
  }

  lemma JoinPlain(dir: Path, name: string)
    requires Plain(dir) && name != "" && name[0] != '/'
    ensures PathJoin(dir, name) == dir + "/" + name
  {
    assert !StartsWith(name, "/") by {
      assert name[..1] != "/";
    }
  }

  /** Below a plain output directory, `data`, `data/wavs` and `logs` are
      `out/data`, `out/data/wavs` and `out/logs`. */
  lemma LayoutDirs(name: string, inputDir: Path, out: Path)
    requires Plain(out)
    ensures var l := LayoutOf(name, inputDir, out);
      l.dataDir == out + "/data" && l.wavsDir == out + "/data/wavs" && l.logsDir == out + "/logs"
  {
    JoinPlain(out, "data");
    JoinPlain(out, "logs");
    var data := out + "/data";
    assert Plain(data);
    JoinPlain(data, "wavs");
    assert data + "/" + "wavs" == out + "/data/wavs";
  }

  /** Every manifest is `<data>/<name>` with its fixed base name. */
  lemma ManifestPath(name: string, inputDir: Path, out: Path, k: nat)
    requires Plain(out) && k < 7
    ensures var l := LayoutOf(name, inputDir, out);
      |Manifests(l)| == 7 && Manifests(l)[k] == l.dataDir + "/" + ManifestNames[k] &&
      Basename(Manifests(l)[k]) == ManifestNames[k]
  {
    var l := LayoutOf(name, inputDir, out);
    LayoutDirs(name, inputDir, out);
    var n := ManifestNames[k];
    ManifestNameShape(k);
    ManifestIsJoin(name, inputDir, out, k);
    assert Plain(l.dataDir);
    JoinPlain(l.dataDir, n);
    BasenameOfJoin(l.dataDir, n);
  }

  lemma ManifestNameShape(k: nat)
    requires k < 7
    ensures ManifestNames[k] != "" && ManifestNames[k][0] != '/' && '/' !in ManifestNames[k]
  {
  }

  lemma ManifestIsJoin(name: string, inputDir: Path, out: Path, k: nat)
    requires k < 7
    ensures var l := LayoutOf(name, inputDir, out);
      |Manifests(l)| == 7 && Manifests(l)[k] == PathJoin(l.dataDir, ManifestNames[k])
  {
    var l := LayoutOf(name, inputDir, out);
    var m := Manifests(l);
    var data := l.dataDir;
    if k == 0 { assert m[0] == PathJoin(data, ManifestNames[0]); }
    else if k == 1 { assert m[1] == PathJoin(data, ManifestNames[1]); }
    else if k == 2 { assert m[2] == PathJoin(data, ManifestNames[2]); }
    else if k == 3 { assert m[3] == PathJoin(data, ManifestNames[3]); }
    else if k == 4 { assert m[4] == PathJoin(data, ManifestNames[4]); }
    else if k == 5 { assert m[5] == PathJoin(data, ManifestNames[5]); }
    else { assert m[6] == PathJoin(data, ManifestNames[6]); }
  }

  lemma ManifestNamesDistinct()
    ensures forall j, k :: 0 <= j < k < 7 ==> ManifestNames[j] != ManifestNames[k]
  {
    assert forall k :: 0 <= k < 7 && k != 0 && k != 6 ==> ManifestNames[k][0] != 's';
    assert ManifestNames[0][1] != ManifestNames[6][1];
  }

  /** The seven manifests are distinct files. */
  lemma ManifestsDistinct(name: string, inputDir: Path, out: Path)
    requires Plain(out)
    ensures var l := LayoutOf(name, inputDir, out);
      |Manifests(l)| == 7 && forall j, k :: 0 <= j < k < 7 ==> Manifests(l)[j] != Manifests(l)[k]
  {
    var l := LayoutOf(name, inputDir, out);
    ManifestNamesDistinct();
    forall j, k | 0 <= j < k < 7 ensures Manifests(l)[j] != Manifests(l)[k] {
      ManifestPath(name, inputDir, out, j);
      ManifestPath(name, inputDir, out, k);
    }
  }

  // ---------------------------------------------------------------------
  // Construction

  /** The state after construction and either the layout or the exception. */
  datatype Created = Created(fs: Fs, layout: Result<Layout>)

  /** `AbstractPreparator.__init__`: IOError when the input directory does
      not exist; with `overwrite` the output directory is removed first (an
      OSError when it is not there), without it an existing output directory
      raises IOError; then `data/wavs` and `logs` are created under it. */
  function InitSpec(s: Fs, name: string, inputDir: Path, outputDir: Option<Path>,
                    defaultOutputDir: Path, overwrite: bool): (r: Created)
    ensures inputDir !in s.dirs ==> r == Created(s, Err(IOError(inputDir)))
    ensures var out := OutputDir(name, outputDir, defaultOutputDir);
      inputDir in s.dirs && !overwrite && Exists(s, out) ==> r == Created(s, Err(IOError(out)))
    ensures var out := OutputDir(name, outputDir, defaultOutputDir);
      inputDir in s.dirs && overwrite && out !in s.dirs ==> r == Created(s, Err(OSError(out)))
    ensures r.layout.Ok? ==> r.layout.value == LayoutOf(name, inputDir, OutputDir(name, outputDir, defaultOutputDir))
    ensures r.layout.Ok? ==> r.layout.value.wavsDir in r.fs.dirs && r.layout.value.logsDir in r.fs.dirs
  {
    if inputDir !in s.dirs then Created(s, Err(IOError(inputDir)))
    else
      var out := OutputDir(name, outputDir, defaultOutputDir);
      var cleared :=
        if overwrite then RemoveTreeSpec(s, out)
        else if Exists(s, out) then After(s, Fail(IOError(out)))
        else After(s, Pass);
      if cleared.outcome.Fail? then Created(cleared.fs, Err(cleared.outcome.error))
      else
        var l := LayoutOf(name, inputDir, out);
        var wavs := MakeDirsSpec(cleared.fs, l.wavsDir);
        if wavs.outcome.Fail? then Created(wavs.fs, Err(wavs.outcome.error))
        else
          var logs := MakeDirsSpec(wavs.fs, l.logsDir);
          if logs.outcome.Fail? then Created(logs.fs, Err(logs.outcome.error))
          else Created(logs.fs, Ok(l))
  }

  method Init(fs: FileSystem, name: string, inputDir: Path, outputDir: Option<Path>,
              defaultOutputDir: Path, overwrite: bool) returns (r: Result<Layout>)
    modifies fs
    ensures Created(fs.State(), r) == InitSpec(old(fs.State()), name, inputDir, outputDir, defaultOutputDir, overwrite)
  {
    if inputDir !in fs.dirs {
      return Err(IOError(inputDir));
    }
    var out := OutputDir(name, outputDir, defaultOutputDir);
    if overwrite {
      var o := fs.RemoveTree(out);
      if o.Fail? {
        return Err(o.error);
      }
    } else if out in fs.dirs || out in fs.files {
      return Err(IOError(out));
    }
    var l := LayoutOf(name, inputDir, out);
    var o := fs.MakeDirs(l.wavsDir);
    if o.Fail? {
      return Err(o.error);
    }
    o := fs.MakeDirs(l.logsDir);
    if o.Fail? {
      return Err(o.error);
    }
    r := Ok(l);
  }

  /** After `rmtree` of an existing output directory, or when it does not
      exist, nothing exists below it. */
  lemma ClearedOutput(s: Fs, out: Path, overwrite: bool)
    requires WellFormed(s) && out != ""
    requires if overwrite then out in s.dirs else !Exists(s, out)
    ensures var c := if overwrite then RemoveTreeSpec(s, out).fs else s;
      WellFormed(c) &&
      (forall q :: Under(q, out) ==> !Exists(c, q)) &&
      (forall q :: q in c.files <==> q in s.files && !Under(q, out)) &&
      (forall q :: q in c.files ==> c.files[q] == s.files[q])
  {
    if overwrite {
      RemoveTreeWellFormed(s, out);
    } else {
      NothingBelowMissing(s, out);
    }
  }

  /** `os.makedirs` of a path below an output directory below which nothing
      exists, and none of whose ancestors is a file, succeeds. */
  lemma MakeDirsBelow(c: Fs, out: Path, p: Path)
    requires StartsWith(p, out + "/")
    requires forall q :: Under(q, out) ==> !Exists(c, q)
    requires forall a :: a in Ancestors(out) ==> a !in c.files
    ensures MakeDirsSpec(c, p).outcome.Pass?
  {
    AncestorsBelow(out, p);
  }

  /** Creating `out/data/wavs` and then `out/logs` below an output directory
      below which nothing exists succeeds, creates `out/data` on the way and
      keeps the state well formed. */
  lemma MakeOutputDirs(c: Fs, out: Path)
    requires WellFormed(c) && Plain(out)
    requires forall q :: Under(q, out) ==> !Exists(c, q)
    requires forall a :: a in Ancestors(out) ==> a !in c.files
    ensures var w := MakeDirsSpec(c, out + "/data/wavs");
      var g := MakeDirsSpec(w.fs, out + "/logs");
      w.outcome.Pass? && g.outcome.Pass? && WellFormed(g.fs) && g.fs.files == c.files &&
      out + "/data" in g.fs.dirs && out + "/data/wavs" in g.fs.dirs && out + "/logs" in g.fs.dirs
  {
    var wavs := out + "/data/wavs";
    var logs := out + "/logs";
    OutputPaths(out);
    MakeDirsBelow(c, out, wavs);
    MakeDirsWellFormed(c, wavs);
    LogsAfterWavs(c, out);
    MakeDirsWellFormed(MakeDirsSpec(c, wavs).fs, logs);
    BelowHasAncestor(wavs, out + "/data");
  }

  /** Where `data/wavs` and `logs` lie relative to the output directory and to each other. */
  lemma OutputPaths(out: Path)
    requires Plain(out)
    ensures var wavs := out + "/data/wavs"; var logs := out + "/logs";
      StartsWith(wavs, out + "/") && StartsWith(logs, out + "/") && StartsWith(wavs, out + "/data" + "/") &&
      logs != wavs && logs !in Ancestors(wavs)
  {
    var wavs := out + "/data/wavs";
    var logs := out + "/logs";
    assert wavs[..|out| + 1] == out + "/";
    assert logs[..|out| + 1] == out + "/";
    assert wavs[..|out| + 6] == out + "/data" + "/";
    assert wavs[|out| + 1] != logs[|out| + 1];
  }

  /** Once `data/wavs` exists, `os.makedirs` of `logs` still succeeds. */
  lemma LogsAfterWavs(c: Fs, out: Path)
    requires Plain(out)
    requires forall q :: Under(q, out) ==> !Exists(c, q)
    requires forall a :: a in Ancestors(out) ==> a !in c.files
    requires MakeDirsSpec(c, out + "/data/wavs").outcome.Pass?
    ensures MakeDirsSpec(MakeDirsSpec(c, out + "/data/wavs").fs, out + "/logs").outcome.Pass?
  {
    var wavs := out + "/data/wavs";
    var logs := out + "/logs";
    var c2 := MakeDirsSpec(c, wavs).fs;
    OutputPaths(out);
    assert Under(logs, out);
    assert !Exists(c2, logs);
    AncestorsBelow(out, logs);
    forall a | a in Ancestors(logs) ensures a !in c2.files {
      assert a in Ancestors(out) || Under(a, out);
    }
  }

  /** Construction succeeds when the input directory exists, the output
      directory can be created (no ancestor of it is a file) and either
      exists with `overwrite` or does not exist without it. Afterwards
      `data`, `data/wavs` and `logs` are directories, no file remains below
      the output directory, and every other file is untouched. */
  lemma InitCreatesLayout(s: Fs, name: string, inputDir: Path, outputDir: Option<Path>,
                          defaultOutputDir: Path, overwrite: bool)
    requires WellFormed(s) && inputDir in s.dirs
    requires var out := OutputDir(name, outputDir, defaultOutputDir);
      Plain(out) && (forall a :: a in Ancestors(out) ==> a !in s.files) &&
      if overwrite then out in s.dirs else !Exists(s, out)
    ensures var out := OutputDir(name, outputDir, defaultOutputDir);
      var r := InitSpec(s, name, inputDir, outputDir, defaultOutputDir, overwrite);
      var l := LayoutOf(name, inputDir, out);
      r.layout == Ok(l) && WellFormed(r.fs) &&
      l.dataDir in r.fs.dirs && l.wavsDir in r.fs.dirs && l.logsDir in r.fs.dirs &&
      (forall q :: q in r.fs.files <==> q in s.files && !Under(q, out)) &&
      (forall q :: q in r.fs.files ==> r.fs.files[q] == s.files[q])
  {
    var out := OutputDir(name, outputDir, defaultOutputDir);
    var l := LayoutOf(name, inputDir, out);
    LayoutDirs(name, inputDir, out);
    var cleared := if overwrite then RemoveTreeSpec(s, out) else After(s, Pass);
    var c := cleared.fs;
    assert cleared.outcome.Pass?;
    assert WellFormed(c) && (forall q :: Under(q, out) ==> !Exists(c, q)) &&
      (forall a :: a in Ancestors(out) ==> a !in c.files) &&
      (forall q :: q in c.files <==> q in s.files && !Under(q, out)) &&
      (forall q :: q in c.files ==> c.files[q] == s.files[q]) by {
      ClearedOutput(s, out, overwrite);
    }
    var w := MakeDirsSpec(c, l.wavsDir);
    var g := MakeDirsSpec(w.fs, l.logsDir);
    assert w.outcome.Pass? && g.outcome.Pass? && WellFormed(g.fs) && g.fs.files == c.files &&
      l.dataDir in g.fs.dirs && l.wavsDir in g.fs.dirs && l.logsDir in g.fs.dirs by {
      MakeOutputDirs(c, out);
    }
    InitSpecPasses(s, name, inputDir, outputDir, defaultOutputDir, overwrite);
  }

  /** When removing or checking the output directory and both `makedirs`
      pass, construction returns the layout. */
  lemma InitSpecPasses(s: Fs, name: string, inputDir: Path, outputDir: Option<Path>,
                       defaultOutputDir: Path, overwrite: bool)
    requires inputDir in s.dirs
    ensures var out := OutputDir(name, outputDir, defaultOutputDir);
      var l := LayoutOf(name, inputDir, out);
      var cleared := if overwrite then RemoveTreeSpec(s, out) else After(s, if Exists(s, out) then Fail(IOError(out)) else Pass);
      var w := MakeDirsSpec(cleared.fs, l.wavsDir);
      var g := MakeDirsSpec(w.fs, l.logsDir);
      cleared.outcome.Pass? && w.outcome.Pass? && g.outcome.Pass? ==>
        InitSpec(s, name, inputDir, outputDir, defaultOutputDir, overwrite) == Created(g.fs, Ok(l))
  {
  }

  // ---------------------------------------------------------------------
  // The preparation steps

  datatype StepName = LinkWavs | MakeSegment | MakeSpeaker | MakeTranscription | MakeLexicon | MakePhones

  /** The steps `prepare` runs, in order, each writing one target. */
  const PrepareOrder: seq<StepName> := [LinkWavs, MakeSegment, MakeSpeaker, MakeTranscription, MakeLexicon, MakePhones]

  /** The steps `prepare` attempts when the corpus implements `implemented`
      (`make_phones` is implemented by every corpus): all of them up to and
      including the first that raises NotImplementedError. A corpus that
      implements the five abstract steps runs all six, in order; one that
      does not implement `link_wavs` stops at the first. */
  function Attempted(implemented: set<StepName>): (r: seq<StepName>)
    ensures 0 < |r| <= |PrepareOrder| && r == PrepareOrder[..|r|]
    ensures forall k :: 0 <= k < |r| - 1 ==> r[k] in implemented || r[k] == MakePhones
    ensures |r| < |PrepareOrder| ==> r[|r| - 1] !in implemented && r[|r| - 1] != MakePhones
    ensures {LinkWavs, MakeSegment, MakeSpeaker, MakeTranscription, MakeLexicon} <= implemented ==> r == PrepareOrder
    ensures LinkWavs !in implemented ==> r == [LinkWavs]
  {
    AttemptedFrom(implemented + {MakePhones}, 0)
  }

  function AttemptedFrom(implemented: set<StepName>, i: nat): (r: seq<StepName>)
    requires i < |PrepareOrder| && MakePhones in implemented
    ensures 0 < |r| <= |PrepareOrder| - i && r == PrepareOrder[i..i + |r|]
    ensures forall k :: 0 <= k < |r| - 1 ==> r[k] in implemented
    ensures i + |r| < |PrepareOrder| ==> r[|r| - 1] !in implemented
    ensures i + |r| == |PrepareOrder| ==> r[|r| - 1] == MakePhones
    decreases |PrepareOrder| - i
  {
    if PrepareOrder[i] !in implemented || i == |PrepareOrder| - 1 then [PrepareOrder[i]]
    else
      var rest := AttemptedFrom(implemented, i + 1);
      SliceCons(PrepareOrder, i, i + 1 + |rest|);
      [PrepareOrder[i]] + rest
  }

  lemma SliceCons<T>(s: seq<T>, i: nat, j: nat)
    requires i < j <= |s|
    ensures s[i..j] == [s[i]] + s[i + 1..j]
  {
  }

  /** A step a corpus does not override: `link_wavs`, `make_segment`,
      `make_speaker`, `make_transcription` and `make_lexicon` of the base
      class raise NotImplementedError and touch nothing. */
  method NotImplemented(step: StepName) returns (o: Outcome)
    requires step != MakePhones
    ensures o == Fail(NotImplementedError)
  {
    o := Fail(NotImplementedError);
  }

  // ---------------------------------------------------------------------
  // make_phones

  /** `phones.txt`: `<phone> <ipa>` for each entry, in the iteration order
      `order` of the dictionary. */
  function PhoneLines(phones: map<string, string>, order: seq<string>): seq<string>
    requires forall p :: p in order ==> p in phones
  {
    seq(|order|, k requires 0 <= k < |order| => order[k] + " " + phones[order[k]] + "\n")
  }

  /** `silences.txt`: one symbol per line. */
  function SilenceLines(silences: seq<string>): seq<string>
  {
    seq(|silences|, k requires 0 <= k < |silences| => silences[k] + "\n")
  }

  /** `variants.txt`: one space-joined group per line. */
  function VariantLines(variants: seq<seq<string>>): seq<string>
  {
    seq(|variants|, k requires 0 <= k < |variants| => Join(variants[k], " ") + "\n")
  }

  /** `order` lists every key of `phones` exactly once: the dictionary's
      iteration order, which the model leaves open. */
  ghost predicate IterationOrder(phones: map<string, string>, order: seq<string>)
  {
    (forall p :: p in order <==> p in phones) &&
    (forall j, k :: 0 <= j < k < |order| ==> order[j] != order[k])
  }

  /** Whatever the iteration order, `phones.txt` holds exactly one line per
      dictionary entry. */
  lemma PhoneLinesPerEntry(phones: map<string, string>, order: seq<string>)
    requires IterationOrder(phones, order)
    ensures |PhoneLines(phones, order)| == |phones|
    ensures forall line :: line in PhoneLines(phones, order) <==>
      exists p :: p in phones && line == p + " " + phones[p] + "\n"
  {
    var lines := PhoneLines(phones, order);
    DistinctCard(order);
    assert (set p | p in order) == phones.Keys;
    forall line | line in lines ensures exists p :: p in phones && line == p + " " + phones[p] + "\n" {
      var k :| 0 <= k < |lines| && lines[k] == line;
      assert order[k] in phones;
    }
    forall line | exists p :: p in phones && line == p + " " + phones[p] + "\n" ensures line in lines {
      var p :| p in phones && line == p + " " + phones[p] + "\n";
      var k :| 0 <= k < |order| && order[k] == p;
      assert lines[k] == line;
    }
  }

  /** A sequence without repetition has as many members as elements. */
  lemma {:induction false} DistinctCard(xs: seq<string>)
    requires forall j, k :: 0 <= j < k < |xs| ==> xs[j] != xs[k]
    ensures |set x | x in xs| == |xs|
  {
    if xs != [] {
      var init := xs[..|xs| - 1];
      var last := xs[|xs| - 1];
      var before := set x | x in init;
      DistinctCard(init);
      assert (set x | x in xs) == before + {last} by {
        assert xs == init + [last];
      }
      assert last !in before by {
        assert forall j :: 0 <= j < |init| ==> init[j] == xs[j] != last;
      }
      assert |before + {last}| == |before| + 1;
    }
  }

  /** The three files `make_phones` writes, in order. The `is not []` tests
      compare identities and are always true, so `silences.txt` and
      `variants.txt` are written even for empty lists. */
  function PhonesSpec(files: map<Path, seq<string>>, l: Layout, phones: map<string, string>, order: seq<string>,
                      silences: seq<string>, variants: seq<seq<string>>): (r: map<Path, seq<string>>)
    requires forall p :: p in order ==> p in phones
    ensures l.variantsFile in r && r[l.variantsFile] == VariantLines(variants)
    ensures l.silencesFile != l.variantsFile ==> l.silencesFile in r && r[l.silencesFile] == SilenceLines(silences)
    ensures l.phonesFile !in {l.silencesFile, l.variantsFile} ==> l.phonesFile in r && r[l.phonesFile] == PhoneLines(phones, order)
    ensures forall q :: q !in {l.phonesFile, l.silencesFile, l.variantsFile} ==> (q in r <==> q in files) && (q in files ==> r[q] == files[q])
  {
    files[l.phonesFile := PhoneLines(phones, order)][l.silencesFile := SilenceLines(silences)][l.variantsFile := VariantLines(variants)]
  }

  lemma PhoneLinesSnoc(phones: map<string, string>, order: seq<string>, i: nat)
    requires i < |order| && forall q :: q in order ==> q in phones
    ensures PhoneLines(phones, order[..i + 1]) == PhoneLines(phones, order[..i]) + [order[i] + " " + phones[order[i]] + "\n"]
  {
  }

  lemma SilenceLinesSnoc(silences: seq<string>, i: nat)
    requires i < |silences|
    ensures SilenceLines(silences[..i + 1]) == SilenceLines(silences[..i]) + [silences[i] + "\n"]
  {
  }

  lemma VariantLinesSnoc(variants: seq<seq<string>>, i: nat)
    requires i < |variants|
    ensures VariantLines(variants[..i + 1]) == VariantLines(variants[..i]) + [Join(variants[i], " ") + "\n"]
  {
  }

  /** Writes `phones.txt`. */
  method WritePhoneLines(fs: FileSystem, p: Path, phones: map<string, string>, order: seq<string>)
    requires forall q :: q in order ==> q in phones
    modifies fs
    ensures fs.State() == Fs(old(fs.dirs), old(fs.files)[p := PhoneLines(phones, order)])
  {
    fs.Open(p);
    assert PhoneLines(phones, order[..0]) == [];
    var i := 0;
    while i < |order|
      invariant 0 <= i <= |order|
      invariant fs.State() == Fs(old(fs.dirs), old(fs.files)[p := PhoneLines(phones, order[..i])])
    {
      PhoneLinesSnoc(phones, order, i);
      fs.Write(p, order[i] + " " + phones[order[i]] + "\n");
      i := i + 1;
    }
    assert order[..|order|] == order;
  }

  /** Writes `silences.txt`. */
  method WriteSilences(fs: FileSystem, p: Path, silences: seq<string>)
    modifies fs
    ensures fs.State() == Fs(old(fs.dirs), old(fs.files)[p := SilenceLines(silences)])
  {
    fs.Open(p);
    assert SilenceLines(silences[..0]) == [];
    var i := 0;
    while i < |silences|
      invariant 0 <= i <= |silences|
      invariant fs.State() == Fs(old(fs.dirs), old(fs.files)[p := SilenceLines(silences[..i])])
    {
      SilenceLinesSnoc(silences, i);
      fs.Write(p, silences[i] + "\n");
      i := i + 1;
    }
    assert silences[..|silences|] == silences;
  }

  /** Writes `variants.txt`. */
  method WriteVariants(fs: FileSystem, p: Path, variants: seq<seq<string>>)
    modifies fs
    ensures fs.State() == Fs(old(fs.dirs), old(fs.files)[p := VariantLines(variants)])
  {
    fs.Open(p);
    assert VariantLines(variants[..0]) == [];
    var i := 0;
    while i < |variants|
      invariant 0 <= i <= |variants|
      invariant fs.State() == Fs(old(fs.dirs), old(fs.files)[p := VariantLines(variants[..i])])
    {
      VariantLinesSnoc(variants, i);
      fs.Write(p, Join(variants[i], " ") + "\n");
      i := i + 1;
    }
    assert variants[..|variants|] == variants;
  }

  /** `make_phones`: the three files in turn, each opened for writing and
      filled line by line. */
  method WritePhones(fs: FileSystem, l: Layout, phones: map<string, string>, order: seq<string>,
                     silences: seq<string>, variants: seq<seq<string>>)
    requires IterationOrder(phones, order)
    modifies fs
    ensures fs.dirs == old(fs.dirs)
    ensures fs.files == PhonesSpec(old(fs.files), l, phones, order, silences, variants)
  {
    WritePhoneLines(fs, l.phonesFile, phones, order);
    WriteSilences(fs, l.silencesFile, silences);
    WriteVariants(fs, l.variantsFile, variants);
  }
}
