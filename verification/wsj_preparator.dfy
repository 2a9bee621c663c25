/** `WallStreetJournalPreparator` as an object over the file system: its
    constructor (the base preparator's, then the CMU dictionary check, the
    file selection and the corrupted-utterance scan), `make_wavs`, the
    manifest writers, and `prepare` running the base class's steps in order. */
module WsjPreparation {
  import opened Results
  import opened Text
  import opened FileSystems
  import opened FileSelection
  import opened Wsj
  import P = Preparation

  // ---------------------------------------------------------------------
  // Class attributes

  /** The IPA transcription of each CMU phone. */
  const WsjPhones: map<string, string> := map[
    "IY" := "i\U{02D0}", "IH" := "\U{026A}", "EH" := "\U{025B}", "EY" := "e\U{026A}",
    "AE" := "\U{00E6}", "AA" := "\U{0251}\U{02D0}", "AW" := "a\U{028A}", "AY" := "a\U{026A}",
    "AH" := "\U{028C}", "AO" := "\U{0254}\U{02D0}", "OY" := "\U{0254}\U{026A}", "OW" := "o\U{028A}",
    "UH" := "\U{028A}", "UW" := "u\U{02D0}", "ER" := "\U{025D}", "JH" := "\U{02A4}",
    "CH" := "\U{02A7}", "B" := "b", "D" := "d", "G" := "g", "P" := "p", "T" := "t",
    "K" := "k", "S" := "s", "SH" := "\U{0283}", "Z" := "z", "ZH" := "\U{0292}",
    "F" := "f", "TH" := "\U{03B8}", "V" := "v", "DH" := "\U{00F0}", "M" := "m",
    "N" := "n", "NG" := "\U{014B}", "L" := "l", "R" := "r", "W" := "w", "Y" := "j",
    "HH" := "h"
  ]

  const WsjSilences: seq<string> := ["NSN"]

  const WsjVariants: seq<seq<string>> := []

  // ---------------------------------------------------------------------
  // Construction

  /** What the constructor fixes besides the layout. */
  datatype Corpus = Corpus(
    layout: P.Layout,
    cmuDict: Path,
    recordings: seq<Path>,
    transcriptions: seq<Path>,
    badUtts: seq<string>)

  /** The state after construction and either the corpus or the exception. */
  datatype Constructed = Constructed(fs: Fs, corpus: Result<Corpus>)

  /** `__init__(input_dir, cmu_dict, output_dir)` of the variant `v`, the
      input tree being what `os.walk` finds under `input_dir`. The base
      constructor runs first, without `overwrite`; a missing dictionary then
      raises IOError with the output hierarchy already created. */
  function InitWsjSpec(s: Fs, v: Variant, inputDir: Path, cmuDict: Path, outputDir: Option<Path>,
                       defaultOutputDir: Path, tree: seq<Node>): (r: Constructed)
    ensures inputDir !in s.dirs ==> r == Constructed(s, Err(IOError(inputDir)))
    ensures inputDir in s.dirs && Exists(s, P.OutputDir(v.name, outputDir, defaultOutputDir)) ==>
      r == Constructed(s, Err(IOError(P.OutputDir(v.name, outputDir, defaultOutputDir))))
    ensures var base := P.InitSpec(s, v.name, inputDir, outputDir, defaultOutputDir, false);
      base.layout.Ok? ==> r.fs == base.fs && (cmuDict !in base.fs.files ==> r.corpus == Err(IOError(cmuDict)))
    ensures r.corpus.Ok? ==>
      var c := r.corpus.value;
      c.layout == P.LayoutOf(v.name, inputDir, P.OutputDir(v.name, outputDir, defaultOutputDir)) &&
      c.cmuDict in r.fs.files &&
      ListFilesSpec(inputDir, tree, v, ".wv1") == Ok(c.recordings) &&
      ListFilesSpec(inputDir, tree, v, ".dot") == Ok(c.transcriptions) &&
      ScanSpec(r.fs.files, c.transcriptions) == Ok(c.badUtts)
  {
    var base := P.InitSpec(s, v.name, inputDir, outputDir, defaultOutputDir, false);
    if base.layout.Err? then Constructed(base.fs, Err(base.layout.error))
    else if cmuDict !in base.fs.files then Constructed(base.fs, Err(IOError(cmuDict)))
    else match ListFilesSpec(inputDir, tree, v, ".wv1")
      case Err(e) => Constructed(base.fs, Err(e))
      case Ok(recordings) =>
        match ListFilesSpec(inputDir, tree, v, ".dot")
        case Err(e) => Constructed(base.fs, Err(e))
        case Ok(transcriptions) =>
          match ScanSpec(base.fs.files, transcriptions)
          case Err(e) => Constructed(base.fs, Err(e))
          case Ok(bad) => Constructed(base.fs, Ok(Corpus(base.layout.value, cmuDict, recordings, transcriptions, bad)))
  }

  method InitWsj(fs: FileSystem, v: Variant, inputDir: Path, cmuDict: Path, outputDir: Option<Path>,
                 defaultOutputDir: Path, tree: seq<Node>) returns (r: Result<Corpus>)
    modifies fs
    ensures Constructed(fs.State(), r) == InitWsjSpec(old(fs.State()), v, inputDir, cmuDict, outputDir, defaultOutputDir, tree)
  {
    var layout := P.Init(fs, v.name, inputDir, outputDir, defaultOutputDir, false);
    if layout.Err? {
      return Err(layout.error);
    }
    if cmuDict !in fs.files {
      return Err(IOError(cmuDict));
    }
    var recordings := ListFiles(inputDir, tree, v, ".wv1");
    if recordings.Err? {
      return Err(recordings.error);
    }
    var transcriptions := ListFiles(inputDir, tree, v, ".dot");
    if transcriptions.Err? {
      return Err(transcriptions.error);
    }
    var bad := ScanBadUtts(fs.files, transcriptions.value);
    if bad.Err? {
      return Err(bad.error);
    }
    r := Ok(Corpus(layout.value, cmuDict, recordings.value, transcriptions.value, bad.value));
  }

  /** On a well-formed state with the input directory present and the output
      directory absent, construction gets past the base constructor: it
      either returns a corpus or raises IOError for the dictionary, the
      output hierarchy being created in both cases. A corpus's `bad_utts`
      holds exactly the identifiers of the marked lines of its transcriptions. */
  lemma InitWsjOutcome(s: Fs, v: Variant, inputDir: Path, cmuDict: Path, outputDir: Option<Path>,
                       defaultOutputDir: Path, tree: seq<Node>)
    requires WellFormed(s) && inputDir in s.dirs
    requires var out := P.OutputDir(v.name, outputDir, defaultOutputDir);
      P.Plain(out) && !Exists(s, out) && (forall a :: a in Ancestors(out) ==> a !in s.files)
    ensures var r := InitWsjSpec(s, v, inputDir, cmuDict, outputDir, defaultOutputDir, tree);
      var l := P.LayoutOf(v.name, inputDir, P.OutputDir(v.name, outputDir, defaultOutputDir));
      WellFormed(r.fs) && l.wavsDir in r.fs.dirs && l.logsDir in r.fs.dirs &&
      (cmuDict !in s.files ==> r.corpus == Err(IOError(cmuDict)))
    ensures var r := InitWsjSpec(s, v, inputDir, cmuDict, outputDir, defaultOutputDir, tree);
      r.corpus.Ok? ==> forall id :: id in r.corpus.value.badUtts <==>
        exists p, line :: p in r.corpus.value.transcriptions && p in r.fs.files && line in r.fs.files[p] &&
          BadUttOf(line) == Ok(Some(id))
  {
    var out := P.OutputDir(v.name, outputDir, defaultOutputDir);
    var r := InitWsjSpec(s, v, inputDir, cmuDict, outputDir, defaultOutputDir, tree);
    P.InitCreatesLayout(s, v.name, inputDir, outputDir, defaultOutputDir, false);
    var base := P.InitSpec(s, v.name, inputDir, outputDir, defaultOutputDir, false);
    if r.corpus.Ok? {
      ScanMembers(r.fs.files, r.corpus.value.transcriptions);
    }
  }

  // ---------------------------------------------------------------------
  // make_wavs

  /** What `sph2wav(sph, wav)` writes, standing for the converted audio. */
  function Converted(sph: Path): seq<string>
  {
    [sph]
  }

  /** `make_wavs`: each recording whose identifier is not corrupted and whose
      wav does not exist yet is converted, in order. */
  function WavsSpec(s: Fs, wavsDir: Path, recordings: seq<Path>, bad: seq<string>): (r: Fs)
    ensures r.dirs == s.dirs
    ensures forall p :: p in s.files ==> p in r.files && r.files[p] == s.files[p]
    decreases |recordings|
  {
    if recordings == [] then s
    else
      var t := WavsSpec(s, wavsDir, recordings[..|recordings| - 1], bad);
      ConvertOne(t, wavsDir, recordings[|recordings| - 1], bad)
  }

  /** One iteration of `make_wavs`: the recording is converted unless it is
      corrupted or its wav exists. */
  function ConvertOne(t: Fs, wavsDir: Path, sph: Path, bad: seq<string>): (r: Fs)
    ensures r.dirs == t.dirs
    ensures forall p :: p in t.files ==> p in r.files && r.files[p] == t.files[p]
  {
    Convert(t, WavOf(wavsDir, sph), RecId(sph) in bad, sph)
  }

  /** `sph2wav(sph, wav)` when the utterance is kept and `wav` does not exist. */
  function Convert(t: Fs, wav: Path, corrupted: bool, sph: Path): (r: Fs)
    ensures r.dirs == t.dirs
    ensures forall p :: p in t.files ==> p in r.files && r.files[p] == t.files[p]
  {
    if corrupted || Exists(t, wav) then t
    else Fs(t.dirs, t.files[wav := Converted(sph)])
  }

  method MakeWavs(fs: FileSystem, c: Corpus)
    modifies fs
    ensures fs.State() == WavsSpec(old(fs.State()), c.layout.wavsDir, c.recordings, c.badUtts)
  {
    ghost var s := fs.State();
    var i := 0;
    while i < |c.recordings|
      invariant 0 <= i <= |c.recordings|
      invariant fs.State() == WavsSpec(s, c.layout.wavsDir, c.recordings[..i], c.badUtts)
    {
      WavsStep(s, c.layout.wavsDir, c.recordings, i, c.badUtts);
      ConvertRecording(fs, c.layout.wavsDir, c.recordings[i], c.badUtts);
      i := i + 1;
    }
    assert c.recordings[..|c.recordings|] == c.recordings;
  }

  /** The body of the `make_wavs` loop, for one recording. */
  method ConvertRecording(fs: FileSystem, wavsDir: Path, sph: Path, bad: seq<string>)
    modifies fs
    ensures fs.State() == ConvertOne(old(fs.State()), wavsDir, sph, bad)
  {
    var wav := WavOf(wavsDir, sph);
    if RecId(sph) !in bad && !(wav in fs.dirs || wav in fs.files) {
      fs.Open(wav);
      fs.Write(wav, sph);
      assert [] + [sph] == Converted(sph);
    }
  }

  /** One more recording is one more conversion step. */
  lemma WavsStep(s: Fs, wavsDir: Path, recordings: seq<Path>, i: nat, bad: seq<string>)
    requires i < |recordings|
    ensures WavsSpec(s, wavsDir, recordings[..i + 1], bad) ==
      ConvertOne(WavsSpec(s, wavsDir, recordings[..i], bad), wavsDir, recordings[i], bad)
  {
    assert recordings[..i + 1][..i] == recordings[..i];
  }

  /** `p` is the wav of some recording that is not corrupted. */
  predicate Made(wavsDir: Path, recordings: seq<Path>, bad: seq<string>, p: Path)
  {
    Any(MakesOf(wavsDir, bad, p), recordings)
  }

  /** Whether a recording, unless corrupted, is converted to `p`. */
  function MakesOf(wavsDir: Path, bad: seq<string>, p: Path): Path -> bool
  {
    (sph: Path) => RecId(sph) !in bad && WavOf(wavsDir, sph) == p
  }

  /** Some element of `xs` satisfies `f`. */
  predicate Any<T>(f: T -> bool, xs: seq<T>)
  {
    exists k :: 0 <= k < |xs| && f(xs[k])
  }

  lemma AnySnoc<T>(f: T -> bool, xs: seq<T>)
    requires xs != []
    ensures Any(f, xs) <==> Any(f, xs[..|xs| - 1]) || f(xs[|xs| - 1])
  {
    var n := |xs| - 1;
    if Any(f, xs) {
      var k :| 0 <= k < |xs| && f(xs[k]);
      if k < n {
        assert xs[..n][k] == xs[k];
      }
    }
    if Any(f, xs[..n]) {
      var k :| 0 <= k < n && f(xs[..n][k]);
      assert xs[k] == xs[..n][k];
    }
  }

  /** The recordings made by a list and one more. */
  lemma MadeSnoc(wavsDir: Path, recordings: seq<Path>, bad: seq<string>, p: Path)
    requires recordings != []
    ensures var sph := recordings[|recordings| - 1];
      Made(wavsDir, recordings, bad, p) <==>
        Made(wavsDir, recordings[..|recordings| - 1], bad, p) || (RecId(sph) !in bad && WavOf(wavsDir, sph) == p)
  {
    AnySnoc(MakesOf(wavsDir, bad, p), recordings);
  }

  /** The files after one conversion step. */
  lemma ConvertOneFiles(t: Fs, wavsDir: Path, sph: Path, bad: seq<string>, p: Path)
    ensures p in ConvertOne(t, wavsDir, sph, bad).files <==>
      p in t.files || (p !in t.dirs && RecId(sph) !in bad && WavOf(wavsDir, sph) == p)
  {
  }

  /** The files after `make_wavs` are those before and the wavs of the
      recordings that are not corrupted, unless a directory has that name. */
  lemma {:induction false} WavsCreated(s: Fs, wavsDir: Path, recordings: seq<Path>, bad: seq<string>)
    ensures forall p :: p in WavsSpec(s, wavsDir, recordings, bad).files <==>
      p in s.files || (p !in s.dirs && Made(wavsDir, recordings, bad, p))
    decreases |recordings|
  {
    if recordings != [] {
      var init := recordings[..|recordings| - 1];
      var sph := recordings[|recordings| - 1];
      WavsCreated(s, wavsDir, init, bad);
      var t := WavsSpec(s, wavsDir, init, bad);
      assert WavsSpec(s, wavsDir, recordings, bad) == ConvertOne(t, wavsDir, sph, bad);
      forall p
        ensures p in ConvertOne(t, wavsDir, sph, bad).files <==>
          p in s.files || (p !in s.dirs && Made(wavsDir, recordings, bad, p))
      {
        ConvertOneFiles(t, wavsDir, sph, bad, p);
        MadeSnoc(wavsDir, recordings, bad, p);
      }
    }
  }

  /** Nothing is converted when every wav of a recording kept is already there. */
  lemma {:induction false} WavsPresent(s: Fs, wavsDir: Path, recordings: seq<Path>, bad: seq<string>)
    requires forall k :: 0 <= k < |recordings| && RecId(recordings[k]) !in bad ==> Exists(s, WavOf(wavsDir, recordings[k]))
    ensures WavsSpec(s, wavsDir, recordings, bad) == s
    decreases |recordings|
  {
    if recordings != [] {
      var init := recordings[..|recordings| - 1];
      assert forall k :: 0 <= k < |init| ==> init[k] == recordings[k];
      WavsPresent(s, wavsDir, init, bad);
    }
  }

  /** Running `make_wavs` a second time changes nothing. */
  lemma WavsIdempotent(s: Fs, wavsDir: Path, recordings: seq<Path>, bad: seq<string>)
    ensures var t := WavsSpec(s, wavsDir, recordings, bad);
      WavsSpec(t, wavsDir, recordings, bad) == t
  {
    var t := WavsSpec(s, wavsDir, recordings, bad);
    WavsCreated(s, wavsDir, recordings, bad);
    WavsPresent(t, wavsDir, recordings, bad);
  }

  /** A corrupted utterance gets no wav, whatever other recordings are
      converted: distinct identifiers give distinct wavs. */
  lemma CorruptedNotConverted(s: Fs, wavsDir: Path, recordings: seq<Path>, bad: seq<string>, sph: Path)
    requires RecId(sph) in bad && WavOf(wavsDir, sph) !in s.files
    ensures WavOf(wavsDir, sph) !in WavsSpec(s, wavsDir, recordings, bad).files
  {
    WavsCreated(s, wavsDir, recordings, bad);
    forall k | 0 <= k < |recordings| && RecId(recordings[k]) !in bad
      ensures WavOf(wavsDir, recordings[k]) != WavOf(wavsDir, sph)
    {
      WavOfInjective(wavsDir, recordings[k], sph);
    }
  }

  // ---------------------------------------------------------------------
  // The manifest writers

  /** The outcome of a write loop. */
  function OutcomeOf(error: Option<PyError>): (o: Outcome)
    ensures o.Pass? <==> error.None?
    ensures o.Fail? ==> o.error == error.value
  {
    if error.None? then Pass else Fail(error.value)
  }

  /** Opens `p` and writes the line `f` gives for each of `xs`, in order. */
  method WriteEach(fs: FileSystem, p: Path, f: Path -> string, xs: seq<Path>)
    modifies fs
    ensures fs.State() == Fs(old(fs.dirs), old(fs.files)[p := Each(f, xs)])
  {
    fs.Open(p);
    var i := 0;
    while i < |xs|
      invariant 0 <= i <= |xs|
      invariant fs.State() == Fs(old(fs.dirs), old(fs.files)[p := Each(f, xs[..i])])
    {
      assert Each(f, xs[..i + 1]) == Each(f, xs[..i]) + [f(xs[i])];
      fs.Write(p, f(xs[i]));
      i := i + 1;
    }
    assert xs[..|xs|] == xs;
  }

  /** `make_segment`, `wavs` being what `list_directory(wavs_dir)` returns. */
  method MakeSegment(fs: FileSystem, segmentsFile: Path, wavs: seq<Path>)
    modifies fs
    ensures fs.State() == Fs(old(fs.dirs), old(fs.files)[segmentsFile := Segments(wavs)])
  {
    WriteEach(fs, segmentsFile, SegmentLine, wavs);
  }

  /** `make_speaker`, `wavs` being what `list_directory(wavs_dir)` returns. */
  method MakeSpeaker(fs: FileSystem, speakerFile: Path, wavs: seq<Path>)
    modifies fs
    ensures fs.State() == Fs(old(fs.dirs), old(fs.files)[speakerFile := Speakers(wavs)])
  {
    WriteEach(fs, speakerFile, SpeakerLine, wavs);
  }

  /** The loop over the input lines of a manifest, writing each output line
      to `p`, already open, until a line raises. */
  method WriteLines(fs: FileSystem, p: Path, f: string -> Result<Option<string>>, lines: seq<string>) returns (o: Outcome)
    requires p in fs.files
    modifies fs
    ensures var e := Emit(Each(f, lines));
      fs.State() == Fs(old(fs.dirs), old(fs.files)[p := old(fs.files)[p] + e.lines]) && o == OutcomeOf(e.error)
  {
    ghost var rs := Each(f, lines);
    assert rs[..0] == [];
    assert old(fs.files)[p] + [] == old(fs.files)[p];
    assert old(fs.files)[p := old(fs.files)[p]] == old(fs.files);
    var k := 0;
    while k < |lines|
      invariant 0 <= k <= |lines|
      invariant Emit(rs[..k]).error.None?
      invariant fs.State() == Fs(old(fs.dirs), old(fs.files)[p := old(fs.files)[p] + Emit(rs[..k]).lines])
    {
      assert rs[..k + 1][..k] == rs[..k];
      var step := f(lines[k]);
      match step {
        case Err(e) =>
          EmitStops(rs[..k + 1], rs[k + 1..]);
          assert rs[..k + 1] + rs[k + 1..] == rs;
          return Fail(e);
        case Ok(None) =>
        case Ok(Some(line)) =>
          ghost var before := Emit(rs[..k]).lines;
          assert Emit(rs[..k + 1]).lines == before + [line];
          fs.Write(p, line);
          assert old(fs.files)[p] + before + [line] == old(fs.files)[p] + (before + [line]);
      }
      k := k + 1;
    }
    assert rs[..|lines|] == rs;
    o := Pass;
  }

  /** `make_transcription`: the selected transcriptions are read and
      concatenated (IOError for a missing one, before `text.txt` is opened),
      then each line is parsed and written unless its utterance is corrupted. */
  function TranscriptionSpec(s: Fs, transcriptions: seq<Path>, out: Path, bad: seq<string>): (r: After)
    ensures ReadAll(s.files, transcriptions).Err? ==> r == After(s, Fail(ReadAll(s.files, transcriptions).error))
    ensures ReadAll(s.files, transcriptions).Ok? ==>
      r.fs.dirs == s.dirs && out in r.fs.files &&
      forall q :: q != out ==> (q in r.fs.files <==> q in s.files) && (q in s.files ==> r.fs.files[q] == s.files[q])
  {
    match ReadAll(s.files, transcriptions)
    case Err(e) => After(s, Fail(e))
    case Ok(lines) => WriteSpec(s, out, TranscriptStep(bad), lines)
  }

  /** Opening `out` and writing what `f` gives for each line, until a line raises. */
  function WriteSpec(s: Fs, out: Path, f: string -> Result<Option<string>>, lines: seq<string>): (r: After)
    ensures r.fs.dirs == s.dirs && out in r.fs.files
    ensures forall q :: q != out ==> (q in r.fs.files <==> q in s.files) && (q in s.files ==> r.fs.files[q] == s.files[q])
  {
    var e := Emit(Each(f, lines));
    After(Fs(s.dirs, s.files[out := e.lines]), OutcomeOf(e.error))
  }

  /** `open(out, 'w')` followed by the write loop. */
  method WriteManifest(fs: FileSystem, out: Path, f: string -> Result<Option<string>>, lines: seq<string>) returns (o: Outcome)
    modifies fs
    ensures After(fs.State(), o) == WriteSpec(old(fs.State()), out, f, lines)
  {
    fs.Open(out);
    o := WriteLines(fs, out, f, lines);
    ghost var e := Emit(Each(f, lines));
    assert [] + e.lines == e.lines;
    assert fs.files == old(fs.files)[out := e.lines];
  }

  /** The concatenation of the selected transcriptions, read in order. */
  method ReadTranscriptions(files: map<Path, seq<string>>, transcriptions: seq<Path>) returns (r: Result<seq<string>>)
    ensures r == ReadAll(files, transcriptions)
  {
    var lines: seq<string> := [];
    var i := 0;
    while i < |transcriptions|
      invariant 0 <= i <= |transcriptions|
      invariant ReadAll(files, transcriptions[..i]) == Ok(lines)
    {
      assert transcriptions[..i + 1][..i] == transcriptions[..i];
      var trs := transcriptions[i];
      if trs !in files {
        ReadAllStops(files, transcriptions[..i + 1], transcriptions[i + 1..]);
        assert transcriptions[..i + 1] + transcriptions[i + 1..] == transcriptions;
        return Err(IOError(trs));
      }
      lines := lines + files[trs];
      i := i + 1;
    }
    assert transcriptions[..|transcriptions|] == transcriptions;
    r := Ok(lines);
  }

  method MakeTranscription(fs: FileSystem, transcriptions: seq<Path>, out: Path, bad: seq<string>) returns (o: Outcome)
    modifies fs
    ensures After(fs.State(), o) == TranscriptionSpec(old(fs.State()), transcriptions, out, bad)
  {
    var all := ReadTranscriptions(fs.files, transcriptions);
    if all.Err? {
      return Fail(all.error);
    }
    o := WriteManifest(fs, out, TranscriptStep(bad), all.value);
  }

  /** `o` is the `text.txt` line of the raw transcription line `line`: the
      line parses, its utterance is not corrupted, its text normalises, and
      `o` is the id, a space, the normalised text and a newline. */
  predicate TranscriptOf(o: string, line: string, bad: seq<string>)
  {
    var m := MatchUtt(Strip(line));
    m.Some? && m.value.id !in bad && NormalizeText(m.value.text).Ok? &&
    o == m.value.id + " " + NormalizeText(m.value.text).value + "\n"
  }

  /** Every line `make_transcription` leaves in `text.txt` is the transcript
      of a transcription line, and the step passes exactly when no
      transcription line raises. */
  lemma TranscriptionLines(s: Fs, transcriptions: seq<Path>, out: Path, bad: seq<string>)
    requires ReadAll(s.files, transcriptions).Ok?
    ensures var lines := ReadAll(s.files, transcriptions).value;
      var r := TranscriptionSpec(s, transcriptions, out, bad);
      forall o :: o in r.fs.files[out] ==> exists k :: 0 <= k < |lines| && TranscriptOf(o, lines[k], bad)
    ensures var lines := ReadAll(s.files, transcriptions).value;
      var r := TranscriptionSpec(s, transcriptions, out, bad);
      r.outcome.Pass? <==> forall k :: 0 <= k < |lines| ==> TranscriptLine(lines[k], bad).Ok?
  {
    var lines := ReadAll(s.files, transcriptions).value;
    TranscriptionWrites(s, transcriptions, out, bad);
    TranscriptLinesAreTranscripts(lines, bad);
    EmitError(Each(TranscriptStep(bad), lines));
  }

  /** When no transcription line raises, `text.txt` holds, in input order,
      the transcript of every line whose utterance is not corrupted. */
  lemma TranscriptionPasses(s: Fs, transcriptions: seq<Path>, out: Path, bad: seq<string>)
    requires ReadAll(s.files, transcriptions).Ok?
    requires var lines := ReadAll(s.files, transcriptions).value;
      forall k :: 0 <= k < |lines| ==> TranscriptLine(lines[k], bad).Ok?
    ensures var r := TranscriptionSpec(s, transcriptions, out, bad);
      r.outcome == Pass && r.fs.files[out] == Transcripts(ReadAll(s.files, transcriptions).value, bad)
  {
    var lines := ReadAll(s.files, transcriptions).value;
    var rs := Each(TranscriptStep(bad), lines);
    TranscriptionWrites(s, transcriptions, out, bad);
    EmitNoError(rs);
    TranscriptsAreOutputs(lines, bad);
  }

  /** When line `k` is the first transcription line that raises, the step
      fails with its exception and `text.txt` holds the transcripts of the
      lines before it. */
  lemma TranscriptionFails(s: Fs, transcriptions: seq<Path>, out: Path, bad: seq<string>, k: nat)
    requires ReadAll(s.files, transcriptions).Ok?
    requires var lines := ReadAll(s.files, transcriptions).value;
      k < |lines| && TranscriptLine(lines[k], bad).Err? &&
      forall j :: 0 <= j < k ==> TranscriptLine(lines[j], bad).Ok?
    ensures var lines := ReadAll(s.files, transcriptions).value;
      var r := TranscriptionSpec(s, transcriptions, out, bad);
      r.outcome == Fail(TranscriptLine(lines[k], bad).error) && r.fs.files[out] == Transcripts(lines[..k], bad)
  {
    var lines := ReadAll(s.files, transcriptions).value;
    var rs := Each(TranscriptStep(bad), lines);
    TranscriptionWrites(s, transcriptions, out, bad);
    assert rs[k] == TranscriptLine(lines[k], bad);
    EmitFirstError(rs, k);
    EachPrefix(TranscriptStep(bad), lines, k);
    TranscriptsAreOutputs(lines[..k], bad);
  }

  /** With the transcriptions read, `text.txt` holds what the write loop emits. */
  lemma TranscriptionWrites(s: Fs, transcriptions: seq<Path>, out: Path, bad: seq<string>)
    requires ReadAll(s.files, transcriptions).Ok?
    ensures var e := Emit(Each(TranscriptStep(bad), ReadAll(s.files, transcriptions).value));
      var r := TranscriptionSpec(s, transcriptions, out, bad);
      r.fs.files[out] == e.lines && r.outcome == OutcomeOf(e.error)
  {
  }

  /** Every line the write loop emits is the transcript of an input line. */
  lemma TranscriptLinesAreTranscripts(lines: seq<string>, bad: seq<string>)
    ensures forall o :: o in Emit(Each(TranscriptStep(bad), lines)).lines ==>
      exists k :: 0 <= k < |lines| && TranscriptOf(o, lines[k], bad)
  {
    var rs := Each(TranscriptStep(bad), lines);
    EmitLinesAreOutputs(rs);
    forall o | Ok(Some(o)) in rs
      ensures exists k :: 0 <= k < |lines| && TranscriptOf(o, lines[k], bad)
    {
      var k :| 0 <= k < |rs| && rs[k] == Ok(Some(o));
      TranscriptLineValue(lines[k], bad);
      assert TranscriptOf(o, lines[k], bad);
    }
  }

  /** `make_lexicon`: `lexicon.txt` is opened (and truncated) first, then the
      dictionary is read, so a missing dictionary leaves an empty lexicon. */
  function LexiconWriteSpec(s: Fs, lexiconFile: Path, cmuDict: Path): (r: After)
    ensures cmuDict !in s.files && cmuDict != lexiconFile ==>
      r == After(Fs(s.dirs, s.files[lexiconFile := []]), Fail(IOError(cmuDict)))
    ensures r.outcome.Pass? ==> (lexiconFile in r.fs.files && |r.fs.files[lexiconFile]| > 0 &&
      r.fs.files[lexiconFile][|r.fs.files[lexiconFile]| - 1] == "<noise> NSN\n")
    ensures r.outcome.Fail? ==> r.outcome.error in {IOError(cmuDict), ValueError}
  {
    var truncated := s.files[lexiconFile := []];
    if cmuDict !in truncated then After(Fs(s.dirs, truncated), Fail(IOError(cmuDict)))
    else
      var e := LexiconSpec(truncated[cmuDict]);
      After(Fs(s.dirs, s.files[lexiconFile := e.lines]), OutcomeOf(e.error))
  }

  method MakeLexicon(fs: FileSystem, lexiconFile: Path, cmuDict: Path) returns (o: Outcome)
    modifies fs
    ensures After(fs.State(), o) == LexiconWriteSpec(old(fs.State()), lexiconFile, cmuDict)
  {
    fs.Open(lexiconFile);
    if cmuDict !in fs.files {
      return Fail(IOError(cmuDict));
    }
    o := WriteLexicon(fs, lexiconFile, fs.files[cmuDict]);
  }

  /** The dictionary loop of `make_lexicon` and the final noise entry, on
      the freshly opened `out`. */
  method WriteLexicon(fs: FileSystem, out: Path, cmu: seq<string>) returns (o: Outcome)
    requires out in fs.files && fs.files[out] == []
    modifies fs
    ensures var e := LexiconSpec(cmu);
      After(fs.State(), o) == After(Fs(old(fs.dirs), old(fs.files)[out := e.lines]), OutcomeOf(e.error))
  {
    o := WriteLines(fs, out, LexiconLine, cmu);
    ghost var e := Emit(Each(LexiconLine, cmu));
    assert [] + e.lines == e.lines;
    if o.Pass? {
      fs.Write(out, "<noise> NSN\n");
      assert fs.files == old(fs.files)[out := e.lines + ["<noise> NSN\n"]];
    } else {
      assert fs.files == old(fs.files)[out := e.lines];
    }
  }

  /** A dictionary that is the lexicon file itself is truncated before it is
      read: the lexicon holds the noise entry alone. */
  lemma LexiconOverItself(s: Fs, lexiconFile: Path)
    ensures LexiconWriteSpec(s, lexiconFile, lexiconFile) == After(Fs(s.dirs, s.files[lexiconFile := ["<noise> NSN\n"]]), Pass)
  {
    assert Each(LexiconLine, []) == [];
    assert Emit([]) == Emitted([], None);
    assert LexiconSpec([]) == Emitted(["<noise> NSN\n"], None);
  }

  /** A dictionary whose lines all parse gives one lexicon line per entry
      that is not an alternative pronunciation, then the noise entry. */
  lemma LexiconOfCleanDictionary(s: Fs, lexiconFile: Path, cmuDict: Path)
    requires cmuDict in s.files && cmuDict != lexiconFile
    requires forall k :: 0 <= k < |s.files[cmuDict]| ==> LexiconLine(s.files[cmuDict][k]).Ok?
    ensures LexiconWriteSpec(s, lexiconFile, cmuDict) ==
      After(Fs(s.dirs, s.files[lexiconFile := Outputs(Each(LexiconLine, s.files[cmuDict])) + ["<noise> NSN\n"]]), Pass)
  {
    EmitNoError(Each(LexiconLine, s.files[cmuDict]));
  }

  // ---------------------------------------------------------------------
  // prepare

  /** What one step of `prepare` does, `wavs` being the listing of
      `wavs_dir` and `order` the iteration order of the phones dict.
      `link_wavs` is inherited unimplemented. */
  function StepSpec(s: Fs, c: Corpus, step: P.StepName, wavs: seq<Path>, order: seq<string>): (r: After)
    requires forall p :: p in order ==> p in WsjPhones
    ensures step.LinkWavs? ==> r == After(s, Fail(NotImplementedError))
    ensures !step.LinkWavs? ==> r.fs.dirs == s.dirs
  {
    if step.LinkWavs? then After(s, Fail(NotImplementedError))
    else if step.MakeSegment? then After(Fs(s.dirs, s.files[c.layout.segmentsFile := Segments(wavs)]), Pass)
    else if step.MakeSpeaker? then After(Fs(s.dirs, s.files[c.layout.speakerFile := Speakers(wavs)]), Pass)
    else if step.MakeTranscription? then TranscriptionSpec(s, c.transcriptions, c.layout.transcriptionFile, c.badUtts)
    else if step.MakeLexicon? then LexiconWriteSpec(s, c.layout.lexiconFile, c.cmuDict)
    else After(Fs(s.dirs, P.PhonesSpec(s.files, c.layout, WsjPhones, order, WsjSilences, WsjVariants)), Pass)
  }

  method RunStep(fs: FileSystem, c: Corpus, step: P.StepName, wavs: seq<Path>, order: seq<string>) returns (o: Outcome)
    requires P.IterationOrder(WsjPhones, order)
    modifies fs
    ensures After(fs.State(), o) == StepSpec(old(fs.State()), c, step, wavs, order)
  {
    if step.LinkWavs? {
      o := P.NotImplemented(step);
    } else if step.MakeSegment? {
      MakeSegment(fs, c.layout.segmentsFile, wavs);
      o := Pass;
    } else if step.MakeSpeaker? {
      MakeSpeaker(fs, c.layout.speakerFile, wavs);
      o := Pass;
    } else if step.MakeTranscription? {
      o := MakeTranscription(fs, c.transcriptions, c.layout.transcriptionFile, c.badUtts);
    } else if step.MakeLexicon? {
      o := MakeLexicon(fs, c.layout.lexiconFile, c.cmuDict);
    } else {
      P.WritePhones(fs, c.layout, WsjPhones, order, WsjSilences, WsjVariants);
      o := Pass;
    }
  }

  /** The steps run in order until one raises. */
  function RunSteps(s: Fs, c: Corpus, steps: seq<P.StepName>, wavs: seq<Path>, order: seq<string>): After
    requires forall p :: p in order ==> p in WsjPhones
  {
    if steps == [] then After(s, Pass)
    else
      var a := RunSteps(s, c, steps[..|steps| - 1], wavs, order);
      if a.outcome.Fail? then a else StepSpec(a.fs, c, steps[|steps| - 1], wavs, order)
  }

  /** `prepare()`. */
  method Prepare(fs: FileSystem, c: Corpus, wavs: seq<Path>, order: seq<string>) returns (o: Outcome)
    requires P.IterationOrder(WsjPhones, order)
    modifies fs
    ensures After(fs.State(), o) == RunSteps(old(fs.State()), c, P.PrepareOrder, wavs, order)
  {
    var steps := P.PrepareOrder;
    o := Pass;
    var i := 0;
    while i < |steps|
      invariant 0 <= i <= |steps|
      invariant After(fs.State(), o) == RunSteps(old(fs.State()), c, steps[..i], wavs, order)
      invariant o.Pass?
    {
      RunStepsSnoc(old(fs.State()), c, steps, i, wavs, order);
      o := RunStep(fs, c, steps[i], wavs, order);
      if o.Fail? {
        RunStepsStop(old(fs.State()), c, steps[..i + 1], steps[i + 1..], wavs, order);
        assert steps[..i + 1] + steps[i + 1..] == steps;
        return;
      }
      i := i + 1;
    }
    assert steps[..|steps|] == steps;
  }

  lemma RunStepsSnoc(s: Fs, c: Corpus, steps: seq<P.StepName>, i: nat, wavs: seq<Path>, order: seq<string>)
    requires forall p :: p in order ==> p in WsjPhones
    requires i < |steps| && RunSteps(s, c, steps[..i], wavs, order).outcome.Pass?
    ensures RunSteps(s, c, steps[..i + 1], wavs, order) == StepSpec(RunSteps(s, c, steps[..i], wavs, order).fs, c, steps[i], wavs, order)
  {
    assert steps[..i + 1][..i] == steps[..i];
  }

  /** Once a step has raised, the later steps are not run. */
  lemma {:induction false} RunStepsStop(s: Fs, c: Corpus, a: seq<P.StepName>, b: seq<P.StepName>,
                                        wavs: seq<Path>, order: seq<string>)
    requires forall p :: p in order ==> p in WsjPhones
    requires RunSteps(s, c, a, wavs, order).outcome.Fail?
    ensures RunSteps(s, c, a + b, wavs, order) == RunSteps(s, c, a, wavs, order)
    decreases |b|
  {
    if b == [] {
      assert a + b == a;
    } else {
      assert (a + b)[..|a + b| - 1] == a + b[..|b| - 1];
      RunStepsStop(s, c, a, b[..|b| - 1], wavs, order);
    }
  }

  /** The steps this preparator implements: `link_wavs` is not among them. */
  const WsjImplemented: set<P.StepName> := {P.MakeSegment, P.MakeSpeaker, P.MakeTranscription, P.MakeLexicon}

  /** `prepare()` on a WSJ preparator raises NotImplementedError at its first
      step, `link_wavs`, the only step attempted, and changes no file. */
  lemma PrepareStopsAtLinkWavs(s: Fs, c: Corpus, wavs: seq<Path>, order: seq<string>)
    requires forall p :: p in order ==> p in WsjPhones
    ensures RunSteps(s, c, P.PrepareOrder, wavs, order) == After(s, Fail(NotImplementedError))
    ensures P.Attempted(WsjImplemented) == [P.LinkWavs]
  {
    LinkWavsFails(s, c, wavs, order);
    RunStepsStop(s, c, P.PrepareOrder[..1], P.PrepareOrder[1..], wavs, order);
    assert P.PrepareOrder[..1] + P.PrepareOrder[1..] == P.PrepareOrder;
    assert P.LinkWavs !in WsjImplemented;
  }

  lemma LinkWavsFails(s: Fs, c: Corpus, wavs: seq<Path>, order: seq<string>)
    requires forall p :: p in order ==> p in WsjPhones
    ensures RunSteps(s, c, P.PrepareOrder[..1], wavs, order) == After(s, Fail(NotImplementedError))
  {
    var first := P.PrepareOrder[..1];
    assert first == [P.LinkWavs];
    assert first[..0] == [];
  }
}
