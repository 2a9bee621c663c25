# Abkhazia WSJ preparation and Kaldi export, in Dafny

This project models three parts of abkhazia:

- the Wall Street Journal corpus preparator, `WallStreetJournalPreparator` and its three variants;
- the base class `AbstractPreparator` it extends;
- the two parsing loops of the Kaldi export in `kaldi2features.py`.

The model covers these operations:

- `correct_word`, the normaliser of transcript tokens;
- the `.wv1`/`.dot` file filters and `list_files`, which walks the corpus tree with `os.walk`;
- the scan that collects utterances marked `[bad_recording]`;
- `make_wavs`, limited to which wavs are created;
- the `segments.txt`, `utt2spk.txt`, `text.txt` and `lexicon.txt` writers;
- the base constructor's directory checks and output layout;
- `prepare`, which runs the six steps in order;
- `make_phones`;
- `get_phone_order`;
- the bracketed-frame parser of `lattice2features`;
- the per-utterance grouping loop of `transcription2features`.

## How the model is built

- **Python exceptions.** The source raises exceptions. The model returns them instead, as `Err(e)` of a `Result` or `Fail(e)` of an `Outcome`.
- **File system.** A `FileSystems.FileSystem` object holds the file system: a set of directories and a map from paths to lines. The `os.makedirs`, `shutil.rmtree`, `open(..., 'w')` and `write` calls change it in place.
- **Imperative code.** Code that loops and writes becomes a method, with the same loop and the same stopping points. Each such method is proved equal to a specification function, and the properties are proved about that function.
- **Pure code.** `correct_word`, the per-line parsers, the filters and the regular-expression tests become functions.

Modules:

- `Results`: exception and result types.
- `Text`: Python string operations.
- `Normalizer`: `correct_word`.
- `FileSelection`: the variants, the filters and `list_files`.
- `Wsj`: transcript-line, lexicon-line, segment and speaker-line parsing, and the corrupted-utterance scan.
- `FileSystems`: the file system.
- `Preparation`: `AbstractPreparator`.
- `WsjPreparation`: the WSJ constructor, `make_*` and `prepare`.
- `PhoneOrder`: `get_phone_order`.
- `Posteriors`: `lattice2features`.
- `Alignment`: `transcription2features`.

### Where the model follows the code against the documentation

- **Event boundaries.** The documented rule table drops `[<door_slam]` and `[/phone_ring]`, but `correct_word` turns them into `<noise>`. Its tests `word[:1] == '[<'` and `word[:1] == '[/'` compare one character with two, so they are never true. The model follows the code.
- **Missing CMU dictionary.** It raises IOError after the base constructor has already created `data/wavs` and `logs`, so that partial output is left behind. The model keeps it.
- **`make_segment` and `make_speaker`.** They list every file of the wavs directory, whatever the exclusion set says.
- **`JournalistReadPreparator`.** It sets `dir_pattern`, an attribute nothing reads, so it selects every directory.
- **`prepare` on the WSJ preparators.** It calls `link_wavs`, which they do not override, so it always stops at the first step with NotImplementedError.
- **`make_phones`.** Its tests `x is not []` are always true, so `silences.txt` and `variants.txt` are always written.

## Model

| member | source | states |
|---|---|---|
| Text.Upper | abkhazia/corpora/prepare_wsj.py:152 | `str.upper`: same length, with each character mapped to its upper case (ASCII) |
| Text.Take | abkhazia/corpora/prepare_wsj.py:265 | `s[:n]` is a prefix of at most `n` characters, exactly `n` when `s` is that long |
| Text.TakeLastIsEndsWith | abkhazia/corpora/prepare_wsj.py:202-203 | `f[-4:] == ext` holds exactly when `f` ends with `ext` |
| Text.RemoveCharRemoves | abkhazia/corpora/prepare_wsj.py:153 | no backslash is left after `replace('\\', '')` |
| Text.JoinSplit | abkhazia/corpora/prepare_wsj.py:290-291 | joining the pieces of `str.split(sep)` with `sep` gives back the string |
| Text.SplitJoin | abkhazia/corpora/prepare_wsj.py:290-291 | splitting a join of separator-free words gives back the words |
| Text.Strip | abkhazia/corpora/prepare_wsj.py:302 | `strip()` is the slice of `s` left when only white space is cut from either end, and it neither starts nor ends with white space |
| Text.StripKeeps | abkhazia/corpora/prepare_wsj.py:278 | strip leaves a trimmed string unchanged and removes a final newline |
| Text.RemoveDigits | abkhazia/corpora/prepare_wsj.py:314 | `re.sub('[0-9]+', '', s)` holds no digit, and a character is kept exactly when it is a non-digit of `s` |
| Text.RemoveDigitsAppend | abkhazia/corpora/prepare_wsj.py:314 | removing digits from `a + b` removes them from each part: the kept characters stay in order and number |
| Text.RemoveDigitsNone | abkhazia/corpora/prepare_wsj.py:314 | a string without digits is left whole |
| Text.ReplaceAllSuffix | abkhazia/corpora/prepare_wsj.py:245 | `replace('.wv1', '')` on a name ending in the extension removes just the extension |
| Text.Basename | abkhazia/corpora/prepare_wsj.py:245 | `os.path.basename` is a slash-free suffix of the path |
| Text.BasenameOfJoin | abkhazia/corpora/prepare_wsj.py:247 | the basename of `os.path.join(dir, name)` is `name` |
| Normalizer.Canonical | abkhazia/corpora/prepare_wsj.py:152-154 | after upper-casing and the replacements, no backslash and no lower-case letter remain, and no space is introduced |
| Normalizer.Unwrap | abkhazia/corpora/prepare_wsj.py:155-156 | unwrapping `<...>` only removes characters |
| Normalizer.Classify | abkhazia/corpora/prepare_wsj.py:158-175 | the drop, noise and dash rules yield `''`, `<noise>`, `-DASH` or the word itself |
| Normalizer.CorrectWord | abkhazia/corpora/prepare_wsj.py:148-175 | `''` maps to `''`; IndexError exactly when the word is empty after canonicalising or unwrapping; otherwise `''`, `<noise>` or an upper-case word without backslash and without a new space |
| Normalizer.CanonicalPlain | abkhazia/corpora/prepare_wsj.py:152-154 | a word without backslash, `%` or `.` is only upper-cased |
| Normalizer.Correct | abkhazia/corpora/prepare_wsj.py:154-175 | on the canonicalised word, IndexError exactly when it is empty or `<>`; a word without backslash or lower-case letter gives `''`, `<noise>` or such a word again, with no new space |
| Normalizer.BracketOfPlain | abkhazia/corpora/prepare_wsj.py:158-166 | a plain `[...]` word gives `''` when its second-to-last character is `>` or `/` and `<noise>` otherwise |
| Normalizer.BracketRule | abkhazia/corpora/prepare_wsj.py:159-168 | every `[...]` word gives `''` when it ends in `>]` or `/]` and `<noise>` otherwise, since the `[<` and `[/` tests are never true |
| Normalizer.AngleRule | abkhazia/corpora/prepare_wsj.py:155-164 | a word `<x>` is classified as `x` would be |
| Normalizer.TildeDropped | abkhazia/corpora/prepare_wsj.py:159 | `~` and `<~>` are dropped |
| Normalizer.EmptyDeletionRaises | abkhazia/corpora/prepare_wsj.py:155-161 | `<>` unwraps to `''` and raises IndexError |
| Normalizer.LoudBreathIsNoise | abkhazia/corpora/prepare_wsj.py:167-168 | `[loud_breath]` gives `<noise>` |
| Normalizer.ClosingEventDropped | abkhazia/corpora/prepare_wsj.py:161 | `[door_slam>]` is dropped |
| Normalizer.PhenomenonStartDropped | abkhazia/corpora/prepare_wsj.py:162 | `[phone_ring/]` is dropped |
| Normalizer.OpeningEventIsNoise | abkhazia/corpora/prepare_wsj.py:160 | `[<door_slam]` gives `<noise>`, not `''` |
| Normalizer.PhenomenonEndIsNoise | abkhazia/corpora/prepare_wsj.py:163 | `[/phone_ring]` gives `<noise>`, not `''` |
| Normalizer.DeletionUnwrapped | abkhazia/corpora/prepare_wsj.py:155-156 | `<deleted>` gives `DELETED` |
| Normalizer.DoubleDashCorrected | abkhazia/corpora/prepare_wsj.py:171-172 | `--dash` gives `-DASH` |
| Normalizer.CanonicalPercent | abkhazia/corpora/prepare_wsj.py:154 | `%percent` canonicalises to `PERCENT` |
| Normalizer.PercentSpelledOut | abkhazia/corpora/prepare_wsj.py:154 | `%percent` gives `PERCENT` |
| Normalizer.CanonicalPoint | abkhazia/corpora/prepare_wsj.py:154 | `.point` canonicalises to `POINT` |
| Normalizer.PointSpelledOut | abkhazia/corpora/prepare_wsj.py:154 | `.point` gives `POINT` |
| FileSelection.FileFilter | abkhazia/corpora/prepare_wsj.py:201-208 | a name passes exactly when it ends with the extension and, with a file pattern, its 4th character is the pattern; with a pattern, names under 4 characters raise IndexError |
| FileSelection.JournalistReadSelectsAllDirectories | abkhazia/corpora/prepare_wsj.py:342 | the journalist-read variant accepts every directory name |
| FileSelection.FilterFiles | abkhazia/corpora/prepare_wsj.py:236-237 | the comprehension over one directory's files appends the matching paths, in order, to the accumulated list |
| FileSelection.FilterWalk | abkhazia/corpora/prepare_wsj.py:235-237 | the inner `os.walk` loop appends the matches of every directory it visits |
| FileSelection.FilterDir | abkhazia/corpora/prepare_wsj.py:234-237 | one subdirectory is walked and its matches appended exactly when it passes the directory filter |
| FileSelection.FilterDirs | abkhazia/corpora/prepare_wsj.py:234-237 | the loop over the accepted subdirectories of one directory |
| FileSelection.FilterVisits | abkhazia/corpora/prepare_wsj.py:233-237 | the outer `os.walk` loop filters, in walk order, everything the accepted subdirectories of each directory visit |
| FileSelection.ListFiles | abkhazia/corpora/prepare_wsj.py:230-238 | `list_files` returns the matches, in walk order, of every walk below every accepted directory |
| FileSelection.MatchFromMembers | abkhazia/corpora/prepare_wsj.py:236-237 | filtering fails exactly when some name makes the filter raise; otherwise a path is listed exactly when a found file passes the filter |
| FileSelection.VisitedIsRefSet | abkhazia/corpora/prepare_wsj.py:233-235 | the files visited are exactly those lying inside some accepted directory strictly below the root |
| FileSelection.ListedFiles | abkhazia/corpora/prepare_wsj.py:230-238 | `list_files` lists exactly the matching files inside some accepted directory below the root; files directly in the root are never listed |
| FileSelection.NestedVisits | abkhazia/corpora/prepare_wsj.py:233-235 | a file in an accepted directory nested in another accepted directory is visited twice |
| FileSelection.NestedSelectionListsTwice | abkhazia/corpora/prepare_wsj.py:233-237 | such a file is listed twice |
| Wsj.FirstLine | abkhazia/corpora/prepare_wsj.py:224 | the text `.` can match: a newline-free prefix |
| Wsj.LastOpen | abkhazia/corpora/prepare_wsj.py:224 | the greedy first group ends at the last ` (` before the bound |
| Wsj.MatchUtt | abkhazia/corpora/prepare_wsj.py:224 | `re.match(r'(.*) \((.*)\)', s)` fails exactly when the first line has no ` (` followed by `)`; on success `s` starts with `text (id)` |
| Wsj.MatchUttRoundTrip | abkhazia/corpora/prepare_wsj.py:278-280 | a line `text (id)` gives back `text` and `id` when `id` holds no ` (` |
| Wsj.ScanBadUtts | abkhazia/corpora/prepare_wsj.py:219-225 | the nested loop computes the scan of the transcription files |
| Wsj.ReadAll | abkhazia/corpora/prepare_wsj.py:270-272 | reading the files fails exactly when one is missing; otherwise a line is read exactly when it is a line of one of the files |
| Wsj.ReadAllAppend | abkhazia/corpora/prepare_wsj.py:270-272 | reading `a` then `b` gives the lines of `a` followed by those of `b`, or the first missing file of `b` |
| Wsj.ReadAllPrepend | abkhazia/corpora/prepare_wsj.py:270-272 | the lines of a file read first come first, followed by the lines of the rest |
| Wsj.ScanIsScanOfAllLines | abkhazia/corpora/prepare_wsj.py:219-225 | scanning file by file equals scanning the concatenated lines |
| Wsj.ScanNeedsAllFiles | abkhazia/corpora/prepare_wsj.py:220-221 | a missing transcription file makes the scan fail |
| Wsj.BadUttsMembers | abkhazia/corpora/prepare_wsj.py:222-225 | the scan fails exactly when a marked line does not match the pattern; otherwise an id is collected exactly when some marked line carries it |
| Wsj.ScanMembers | abkhazia/corpora/prepare_wsj.py:219-225 | the scan fails exactly when a file is missing or a marked line does not match; otherwise the ids collected are those of the marked lines |
| Wsj.MarkedLineIsBad | abkhazia/corpora/prepare_wsj.py:222-225 | a well-formed line containing `[bad_recording]` contributes its id |
| Wsj.CorrectWords | abkhazia/corpora/prepare_wsj.py:290 | the word list fails exactly when some word raises, and otherwise holds each word's correction |
| Wsj.NonEmpty | abkhazia/corpora/prepare_wsj.py:291 | a word is kept exactly when it is a non-empty word of the list |
| Wsj.NonEmptyAppend | abkhazia/corpora/prepare_wsj.py:291 | filtering `a + b` filters each part: the kept words stay in order and number |
| Wsj.NonEmptyKeepsAll | abkhazia/corpora/prepare_wsj.py:291 | a list of non-empty words is kept whole |
| Wsj.CorrectedTokens | abkhazia/corpora/prepare_wsj.py:290 | every corrected token is space-free and is `''`, `<noise>` or an upper-case word without backslash |
| Wsj.JoinWords | abkhazia/corpora/prepare_wsj.py:291 | joining non-empty space-free words with single spaces is empty only for no words and splits back into the words |
| Wsj.NormalizeTextWords | abkhazia/corpora/prepare_wsj.py:290-291 | the normalised text fails exactly when a token raises; otherwise it splits into the non-empty corrected tokens |
| Wsj.UttTranscript | abkhazia/corpora/prepare_wsj.py:282-294 | a bad id gives no line; otherwise the line starts with `id ` and ends with a newline, or normalisation raises |
| Wsj.TranscriptLine | abkhazia/corpora/prepare_wsj.py:276-294 | a stripped line that does not match raises AttributeError; a match gives the utterance's transcript |
| Wsj.TranscriptLineValue | abkhazia/corpora/prepare_wsj.py:278-294 | a line that does not raise parses, and gives nothing for a bad id and otherwise `id`, a space, the normalised text and a newline |
| Wsj.TranscriptsAreOutputs | abkhazia/corpora/prepare_wsj.py:276-294 | when no line raises, the lines written are the transcripts of the non-bad lines, in input order |
| Wsj.TranscriptOfWrittenLine | abkhazia/corpora/prepare_wsj.py:276-294 | the line `text (id)` gives nothing for a bad id and otherwise `id` followed by the normalised text |
| Wsj.LexiconLine | abkhazia/corpora/prepare_wsj.py:302-316 | comments give nothing; a line that does not split into exactly two fields on a double space, such as an empty one, raises ValueError |
| Wsj.EntryFields | abkhazia/corpora/prepare_wsj.py:307 | `word  phones` splits into the word and the phones |
| Wsj.LexiconEntry | abkhazia/corpora/prepare_wsj.py:302-316 | an entry gives nothing when its word is an alternative `(n)` pronunciation, and otherwise `word` and the phones without digits |
| Wsj.AlternativeSkipped | abkhazia/corpora/prepare_wsj.py:312 | `ABC(2)` is an alternative pronunciation and is skipped |
| Wsj.EmitFirstError | abkhazia/corpora/prepare_wsj.py:299-316 | the first line that raises stops the writing, and the lines written before it stay |
| Wsj.EmitError | abkhazia/corpora/prepare_wsj.py:299-316 | the writing fails exactly when some line raises, with that line's exception |
| Wsj.EmitLinesAreOutputs | abkhazia/corpora/prepare_wsj.py:299-316 | every line written comes from some input line |
| Wsj.LexiconSpec | abkhazia/corpora/prepare_wsj.py:299-323 | without an error the last line is `<noise> NSN`; the only error is ValueError |
| Wsj.BlankLineStops | abkhazia/corpora/prepare_wsj.py:305-307 | a blank dictionary line stops the lexicon with ValueError after the entries before it |
| Wsj.BlankLineRaises | abkhazia/corpora/prepare_wsj.py:307 | an empty line raises ValueError |
| Wsj.RecIdNoSlash | abkhazia/corpora/prepare_wsj.py:245 | a recording's utterance id holds no slash |
| Wsj.WavOfInjective | abkhazia/corpora/prepare_wsj.py:245-247 | two recordings have the same wav path exactly when they have the same utterance id |
| Wsj.SegmentLineFields | abkhazia/corpora/prepare_wsj.py:256-257 | a segment line is the utterance id, a space and the wav path |
| Wsj.SpeakerLineFields | abkhazia/corpora/prepare_wsj.py:263-265 | a speaker line is the utterance id, a space and the id's first (at most) three characters |
| Wsj.SegmentsAndSpeakersAgree | abkhazia/corpora/prepare_wsj.py:253-266 | both files have one line per wav, in the same order, for the same utterance id, and the speaker is the id's three-character prefix |
| Wsj.WavIdRoundTrip | abkhazia/corpora/prepare_wsj.py:245-256 | the id taken from `id.wv1` names `id.wav`, whose id is again `id` |
| FileSystems.MakeDirsSpec | abkhazia/corpora/utils/abstract_preparator.py:84 | `os.makedirs` fails with OSError exactly when the path exists or an ancestor is a file; otherwise the path and its ancestors are directories and nothing else changes |
| FileSystems.RemoveTreeSpec | abkhazia/corpora/utils/abstract_preparator.py:76 | `shutil.rmtree` fails exactly when the path is not a directory; otherwise everything below it is gone and the rest is unchanged |
| FileSystems.MakeDirsWellFormed | abkhazia/corpora/utils/abstract_preparator.py:84 | `makedirs` keeps the file system well formed |
| FileSystems.RemoveTreeWellFormed | abkhazia/corpora/utils/abstract_preparator.py:76 | `rmtree` keeps the file system well formed |
| FileSystems.FileSystem.MakeDirs | abkhazia/corpora/utils/abstract_preparator.py:84 | updates the file system as `makedirs` specifies |
| FileSystems.FileSystem.RemoveTree | abkhazia/corpora/utils/abstract_preparator.py:76 | updates the file system as `rmtree` specifies |
| FileSystems.FileSystem.Open | abkhazia/corpora/prepare_wsj.py:254 | opening for writing leaves the file empty and changes nothing else |
| FileSystems.FileSystem.Write | abkhazia/corpora/prepare_wsj.py:257 | a write appends one line to the open file and changes nothing else |
| Preparation.LayoutDirs | abkhazia/corpora/utils/abstract_preparator.py:82-97 | `data`, `data/wavs` and `logs` lie directly under the output directory |
| Preparation.ManifestPath | abkhazia/corpora/utils/abstract_preparator.py:87-94 | each of the seven manifests is `data/<fixed name>` and its basename is that name |
| Preparation.ManifestNamesDistinct | abkhazia/corpora/utils/abstract_preparator.py:88-94 | the seven manifest names are distinct |
| Preparation.ManifestsDistinct | abkhazia/corpora/utils/abstract_preparator.py:87-94 | the seven manifest paths are distinct |
| Preparation.InitSpec | abkhazia/corpora/utils/abstract_preparator.py:58-98 | a missing input directory raises IOError; without overwrite an existing output raises IOError; with overwrite a missing output makes `rmtree` raise; on success the layout is the fixed one under the output directory and `wavs` and `logs` exist |
| Preparation.Init | abkhazia/corpora/utils/abstract_preparator.py:58-98 | the constructor updates the file system and returns the layout as specified |
| Preparation.ClearedOutput | abkhazia/corpora/utils/abstract_preparator.py:74-79 | after the overwrite check nothing exists under the output directory and the other files are untouched |
| Preparation.MakeOutputDirs | abkhazia/corpora/utils/abstract_preparator.py:81-98 | both `makedirs` calls succeed on a cleared output and keep the files unchanged |
| Preparation.InitCreatesLayout | abkhazia/corpora/utils/abstract_preparator.py:58-98 | on valid paths the constructor succeeds, keeps the file system well formed, creates `data`, `wavs` and `logs`, and leaves the files outside the output directory unchanged |
| Preparation.Attempted | abkhazia/corpora/utils/abstract_preparator.py:106-120 | the steps attempted are a prefix of the fixed order that stops at the first unimplemented step; all six run only when all are implemented; without `link_wavs` only that step runs |
| Preparation.NotImplemented | abkhazia/corpora/utils/abstract_preparator.py:180-234 | an abstract step raises NotImplementedError |
| Preparation.PhoneLinesPerEntry | abkhazia/corpora/utils/abstract_preparator.py:143-145 | `phones.txt` has exactly one line per entry of the phone map, whatever the iteration order |
| Preparation.PhonesSpec | abkhazia/corpora/utils/abstract_preparator.py:141-155 | `make_phones` writes the three files, `silences.txt` and `variants.txt` even when their lists are empty, and leaves the other files unchanged |
| Preparation.WritePhoneLines | abkhazia/corpora/utils/abstract_preparator.py:143-145 | the loop writes the phone lines |
| Preparation.WriteSilences | abkhazia/corpora/utils/abstract_preparator.py:147-150 | the loop writes the silence lines |
| Preparation.WriteVariants | abkhazia/corpora/utils/abstract_preparator.py:152-155 | the loop writes the variant lines |
| Preparation.WritePhones | abkhazia/corpora/utils/abstract_preparator.py:127-155 | `make_phones` changes the files as specified and no directory |
| WsjPreparation.InitWsjSpec | abkhazia/corpora/prepare_wsj.py:177-225 | the base constructor's errors come first; a missing CMU dictionary then raises IOError; on success the layout, the recordings, the transcriptions and the bad utterances are those of the selection and the scan |
| WsjPreparation.InitWsj | abkhazia/corpora/prepare_wsj.py:177-225 | the constructor updates the file system and returns the corpus as specified |
| WsjPreparation.InitWsjOutcome | abkhazia/corpora/prepare_wsj.py:177-225 | on valid paths the file system stays well formed with `wavs` and `logs` created, even when the missing dictionary raises; the bad utterances are exactly the ids of the marked transcription lines |
| WsjPreparation.WavsSpec | abkhazia/corpora/prepare_wsj.py:240-251 | `make_wavs` changes no directory and no existing file |
| WsjPreparation.MakeWavs | abkhazia/corpora/prepare_wsj.py:240-251 | the loop creates the wavs as specified |
| WsjPreparation.ConvertRecording | abkhazia/corpora/prepare_wsj.py:245-249 | one pass of the `make_wavs` loop converts the recording exactly when it is not marked bad and its wav does not exist |
| WsjPreparation.WavsCreated | abkhazia/corpora/prepare_wsj.py:244-249 | a file exists afterwards exactly when it existed before or is the wav of a recording not marked bad whose path was free |
| WsjPreparation.WavsPresent | abkhazia/corpora/prepare_wsj.py:248 | when every wav to create already exists, nothing changes |
| WsjPreparation.WavsIdempotent | abkhazia/corpora/prepare_wsj.py:244-249 | running `make_wavs` twice is the same as running it once |
| WsjPreparation.CorruptedNotConverted | abkhazia/corpora/prepare_wsj.py:246 | a recording marked bad gets no wav |
| WsjPreparation.MakeSegment | abkhazia/corpora/prepare_wsj.py:253-258 | `segments.txt` holds one segment line per wav and nothing else changes |
| WsjPreparation.MakeSpeaker | abkhazia/corpora/prepare_wsj.py:260-266 | `utt2spk.txt` holds one speaker line per wav and nothing else changes |
| WsjPreparation.WriteLines | abkhazia/corpora/prepare_wsj.py:276-294 | the write loop appends each line's output until the first exception, which becomes the outcome |
| WsjPreparation.TranscriptionSpec | abkhazia/corpora/prepare_wsj.py:268-296 | a missing transcription file raises before `text.txt` is opened; otherwise only `text.txt` changes (its contents are stated by the three lemmas below) |
| WsjPreparation.ReadTranscriptions | abkhazia/corpora/prepare_wsj.py:270-272 | the reading loop concatenates the files' lines or raises on a missing one |
| WsjPreparation.MakeTranscription | abkhazia/corpora/prepare_wsj.py:268-296 | `make_transcription` changes the file system as specified |
| WsjPreparation.TranscriptionLines | abkhazia/corpora/prepare_wsj.py:276-294 | every line of `text.txt` is exactly `id`, a space, the normalised text and a newline for some input line with a good id; the step passes exactly when no input line raises |
| WsjPreparation.TranscriptionPasses | abkhazia/corpora/prepare_wsj.py:268-294 | when no input line raises, `text.txt` holds, in input order, the transcript of every line whose id is not bad |
| WsjPreparation.TranscriptionFails | abkhazia/corpora/prepare_wsj.py:268-294 | when line `k` is the first to raise, the step fails with its exception and `text.txt` holds the transcripts of the lines before it |
| WsjPreparation.LexiconWriteSpec | abkhazia/corpora/prepare_wsj.py:298-324 | a missing dictionary raises IOError after `lexicon.txt` is truncated; on success the last line is `<noise> NSN`; the only errors are IOError and ValueError |
| WsjPreparation.WriteLexicon | abkhazia/corpora/prepare_wsj.py:300-323 | into the freshly opened lexicon file, the lines of the dictionary's entries and the `<noise>` line, or the lines before the first exception and that exception |
| WsjPreparation.WriteManifest | abkhazia/corpora/prepare_wsj.py:276-294 | opening the output truncates it, then the write loop fills it as specified |
| WsjPreparation.MakeLexicon | abkhazia/corpora/prepare_wsj.py:298-324 | `make_lexicon` changes the file system as specified |
| WsjPreparation.LexiconOverItself | abkhazia/corpora/prepare_wsj.py:299-300 | a dictionary that is the lexicon file itself is truncated first and yields only `<noise> NSN` |
| WsjPreparation.LexiconOfCleanDictionary | abkhazia/corpora/prepare_wsj.py:298-324 | a dictionary with no bad line yields its entries followed by `<noise> NSN` |
| WsjPreparation.StepSpec | abkhazia/corpora/utils/abstract_preparator.py:110-117 | `link_wavs` raises NotImplementedError and changes nothing; the other steps create no directory |
| WsjPreparation.RunStep | abkhazia/corpora/utils/abstract_preparator.py:118-120 | one step changes the file system as specified |
| WsjPreparation.RunStepsStop | abkhazia/corpora/utils/abstract_preparator.py:118-120 | once a step raises, no later step runs |
| WsjPreparation.Prepare | abkhazia/corpora/utils/abstract_preparator.py:106-120 | the step loop runs the six steps in order until one raises |
| WsjPreparation.PrepareStopsAtLinkWavs | abkhazia/corpora/utils/abstract_preparator.py:110-120 | WSJ `prepare` raises NotImplementedError at `link_wavs` and changes nothing |
| PhoneOrder.DisambiguationExamples | abkhazia/kaldi/kaldi2features.py:29 | `#3`, `#12` and `<eps>` match the pattern; `#3a`, `#`, `<eps>x` and `a` do not |
| PhoneOrder.Kept | abkhazia/kaldi/kaldi2features.py:27-30 | the entries kept are exactly those whose phone does not match the pattern, unchanged |
| PhoneOrder.LessIrreflexive | abkhazia/kaldi/kaldi2features.py:34 | the string order is irreflexive |
| PhoneOrder.LessTransitive | abkhazia/kaldi/kaldi2features.py:34 | the string order is transitive |
| PhoneOrder.LessTotal | abkhazia/kaldi/kaldi2features.py:34 | any two distinct strings are ordered |
| PhoneOrder.SortedUnique | abkhazia/kaldi/kaldi2features.py:33-34 | `np.unique` then `sort` gives a strictly increasing list holding exactly the values |
| PhoneOrder.SortedUniqueIsCanonical | abkhazia/kaldi/kaldi2features.py:33-34 | two strictly increasing lists with the same elements are equal, so the order does not depend on the map's iteration order |
| PhoneOrder.GetPhoneOrder | abkhazia/kaldi/kaldi2features.py:20-35 | the caller's map loses exactly its excluded entries; the result is strictly increasing and holds exactly the phones left in the map |
| PhoneOrder.PhoneOrderContents | abkhazia/kaldi/kaldi2features.py:27-35 | the order holds exactly the phones of the original map that are not excluded, every code left has its phone in the order, and the order is the sorted unique list of those phones |
| Posteriors.ParseFrames | abkhazia/kaldi/kaldi2features.py:118-131 | the token loop computes the frames of the machine, and fails only with AssertionError |
| Posteriors.RenderRoundTrip | abkhazia/kaldi/kaldi2features.py:118-131 | frames written as `[ ... ]` groups parse back to themselves, one frame per closed group |
| Posteriors.UnterminatedDropped | abkhazia/kaldi/kaldi2features.py:118-131 | a final `[ ...` group that is never closed is dropped silently |
| Posteriors.OutsideTokenFails | abkhazia/kaldi/kaldi2features.py:125-131 | a `]` or any other token outside a group fails the assertion |
| Posteriors.NestedOpenFails | abkhazia/kaldi/kaldi2features.py:121-122 | a `[` inside an open group fails the assertion |
| Posteriors.ReachedShape | abkhazia/kaldi/kaldi2features.py:118-131 | every state reached is its closed groups written out, plus the open group if any |
| Posteriors.ParsedShape | abkhazia/kaldi/kaldi2features.py:118-131 | a token list parses into given frames exactly when it is those frames as groups, possibly followed by one unterminated group |
| Posteriors.Codes | abkhazia/kaldi/kaldi2features.py:136 | `frame[::2]` holds the tokens at even positions |
| Posteriors.Lookup | abkhazia/kaldi/kaldi2features.py:136 | the phones of the codes, or KeyError on the first code missing from the map |
| Posteriors.IndexOf | abkhazia/kaldi/kaldi2features.py:139 | `list.index` gives the first position of the value, or ValueError when it is absent |
| Posteriors.Columns | abkhazia/kaldi/kaldi2features.py:138-139 | each phone's column holds that phone, or ValueError on a phone not in the order |
| Posteriors.FrameColumns | abkhazia/kaldi/kaldi2features.py:134-139 | a frame succeeds exactly when it has even length and each code maps to a phone in the order; the column of code `k` then holds the phone of code `k`; an odd frame fails the assertion |
| Posteriors.SharedColumn | abkhazia/kaldi/kaldi2features.py:138-142 | codes that map to the same phone share a column |
| Posteriors.DeletedCodeFails | abkhazia/kaldi/kaldi2features.py:136 | a code deleted by `get_phone_order` raises KeyError |
| Posteriors.NoMissingColumn | abkhazia/kaldi/kaldi2features.py:136-139 | with the map and order `get_phone_order` leaves, `index` never raises |
| Results.MapUntilErrorResults | abkhazia/kaldi/kaldi2features.py:114-142 | a loop over lines or frames succeeds exactly when every item does, and otherwise fails with the first failing item's exception |
| Posteriors.Tokens | abkhazia/kaldi/kaldi2features.py:116 | a split line has at least one token, so `tokens[0]` exists |
| Posteriors.LineColumns | abkhazia/kaldi/kaldi2features.py:114-150 | the utterance id is the first token and the k-th column list is that of the k-th closed frame; the line fails exactly when the parse fails, there is no frame (ValueError) or a frame fails, with the first frame's error |
| Posteriors.FrameLoop | abkhazia/kaldi/kaldi2features.py:133-142 | the frame loop computes the columns of every frame, or the first frame's error |
| Posteriors.LineLoop | abkhazia/kaldi/kaldi2features.py:116-146 | the body of the line loop computes the line's result |
| Posteriors.Lattice | abkhazia/kaldi/kaldi2features.py:114-150 | the line loop computes every line's result, or the first line's error |
| Alignment.Repeat | abkhazia/kaldi/kaldi2features.py:89 | `[x] * n` has `n` copies of `x` |
| Alignment.TranscriptionLoop | abkhazia/kaldi/kaldi2features.py:68-91 | the loop computes the grouping as written |
| Alignment.RunIds | abkhazia/kaldi/kaldi2features.py:71-81 | from a state with a current utterance, the ids appended and the final current one are the runs of ids met |
| Alignment.LastIsCurrent | abkhazia/kaldi/kaldi2features.py:71-79 | after the loop the current utterance is the last segment's |
| Alignment.LastUtteranceNeverListed | abkhazia/kaldi/kaldi2features.py:68-92 | as written, the ids output are the runs of ids without the last one |
| Alignment.OneUtteranceLost | abkhazia/kaldi/kaldi2features.py:68-92 | as written, every alignment whose segments share one utterance and whose phones are in the order gives no utterance |
| Alignment.SameUtteranceRun | abkhazia/kaldi/kaldi2features.py:71-91 | segments of the current utterance append nothing to the ids or features |
| Alignment.SingleUtteranceLost | abkhazia/kaldi/kaldi2features.py:68-92 | example: the alignment of one two-frame segment gives no utterance |
| Alignment.OpeningSegmentIgnored | abkhazia/kaldi/kaldi2features.py:73-89 | as written, the output does not depend on the phone or frame count of any segment whose utterance differs from the one before it |
| Alignment.RunAppend | abkhazia/kaldi/kaldi2features.py:71-91 | the loop over `a + b` is the loop over `a` continued over `b` |
| Alignment.TriggerSegmentLost | abkhazia/kaldi/kaldi2features.py:73-89 | example: for segments `a` (1 frame) and `b` (3 frames, phone not in the order) the output is `a` with its one frame |
| Alignment.Grouped | abkhazia/kaldi/kaldi2features.py:68-92 | the intended grouping has one frame list per id, starting with the first segment's utterance; its only error is ValueError |
| Alignment.GroupedKnown | abkhazia/kaldi/kaldi2features.py:89 | the intended grouping fails exactly when some phone is not in the order |
| Alignment.GroupedIds | abkhazia/kaldi/kaldi2features.py:68-92 | the intended grouping lists each run of ids, the last included |
| Alignment.GroupedColumns | abkhazia/kaldi/kaldi2features.py:83-89 | the intended features, concatenated, are every frame of every segment in order |
| Alignment.GroupedLabels | abkhazia/kaldi/kaldi2features.py:68-91 | every intended frame is attributed to its own segment's utterance |
| Alignment.GroupingsDiffer | abkhazia/kaldi/kaldi2features.py:68-92 | on any non-empty alignment the intended grouping lists one more utterance than the code |

## Left out

- Text.Upper: `str.upper` and `str.strip` are modelled on ASCII letters and ASCII whitespace. The transcripts and the CMU dictionary are ASCII.
- `os.path.abspath` is the identity on the output directory. The layout lemmas assume a plain path: non-empty, without a trailing slash or `//`.
- `DEFAULT_OUTPUT_DIR` is a parameter, since its value is not part of this model.
- The logger (`get_log`, `self.log`), `progressbar` and the `print` calls are left out. They only report progress.
- The `sph2wav` conversion is left out. A created wav holds the sph path as a stand-in for its contents. `make_wavs` is modelled only as far as which files it creates.
- `list_directory(self.wavs_dir)` is a parameter of `make_segment` and `make_speaker`: the listing of the wavs directory. It is not tied to the file system.
- The corpus tree that `os.walk(input_dir)` visits is a parameter of the constructor. It is not tied to the file system.
- Dictionary iteration order in `make_phones` is a parameter: any order listing each key once. The properties hold for every such order.
- `open`'s own failure when a manifest's parent directory is missing is not modelled. The writers assume the layout the constructor created.
- `validate`, `main` and the argument parser, `force_align.py`, and the module-level script of `kaldi2features.py` are left out.
- `read_kaldi_phonemap` and `read_kaldi_alignment` are not part of this model. Their results are inputs.
- Posteriors.Lattice: the float work of `lattice2features` is left out: `float(p)`, the summation into the posteriorgram, the normalisation and the 1e-5 tolerance check. A probability that does not parse (ValueError) and a frame whose probabilities do not sum to one (IOError) are therefore not modelled. The model keeps one float behaviour: `np.max` over a line with no frame raises ValueError.
- Alignment.TranscriptionLoop: the frame count is given as a natural number, so the `(stop - start) / 0.01` rounding and its assertion are left out, along with the frame times.
- `h5features.write` is left out: the model returns what would be written.
- PhoneOrder.GetPhoneOrder: the iteration order of `phonemap.keys()` is a parameter.

## Findings

| source | as written | input that shows it | evidently intended | confidence | as-written member | corrected member |
|---|---|---|---|---|---|---|
| abkhazia/kaldi/kaldi2features.py:68-92 | the group of the current utterance is appended only when a later segment changes the id, never after the loop | an alignment of one utterance `a` with a 2-frame segment gives no utterance at all | the last utterance is appended after the loop | high, not executed | Alignment.OneUtteranceLost | Alignment.GroupedIds |
| abkhazia/kaldi/kaldi2features.py:73-89 | frames are added only in the `else` branch, so the segment that changes the id contributes none | segments `a` (1 frame), `b` (3 frames) give `a` with 1 frame; the 3 frames of `b` are lost | every segment adds its frames to its own utterance | high, not executed | Alignment.OpeningSegmentIgnored | Alignment.GroupedColumns |
