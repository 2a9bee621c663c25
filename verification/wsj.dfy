/** The WSJ manifest builders, line by line: the `TEXT (ID)` transcript
    pattern, the scan for corrupted utterances, and the contents of
    `text.txt`, `lexicon.txt`, `segments.txt` and `utt2spk.txt`. Files are
    sequences of lines as `readlines()` returns them, each written line
    ending in a newline. */
module Wsj {
  import opened Results
  import opened Text
  import opened Normalizer

  // ---------------------------------------------------------------------
  // The transcript line pattern `(.*) \((.*)\)`

  /** The first line of `s`: no `.` of the pattern matches a newline. */
  function FirstLine(s: string): (l: string)
    ensures '\n' !in l && StartsWith(s, l)
    decreases |s|
  {
    if |s| == 0 || s[0] == '\n' then ""
    else
      var rest := FirstLine(s[1..]);
      assert s[..1 + |rest|] == [s[0]] + s[1..][..|rest|];
      [s[0]] + rest
  }

  /** ` (` occurs at position `k` of `l`. */
  predicate OpensAt(l: string, k: int)
  {
    0 <= k && k + 1 < |l| && l[k] == ' ' && l[k + 1] == '('
  }

  /** The last position `i` with `i + 2 <= j` at which ` (` occurs, -1 if none. */
  function LastOpen(l: string, j: int): (i: int)
    requires j <= |l|
    ensures -1 <= i
    ensures i >= 0 ==> i + 2 <= j && OpensAt(l, i)
    ensures forall k :: i < k && k + 2 <= j ==> !OpensAt(l, k)
    decreases j
  {
    if j < 2 then -1
    else if OpensAt(l, j - 2) then j - 2
    else LastOpen(l, j - 1)
  }

  /** The two groups of a match: the utterance text and its identifier. */
  datatype UttLine = UttLine(text: string, id: string)

  /** `re.match(r'(.*) \((.*)\)', s)`. Both groups are greedy, so the
      identifier ends at the last `)` of the first line and the text ends at
      the last ` (` before it. There is a match exactly when some ` (`
      precedes some `)` on the first line; the groups then spell a prefix of
      `s` and hold no newline. */
  function MatchUtt(s: string): (r: Option<UttLine>)
    ensures r.None? <==>
      !exists i, j :: 0 <= i && i + 2 <= j < |FirstLine(s)| && OpensAt(FirstLine(s), i) && FirstLine(s)[j] == ')'
    ensures r.Some? ==>
      '\n' !in r.value.text && '\n' !in r.value.id && StartsWith(s, r.value.text + " (" + r.value.id + ")")
  {
    var l := FirstLine(s);
    var j := LastIndexOf(l, ')');
    MatchesWhenPairs(l);
    if j < 0 then None
    else
      var i := LastOpen(l, j);
      if i < 0 then None
      else
        UttGroups(s, l, i, j);
        Some(UttLine(l[..i], l[i + 2..j]))
  }

  /** The last `)` of a line and the last ` (` before it exist exactly when
      some ` (` precedes some `)`. */
  lemma MatchesWhenPairs(l: string)
    ensures var j := LastIndexOf(l, ')');
      (j >= 0 && LastOpen(l, j) >= 0) <==>
      exists i, j :: 0 <= i && i + 2 <= j < |l| && OpensAt(l, i) && l[j] == ')'
  {
    var j := LastIndexOf(l, ')');
    if j >= 0 && LastOpen(l, j) >= 0 {
      var i := LastOpen(l, j);
      assert 0 <= i && i + 2 <= j < |l| && OpensAt(l, i) && l[j] == ')';
    }
  }

  /** The groups cut from the first line spell a prefix of the input and hold no newline. */
  lemma UttGroups(s: string, l: string, i: int, j: int)
    requires '\n' !in l && StartsWith(s, l)
    requires 0 <= i && i + 2 <= j < |l| && l[i + 1] == '(' && l[i] == ' ' && l[j] == ')'
    ensures '\n' !in l[..i] && '\n' !in l[i + 2..j]
    ensures StartsWith(s, l[..i] + " (" + l[i + 2..j] + ")")
  {
    var m := l[..i] + " (" + l[i + 2..j] + ")";
    assert m == l[..j + 1];
    assert s[..|l|] == l;
    assert s[..|m|] == m;
    assert forall c :: c in l[..i] ==> c in l;
    assert forall c :: c in l[i + 2..j] ==> c in l;
  }

  /** No ` (` occurs in `id`. */
  predicate NoOpen(id: string)
  {
    forall k :: 0 <= k < |id| - 1 ==> !(id[k] == ' ' && id[k + 1] == '(')
  }

  lemma {:induction false} FirstLineUntilNewline(a: string, b: string)
    requires '\n' !in a && (b == "" || b[0] == '\n')
    ensures FirstLine(a + b) == a
    decreases |a|
  {
    if |a| > 0 {
      assert a[0] in a;
      assert forall c :: c in a[1..] ==> c in a;
      assert (a + b)[1..] == a[1..] + b;
      FirstLineUntilNewline(a[1..], b);
      assert [a[0]] + a[1..] == a;
    }
  }

  /** A line written as `TEXT (ID)`, alone or followed by a newline and more,
      parses back to its text and identifier, whatever parentheses the text
      holds, provided the identifier holds no ` (`. */
  lemma MatchUttRoundTrip(text: string, id: string, tail: string)
    requires '\n' !in text && '\n' !in id && NoOpen(id)
    requires tail == "" || tail[0] == '\n'
    ensures MatchUtt(text + " (" + id + ")" + tail) == Some(UttLine(text, id))
  {
    var line := text + " (" + id + ")";
    WrittenNoNewline(text, id);
    FirstLineUntilNewline(line, tail);
    var j := LastIndexOf(line, ')');
    assert j == |line| - 1;
    WrittenLastOpen(text, id);
    assert line[..|text|] == text;
    assert line[|text| + 2..j] == id;
  }

  lemma WrittenNoNewline(text: string, id: string)
    requires '\n' !in text && '\n' !in id
    ensures '\n' !in text + " (" + id + ")"
  {
    var line := text + " (" + id + ")";
    forall k | 0 <= k < |line| ensures line[k] != '\n' {
      if k < |text| {
        assert line[k] == text[k] && text[k] in text;
      } else if |text| + 2 <= k < |line| - 1 {
        assert line[k] == id[k - |text| - 2] && id[k - |text| - 2] in id;
      }
    }
  }

  /** In `TEXT (ID)` with no ` (` in `ID`, the last ` (` is the one after `TEXT`. */
  lemma WrittenLastOpen(text: string, id: string)
    requires NoOpen(id)
    ensures var line := text + " (" + id + ")"; LastOpen(line, |line| - 1) == |text|
  {
    var line := text + " (" + id + ")";
    var j := |line| - 1;
    assert OpensAt(line, |text|);
    forall k | |text| < k && k + 2 <= j ensures !OpensAt(line, k) {
      if k > |text| + 1 {
        assert line[k] == id[k - |text| - 2] && line[k + 1] == id[k - |text| - 1];
      }
    }
  }

  // ---------------------------------------------------------------------
  // Corrupted utterances (`bad_utts`)

  const BadRecording := "[bad_recording]"

  /** What one raw transcription line adds to `bad_utts`: nothing without the
      marker, the identifier of its match with it, and AttributeError
      (`.group` on None) for a marked line that does not match. */
  function BadUttOf(line: string): Result<Option<string>>
  {
    if !Contains(line, BadRecording) then Ok(None)
    else match MatchUtt(line)
      case None => Err(AttributeError)
      case Some(u) => Ok(Some(u.id))
  }

  /** `bad_utts` extended, in order, by the lines of one transcription. */
  function BadUttsOf(acc: Result<seq<string>>, lines: seq<string>): Result<seq<string>>
  {
    if lines == [] then acc
    else match BadUttsOf(acc, lines[..|lines| - 1])
      case Err(e) => Err(e)
      case Ok(bad) =>
        match BadUttOf(lines[|lines| - 1])
        case Err(e) => Err(e)
        case Ok(None) => Ok(bad)
        case Ok(Some(id)) => Ok(bad + [id])
  }

  /** The `bad_utts` list `__init__` builds from the transcriptions `paths`,
      whose contents `texts` gives; opening a missing file raises IOError. */
  function ScanSpec(texts: map<Path, seq<string>>, paths: seq<Path>): Result<seq<string>>
  {
    if paths == [] then Ok([])
    else match ScanSpec(texts, paths[..|paths| - 1])
      case Err(e) => Err(e)
      case Ok(bad) =>
        var p := paths[|paths| - 1];
        if p !in texts then Err(IOError(p)) else BadUttsOf(Ok(bad), texts[p])
  }

  /** The corrupted-utterance scan of `__init__`: every line of every
      selected transcription, in order. */
  method ScanBadUtts(texts: map<Path, seq<string>>, paths: seq<Path>) returns (r: Result<seq<string>>)
    ensures r == ScanSpec(texts, paths)
  {
    r := Ok([]);
    var i := 0;
    while i < |paths|
      invariant 0 <= i <= |paths|
      invariant r == ScanSpec(texts, paths[..i])
    {
      assert paths[..i + 1][..i] == paths[..i];
      var p := paths[i];
      if r.Ok? {
        if p !in texts {
          r := Err(IOError(p));
        } else {
          var lines := texts[p];
          ghost var start := r;
          var k := 0;
          while k < |lines|
            invariant 0 <= k <= |lines|
            invariant r == BadUttsOf(start, lines[..k])
          {
            assert lines[..k + 1][..k] == lines[..k];
            if r.Ok? {
              var line := lines[k];
              if Contains(line, BadRecording) {
                var m := MatchUtt(line);
                if m.None? {
                  r := Err(AttributeError);
                } else {
                  r := Ok(r.value + [m.value.id]);
                }
              }
            }
            k := k + 1;
          }
          assert lines[..|lines|] == lines;
        }
      }
      i := i + 1;
    }
    assert paths[..|paths|] == paths;
  }

  /** `readlines()` of each file in turn, concatenated; IOError names the
      first missing file. */
  function ReadAll(texts: map<Path, seq<string>>, paths: seq<Path>): (r: Result<seq<string>>)
    ensures r.Err? <==> exists p :: p in paths && p !in texts
    ensures r.Ok? ==> forall line :: line in r.value <==> exists p :: p in paths && p in texts && line in texts[p]
  {
    if paths == [] then Ok([])
    else
      var init := paths[..|paths| - 1];
      var p := paths[|paths| - 1];
      assert forall q :: q in paths <==> q in init || q == p;
      match ReadAll(texts, init)
      case Err(e) => Err(e)
      case Ok(lines) => if p !in texts then Err(IOError(p)) else Ok(lines + texts[p])
  }

  /** Reading `a` then `b` gives the lines of `a` followed by those of `b`;
      once `a` has been read, a failure is the first missing file of `b`. */
  lemma {:induction false} ReadAllAppend(texts: map<Path, seq<string>>, a: seq<Path>, b: seq<Path>)
    requires ReadAll(texts, a).Ok?
    ensures ReadAll(texts, a + b) ==
      if ReadAll(texts, b).Ok? then Ok(ReadAll(texts, a).value + ReadAll(texts, b).value) else ReadAll(texts, b)
    decreases |b|
  {
    if b == [] {
      assert a + b == a;
      assert ReadAll(texts, a).value + [] == ReadAll(texts, a).value;
    } else {
      var init := b[..|b| - 1];
      var p := b[|b| - 1];
      assert (a + b)[..|a + b| - 1] == a + init;
      assert (a + b)[|a + b| - 1] == p;
      ReadAllAppend(texts, a, init);
      if ReadAll(texts, init).Ok? && p in texts {
        AppendAssoc(ReadAll(texts, a).value, ReadAll(texts, init).value, texts[p]);
      }
    }
  }

  /** Reading a file before others puts its lines first. */
  lemma ReadAllPrepend(texts: map<Path, seq<string>>, p: Path, ps: seq<Path>)
    requires p in texts
    ensures ReadAll(texts, [p] + ps) ==
      if ReadAll(texts, ps).Ok? then Ok(texts[p] + ReadAll(texts, ps).value) else ReadAll(texts, ps)
  {
    assert [p][..0] == [];
    assert ReadAll(texts, [p]) == Ok([] + texts[p]);
    assert [] + texts[p] == texts[p];
    ReadAllAppend(texts, [p], ps);
  }

  lemma AppendAssoc<T>(a: seq<T>, b: seq<T>, c: seq<T>)
    ensures a + b + c == a + (b + c)
  {
  }

  /** Reading stops at the first missing file. */
  lemma {:induction false} ReadAllStops(texts: map<Path, seq<string>>, a: seq<Path>, b: seq<Path>)
    requires ReadAll(texts, a).Err?
    ensures ReadAll(texts, a + b) == ReadAll(texts, a)
    decreases |b|
  {
    if b == [] {
      assert a + b == a;
    } else {
      assert (a + b)[..|a + b| - 1] == a + b[..|b| - 1];
      ReadAllStops(texts, a, b[..|b| - 1]);
    }
  }

  lemma {:induction false} BadUttsOfAppend(acc: Result<seq<string>>, a: seq<string>, b: seq<string>)
    ensures BadUttsOf(acc, a + b) == BadUttsOf(BadUttsOf(acc, a), b)
    decreases |b|
  {
    if b == [] {
      assert a + b == a;
    } else {
      assert (a + b)[..|a + b| - 1] == a + b[..|b| - 1];
      assert (a + b)[|a + b| - 1] == b[|b| - 1];
      BadUttsOfAppend(acc, a, b[..|b| - 1]);
    }
  }

  /** Once the scan has failed, further lines change nothing. */
  lemma {:induction false} BadUttsOfErr(e: PyError, lines: seq<string>)
    ensures BadUttsOf(Err(e), lines) == Err(e)
    decreases |lines|
  {
    if lines != [] {
      BadUttsOfErr(e, lines[..|lines| - 1]);
    }
  }

  /** When every transcription exists, the scan is a scan of all their lines. */
  lemma {:induction false} ScanIsScanOfAllLines(texts: map<Path, seq<string>>, paths: seq<Path>)
    requires ReadAll(texts, paths).Ok?
    ensures ScanSpec(texts, paths) == BadUttsOf(Ok([]), ReadAll(texts, paths).value)
    decreases |paths|
  {
    if paths != [] {
      var init := paths[..|paths| - 1];
      var p := paths[|paths| - 1];
      ScanIsScanOfAllLines(texts, init);
      BadUttsOfAppend(Ok([]), ReadAll(texts, init).value, texts[p]);
      if ScanSpec(texts, init).Err? {
        BadUttsOfErr(ScanSpec(texts, init).error, texts[p]);
      }
    }
  }

  /** A missing transcription makes the scan fail. */
  lemma {:induction false} ScanNeedsAllFiles(texts: map<Path, seq<string>>, paths: seq<Path>)
    requires ReadAll(texts, paths).Err?
    ensures ScanSpec(texts, paths).Err?
    decreases |paths|
  {
    var init := paths[..|paths| - 1];
    if ReadAll(texts, init).Err? {
      ScanNeedsAllFiles(texts, init);
    }
  }

  /** The scan fails exactly when a marked line does not match the pattern;
      otherwise `bad_utts` holds exactly the identifiers of the marked lines. */
  lemma {:induction false} BadUttsMembers(lines: seq<string>)
    ensures BadUttsOf(Ok([]), lines).Err? <==> exists line :: line in lines && BadUttOf(line).Err?
    ensures BadUttsOf(Ok([]), lines).Ok? ==>
      forall id :: id in BadUttsOf(Ok([]), lines).value <==> exists line :: line in lines && BadUttOf(line) == Ok(Some(id))
    decreases |lines|
  {
    if lines != [] {
      var init := lines[..|lines| - 1];
      var last := lines[|lines| - 1];
      BadUttsMembers(init);
      assert forall line :: line in lines <==> line in init || line == last by {
        assert lines == init + [last];
      }
    }
  }

  /** The scan of `__init__` fails exactly when a selected transcription is
      missing or one of its marked lines does not match the pattern;
      otherwise `bad_utts` holds exactly the identifiers of the marked lines
      of the selected transcriptions. */
  lemma ScanMembers(texts: map<Path, seq<string>>, paths: seq<Path>)
    ensures ScanSpec(texts, paths).Err? <==>
      (exists p :: p in paths && p !in texts) ||
      (exists p, line :: p in paths && p in texts && line in texts[p] && BadUttOf(line).Err?)
    ensures ScanSpec(texts, paths).Ok? ==> forall id :: id in ScanSpec(texts, paths).value <==>
      exists p, line :: p in paths && p in texts && line in texts[p] && BadUttOf(line) == Ok(Some(id))
  {
    var all := ReadAll(texts, paths);
    if all.Err? {
      ScanNeedsAllFiles(texts, paths);
    } else {
      ScanIsScanOfAllLines(texts, paths);
      BadUttsMembers(all.value);
    }
  }

  /** A marked line `TEXT (ID)` puts ID into `bad_utts`. */
  lemma MarkedLineIsBad(text: string, id: string)
    requires '\n' !in text && '\n' !in id && NoOpen(id)
    requires Contains(text + " (" + id + ")\n", BadRecording)
    ensures BadUttOf(text + " (" + id + ")\n") == Ok(Some(id))
  {
    assert text + " (" + id + ")\n" == text + " (" + id + ")" + "\n";
    MatchUttRoundTrip(text, id, "\n");
  }

  // ---------------------------------------------------------------------
  // text.txt

  /** `[correct_word(w) for w in words]`: the first token that raises
      raises for the whole list. */
  function CorrectWords(ws: seq<string>): (r: Result<seq<string>>)
    ensures r.Err? <==> exists k :: 0 <= k < |ws| && CorrectWord(ws[k]).Err?
    ensures r.Ok? ==> |r.value| == |ws| && forall k :: 0 <= k < |ws| ==> CorrectWord(ws[k]) == Ok(r.value[k])
  {
    MapUntilErrorResults(CorrectWord, ws);
    MapUntilError(CorrectWord, ws)
  }

  /** `[w for w in words if w != '']`, in order. */
  function NonEmpty(ws: seq<string>): (r: seq<string>)
    ensures forall w :: w in r <==> w in ws && w != ""
  {
    if ws == [] then []
    else
      assert forall w :: w in ws <==> w == ws[0] || w in ws[1..];
      if ws[0] == "" then NonEmpty(ws[1..]) else [ws[0]] + NonEmpty(ws[1..])
  }

  /** The filter keeps the words of each piece in order and number. */
  lemma {:induction false} NonEmptyAppend(a: seq<string>, b: seq<string>)
    ensures NonEmpty(a + b) == NonEmpty(a) + NonEmpty(b)
    decreases |a|
  {
    if a == [] {
      assert a + b == b;
    } else {
      assert (a + b)[0] == a[0] && (a + b)[1..] == a[1..] + b;
      NonEmptyAppend(a[1..], b);
    }
  }

  /** Words that are all non-empty are kept whole. */
  lemma {:induction false} NonEmptyKeepsAll(ws: seq<string>)
    requires forall k :: 0 <= k < |ws| ==> ws[k] != ""
    ensures NonEmpty(ws) == ws
    decreases |ws|
  {
    if ws != [] {
      NonEmptyKeepsAll(ws[1..]);
    }
  }

  /** The text of an utterance as written to `text.txt`: its tokens, split on
      single spaces, normalised, the empty ones dropped, joined by spaces. */
  function NormalizeText(text: string): Result<string>
  {
    match CorrectWords(Split(text, " "))
    case Err(e) => Err(e)
    case Ok(ws) => Ok(Join(NonEmpty(ws), " "))
  }

  /** Normalised space-free tokens hold no space and are empty, `<noise>`
      or upper-case without backslash. */
  lemma CorrectedTokens(ws: seq<string>)
    requires CorrectWords(ws).Ok?
    requires forall w :: w in ws ==> ' ' !in w
    ensures forall c :: c in CorrectWords(ws).value ==>
      ' ' !in c && (c == "" || c == "<noise>" || ('\\' !in c && NoLower(c)))
  {
    var cs := CorrectWords(ws).value;
    forall c | c in cs ensures ' ' !in c && (c == "" || c == "<noise>" || ('\\' !in c && NoLower(c))) {
      var k :| 0 <= k < |cs| && cs[k] == c;
      assert ws[k] in ws;
      assert CorrectWord(ws[k]) == Ok(c);
    }
  }

  /** Joining non-empty space-free words with single spaces and splitting
      the result gives the words back; no words give the empty string. */
  lemma JoinWords(words: seq<string>)
    requires forall w :: w in words ==> w != "" && ' ' !in w
    ensures Join(words, " ") == "" <==> words == []
    ensures words != [] ==> Split(Join(words, " "), " ") == words
  {
    if words != [] {
      SplitJoin(words, ' ');
      assert Split("", " ") == [""];
      assert words[0] in words;
    }
  }

  /** The normalised text raises exactly when a token does; otherwise its
      words, split back on single spaces, are the non-empty normalised
      tokens in order, so no empty word survives (no double, leading or
      trailing space) and each word is `<noise>` or an upper-case token
      without backslash. */
  lemma NormalizeTextWords(text: string)
    ensures NormalizeText(text).Err? <==>
      exists k :: 0 <= k < |Split(text, " ")| && CorrectWord(Split(text, " ")[k]).Err?
    ensures NormalizeText(text).Ok? ==>
      var words := NonEmpty(CorrectWords(Split(text, " ")).value);
      (NormalizeText(text).value == "" <==> words == []) &&
      (words != [] ==> Split(NormalizeText(text).value, " ") == words) &&
      forall w :: w in words ==> w != "" && ' ' !in w && (w == "<noise>" || ('\\' !in w && NoLower(w)))
  {
    var ws := Split(text, " ");
    if CorrectWords(ws).Ok? {
      var words := NonEmpty(CorrectWords(ws).value);
      assert NormalizeText(text) == Ok(Join(words, " "));
      SplitCharPieces(text, ' ');
      CorrectedTokens(ws);
      JoinWords(words);
    } else {
      var k :| 0 <= k < |ws| && CorrectWord(ws[k]).Err?;
      assert CorrectWord(Split(text, " ")[k]).Err?;
      assert NormalizeText(text).Err?;
    }
  }

  /** What a matched utterance contributes to `text.txt`: nothing when it is
      in `bad_utts`, else its identifier and normalised text. */
  function UttTranscript(u: UttLine, bad: seq<string>): (r: Result<Option<string>>)
    ensures r == Ok(None) <==> u.id in bad
    ensures r.Err? <==> u.id !in bad && NormalizeText(u.text).Err?
    ensures r.Ok? && r.value.Some? ==> StartsWith(r.value.value, u.id + " ") && EndsWith(r.value.value, "\n")
  {
    if u.id in bad then Ok(None)
    else match NormalizeText(u.text)
      case Err(e) => Err(e)
      case Ok(t) =>
        var out := u.id + " " + t + "\n";
        assert out[..|u.id + " "|] == u.id + " ";
        Ok(Some(out))
  }

  /** One line of the concatenated transcriptions, as `make_transcription`
      handles it: stripped and matched (a line that does not match raises
      AttributeError), then written unless its identifier is bad. */
  function TranscriptLine(line: string, bad: seq<string>): (r: Result<Option<string>>)
    ensures MatchUtt(Strip(line)).None? ==> r == Err(AttributeError)
    ensures MatchUtt(Strip(line)).Some? ==> r == UttTranscript(MatchUtt(Strip(line)).value, bad)
  {
    match MatchUtt(Strip(line))
    case None => Err(AttributeError)
    case Some(u) => UttTranscript(u, bad)
  }

  /** A transcription line that does not raise gives nothing for a
      corrupted utterance, and otherwise the utterance's id, a space, its
      normalised text and a newline. */
  lemma TranscriptLineValue(line: string, bad: seq<string>)
    requires TranscriptLine(line, bad).Ok?
    ensures MatchUtt(Strip(line)).Some?
    ensures var u := MatchUtt(Strip(line)).value;
      u.id !in bad ==> NormalizeText(u.text).Ok?
    ensures var u := MatchUtt(Strip(line)).value;
      TranscriptLine(line, bad) ==
        if u.id in bad then Ok(None) else Ok(Some(u.id + " " + NormalizeText(u.text).value + "\n"))
  {
  }

  /** What `text.txt` is meant to hold for raw transcription lines none of
      which raises: in input order, one line `<utt-id> <text>` per line whose
      utterance is not corrupted. */
  function Transcripts(lines: seq<string>, bad: seq<string>): seq<string>
    requires forall k :: 0 <= k < |lines| ==> TranscriptLine(lines[k], bad).Ok?
    decreases |lines|
  {
    if lines == [] then []
    else
      assert forall k :: 0 <= k < |lines| - 1 ==> lines[1..][k] == lines[k + 1];
      TranscriptLineValue(lines[0], bad);
      var u := MatchUtt(Strip(lines[0])).value;
      var rest := Transcripts(lines[1..], bad);
      if u.id in bad then rest else [u.id + " " + NormalizeText(u.text).value + "\n"] + rest
  }

  /** A transcription line `TEXT (ID)` is parsed back into its text and
      identifier: a bad identifier gives no line, any other one the line
      `ID` followed by the normalised text. */
  lemma TranscriptOfWrittenLine(text: string, id: string, bad: seq<string>)
    requires '\n' !in text && '\n' !in id && NoOpen(id)
    requires text != "" && !IsSpace(text[0])
    ensures TranscriptLine(text + " (" + id + ")\n", bad) ==
      if id in bad then Ok(None)
      else match NormalizeText(text)
        case Err(e) => Err(e)
        case Ok(t) => Ok(Some(id + " " + t + "\n"))
  {
    var line := text + " (" + id + ")\n";
    WrittenLineParses(text, id);
    assert TranscriptLine(line, bad) == UttTranscript(UttLine(text, id), bad);
  }

  /** The line `TEXT (ID)` with its newline strips and matches back. */
  lemma WrittenLineParses(text: string, id: string)
    requires '\n' !in text && '\n' !in id && NoOpen(id)
    requires text != "" && !IsSpace(text[0])
    ensures MatchUtt(Strip(text + " (" + id + ")\n")) == Some(UttLine(text, id))
  {
    var l := text + " (" + id + ")";
    assert text + " (" + id + ")\n" == l + "\n";
    StripWritten(text, id);
    MatchWritten(text, id);
  }

  /** Stripping a written line removes only its newline. */
  lemma StripWritten(text: string, id: string)
    requires text != "" && !IsSpace(text[0])
    ensures Strip(text + " (" + id + ")" + "\n") == text + " (" + id + ")"
  {
    var l := text + " (" + id + ")";
    assert l[0] == text[0] && l[|l| - 1] == ')';
    StripKeeps(l);
  }

  /** A written line without its newline matches back. */
  lemma MatchWritten(text: string, id: string)
    requires '\n' !in text && '\n' !in id && NoOpen(id)
    ensures MatchUtt(text + " (" + id + ")") == Some(UttLine(text, id))
  {
    MatchUttRoundTrip(text, id, "");
    assert text + " (" + id + ")" + "" == text + " (" + id + ")";
  }

  // ---------------------------------------------------------------------
  // lexicon.txt

  /** `line[:3] == ';;;'` on a line of at least three characters. */
  predicate IsComment(l: string)
  {
    |l| >= 3 && l[..3] == ";;;"
  }

  /** `re.match(r'(.*)\([0-9]+\)$', word)`: the word ends, possibly before
      a final newline, in a parenthesised non-empty run of digits, and no
      newline precedes it (`.` does not match one). */
  predicate AltPron(word: string)
  {
    var core := if EndsWith(word, "\n") then word[..|word| - 1] else word;
    '\n' !in core && |core| >= 3 && core[|core| - 1] == ')' &&
    exists i :: 0 <= i < |core| - 2 && core[i] == '(' && AllDigits(core[i + 1..|core| - 1])
  }

  /** One line of the CMU dictionary, as `make_lexicon` handles it: stripped;
      a comment gives nothing; anything that is not two fields around a
      double space raises ValueError; an alternative pronunciation gives
      nothing; otherwise the word and its phones without stress digits. */
  function LexiconLine(line: string): (r: Result<Option<string>>)
    ensures IsComment(Strip(line)) ==> r == Ok(None)
    ensures Strip(line) == "" ==> r == Err(ValueError)
    ensures r.Err? <==> !IsComment(Strip(line)) && |Split(Strip(line), "  ")| != 2
    ensures r.Err? ==> r.error == ValueError
    ensures r.Ok? && r.value.Some? ==> EndsWith(r.value.value, "\n")
  {
    var l := Strip(line);
    if IsComment(l) then Ok(None)
    else
      var fields := Split(l, "  ");
      if |fields| != 2 then Err(ValueError)
      else if AltPron(fields[0]) then Ok(None)
      else
        var out := fields[0] + " " + RemoveDigits(fields[1]) + "\n";
        assert out[|out| - 1..] == "\n";
        Ok(Some(out))
  }

  /** An entry `WORD  PHONES` has two fields when the word holds no space and
      the phones no double space, and it is no comment. */
  lemma EntryFields(word: string, phones: string)
    requires word != "" && ' ' !in word && !StartsWith(word, ";;;")
    requires !Contains(phones, "  ")
    ensures Split(word + "  " + phones, "  ") == [word, phones]
    ensures !IsComment(word + "  " + phones)
  {
    var l := word + "  " + phones;
    if |word| >= 3 {
      assert l[..3] == word[..3];
    } else {
      assert l[|word|] == ' ';
    }
    SplitCons(word, "  ", phones);
    SplitNoSep(phones, "  ");
  }

  /** A dictionary entry `WORD  PHONES` (the word without space, the phones
      without a double space) is written as `WORD PHONES'`, where PHONES'
      has every digit removed, unless the word is a comment or an
      alternative pronunciation. */
  lemma LexiconEntry(word: string, phones: string)
    requires word != "" && ' ' !in word && !IsSpace(word[0])
    requires phones != "" && !IsSpace(phones[|phones| - 1]) && !Contains(phones, "  ")
    requires !StartsWith(word, ";;;")
    ensures LexiconLine(word + "  " + phones + "\n") ==
      if AltPron(word) then Ok(None) else Ok(Some(word + " " + RemoveDigits(phones) + "\n"))
  {
    var l := word + "  " + phones;
    assert l[0] == word[0] && l[|l| - 1] == phones[|phones| - 1];
    StripKeeps(l);
    assert l + "\n" == word + "  " + phones + "\n";
    EntryFields(word, phones);
  }

  /** `ABC(2)` is an alternative pronunciation of `ABC` and is skipped. */
  lemma AlternativeSkipped(word: string, phones: string)
    requires word == "ABC(2)"
    requires phones != "" && ' ' !in phones && !IsSpace(phones[|phones| - 1])
    ensures AltPron(word)
    ensures LexiconLine(word + "  " + phones + "\n") == Ok(None)
  {
    assert !EndsWith(word, "\n");
    assert '\n' !in word by {
      assert forall k :: 0 <= k < |word| ==> word[k] != '\n';
    }
    assert word[4..5] == "2";
    assert AllDigits(word[4..5]);
    assert word[3] == '(' && word[5] == ')';
    assert AltPron(word);
    FirstCharAbsent(phones, "  ");
    LexiconEntry(word, phones);
    assert LexiconLine(word + "  " + phones + "\n") == if AltPron(word) then Ok(None) else Ok(Some(word + " " + RemoveDigits(phones) + "\n"));
  }

  // ---------------------------------------------------------------------
  // Writing a manifest line by line

  /** What one raw transcription line contributes to `text.txt`. */
  function TranscriptStep(bad: seq<string>): string -> Result<Option<string>>
  {
    line => TranscriptLine(line, bad)
  }

  /** What `f` gives for each of `xs`, in order: the contribution of each
      input line, or the output line for each listed file. */
  function Each<A, B>(f: A -> B, xs: seq<A>): (r: seq<B>)
    ensures |r| == |xs| && forall k :: 0 <= k < |xs| ==> r[k] == f(xs[k])
  {
    seq(|xs|, k requires 0 <= k < |xs| => f(xs[k]))
  }

  lemma EachPrefix<A, B>(f: A -> B, xs: seq<A>, k: nat)
    requires k <= |xs|
    ensures Each(f, xs)[..k] == Each(f, xs[..k])
  {
  }

  /** The lines a write loop has written and the exception that ended it, if any. */
  datatype Emitted = Emitted(lines: seq<string>, error: Option<PyError>)

  /** The write loop over the contributions `rs` of the input lines: each
      output line is written as it is produced, and the first exception ends
      the loop, the lines already written staying in the file. */
  function Emit(rs: seq<Result<Option<string>>>): Emitted
  {
    if rs == [] then Emitted([], None)
    else
      var e := Emit(rs[..|rs| - 1]);
      if e.error.Some? then e
      else match rs[|rs| - 1]
        case Err(x) => Emitted(e.lines, Some(x))
        case Ok(None) => e
        case Ok(Some(out)) => Emitted(e.lines + [out], None)
  }

  /** The output lines among `rs`, in order, exceptions ignored. */
  function Outputs(rs: seq<Result<Option<string>>>): (r: seq<string>)
    ensures forall o :: o in r <==> Ok(Some(o)) in rs
  {
    if rs == [] then []
    else
      var rest := Outputs(rs[1..]);
      assert forall x :: x in rs <==> x == rs[0] || x in rs[1..];
      match rs[0]
      case Ok(Some(o)) => [o] + rest
      case _ => rest
  }

  lemma {:induction false} OutputsAppend(a: seq<Result<Option<string>>>, x: Result<Option<string>>)
    ensures Outputs(a + [x]) == Outputs(a) + Outputs([x])
    decreases |a|
  {
    if a != [] {
      assert (a + [x])[1..] == a[1..] + [x];
      OutputsAppend(a[1..], x);
    }
  }

  /** Without an exception the loop writes exactly the output lines, in order. */
  lemma {:induction false} EmitNoError(rs: seq<Result<Option<string>>>)
    requires forall k :: 0 <= k < |rs| ==> rs[k].Ok?
    ensures Emit(rs) == Emitted(Outputs(rs), None)
    decreases |rs|
  {
    if rs != [] {
      var init := rs[..|rs| - 1];
      var last := rs[|rs| - 1];
      assert forall k :: 0 <= k < |init| ==> init[k] == rs[k];
      EmitNoError(init);
      OutputsAppend(init, last);
      assert init + [last] == rs;
    }
  }

  /** When contribution `k` is the first exception, the file holds the output
      lines before it and the loop ends with that exception. */
  /** Without an exception, the output lines of the transcription lines are
      their transcripts. */
  lemma {:induction false} TranscriptsAreOutputs(lines: seq<string>, bad: seq<string>)
    requires forall k :: 0 <= k < |lines| ==> TranscriptLine(lines[k], bad).Ok?
    ensures Outputs(Each(TranscriptStep(bad), lines)) == Transcripts(lines, bad)
    decreases |lines|
  {
    if lines != [] {
      var rs := Each(TranscriptStep(bad), lines);
      assert forall k :: 0 <= k < |lines| - 1 ==> lines[1..][k] == lines[k + 1];
      assert rs[1..] == Each(TranscriptStep(bad), lines[1..]);
      TranscriptsAreOutputs(lines[1..], bad);
      TranscriptLineValue(lines[0], bad);
      assert rs[0] == TranscriptLine(lines[0], bad);
      OutputsHead(rs);
    }
  }

  lemma OutputsHead(rs: seq<Result<Option<string>>>)
    requires rs != []
    ensures Outputs(rs) == (if rs[0].Ok? && rs[0].value.Some? then [rs[0].value.value] else []) + Outputs(rs[1..])
  {
  }

  lemma {:induction false} EmitFirstError(rs: seq<Result<Option<string>>>, k: nat)
    requires k < |rs| && rs[k].Err?
    requires forall j :: 0 <= j < k ==> rs[j].Ok?
    ensures Emit(rs) == Emitted(Outputs(rs[..k]), Some(rs[k].error))
    decreases |rs|
  {
    var init := rs[..|rs| - 1];
    if k == |rs| - 1 {
      assert init == rs[..k];
      EmitNoError(init);
    } else {
      assert init[k] == rs[k] && init[..k] == rs[..k];
      EmitFirstError(init, k);
    }
  }

  /** Once the loop has raised, later lines change nothing. */
  lemma {:induction false} EmitStops(a: seq<Result<Option<string>>>, b: seq<Result<Option<string>>>)
    requires Emit(a).error.Some?
    ensures Emit(a + b) == Emit(a)
    decreases |b|
  {
    if b == [] {
      assert a + b == a;
    } else {
      assert (a + b)[..|a + b| - 1] == a + b[..|b| - 1];
      EmitStops(a, b[..|b| - 1]);
    }
  }

  /** Every line the loop writes is the output of some input line. */
  lemma {:induction false} EmitLinesAreOutputs(rs: seq<Result<Option<string>>>)
    ensures forall o :: o in Emit(rs).lines ==> Ok(Some(o)) in rs
    decreases |rs|
  {
    if rs != [] {
      var init := rs[..|rs| - 1];
      EmitLinesAreOutputs(init);
      assert forall x :: x in init ==> x in rs;
    }
  }

  /** The loop raises exactly when some contribution is an exception. */
  lemma {:induction false} EmitError(rs: seq<Result<Option<string>>>)
    ensures Emit(rs).error.Some? <==> exists k :: 0 <= k < |rs| && rs[k].Err?
    ensures Emit(rs).error.Some? ==> exists k :: 0 <= k < |rs| && rs[k] == Err(Emit(rs).error.value)
    decreases |rs|
  {
    if rs != [] {
      var init := rs[..|rs| - 1];
      EmitError(init);
      assert forall k :: 0 <= k < |init| ==> init[k] == rs[k];
      if Emit(rs).error.None? {
        assert forall k :: 0 <= k < |rs| ==> rs[k].Ok? by {
          forall k | 0 <= k < |rs| ensures rs[k].Ok? {
            if k < |init| {
              assert init[k] == rs[k];
            }
          }
        }
      }
    }
  }

  /** `make_lexicon`: the dictionary lines, then `<noise> NSN` when no line raised. */
  function LexiconSpec(cmu: seq<string>): (r: Emitted)
    ensures r.error.None? ==> |r.lines| > 0 && r.lines[|r.lines| - 1] == "<noise> NSN\n"
    ensures r.error.Some? ==> r.error.value == ValueError
  {
    var e := Emit(Each(LexiconLine, cmu));
    EmitError(Each(LexiconLine, cmu));
    if e.error.None? then Emitted(e.lines + ["<noise> NSN\n"], None) else e
  }

  /** A blank line in the dictionary raises ValueError and nothing after it is written. */
  lemma BlankLineStops(before: seq<string>, after: seq<string>)
    requires forall j :: 0 <= j < |before| ==> LexiconLine(before[j]).Ok?
    ensures LexiconSpec(before + ["\n"] + after) == Emitted(Outputs(Each(LexiconLine, before)), Some(ValueError))
  {
    var lines := before + ["\n"] + after;
    var rs := Each(LexiconLine, lines);
    BlankLineRaises();
    assert lines[|before|] == "\n";
    assert rs[|before|] == Err(ValueError);
    forall j | 0 <= j < |before| ensures rs[j].Ok? {
      assert lines[j] == before[j];
    }
    assert rs[..|before|] == Each(LexiconLine, before) by {
      forall j | 0 <= j < |before| ensures rs[..|before|][j] == Each(LexiconLine, before)[j] {
        assert lines[j] == before[j];
      }
    }
    EmitFirstError(rs, |before|);
  }

  lemma BlankLineRaises()
    ensures LexiconLine("\n") == Err(ValueError)
  {
    StripKeeps("");
  }

  // ---------------------------------------------------------------------
  // wavs, segments.txt, utt2spk.txt

  /** The utterance identifier of a recording: its base name without `.wv1`. */
  function RecId(sph: Path): string
  {
    ReplaceAll(Basename(sph), ".wv1", "")
  }

  /** A recording identifier holds no slash. */
  lemma RecIdNoSlash(sph: Path)
    ensures '/' !in RecId(sph)
  {
    ReplaceAllChars(Basename(sph), ".wv1", "");
  }

  /** The wav of a recording: `wavs_dir/<utt_id>.wav`. */
  function WavOf(wavsDir: Path, sph: Path): Path
  {
    PathJoin(wavsDir, RecId(sph) + ".wav")
  }

  /** Two recordings share a wav exactly when they share an identifier. */
  lemma WavOfInjective(wavsDir: Path, a: Path, b: Path)
    ensures WavOf(wavsDir, a) == WavOf(wavsDir, b) <==> RecId(a) == RecId(b)
  {
    var x := RecId(a) + ".wav";
    var y := RecId(b) + ".wav";
    RecIdNoSlash(a);
    RecIdNoSlash(b);
    assert !StartsWith(x, "/") by {
      if RecId(a) != "" { assert x[0] == RecId(a)[0] && RecId(a)[0] in RecId(a); }
    }
    assert !StartsWith(y, "/") by {
      if RecId(b) != "" { assert y[0] == RecId(b)[0] && RecId(b)[0] in RecId(b); }
    }
    if WavOf(wavsDir, a) == WavOf(wavsDir, b) {
      var d := PathJoin(wavsDir, x);
      assert |x| == |y|;
      assert x == d[|d| - |x|..] == y;
      assert RecId(a) == x[..|x| - 4] == y[..|y| - 4] == RecId(b);
    }
  }

  /** The utterance identifier of a wav: its base name without `.wav`. */
  function UttIdOfWav(wav: Path): string
  {
    ReplaceAll(Basename(wav), ".wav", "")
  }

  /** `segments.txt` line of a wav: `<utt_id> <wav>`. */
  function SegmentLine(wav: Path): string
  {
    UttIdOfWav(wav) + " " + wav + "\n"
  }

  /** `utt2spk.txt` line of a wav: `<utt_id> <speaker>`, the speaker being the
      first three characters of the identifier. */
  function SpeakerLine(wav: Path): string
  {
    var u := UttIdOfWav(wav);
    u + " " + Take(u, 3) + "\n"
  }

  /** `segments.txt` for the wavs listed. */
  function Segments(wavs: seq<Path>): seq<string>
  {
    Each(SegmentLine, wavs)
  }

  /** `utt2spk.txt` for the wavs listed. */
  function Speakers(wavs: seq<Path>): seq<string>
  {
    Each(SpeakerLine, wavs)
  }

  lemma SegmentLineFields(wav: Path)
    ensures StartsWith(SegmentLine(wav), UttIdOfWav(wav) + " ")
    ensures EndsWith(SegmentLine(wav), " " + wav + "\n")
  {
    TwoFields(UttIdOfWav(wav), wav);
  }

  lemma TwoFields(u: string, w: string)
    ensures StartsWith(u + " " + w + "\n", u + " ")
    ensures EndsWith(u + " " + w + "\n", " " + w + "\n")
  {
    var line := u + " " + w + "\n";
    assert line[..|u + " "|] == u + " ";
    assert line[|line| - |" " + w + "\n"|..] == " " + w + "\n";
  }

  lemma SpeakerLineFields(wav: Path)
    ensures var u := UttIdOfWav(wav);
      var spk := SpeakerLine(wav);
      StartsWith(spk, u + " ") && |spk| >= |u| + 2 &&
      StartsWith(u, spk[|u| + 1..|spk| - 1]) && |spk[|u| + 1..|spk| - 1]| == (if |u| < 3 then |u| else 3)
  {
    var u := UttIdOfWav(wav);
    var spk := SpeakerLine(wav);
    assert spk[..|u + " "|] == u + " ";
    assert spk[|u| + 1..|spk| - 1] == Take(u, 3);
  }

  /** `segments.txt` and `utt2spk.txt` list the same identifiers in the same
      order: line `k` of both starts with the identifier of wav `k`; the
      segment line then names the wav, and the speaker is the identifier's
      first three characters (all of it when shorter). */
  lemma SegmentsAndSpeakersAgree(wavs: seq<Path>)
    ensures |Segments(wavs)| == |Speakers(wavs)| == |wavs|
    ensures forall k :: 0 <= k < |wavs| ==>
      StartsWith(Segments(wavs)[k], UttIdOfWav(wavs[k]) + " ") &&
      EndsWith(Segments(wavs)[k], " " + wavs[k] + "\n") &&
      StartsWith(Speakers(wavs)[k], UttIdOfWav(wavs[k]) + " ")
    ensures forall k :: 0 <= k < |wavs| ==>
      var u := UttIdOfWav(wavs[k]);
      var speaker := Speakers(wavs)[k][|u| + 1..|Speakers(wavs)[k]| - 1];
      StartsWith(u, speaker) && |speaker| == (if |u| < 3 then |u| else 3)
  {
    forall k | 0 <= k < |wavs|
      ensures StartsWith(Segments(wavs)[k], UttIdOfWav(wavs[k]) + " ")
      ensures EndsWith(Segments(wavs)[k], " " + wavs[k] + "\n")
      ensures StartsWith(Speakers(wavs)[k], UttIdOfWav(wavs[k]) + " ")
      ensures var u := UttIdOfWav(wavs[k]);
        var speaker := Speakers(wavs)[k][|u| + 1..|Speakers(wavs)[k]| - 1];
        StartsWith(u, speaker) && |speaker| == (if |u| < 3 then |u| else 3)
    {
      SegmentLineFields(wavs[k]);
      SpeakerLineFields(wavs[k]);
    }
  }

  /** A wav named after a recording identifier free of dots and slashes gives
      that identifier back, and so does the recording it comes from. */
  lemma WavIdRoundTrip(wavsDir: Path, dir: Path, id: string)
    requires id != "" && '/' !in id && '.' !in id
    ensures RecId(PathJoin(dir, id + ".wv1")) == id
    ensures UttIdOfWav(PathJoin(wavsDir, id + ".wav")) == id
  {
    assert '/' !in id + ".wv1" by {
      assert forall k :: 0 <= k < |id + ".wv1"| ==> (id + ".wv1")[k] != '/' by {
        forall k | 0 <= k < |id + ".wv1"| ensures (id + ".wv1")[k] != '/' {
          if k < |id| { assert (id + ".wv1")[k] == id[k] && id[k] in id; }
        }
      }
    }
    assert '/' !in id + ".wav" by {
      assert forall k :: 0 <= k < |id + ".wav"| ==> (id + ".wav")[k] != '/' by {
        forall k | 0 <= k < |id + ".wav"| ensures (id + ".wav")[k] != '/' {
          if k < |id| { assert (id + ".wav")[k] == id[k] && id[k] in id; }
        }
      }
    }
    BasenameOfJoin(dir, id + ".wv1");
    BasenameOfJoin(wavsDir, id + ".wav");
    ReplaceAllSuffix(id, ".wv1", "");
    ReplaceAllSuffix(id, ".wav", "");
    assert id + "" == id;
  }
}
