/** The WSJ transcript token normaliser, `correct_word`: a raw token of a
    `.dot` transcription is mapped to the token written to `text.txt`, to
    `""` (the token is dropped) or to an IndexError. */
module Normalizer {
  import opened Results
  import opened Text

  /** Lines 152-154: upper-case, drop the backslash escapes, spell out the
      Nov'93 `%PERCENT` and `.POINT` forms. */
  function Canonical(word: string): (w: string)
    ensures '\\' !in w && NoLower(w)
    ensures ' ' !in word ==> ' ' !in w
  {
    var up := Upper(word);
    var unescaped := ReplaceAll(up, "\\", "");
    var percent := ReplaceAll(unescaped, "%PERCENT", "PERCENT");
    var point := ReplaceAll(percent, ".POINT", "POINT");
    RemoveCharRemoves(up, '\\');
    ReplaceAllChars(up, "\\", "");
    ReplaceAllChars(unescaped, "%PERCENT", "PERCENT");
    ReplaceAllChars(percent, ".POINT", "POINT");
    UpperSpace(word);
    point
  }

  /** Lines 155-156: a token wrapped in angle brackets (a verbal deletion) loses its brackets. */
  function Unwrap(w: string): (u: string)
    requires |w| > 0
    ensures forall c :: c in u ==> c in w
  {
    if w[0] == '<' && w[|w| - 1] == '>' then
      assert forall c :: c in w[1..|w| - 1] ==> c in w by {
        forall c | c in w[1..|w| - 1] ensures c in w {
          var k :| 0 <= k < |w[1..|w| - 1]| && w[1..|w| - 1][k] == c;
          assert w[1 + k] == c;
        }
      }
      w[1..|w| - 1]
    else w
  }

  /** Unwrapping keeps the canonical form. */
  lemma UnwrapKeeps(w: string)
    requires |w| > 0 && '\\' !in w && NoLower(w)
    ensures var u := Unwrap(w); '\\' !in u && NoLower(u) && (' ' !in w ==> ' ' !in u)
  {
  }

  /** Unwrapping leaves nothing only of `<>`. */
  lemma UnwrapEmpty(w: string)
    requires |w| > 0
    ensures Unwrap(w) == "" <==> w == "<>"
  {
    if w[0] == '<' && w[|w| - 1] == '>' && |w| == 2 {
      assert w == "<>";
    }
  }

  /** Python `w[-1] == c`, for the operands of an `and` that is never reached. */
  predicate LastIs(w: string, c: char)
  {
    |w| > 0 && w[|w| - 1] == c
  }

  /** Lines 159-175 on the unwrapped token, with the tests in the source's
      order. `word[:1] == '[<'` and `word[:1] == '[/'` compare a string of at
      most one character with a two-character one and are never true. */
  function Classify(u: string): (r: Result<string>)
    ensures r.Err? <==> u == ""
    ensures r.Err? ==> r.error == IndexError
    ensures r.Ok? ==> r.value == "" || r.value == "<noise>" || r.value == "-DASH" || r.value == u
  {
    if u == "~" || u == "." then Ok("")
    else if |u| == 0 then Err(IndexError)                     // `word[0]` on line 161
    else if (Take(u, 1) == "[<" && LastIs(u, ']')) ||
            (u[0] == '[' && TakeLast(u, 2) == ">]") ||
            (u[0] == '[' && TakeLast(u, 2) == "/]") ||
            (Take(u, 1) == "[/" && LastIs(u, ']'))
    then Ok("")
    else if u[0] == '[' && u[|u| - 1] == ']' then Ok("<noise>")
    else if u == "--DASH" then Ok("-DASH")
    else Ok(u)
  }

  /** A classified token keeps the canonical form of its input. */
  lemma ClassifyKeeps(u: string)
    requires '\\' !in u && NoLower(u)
    ensures var r := Classify(u);
      r.Ok? ==> (r.value == "" || r.value == "<noise>" || ('\\' !in r.value && NoLower(r.value))) &&
                (' ' !in u ==> ' ' !in r.value)
  {
    var r := Classify(u);
    if r.Ok? && r.value == "-DASH" {
      assert forall c :: c in "-DASH" ==> c == '-' || c == 'D' || c == 'A' || c == 'S' || c == 'H';
    }
  }

  /** `correct_word(word)`: the empty token stays empty; otherwise the result is
      dropped (`""`), the noise marker, or an upper-case token without
      backslashes; it raises IndexError exactly when nothing is left of the
      token once it is escaped and unwrapped (`"<>"`, `"\"`). */
  function CorrectWord(word: string): (r: Result<string>)
    ensures word == "" ==> r == Ok("")
    ensures r.Err? <==> word != "" && (Canonical(word) == "" || Canonical(word) == "<>")
    ensures r.Err? ==> r.error == IndexError
    ensures r.Ok? ==> r.value == "" || r.value == "<noise>" || ('\\' !in r.value && NoLower(r.value))
    ensures r.Ok? && ' ' !in word ==> ' ' !in r.value
  {
    if word == "" then Ok("") else Correct(Canonical(word))
  }

  /** Lines 155-175, on the canonical token `w`. */
  function Correct(w: string): (r: Result<string>)
    ensures r.Err? <==> w == "" || w == "<>"
    ensures r.Err? ==> r.error == IndexError
    ensures '\\' !in w && NoLower(w) && r.Ok? ==>
      r.value == "" || r.value == "<noise>" || ('\\' !in r.value && NoLower(r.value))
    ensures '\\' !in w && NoLower(w) && r.Ok? && ' ' !in w ==> ' ' !in r.value
  {
    if |w| == 0 then Err(IndexError)                          // `word[0]` on line 155
    else
      var u := Unwrap(w);
      UnwrapEmpty(w);
      if '\\' !in w && NoLower(w) then
        UnwrapKeeps(w);
        ClassifyKeeps(u);
        Classify(u)
      else Classify(u)
  }

  /** A token over which escaping and the Nov'93 substitutions do nothing is only upper-cased. */
  lemma CanonicalPlain(word: string)
    requires '\\' !in word && '%' !in word && '.' !in word
    ensures Canonical(word) == Upper(word)
  {
    var up := Upper(word);
    assert forall c :: c in up ==> c != '\\' && c != '%' && c != '.' by {
      forall c | c in up ensures c != '\\' && c != '%' && c != '.' {
        var k :| 0 <= k < |up| && up[k] == c;
        assert c == UpperChar(word[k]);
        assert word[k] in word;
      }
    }
    ReplaceAllFirstAbsent(up, "\\", "");
    ReplaceAllFirstAbsent(up, "%PERCENT", "PERCENT");
    ReplaceAllFirstAbsent(up, ".POINT", "POINT");
  }

  /** `correct_word` on a token the substitutions leave alone works on its upper-case form. */
  lemma PlainCorrect(word: string, up: string)
    requires '\\' !in word && '%' !in word && '.' !in word && word != "" && Upper(word) == up
    ensures CorrectWord(word) == Correct(up)
  {
    CanonicalPlain(word);
  }

  /** Bracket rules: a token `[...]` is dropped when it ends in `>]` or `/]` and
      becomes `<noise>` otherwise, whatever its second character, so
      `[<door_slam]` and `[/phone_ring]` become `<noise>`. */
  lemma BracketRule(word: string)
    requires var w := Canonical(word); |w| >= 2 && w[0] == '[' && w[|w| - 1] == ']'
    ensures var w := Canonical(word);
      CorrectWord(word) == Ok(if EndsWith(w, ">]") || EndsWith(w, "/]") then "" else "<noise>")
  {
    BracketCorrect(Canonical(word));
  }

  /** The bracket rule on the canonical token. */
  lemma BracketCorrect(w: string)
    requires |w| >= 2 && w[0] == '[' && w[|w| - 1] == ']'
    ensures Correct(w) == Ok(if EndsWith(w, ">]") || EndsWith(w, "/]") then "" else "<noise>")
  {
    assert Unwrap(w) == w;
    assert TakeLast(w, 2) == ">]" <==> EndsWith(w, ">]");
    assert TakeLast(w, 2) == "/]" <==> EndsWith(w, "/]");
    assert |Take(w, 1)| == 1;
  }

  /** The bracket rule on a token the substitutions leave alone: the
      character before the closing bracket decides. */
  lemma BracketOfPlain(word: string)
    requires '\\' !in word && '%' !in word && '.' !in word
    requires |word| >= 2 && word[0] == '[' && word[|word| - 1] == ']'
    ensures var c := word[|word| - 2];
      CorrectWord(word) == Ok(if c == '>' || c == '/' then "" else "<noise>")
  {
    var w := Upper(word);
    PlainCorrect(word, w);
    var c := word[|word| - 2];
    assert w[0] == '[' && w[|w| - 1] == ']' && w[|w| - 2] == UpperChar(c);
    BracketCorrect(w);
    EndsWithPair(w, ">]");
    EndsWithPair(w, "/]");
    UpperCharOther(c, '>');
    UpperCharOther(c, '/');
  }

  /** Upper-casing leaves a character that is not a letter alone. */
  lemma UpperCharOther(c: char, d: char)
    requires !('a' <= d <= 'z') && !('A' <= d <= 'Z')
    ensures UpperChar(c) == d <==> c == d
  {
  }

  /** Whether a string ending in `]` ends in a given two-character suffix. */
  lemma EndsWithPair(w: string, t: string)
    requires |w| >= 2 && w[|w| - 1] == ']' && |t| == 2 && t[1] == ']'
    ensures EndsWith(w, t) <==> w[|w| - 2] == t[0]
  {
    assert w[|w| - 2..] == [w[|w| - 2], ']'];
  }

  /** A token `<W>` is unwrapped and `W` goes through the drop, noise and
      spelling rules: `<~>` and `<.>` are dropped, `<>` raises. */
  lemma AngleRule(word: string, inner: string)
    requires Canonical(word) == "<" + inner + ">"
    ensures CorrectWord(word) == Classify(inner)
  {
    AngleCorrect(inner);
  }

  /** Unwrapping on the canonical token. */
  lemma AngleCorrect(inner: string)
    ensures Correct("<" + inner + ">") == Classify(inner)
  {
    var w := "<" + inner + ">";
    assert w[1..|w| - 1] == inner;
  }

  /** Drop markers: the truncation mark `~`, also once unwrapped from `<~>`. */
  lemma TildeDropped(word: string, wrapped: string)
    requires word == "~" && wrapped == "<~>"
    ensures CorrectWord(word) == Ok("")
    ensures CorrectWord(wrapped) == Ok("")
  {
    assert Upper(word) == "~";
    PlainCorrect(word, "~");
    assert Upper(wrapped) == "<" + "~" + ">";
    PlainCorrect(wrapped, "<" + "~" + ">");
    AngleCorrect("~");
  }

  /** `<>` unwraps to the empty string, which the next test indexes. */
  lemma EmptyDeletionRaises(word: string)
    requires word == "<>"
    ensures CorrectWord(word) == Err(IndexError)
  {
    assert Upper(word) == "<>";
    PlainCorrect(word, "<>");
  }

  lemma LoudBreathIsNoise(word: string)
    requires word == "[loud_breath]"
    ensures CorrectWord(word) == Ok("<noise>")
  {
    BracketOfPlain(word);
  }

  /** `[door_slam>]` marks a noise over the next word and is dropped. */
  lemma ClosingEventDropped(word: string)
    requires word == "[door_slam>]"
    ensures CorrectWord(word) == Ok("")
  {
    BracketOfPlain(word);
  }

  /** `[phone_ring/]` marks the start of a phenomenon and is dropped. */
  lemma PhenomenonStartDropped(word: string)
    requires word == "[phone_ring/]"
    ensures CorrectWord(word) == Ok("")
  {
    BracketOfPlain(word);
  }

  /** `[<door_slam]` is not dropped: it becomes `<noise>`. */
  lemma OpeningEventIsNoise(word: string)
    requires word == "[<door_slam]"
    ensures CorrectWord(word) == Ok("<noise>")
  {
    BracketOfPlain(word);
  }

  /** `[/phone_ring]` is not dropped: it becomes `<noise>`. */
  lemma PhenomenonEndIsNoise(word: string)
    requires word == "[/phone_ring]"
    ensures CorrectWord(word) == Ok("<noise>")
  {
    BracketOfPlain(word);
  }

  lemma DeletionUnwrapped(word: string)
    requires word == "<deleted>"
    ensures CorrectWord(word) == Ok("DELETED")
  {
    assert Upper(word) == "<" + "DELETED" + ">";
    PlainCorrect(word, "<" + "DELETED" + ">");
    AngleCorrect("DELETED");
    ClassifyKeepsWord("DELETED");
  }

  /** A token that no rule matches is kept as it is. */
  lemma ClassifyKeepsWord(u: string)
    requires |u| > 0 && u[0] != '[' && u != "~" && u != "." && u != "--DASH"
    ensures Classify(u) == Ok(u)
  {
    assert Take(u, 1) != "[<" && Take(u, 1) != "[/";
  }

  /** The CMU dictionary spelling `-DASH`. */
  lemma DoubleDashCorrected(word: string)
    requires word == "--dash"
    ensures CorrectWord(word) == Ok("-DASH")
  {
    assert Upper(word) == "--DASH";
    PlainCorrect(word, "--DASH");
    DashCorrect();
  }

  /** `--DASH` is the one token the dash rule rewrites. */
  lemma DashCorrect()
    ensures Correct("--DASH") == Ok("-DASH")
  {
    assert Unwrap("--DASH") == "--DASH";
  }

  /** The Nov'93 forms are substring replacements: `%PERCENT` becomes `PERCENT`. */
  lemma CanonicalPercent(word: string)
    requires word == "%percent"
    ensures Canonical(word) == "PERCENT"
  {
    var up := Upper(word);
    assert up == "%PERCENT";
    PercentSteps();
    ReplaceAllWhole(up, "PERCENT");
  }

  /** The substitutions that leave `%PERCENT` and `PERCENT` alone. */
  lemma PercentSteps()
    ensures ReplaceAll("%PERCENT", "\\", "") == "%PERCENT"
    ensures ReplaceAll("PERCENT", ".POINT", "POINT") == "PERCENT"
  {
    ReplaceAllFirstAbsent("%PERCENT", "\\", "");
    ReplaceAllFirstAbsent("PERCENT", ".POINT", "POINT");
  }

  lemma PercentSpelledOut(word: string)
    requires word == "%percent"
    ensures CorrectWord(word) == Ok("PERCENT")
  {
    CanonicalPercent(word);
    assert Unwrap("PERCENT") == "PERCENT";
  }

  lemma CanonicalPoint(word: string)
    requires word == ".point"
    ensures Canonical(word) == "POINT"
  {
    var up := Upper(word);
    assert up == ".POINT";
    assert '\\' !in up && '%' !in up;
    ReplaceAllFirstAbsent(up, "\\", "");
    ReplaceAllFirstAbsent(up, "%PERCENT", "PERCENT");
    ReplaceAllWhole(".POINT", "POINT");
  }

  /** ... and `.POINT` becomes `POINT`. */
  lemma PointSpelledOut(word: string)
    requires word == ".point"
    ensures CorrectWord(word) == Ok("POINT")
  {
    CanonicalPoint(word);
    assert Unwrap("POINT") == "POINT";
  }
}
