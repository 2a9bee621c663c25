/** The posterior-line parser of `lattice2features` in the Kaldi export: each
    line of a Kaldi posterior file is an utterance id followed by frames
    written as bracketed groups `[ code p code p ... ]`; every code is mapped
    through the phone map to a phone, and every phone to its column in the
    phone order. The probabilities themselves are not modelled. */
module Posteriors {
  import opened Results
  import opened Text
  import opened PhoneOrder

  // ---------------------------------------------------------------------
  // The token machine

  /** The state of the token loop: whether a `[` is open, the frame being
      filled, and the frames closed so far. */
  datatype Machine = Machine(inside: bool, frame: seq<string>, frames: seq<seq<string>>)

  /** The state before the first token. */
  const Start := Machine(false, [], [])

  predicate IsBracket(t: string)
  {
    t == "[" || t == "]"
  }

  /** No token of `f` is a bracket. */
  predicate Plain(f: seq<string>)
  {
    forall k :: 0 <= k < |f| ==> !IsBracket(f[k])
  }

  /** Every frame is free of brackets. */
  predicate AllPlain(fs: seq<seq<string>>)
  {
    forall k :: 0 <= k < |fs| ==> Plain(fs[k])
  }

  /** One pass of the loop body: `[` asserts that no frame is open and opens
      an empty one, `]` asserts that one is open and closes it, any other
      token asserts that one is open and joins it. */
  function Step(m: Machine, t: string): Result<Machine>
  {
    if t == "[" then
      if m.inside then Err(AssertionError) else Ok(Machine(true, [], m.frames))
    else if t == "]" then
      if m.inside then Ok(Machine(false, m.frame, m.frames + [m.frame])) else Err(AssertionError)
    else if m.inside then Ok(Machine(true, m.frame + [t], m.frames))
    else Err(AssertionError)
  }

  /** The loop run over `tokens` from `r`; a failed assertion ends it. */
  function Feed(r: Result<Machine>, tokens: seq<string>): (out: Result<Machine>)
    ensures out.Err? && out != r ==> out.error == AssertionError
    decreases |tokens|
  {
    if r.Err? || tokens == [] then r else Feed(Step(r.value, tokens[0]), tokens[1..])
  }

  /** The frames of a token list: its closed groups, in order. */
  function ParseTokens(tokens: seq<string>): Result<seq<seq<string>>>
  {
    var r := Feed(Ok(Start), tokens);
    if r.Ok? then Ok(r.value.frames) else Err(r.error)
  }

  /** The token loop of `lattice2features`, over the tokens that follow the
      utterance id. */
  method ParseFrames(tokens: seq<string>) returns (r: Result<seq<seq<string>>>)
    ensures r == ParseTokens(tokens)
    ensures r.Err? ==> r.error == AssertionError
  {
    var inside := false;
    var frame: seq<string> := [];
    var frames: seq<seq<string>> := [];
    var i := 0;
    while i < |tokens|
      invariant 0 <= i <= |tokens|
      invariant Feed(Ok(Start), tokens) == Feed(Ok(Machine(inside, frame, frames)), tokens[i..])
    {
      var token := tokens[i];
      assert tokens[i..][0] == token && tokens[i..][1..] == tokens[i + 1..];
      if token == "[" {
        if inside {
          return Err(AssertionError);
        }
        inside := true;
        frame := [];
      } else if token == "]" {
        if !inside {
          return Err(AssertionError);
        }
        inside := false;
        frames := frames + [frame];
      } else {
        if !inside {
          return Err(AssertionError);
        }
        frame := frame + [token];
      }
      i := i + 1;
    }
    assert tokens[|tokens|..] == [];
    r := Ok(frames);
  }

  // ---------------------------------------------------------------------
  // What the machine accepts

  /** A frame written as a bracketed group. */
  function Group(f: seq<string>): seq<string>
  {
    ["["] + f + ["]"]
  }

  /** Frames written out as consecutive groups. */
  function Render(fs: seq<seq<string>>): seq<string>
    decreases |fs|
  {
    if fs == [] then [] else Render(fs[..|fs| - 1]) + Group(fs[|fs| - 1])
  }

  /** The state after the groups `fs` are closed. */
  function Closed(fs: seq<seq<string>>): Machine
  {
    Machine(false, if fs == [] then [] else fs[|fs| - 1], fs)
  }

  lemma {:induction false} FeedAppend(r: Result<Machine>, a: seq<string>, b: seq<string>)
    ensures Feed(r, a + b) == Feed(Feed(r, a), b)
    decreases |a|
  {
    if r.Ok? && a != [] {
      assert (a + b)[0] == a[0] && (a + b)[1..] == a[1..] + b;
      FeedAppend(Step(r.value, a[0]), a[1..], b);
    } else if a == [] {
      assert a + b == b;
    }
  }

  /** Inside a frame, plain tokens are collected. */
  lemma {:induction false} FeedInside(m: Machine, f: seq<string>)
    requires m.inside && Plain(f)
    ensures Feed(Ok(m), f) == Ok(Machine(true, m.frame + f, m.frames))
    decreases |f|
  {
    if f == [] {
      assert m.frame + f == m.frame;
    } else {
      assert !IsBracket(f[0]);
      assert Plain(f[1..]) by {
        forall k | 0 <= k < |f[1..]| ensures !IsBracket(f[1..][k]) {
          assert f[1..][k] == f[k + 1];
        }
      }
      var next := Machine(true, m.frame + [f[0]], m.frames);
      assert Step(m, f[0]) == Ok(next);
      assert Feed(Ok(m), f) == Feed(Ok(next), f[1..]);
      FeedInside(next, f[1..]);
      assert m.frame + [f[0]] + f[1..] == m.frame + f;
    }
  }

  lemma FeedGroup(m: Machine, f: seq<string>)
    requires !m.inside && Plain(f)
    ensures Feed(Ok(m), Group(f)) == Ok(Machine(false, f, m.frames + [f]))
  {
    var open := Machine(true, [], m.frames);
    assert Feed(Ok(m), ["["]) == Ok(open);
    FeedAppend(Ok(m), ["["], f);
    FeedInside(open, f);
    assert [] + f == f;
    FeedAppend(Ok(m), ["["] + f, ["]"]);
  }

  /** Rendered plain frames drive the machine to the state with exactly
      those frames closed. */
  lemma {:induction false} FeedRender(fs: seq<seq<string>>)
    requires AllPlain(fs)
    ensures Feed(Ok(Start), Render(fs)) == Ok(Closed(fs))
    decreases |fs|
  {
    if fs != [] {
      var init := fs[..|fs| - 1];
      FeedRender(init);
      FeedAppend(Ok(Start), Render(init), Group(fs[|fs| - 1]));
      FeedGroup(Closed(init), fs[|fs| - 1]);
      assert init + [fs[|fs| - 1]] == fs;
    }
  }

  /** Frames written as groups parse back to themselves. */
  lemma RenderRoundTrip(fs: seq<seq<string>>)
    requires AllPlain(fs)
    ensures ParseTokens(Render(fs)) == Ok(fs)
  {
    FeedRender(fs);
  }

  /** A final group that is never closed is dropped without an error. */
  lemma UnterminatedDropped(fs: seq<seq<string>>, f: seq<string>)
    requires AllPlain(fs) && Plain(f)
    ensures ParseTokens(Render(fs) + ["["] + f) == Ok(fs)
  {
    FeedRender(fs);
    FeedAppend(Ok(Start), Render(fs), ["["]);
    assert Feed(Ok(Closed(fs)), ["["]) == Ok(Machine(true, [], fs));
    FeedAppend(Ok(Start), Render(fs) + ["["], f);
    FeedInside(Machine(true, [], fs), f);
  }

  /** A token other than `[` outside every group fails the assertion,
      whatever follows; this covers a stray `]` and a token before the
      first group. */
  lemma OutsideTokenFails(fs: seq<seq<string>>, t: string, rest: seq<string>)
    requires AllPlain(fs) && t != "["
    ensures ParseTokens(Render(fs) + [t] + rest) == Err(AssertionError)
  {
    FeedRender(fs);
    FeedAppend(Ok(Start), Render(fs), [t]);
    assert Feed(Ok(Closed(fs)), [t]) == Err(AssertionError);
    FeedAppend(Ok(Start), Render(fs) + [t], rest);
  }

  /** A `[` inside an open group fails the assertion, whatever follows. */
  lemma NestedOpenFails(fs: seq<seq<string>>, f: seq<string>, rest: seq<string>)
    requires AllPlain(fs) && Plain(f)
    ensures ParseTokens(Render(fs) + ["["] + f + ["["] + rest) == Err(AssertionError)
  {
    var open := Machine(true, [], fs);
    FeedRender(fs);
    FeedAppend(Ok(Start), Render(fs), ["["]);
    assert Feed(Ok(Closed(fs)), ["["]) == Ok(open);
    FeedAppend(Ok(Start), Render(fs) + ["["], f);
    FeedInside(open, f);
    FeedAppend(Ok(Start), Render(fs) + ["["] + f, ["["]);
    assert Feed(Ok(Machine(true, [] + f, fs)), ["["]) == Err(AssertionError);
    FeedAppend(Ok(Start), Render(fs) + ["["] + f + ["["], rest);
  }

  /** `tokens` is the rendering of the closed frames of `m`, followed by its
      open group when there is one. */
  predicate Shaped(tokens: seq<string>, m: Machine)
  {
    AllPlain(m.frames) && Plain(m.frame) &&
    (if m.inside then tokens == Render(m.frames) + ["["] + m.frame
     else m == Closed(m.frames) && tokens == Render(m.frames))
  }

  /** Every state the machine reaches without an error is the rendering
      of its closed frames, followed by the open group when there is one. */
  lemma {:induction false} ReachedShape(tokens: seq<string>)
    requires Feed(Ok(Start), tokens).Ok?
    ensures var m := Feed(Ok(Start), tokens).value;
      AllPlain(m.frames) && Plain(m.frame) &&
      (if m.inside then tokens == Render(m.frames) + ["["] + m.frame
       else m == Closed(m.frames) && tokens == Render(m.frames))
    decreases |tokens|
  {
    if tokens != [] {
      var init := tokens[..|tokens| - 1];
      var t := tokens[|tokens| - 1];
      assert init + [t] == tokens;
      FeedAppend(Ok(Start), init, [t]);
      ReachedShape(init);
      var m0 := Feed(Ok(Start), init).value;
      StepShaped(init, m0, t);
    } else {
      assert Shaped(tokens, Start);
    }
  }

  /** One step of the machine keeps the shape. */
  lemma StepShaped(tokens: seq<string>, m0: Machine, t: string)
    requires Shaped(tokens, m0) && Step(m0, t).Ok?
    ensures Shaped(tokens + [t], Step(m0, t).value)
  {
    var m := Step(m0, t).value;
    if t == "]" {
      assert m.frames == m0.frames + [m0.frame];
      assert m.frames[..|m.frames| - 1] == m0.frames;
    } else if t != "[" {
      assert Render(m0.frames) + ["["] + m0.frame + [t] == Render(m.frames) + ["["] + m.frame;
    }
  }

  /** A token list parses into `fs` exactly when it is `fs` written as
      groups, possibly followed by one unterminated plain group. */
  lemma ParsedShape(tokens: seq<string>, fs: seq<seq<string>>)
    ensures ParseTokens(tokens) == Ok(fs) <==>
      AllPlain(fs) &&
      (tokens == Render(fs) || exists f :: Plain(f) && tokens == Render(fs) + ["["] + f)
  {
    if ParseTokens(tokens) == Ok(fs) {
      ReachedShape(tokens);
    }
    if AllPlain(fs) {
      if tokens == Render(fs) {
        RenderRoundTrip(fs);
      } else if f :| Plain(f) && tokens == Render(fs) + ["["] + f {
        UnterminatedDropped(fs, f);
      }
    }
  }

  // ---------------------------------------------------------------------
  // From codes to columns

  /** `frame[::2]`: the codes, at the even positions. */
  function Codes(frame: seq<string>): (r: seq<string>)
    ensures |r| == (|frame| + 1) / 2
    ensures forall k :: 0 <= k < |r| ==> r[k] == frame[2 * k]
  {
    seq((|frame| + 1) / 2, k requires 0 <= k < (|frame| + 1) / 2 => frame[2 * k])
  }

  /** `[phonemap[code] for code in codes]`: KeyError on the first code the
      map lacks. */
  function Lookup(m: map<string, string>, codes: seq<string>): (r: Result<seq<string>>)
    ensures r.Ok? <==> forall k :: 0 <= k < |codes| ==> codes[k] in m
    ensures r.Ok? ==> |r.value| == |codes| && forall k :: 0 <= k < |codes| ==> r.value[k] == m[codes[k]]
    ensures r.Err? ==> exists k :: (0 <= k < |codes| && codes[k] !in m && r.error == KeyError(codes[k]) &&
      forall j :: 0 <= j < k ==> codes[j] in m)
    decreases |codes|
  {
    if codes == [] then Ok([])
    else if codes[0] !in m then Err(KeyError(codes[0]))
    else
      match Lookup(m, codes[1..])
      case Err(e) => Err(e)
      case Ok(rest) => Ok([m[codes[0]]] + rest)
  }

  /** `order.index(p)`: the first position of `p`, ValueError when absent. */
  function IndexOf(order: seq<string>, p: string): (r: Result<nat>)
    ensures r.Ok? <==> p in order
    ensures r.Ok? ==> r.value < |order| && order[r.value] == p && p !in order[..r.value]
    ensures r.Err? ==> r.error == ValueError
    decreases |order|
  {
    if order == [] then Err(ValueError)
    else if order[0] == p then Ok(0)
    else
      match IndexOf(order[1..], p)
      case Err(e) => Err(e)
      case Ok(i) =>
        assert order[..i + 1] == [order[0]] + order[1..][..i];
        Ok(i + 1)
  }

  /** The columns of a list of phones, ValueError on the first phone that is
      not in the order. */
  function Columns(order: seq<string>, phones: seq<string>): (r: Result<seq<nat>>)
    ensures r.Ok? <==> forall k :: 0 <= k < |phones| ==> phones[k] in order
    ensures r.Ok? ==> |r.value| == |phones| && forall k :: 0 <= k < |phones| ==>
      r.value[k] < |order| && order[r.value[k]] == phones[k] && phones[k] !in order[..r.value[k]]
    ensures r.Err? ==> r.error == ValueError
    decreases |phones|
  {
    if phones == [] then Ok([])
    else
      match IndexOf(order, phones[0])
      case Err(e) => Err(e)
      case Ok(i) =>
        match Columns(order, phones[1..])
        case Err(e) => Err(e)
        case Ok(rest) => Ok([i] + rest)
  }

  /** The posteriorgram columns the codes of one frame add to: the frame
      must have even length; each code is looked up in the phone map and
      each phone in the phone order. */
  function FrameColumns(frame: seq<string>, m: map<string, string>, order: seq<string>): (r: Result<seq<nat>>)
    ensures r.Ok? <==> (|frame| % 2 == 0 &&
      forall k :: 0 <= k < |frame| / 2 ==> frame[2 * k] in m && m[frame[2 * k]] in order)
    ensures r.Ok? ==> |r.value| == |frame| / 2 && forall k :: 0 <= k < |frame| / 2 ==>
      r.value[k] < |order| && order[r.value[k]] == m[frame[2 * k]]
    ensures |frame| % 2 != 0 ==> r == Err(AssertionError)
  {
    if |frame| % 2 != 0 then Err(AssertionError)
    else
      var codes := Codes(frame);
      match Lookup(m, codes)
      case Err(e) => Err(e)
      case Ok(phones) => Columns(order, phones)
  }

  /** Codes that map to the same phone add to the same column. */
  lemma SharedColumn(frame: seq<string>, m: map<string, string>, order: seq<string>, i: nat, j: nat)
    requires FrameColumns(frame, m, order).Ok?
    requires i < |frame| / 2 && j < |frame| / 2
    requires m[frame[2 * i]] == m[frame[2 * j]]
    ensures FrameColumns(frame, m, order).value[i] == FrameColumns(frame, m, order).value[j]
  {
    var codes := Codes(frame);
    var phones := Lookup(m, codes).value;
    var cols := Columns(order, phones).value;
    assert phones[i] == phones[j];
  }

  /** A code that `get_phone_order` deleted from the phone map fails the
      lookup with a KeyError when it is the first code the map lacks. */
  lemma DeletedCodeFails(frame: seq<string>, m: map<string, string>, order: seq<string>, k: nat)
    requires |frame| % 2 == 0 && k < |frame| / 2
    requires forall j :: 0 <= j < k ==> frame[2 * j] in Kept(m)
    requires frame[2 * k] in m && IsDisambiguation(m[frame[2 * k]])
    ensures FrameColumns(frame, Kept(m), order) == Err(KeyError(frame[2 * k]))
  {
    var codes := Codes(frame);
    var r := Lookup(Kept(m), codes);
    assert codes[k] !in Kept(m);
    var i :| 0 <= i < |codes| && codes[i] !in Kept(m) && r.error == KeyError(codes[i]) &&
      forall j :: 0 <= j < i ==> codes[j] in Kept(m);
    assert i == k;
  }

  /** With the map and order `get_phone_order` leaves behind, every phone a
      code maps to has a column, so the only failures are the odd frame and
      the missing code. */
  lemma NoMissingColumn(frame: seq<string>, m: map<string, string>, order: seq<string>)
    requires forall p :: p in order <==> exists c :: c in Kept(m) && Kept(m)[c] == p
    ensures FrameColumns(frame, Kept(m), order).Err? ==>
      FrameColumns(frame, Kept(m), order).error == AssertionError ||
      FrameColumns(frame, Kept(m), order).error.KeyError?
  {
    var k := Kept(m);
    if |frame| % 2 == 0 {
      var codes := Codes(frame);
      match Lookup(k, codes)
      case Err(e) =>
      case Ok(phones) =>
        forall j | 0 <= j < |phones| ensures phones[j] in order {
          assert codes[j] in k && k[codes[j]] == phones[j];
        }
    }
  }

  // ---------------------------------------------------------------------
  // Lines

  /** The columns of one frame, as a function of the frame. */
  function FrameStep(m: map<string, string>, order: seq<string>): seq<string> -> Result<seq<nat>>
  {
    frame => FrameColumns(frame, m, order)
  }

  /** The modelled part of one line's result: its utterance id and, per
      frame, the columns its codes add to. */
  datatype Posteriorgram = Posteriorgram(uttId: string, columns: seq<seq<nat>>)

  /** `line.strip().split(u" ")`. */
  function Tokens(line: string): (r: seq<string>)
    ensures |r| >= 1
  {
    Split(Strip(line), " ")
  }

  /** One line of the posterior file: the first token is the utterance id,
      the others are parsed into frames, and each frame gives its columns.
      A line without any closed frame fails the normalisation check, whose
      maximum over an empty array raises ValueError. */
  function LineColumns(line: string, m: map<string, string>, order: seq<string>): (r: Result<Posteriorgram>)
    ensures r.Ok? ==> r.value.uttId == Tokens(line)[0]
    ensures r.Ok? ==> (ParseTokens(Tokens(line)[1..]).Ok? &&
      |r.value.columns| == |ParseTokens(Tokens(line)[1..]).value| > 0)
    ensures ParseTokens(Tokens(line)[1..]).Err? ==> r == Err(AssertionError)
    ensures r.Ok? ==> forall k :: 0 <= k < |r.value.columns| ==>
      FrameColumns(ParseTokens(Tokens(line)[1..]).value[k], m, order) == Ok(r.value.columns[k])
    ensures r.Err? <==>
      (ParseTokens(Tokens(line)[1..]).Err? || ParseTokens(Tokens(line)[1..]).value == [] ||
       exists k :: 0 <= k < |ParseTokens(Tokens(line)[1..]).value| &&
         FrameColumns(ParseTokens(Tokens(line)[1..]).value[k], m, order).Err?)
    ensures ParseTokens(Tokens(line)[1..]) == Ok([]) ==> r == Err(ValueError)
    ensures ParseTokens(Tokens(line)[1..]).Ok? && r.Err? && r.error != ValueError ==>
      exists k :: 0 <= k < |ParseTokens(Tokens(line)[1..]).value| &&
        FrameColumns(ParseTokens(Tokens(line)[1..]).value[k], m, order) == Err(r.error) &&
        forall j :: 0 <= j < k ==> FrameColumns(ParseTokens(Tokens(line)[1..]).value[j], m, order).Ok?
  {
    var tokens := Tokens(line);
    match ParseTokens(tokens[1..])
    case Err(e) => Err(e)
    case Ok(frames) =>
      MapUntilErrorResults(FrameStep(m, order), frames);
      match MapUntilError(FrameStep(m, order), frames)
      case Err(e) => Err(e)
      case Ok(cols) => if |frames| == 0 then Err(ValueError) else Ok(Posteriorgram(tokens[0], cols))
  }

  /** One line's result, as a function of the line. */
  function LineStep(m: map<string, string>, order: seq<string>): string -> Result<Posteriorgram>
  {
    line => LineColumns(line, m, order)
  }

  /** The columns of the frames of one line, by the loop over `frames`. */
  method FrameLoop(frames: seq<seq<string>>, m: map<string, string>, order: seq<string>) returns (r: Result<seq<seq<nat>>>)
    ensures r == MapUntilError(FrameStep(m, order), frames)
  {
    var done: seq<seq<nat>> := [];
    var f := 0;
    assert frames[0..] == frames;
    PrependNothing(MapUntilError(FrameStep(m, order), frames));
    while f < |frames|
      invariant 0 <= f <= |frames|
      invariant MapUntilError(FrameStep(m, order), frames) == Prepend(done, MapUntilError(FrameStep(m, order), frames[f..]))
    {
      assert frames[f..][0] == frames[f] && frames[f..][1..] == frames[f + 1..];
      var cols := FrameColumns(frames[f], m, order);
      if cols.Err? {
        return Err(cols.error);
      }
      PrependTwice(done, [cols.value], MapUntilError(FrameStep(m, order), frames[f + 1..]));
      done := done + [cols.value];
      f := f + 1;
    }
    assert done + [] == done;
    r := Ok(done);
  }

  /** The body of the line loop: split the line, parse its frames, and
      map each frame to its columns. */
  method LineLoop(line: string, m: map<string, string>, order: seq<string>) returns (r: Result<Posteriorgram>)
    ensures r == LineColumns(line, m, order)
  {
    var tokens := Tokens(line);
    var uttId := tokens[0];
    var frames := ParseFrames(tokens[1..]);
    if frames.Err? {
      return Err(frames.error);
    }
    var cols := FrameLoop(frames.value, m, order);
    if cols.Err? {
      return Err(cols.error);
    }
    if |frames.value| == 0 {
      return Err(ValueError);
    }
    r := Ok(Posteriorgram(uttId, cols.value));
  }

  /** The line loop of `lattice2features`, up to the float arithmetic: each
      line in turn is split, parsed and mapped to columns; the first failure
      ends the run. */
  method Lattice(lines: seq<string>, m: map<string, string>, order: seq<string>) returns (r: Result<seq<Posteriorgram>>)
    ensures r == MapUntilError(LineStep(m, order), lines)
  {
    var done: seq<Posteriorgram> := [];
    var i := 0;
    assert lines[0..] == lines;
    PrependNothing(MapUntilError(LineStep(m, order), lines));
    while i < |lines|
      invariant 0 <= i <= |lines|
      invariant MapUntilError(LineStep(m, order), lines) == Prepend(done, MapUntilError(LineStep(m, order), lines[i..]))
    {
      assert lines[i..][0] == lines[i] && lines[i..][1..] == lines[i + 1..];
      var line := LineLoop(lines[i], m, order);
      if line.Err? {
        return Err(line.error);
      }
      var p := line.value;
      PrependTwice(done, [p], MapUntilError(LineStep(m, order), lines[i + 1..]));
      done := done + [p];
      i := i + 1;
    }
    assert done + [] == done;
    r := Ok(done);
  }
}
