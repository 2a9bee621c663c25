/** The grouping loop of `transcription2features` in the Kaldi export: the
    segments of a 1-best phone alignment, one phone of one utterance each,
    are gathered per utterance into a frame-by-frame list of phone columns.
    The frame count of a segment, `(stop - start) / 0.01` rounded, is given
    as a natural number; the frame times are not modelled. */
module Alignment {
  import opened Results
  import opened Posteriors

  /** One segment of the alignment: its utterance, its number of frames and
      its phone. */
  datatype Segment = Segment(uttId: string, nframes: nat, phone: string)

  /** The modelled part of what is written out: the utterance ids and, per
      utterance, the column of the phone of each of its frames. */
  datatype Features = Features(uttIds: seq<string>, features: seq<seq<nat>>)

  /** `[x] * n`. */
  function Repeat<T>(x: T, n: nat): (r: seq<T>)
    ensures |r| == n && forall k :: 0 <= k < n ==> r[k] == x
  {
    seq(n, _ => x)
  }

  /** The utterance id of each segment. */
  function Ids(segs: seq<Segment>): (r: seq<string>)
    ensures |r| == |segs| && forall k :: 0 <= k < |segs| ==> r[k] == segs[k].uttId
  {
    seq(|segs|, k requires 0 <= k < |segs| => segs[k].uttId)
  }

  /** `ids` with each run of equal neighbours kept once. */
  function Collapse(ids: seq<string>): seq<string>
    decreases |ids|
  {
    if |ids| <= 1 then ids
    else if ids[0] == ids[1] then Collapse(ids[1..])
    else [ids[0]] + Collapse(ids[1..])
  }

  /** Concatenation. */
  function Flatten<T>(xss: seq<seq<T>>): seq<T>
    decreases |xss|
  {
    if xss == [] then [] else xss[0] + Flatten(xss[1..])
  }

  /** The id of every frame, when utterance `ids[j]` has the frames `fs[j]`. */
  function FrameIds(ids: seq<string>, fs: seq<seq<nat>>): seq<string>
    requires |ids| == |fs|
    decreases |ids|
  {
    if ids == [] then [] else Repeat(ids[0], |fs[0]|) + FrameIds(ids[1..], fs[1..])
  }

  /** Every phone of the alignment is in the phone order. */
  predicate Known(segs: seq<Segment>, order: seq<string>)
  {
    forall k :: 0 <= k < |segs| ==> segs[k].phone in order
  }

  /** The column of every frame of the alignment. */
  function Expand(segs: seq<Segment>, order: seq<string>): seq<nat>
    requires Known(segs, order)
    decreases |segs|
  {
    if segs == [] then []
    else
      assert forall k :: 0 <= k < |segs| - 1 ==> segs[1..][k] == segs[k + 1];
      Repeat(IndexOf(order, segs[0].phone).value, segs[0].nframes) + Expand(segs[1..], order)
  }

  /** The utterance id of every frame of the alignment. */
  function Labels(segs: seq<Segment>): seq<string>
    decreases |segs|
  {
    if segs == [] then [] else Repeat(segs[0].uttId, segs[0].nframes) + Labels(segs[1..])
  }

  // ---------------------------------------------------------------------
  // The loop as written

  /** The loop variables: `current_utt`, `utt_ids`, `features` and
      `utt_features`. */
  datatype Grouping = Grouping(current: Option<string>, uttIds: seq<string>, features: seq<seq<nat>>, uttFeatures: seq<nat>)

  const Init := Grouping(None, [], [], [])

  /** One pass of the loop body: the first segment sets the current
      utterance; a segment of another utterance appends the current one and
      starts an empty group, its own frames being dropped; a segment of the
      current utterance adds its frames, which is where a phone missing from
      the order raises ValueError. */
  function GroupStep(g: Grouping, s: Segment, order: seq<string>): Result<Grouping>
  {
    var current := if g.current.None? then s.uttId else g.current.value;
    if s.uttId != current then
      Ok(Grouping(Some(s.uttId), g.uttIds + [current], g.features + [g.uttFeatures], []))
    else
      match IndexOf(order, s.phone)
      case Err(e) => Err(e)
      case Ok(i) => Ok(Grouping(Some(current), g.uttIds, g.features, g.uttFeatures + Repeat(i, s.nframes)))
  }

  /** The loop run over `segs` from `r`; an exception ends it. */
  function Run(r: Result<Grouping>, segs: seq<Segment>, order: seq<string>): Result<Grouping>
    decreases |segs|
  {
    if r.Err? || segs == [] then r else Run(GroupStep(r.value, segs[0], order), segs[1..], order)
  }

  /** What `transcription2features` passes to `h5features.write`. */
  function AsWritten(segs: seq<Segment>, order: seq<string>): Result<Features>
  {
    match Run(Ok(Init), segs, order)
    case Err(e) => Err(e)
    case Ok(g) => Ok(Features(g.uttIds, g.features))
  }

  /** The loop of `transcription2features` over the alignment. */
  method TranscriptionLoop(segs: seq<Segment>, order: seq<string>) returns (r: Result<Features>)
    ensures r == AsWritten(segs, order)
  {
    var current: Option<string> := None;
    var uttIds: seq<string> := [];
    var features: seq<seq<nat>> := [];
    var uttFeatures: seq<nat> := [];
    var i := 0;
    while i < |segs|
      invariant 0 <= i <= |segs|
      invariant Run(Ok(Init), segs, order) == Run(Ok(Grouping(current, uttIds, features, uttFeatures)), segs[i..], order)
    {
      var seg := segs[i];
      assert segs[i..][0] == seg && segs[i..][1..] == segs[i + 1..];
      if current.None? {
        current := Some(seg.uttId);
      }
      if seg.uttId != current.value {
        uttIds := uttIds + [current.value];
        features := features + [uttFeatures];
        current := Some(seg.uttId);
        uttFeatures := [];
      } else {
        var column := IndexOf(order, seg.phone);
        if column.Err? {
          return Err(column.error);
        }
        uttFeatures := uttFeatures + Repeat(column.value, seg.nframes);
      }
      i := i + 1;
    }
    assert segs[|segs|..] == [];
    r := Ok(Features(uttIds, features));
  }

  /** From a state with a current utterance, the ids appended, followed by
      the final current one, are the runs of ids met. */
  lemma {:induction false} RunIds(g: Grouping, segs: seq<Segment>, order: seq<string>)
    requires g.current.Some? && Run(Ok(g), segs, order).Ok?
    ensures Run(Ok(g), segs, order).value.current.Some?
    ensures Run(Ok(g), segs, order).value.uttIds + [Run(Ok(g), segs, order).value.current.value] ==
      g.uttIds + Collapse([g.current.value] + Ids(segs))
    decreases |segs|
  {
    var c := g.current.value;
    if segs == [] {
      assert [c] + Ids(segs) == [c];
    } else {
      var s := segs[0];
      var next := GroupStep(g, s, order);
      assert Run(Ok(g), segs, order) == Run(next, segs[1..], order);
      GroupStepIds(g, s, order);
      RunIds(next.value, segs[1..], order);
      var last := Run(Ok(g), segs, order).value;
      IdsCons(segs);
      IdsStep(g.uttIds, c, s.uttId, Ids(segs[1..]), next.value.uttIds, last.uttIds + [last.current.value]);
    }
  }

  /** The ids bookkept before and after one pass of the loop body. */
  lemma IdsStep(before: seq<string>, c: string, u: string, tail: seq<string>, after: seq<string>, listed: seq<string>)
    requires after == if u != c then before + [c] else before
    requires listed == after + Collapse([u] + tail)
    ensures listed == before + Collapse([c] + ([u] + tail))
  {
    CollapseCons(c, u, tail);
    if u != c {
      AppendAssoc(before, [c], Collapse([u] + tail));
    }
  }

  /** One pass of the loop body from a state with a current utterance. */
  lemma GroupStepIds(g: Grouping, s: Segment, order: seq<string>)
    requires g.current.Some?
    ensures var next := GroupStep(g, s, order);
      next.Ok? ==>
        next.value.current == Some(s.uttId) &&
        next.value.uttIds == (if s.uttId != g.current.value then g.uttIds + [g.current.value] else g.uttIds)
  {
  }

  /** Collapsing a list whose head is followed by `u`. */
  lemma CollapseCons(c: string, u: string, rest: seq<string>)
    ensures Collapse([c] + ([u] + rest)) ==
      if u != c then [c] + Collapse([u] + rest) else Collapse([u] + rest)
  {
    var ids := [c] + ([u] + rest);
    assert ids[0] == c && ids[1] == u && ids[1..] == [u] + rest;
  }

  /** As written, every utterance but the last is listed: the ids output,
      followed by the id of the final segment, are the runs of ids. */
  lemma LastUtteranceNeverListed(segs: seq<Segment>, order: seq<string>)
    requires segs != [] && AsWritten(segs, order).Ok?
    ensures AsWritten(segs, order).value.uttIds + [segs[|segs| - 1].uttId] == Collapse(Ids(segs))
  {
    assert AsWritten(segs, order).value.uttIds == Run(Ok(Init), segs, order).value.uttIds;
    RunFirst(segs, order);
    var g := GroupStep(Init, segs[0], order).value;
    var fin := Run(Ok(g), segs[1..], order).value;
    RunIds(g, segs[1..], order);
    IdsCons(segs);
    LastIsCurrent(g, segs[1..], order);
    assert fin.current.value == segs[|segs| - 1].uttId by {
      if |segs| > 1 {
        assert segs[1..][|segs[1..]| - 1] == segs[|segs| - 1];
      }
    }
    assert fin.uttIds + [fin.current.value] == [] + Collapse(Ids(segs));
  }

  /** The first segment sets the current utterance and lists nothing. */
  lemma RunFirst(segs: seq<Segment>, order: seq<string>)
    requires segs != [] && Run(Ok(Init), segs, order).Ok?
    ensures var first := GroupStep(Init, segs[0], order);
      first.Ok? && first.value.uttIds == [] && first.value.current == Some(segs[0].uttId) &&
      Run(Ok(Init), segs, order) == Run(first, segs[1..], order)
  {
    var first := GroupStep(Init, segs[0], order);
    assert Run(Ok(Init), segs, order) == Run(first, segs[1..], order);
  }

  lemma IdsCons(segs: seq<Segment>)
    requires segs != []
    ensures Ids(segs) == [segs[0].uttId] + Ids(segs[1..])
  {
  }

  /** The current utterance after the loop is that of the last segment. */
  lemma {:induction false} LastIsCurrent(g: Grouping, segs: seq<Segment>, order: seq<string>)
    requires g.current.Some? && Run(Ok(g), segs, order).Ok?
    ensures segs != [] ==> Run(Ok(g), segs, order).value.current == Some(segs[|segs| - 1].uttId)
    ensures segs == [] ==> Run(Ok(g), segs, order).value.current == g.current
    decreases |segs|
  {
    if segs != [] {
      var next := GroupStep(g, segs[0], order);
      assert next.Ok?;
      LastIsCurrent(next.value, segs[1..], order);
      if |segs| > 1 {
        assert segs[1..][|segs[1..]| - 1] == segs[|segs| - 1];
      }
    }
  }

  /** As written, an alignment whose segments all belong to one utterance,
      with every phone in the order, yields no utterance at all. */
  lemma OneUtteranceLost(segs: seq<Segment>, order: seq<string>)
    requires forall k :: 0 <= k < |segs| ==> segs[k].uttId == segs[0].uttId && segs[k].phone in order
    ensures AsWritten(segs, order) == Ok(Features([], []))
  {
    if segs != [] {
      var first := GroupStep(Init, segs[0], order);
      assert first.Ok? && first.value.current == Some(segs[0].uttId);
      assert Run(Ok(Init), segs, order) == Run(first, segs[1..], order);
      SameUtteranceRun(first.value, segs[1..], order, segs[0].uttId);
    }
  }

  /** From a state listing nothing, segments of the current utterance whose
      phones are all in the order list nothing either. */
  lemma {:induction false} SameUtteranceRun(g: Grouping, segs: seq<Segment>, order: seq<string>, u: string)
    requires g.current == Some(u) && g.uttIds == [] && g.features == []
    requires forall k :: 0 <= k < |segs| ==> segs[k].uttId == u && segs[k].phone in order
    ensures Run(Ok(g), segs, order).Ok?
    ensures Run(Ok(g), segs, order).value.uttIds == [] && Run(Ok(g), segs, order).value.features == []
    decreases |segs|
  {
    if segs != [] {
      var next := GroupStep(g, segs[0], order);
      assert IndexOf(order, segs[0].phone).Ok?;
      assert next.Ok? && next.value.current == Some(u) && next.value.uttIds == [] && next.value.features == [];
      assert Run(Ok(g), segs, order) == Run(next, segs[1..], order);
      assert forall k :: 0 <= k < |segs| - 1 ==> segs[1..][k] == segs[k + 1];
      SameUtteranceRun(next.value, segs[1..], order, u);
    }
  }

  /** As written, a segment whose utterance differs from that of the segment
      before it adds nothing of its own: the output is the same whatever its
      phone and frame count, so its frames are lost and a phone missing from
      the order goes unnoticed there. */
  lemma OpeningSegmentIgnored(segs: seq<Segment>, s: Segment, t: Segment, rest: seq<Segment>, order: seq<string>)
    requires segs != [] && s.uttId != segs[|segs| - 1].uttId && t.uttId == s.uttId
    ensures AsWritten(segs + [s] + rest, order) == AsWritten(segs + [t] + rest, order)
  {
    RunAppend(Ok(Init), segs, [s] + rest, order);
    RunAppend(Ok(Init), segs, [t] + rest, order);
    assert segs + [s] + rest == segs + ([s] + rest);
    assert segs + [t] + rest == segs + ([t] + rest);
    var before := Run(Ok(Init), segs, order);
    if before.Ok? {
      RunFirst(segs, order);
      var first := GroupStep(Init, segs[0], order).value;
      LastIsCurrent(first, segs[1..], order);
      assert before.value.current == Some(segs[|segs| - 1].uttId) by {
        if |segs| > 1 {
          assert segs[1..][|segs[1..]| - 1] == segs[|segs| - 1];
        }
      }
      OtherUtteranceStep(before.value, s, t, order);
      RunCons(before.value, s, rest, order);
      RunCons(before.value, t, rest, order);
    }
  }

  /** From a state with a current utterance, a segment of another utterance
      has the same effect whatever its phone and frame count. */
  lemma OtherUtteranceStep(g: Grouping, s: Segment, t: Segment, order: seq<string>)
    requires g.current.Some? && s.uttId != g.current.value && t.uttId == s.uttId
    ensures GroupStep(g, s, order) == GroupStep(g, t, order)
  {
  }

  lemma RunCons(g: Grouping, s: Segment, rest: seq<Segment>, order: seq<string>)
    ensures Run(Ok(g), [s] + rest, order) == Run(GroupStep(g, s, order), rest, order)
  {
    assert ([s] + rest)[0] == s && ([s] + rest)[1..] == rest;
  }

  /** The loop over `a + b` is the loop over `a` continued over `b`. */
  lemma {:induction false} RunAppend(r: Result<Grouping>, a: seq<Segment>, b: seq<Segment>, order: seq<string>)
    ensures Run(r, a + b, order) == Run(Run(r, a, order), b, order)
    decreases |a|
  {
    if a == [] {
      assert a + b == b;
    } else if r.Ok? {
      assert (a + b)[0] == a[0] && (a + b)[1..] == a[1..] + b;
      RunAppend(GroupStep(r.value, a[0], order), a[1..], b, order);
    } else {
      RunErr(r, b, order);
    }
  }

  /** A run that has failed stays failed. */
  lemma RunErr(r: Result<Grouping>, segs: seq<Segment>, order: seq<string>)
    requires r.Err?
    ensures Run(r, segs, order) == r
  {
  }

  /** For example, an utterance of one two-frame segment yields no utterance. */
  lemma SingleUtteranceLost(p: string, order: seq<string>)
    requires p in order
    ensures AsWritten([Segment("a", 2, p)], order) == Ok(Features([], []))
  {
    var s := Segment("a", 2, p);
    var g1 := Grouping(Some("a"), [], [], Repeat(IndexOf(order, p).value, 2));
    assert [] + g1.uttFeatures == g1.uttFeatures;
    assert GroupStep(Init, s, order) == Ok(g1);
    assert [s][1..] == [];
    assert Run(Ok(Init), [s], order) == Run(Ok(g1), [], order);
  }

  /** For example, the segment that opens the second utterance adds no
      frames, and the second utterance is not listed; a phone missing from
      the order goes unnoticed in that segment. */
  lemma TriggerSegmentLost(p: string, q: string, order: seq<string>)
    requires p in order && q !in order
    ensures AsWritten([Segment("a", 1, p), Segment("b", 3, q)], order) ==
      Ok(Features(["a"], [[IndexOf(order, p).value]]))
  {
    var segs := [Segment("a", 1, p), Segment("b", 3, q)];
    var i := IndexOf(order, p).value;
    var g1 := Grouping(Some("a"), [], [], [i]);
    assert Repeat(i, 1) == [i] && [] + [i] == [i];
    assert [] + ["a"] == ["a"] && [] + [[i]] == [[i]];
    assert GroupStep(Init, segs[0], order) == Ok(g1);
    assert segs[1..] == [segs[1]] && segs[1..][1..] == [];
    var g2 := Grouping(Some("b"), ["a"], [[i]], []);
    assert GroupStep(g1, segs[1], order) == Ok(g2);
    assert Run(Ok(Init), segs, order) == Run(Ok(g1), segs[1..], order);
    assert Run(Ok(g1), segs[1..], order) == Run(Ok(g2), [], order);
  }

  // ---------------------------------------------------------------------
  // The grouping the loop is meant to compute

  /** Every segment adds its frames to its utterance, each run of segments
      of one utterance gives one entry, and the last run is listed too. */
  function Grouped(segs: seq<Segment>, order: seq<string>): (r: Result<Features>)
    ensures r.Ok? ==> |r.value.uttIds| == |r.value.features|
    ensures r.Ok? && segs != [] ==> |r.value.uttIds| > 0 && r.value.uttIds[0] == segs[0].uttId
    ensures r.Err? ==> r.error == ValueError
    decreases |segs|
  {
    if segs == [] then Ok(Features([], []))
    else
      match IndexOf(order, segs[0].phone)
      case Err(e) => Err(e)
      case Ok(i) =>
        match Grouped(segs[1..], order)
        case Err(e) => Err(e)
        case Ok(rest) =>
          var cols := Repeat(i, segs[0].nframes);
          if |segs| > 1 && segs[1].uttId == segs[0].uttId then
            Ok(Features(rest.uttIds, [cols + rest.features[0]] + rest.features[1..]))
          else
            Ok(Features([segs[0].uttId] + rest.uttIds, [cols] + rest.features))
  }

  lemma FrameIdsCons(ids: seq<string>, fs: seq<seq<nat>>, x: string, cols: seq<nat>)
    requires |ids| == |fs| && ids != [] && ids[0] == x
    ensures FrameIds(ids, [cols + fs[0]] + fs[1..]) == Repeat(x, |cols|) + FrameIds(ids, fs)
  {
    var gs := [cols + fs[0]] + fs[1..];
    assert gs[0] == cols + fs[0] && gs[1..] == fs[1..];
    FrameIdsNewHead(ids, fs, gs, x, |cols|);
  }

  /** Giving the first utterance `n` more frames adds `n` copies of its id
      in front. */
  lemma FrameIdsNewHead(ids: seq<string>, fs: seq<seq<nat>>, gs: seq<seq<nat>>, x: string, n: nat)
    requires |ids| == |fs| == |gs| && ids != [] && ids[0] == x
    requires gs[1..] == fs[1..] && |gs[0]| == n + |fs[0]|
    ensures FrameIds(ids, gs) == Repeat(x, n) + FrameIds(ids, fs)
  {
    FrameIdsHead(ids, gs);
    FrameIdsHead(ids, fs);
    RepeatAppend(x, n, |fs[0]|);
    AppendAssoc(Repeat(x, n), Repeat(x, |fs[0]|), FrameIds(ids[1..], fs[1..]));
  }

  lemma AppendAssoc<T>(a: seq<T>, b: seq<T>, c: seq<T>)
    ensures a + b + c == a + (b + c)
  {
  }

  lemma FrameIdsHead(ids: seq<string>, fs: seq<seq<nat>>)
    requires |ids| == |fs| && ids != []
    ensures FrameIds(ids, fs) == Repeat(ids[0], |fs[0]|) + FrameIds(ids[1..], fs[1..])
  {
  }

  lemma RepeatAppend<T>(x: T, a: nat, b: nat)
    ensures Repeat(x, a + b) == Repeat(x, a) + Repeat(x, b)
  {
  }

  /** The intended grouping succeeds exactly when every phone is in the
      order. */
  lemma {:induction false} GroupedKnown(segs: seq<Segment>, order: seq<string>)
    ensures Grouped(segs, order).Ok? <==> Known(segs, order)
    decreases |segs|
  {
    if segs != [] {
      var tail := segs[1..];
      GroupedKnown(tail, order);
      assert forall k :: 0 <= k < |tail| ==> tail[k] == segs[k + 1];
      assert Known(segs, order) <==> segs[0].phone in order && Known(tail, order);
    }
  }

  /** The intended grouping lists each run of utterance ids once, the last
      run included. */
  lemma {:induction false} GroupedIds(segs: seq<Segment>, order: seq<string>)
    requires Grouped(segs, order).Ok?
    ensures Grouped(segs, order).value.uttIds == Collapse(Ids(segs))
    decreases |segs|
  {
    if segs != [] {
      var tail := segs[1..];
      GroupedIds(tail, order);
      var ids := Ids(segs);
      assert ids[1..] == Ids(tail);
      if |segs| > 1 && segs[1].uttId == segs[0].uttId {
        assert Collapse(ids) == Collapse(Ids(tail));
      } else if |segs| > 1 {
        assert Collapse(ids) == [segs[0].uttId] + Collapse(Ids(tail));
      }
    }
  }

  /** Every frame of the alignment appears in the intended features, in
      order, with the column of its phone. */
  lemma {:induction false} GroupedColumns(segs: seq<Segment>, order: seq<string>)
    requires Known(segs, order)
    ensures Grouped(segs, order).Ok? && Flatten(Grouped(segs, order).value.features) == Expand(segs, order)
    decreases |segs|
  {
    GroupedKnown(segs, order);
    if segs != [] {
      var tail := segs[1..];
      assert Known(tail, order) by {
        assert forall k :: 0 <= k < |tail| ==> tail[k] == segs[k + 1];
      }
      GroupedColumns(tail, order);
      var r := Grouped(segs, order).value;
      var rest := Grouped(tail, order).value;
      var cols := Repeat(IndexOf(order, segs[0].phone).value, segs[0].nframes);
      if |segs| > 1 && segs[1].uttId == segs[0].uttId {
        assert ([cols + rest.features[0]] + rest.features[1..])[1..] == rest.features[1..];
        assert Flatten(rest.features) == rest.features[0] + Flatten(rest.features[1..]);
        assert Flatten(r.features) == cols + Flatten(rest.features);
      } else {
        assert ([cols] + rest.features)[1..] == rest.features;
      }
    }
  }

  /** Every frame the intended grouping writes belongs to the utterance of
      the segment it comes from. */
  lemma {:induction false} GroupedLabels(segs: seq<Segment>, order: seq<string>)
    requires Grouped(segs, order).Ok?
    ensures FrameIds(Grouped(segs, order).value.uttIds, Grouped(segs, order).value.features) == Labels(segs)
    decreases |segs|
  {
    if segs != [] {
      var tail := segs[1..];
      GroupedLabels(tail, order);
      var r := Grouped(segs, order).value;
      var rest := Grouped(tail, order).value;
      var cols := Repeat(IndexOf(order, segs[0].phone).value, segs[0].nframes);
      if |segs| > 1 && segs[1].uttId == segs[0].uttId {
        FrameIdsCons(rest.uttIds, rest.features, segs[0].uttId, cols);
      } else {
        assert ([segs[0].uttId] + rest.uttIds)[1..] == rest.uttIds;
        assert ([cols] + rest.features)[1..] == rest.features;
      }
    }
  }

  /** The grouping as written and as intended differ on every alignment
      with a segment: the intended one always lists the last utterance. */
  lemma GroupingsDiffer(segs: seq<Segment>, order: seq<string>)
    requires segs != [] && AsWritten(segs, order).Ok? && Grouped(segs, order).Ok?
    ensures |Grouped(segs, order).value.uttIds| == |AsWritten(segs, order).value.uttIds| + 1
  {
    LastUtteranceNeverListed(segs, order);
    GroupedIds(segs, order);
  }
}
