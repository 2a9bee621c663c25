/** `get_phone_order` of the Kaldi export: the phone map read from Kaldi's
    `phones.txt` (code to phone) loses its disambiguation symbols and `<eps>`
    in place, and its remaining phones are returned without duplicates in a
    reproducible (sorted) order. */
module PhoneOrder {
  import opened Text

  // ---------------------------------------------------------------------
  // The excluded symbols

  /** The text `$` lets a match end on: all of `s`, or `s` without a final newline. */
  function Body(s: string): string
  {
    if |s| > 0 && s[|s| - 1] == '\n' then s[..|s| - 1] else s
  }

  /** `re.match(u'#[0-9]+$|<eps>$', s)`: a `#` followed by one or more digits,
      or `<eps>`, with nothing after but an optional final newline. */
  predicate IsDisambiguation(s: string)
  {
    var b := Body(s);
    (|b| >= 2 && b[0] == '#' && AllDigits(b[1..])) || b == "<eps>"
  }

  lemma DisambiguationExamples()
    ensures IsDisambiguation("#3") && IsDisambiguation("#12") && IsDisambiguation("<eps>")
    ensures !IsDisambiguation("#3a") && !IsDisambiguation("#") && !IsDisambiguation("<eps>x")
    ensures !IsDisambiguation("a")
  {
    assert Body("#3a") == "#3a" && !IsDigit("#3a"[2]) && "#3a"[2] in "#3a"[1..];
    assert Body("<eps>x") == "<eps>x";
    assert Body("#") == "#";
  }

  /** The entries `get_phone_order` keeps. */
  function Kept(m: map<string, string>): (r: map<string, string>)
    ensures forall c :: c in r <==> c in m && !IsDisambiguation(m[c])
    ensures forall c :: c in r ==> r[c] == m[c]
  {
    map c | c in m && !IsDisambiguation(m[c]) :: m[c]
  }

  // ---------------------------------------------------------------------
  // The order of `np.unique` and `list.sort` on unicode strings

  /** Lexicographic order on code points. */
  predicate Less(a: string, b: string)
    decreases |a|
  {
    if |a| == 0 then |b| > 0
    else if |b| == 0 then false
    else if a[0] == b[0] then Less(a[1..], b[1..])
    else a[0] < b[0]
  }

  lemma {:induction false} LessIrreflexive(a: string)
    ensures !Less(a, a)
    decreases |a|
  {
    if |a| > 0 {
      LessIrreflexive(a[1..]);
    }
  }

  lemma {:induction false} LessTransitive(a: string, b: string, c: string)
    requires Less(a, b) && Less(b, c)
    ensures Less(a, c)
    decreases |a|
  {
    if |a| > 0 && a[0] == b[0] && b[0] == c[0] {
      LessTransitive(a[1..], b[1..], c[1..]);
    }
  }

  lemma {:induction false} LessTotal(a: string, b: string)
    requires a != b
    ensures Less(a, b) || Less(b, a)
    decreases |a|
  {
    if |a| > 0 && |b| > 0 && a[0] == b[0] {
      assert a == [a[0]] + a[1..] && b == [b[0]] + b[1..];
      LessTotal(a[1..], b[1..]);
    }
  }

  /** Strictly increasing, hence free of duplicates. */
  predicate StrictlySorted(xs: seq<string>)
  {
    forall i, j :: 0 <= i < j < |xs| ==> Less(xs[i], xs[j])
  }

  /** `v` put in its place in a strictly sorted list, unless it is already there. */
  function Insert(xs: seq<string>, v: string): (r: seq<string>)
    requires StrictlySorted(xs)
    ensures StrictlySorted(r)
    ensures forall x :: x in r <==> x in xs || x == v
    decreases |xs|
  {
    if xs == [] then [v]
    else if v == xs[0] then xs
    else if Less(v, xs[0]) then
      assert forall j :: 0 <= j < |xs| ==> Less(v, xs[j]) by {
        forall j | 0 < j < |xs| ensures Less(v, xs[j]) {
          LessTransitive(v, xs[0], xs[j]);
        }
      }
      [v] + xs
    else
      var rest := Insert(xs[1..], v);
      LessTotal(v, xs[0]);
      assert forall x :: x in xs <==> x == xs[0] || x in xs[1..];
      assert forall x :: x in rest ==> Less(xs[0], x);
      [xs[0]] + rest
  }

  /** `np.unique(values)`: the distinct values in increasing order. */
  function SortedUnique(values: seq<string>): (r: seq<string>)
    ensures StrictlySorted(r)
    ensures forall x :: x in r <==> x in values
    decreases |values|
  {
    if values == [] then []
    else
      var init := values[..|values| - 1];
      assert forall x :: x in values <==> x in init || x == values[|values| - 1];
      Insert(SortedUnique(init), values[|values| - 1])
  }

  /** The head of a strictly sorted list is below its other elements. */
  lemma HeadIsLeast(xs: seq<string>, x: string)
    requires StrictlySorted(xs) && x in xs
    ensures x == xs[0] || Less(xs[0], x)
  {
  }

  /** The tail of a strictly sorted list holds its elements other than the head. */
  lemma TailMembers(xs: seq<string>, x: string)
    requires StrictlySorted(xs) && xs != []
    ensures x in xs[1..] <==> x in xs && x != xs[0]
  {
    if x in xs[1..] {
      var i :| 0 <= i < |xs[1..]| && xs[1..][i] == x;
      assert Less(xs[0], xs[i + 1]);
      LessIrreflexive(x);
    }
    if x in xs && x != xs[0] {
      var i :| 0 <= i < |xs| && xs[i] == x;
      assert xs[1..][i - 1] == x;
    }
  }

  /** A strictly sorted list is determined by its elements. */
  lemma {:induction false} SortedUniqueIsCanonical(xs: seq<string>, ys: seq<string>)
    requires StrictlySorted(xs) && StrictlySorted(ys)
    requires forall x :: x in xs <==> x in ys
    ensures xs == ys
    decreases |xs|
  {
    assert xs == [] <==> ys == [] by {
      if xs != [] {
        assert xs[0] in ys;
      }
      if ys != [] {
        assert ys[0] in xs;
      }
    }
    if xs != [] {
      HeadIsLeast(ys, xs[0]);
      HeadIsLeast(xs, ys[0]);
      if xs[0] != ys[0] {
        LessTransitive(xs[0], ys[0], xs[0]);
        LessIrreflexive(xs[0]);
      }
      forall x ensures x in xs[1..] <==> x in ys[1..] {
        TailMembers(xs, x);
        TailMembers(ys, x);
      }
      SortedUniqueIsCanonical(xs[1..], ys[1..]);
      assert xs == [xs[0]] + xs[1..] && ys == [ys[0]] + ys[1..];
    }
  }

  // ---------------------------------------------------------------------
  // get_phone_order

  /** The caller's phone map, which `get_phone_order` changes in place. */
  class PhoneMap {
    var entries: map<string, string>

    constructor (entries: map<string, string>)
      ensures this.entries == entries
    {
      this.entries := entries;
    }
  }

  /** The keys of `m`, each once, in the order `keys()` lists them. */
  ghost predicate KeyOrder(m: map<string, string>, codes: seq<string>)
  {
    (forall i, j :: 0 <= i < j < |codes| ==> codes[i] != codes[j]) &&
    (forall c :: c in m <==> c in codes)
  }

  /** `m` after the deletions for the codes `done`. */
  function Filtered(m: map<string, string>, done: seq<string>): map<string, string>
  {
    map c | c in m && !(c in done && IsDisambiguation(m[c])) :: m[c]
  }

  /** The values of `m`, in the order of `codes`. */
  function Values(m: map<string, string>, codes: seq<string>): (r: seq<string>)
    ensures forall v :: v in r <==> exists c :: c in codes && c in m && m[c] == v
    decreases |codes|
  {
    if codes == [] then []
    else
      var rest := Values(m, codes[1..]);
      assert forall c :: c in codes <==> c == codes[0] || c in codes[1..];
      if codes[0] in m then [m[codes[0]]] + rest else rest
  }

  /** `get_phone_order(phonemap)`, `codes` being `phonemap.keys()`: the
      disambiguation symbols and `<eps>` are deleted from the caller's map,
      the other entries are kept unchanged, and the result lists each
      remaining phone once, in increasing order. */
  method GetPhoneOrder(pm: PhoneMap, codes: seq<string>) returns (order: seq<string>)
    requires KeyOrder(pm.entries, codes)
    modifies pm
    ensures pm.entries == Kept(old(pm.entries))
    ensures StrictlySorted(order)
    ensures forall p :: p in order <==> exists c :: c in pm.entries && pm.entries[c] == p
  {
    ghost var m := pm.entries;
    var i := 0;
    while i < |codes|
      invariant 0 <= i <= |codes|
      invariant pm.entries == Filtered(m, codes[..i])
    {
      var code := codes[i];
      FilteredStep(m, codes, i);
      if IsDisambiguation(pm.entries[code]) {
        pm.entries := pm.entries - {code};
      }
      i := i + 1;
    }
    assert codes[..|codes|] == codes;
    assert pm.entries == Kept(m);
    order := SortedUnique(Values(pm.entries, codes));
    OrderOfKept(pm.entries, codes);
  }

  /** Deleting the `i`-th code if its phone is a disambiguation symbol. */
  lemma FilteredStep(m: map<string, string>, codes: seq<string>, i: nat)
    requires KeyOrder(m, codes) && i < |codes|
    ensures var f := Filtered(m, codes[..i]); var code := codes[i];
      code in f && f[code] == m[code] &&
      Filtered(m, codes[..i + 1]) == if IsDisambiguation(m[code]) then f - {code} else f
  {
    var code := codes[i];
    assert code !in codes[..i];
    assert codes[..i + 1] == codes[..i] + [code];
  }

  /** The sorted distinct values of a map listed through all its keys. */
  lemma OrderOfKept(k: map<string, string>, codes: seq<string>)
    requires forall c :: c in k ==> c in codes
    ensures forall p :: p in SortedUnique(Values(k, codes)) <==> exists c :: c in k && k[c] == p
  {
  }

  /** The phone order holds exactly the phones of the original map that are
      not disambiguation symbols, and every code of the map after the call
      has its phone in the order. */
  lemma PhoneOrderContents(m: map<string, string>, order: seq<string>)
    requires StrictlySorted(order)
    requires forall p :: p in order <==> exists c :: c in Kept(m) && Kept(m)[c] == p
    ensures forall p :: p in order <==> (exists c :: c in m && m[c] == p) && !IsDisambiguation(p)
    ensures forall c :: c in Kept(m) ==> Kept(m)[c] in order
    ensures order == SortedUnique(Values(Kept(m), SetToSeq(Kept(m))))
  {
    var k := Kept(m);
    SortedUniqueIsCanonical(order, SortedUnique(Values(k, SetToSeq(k))));
  }

  /** Some listing of the keys of `m`. */
  ghost function SetToSeq(m: map<string, string>): (r: seq<string>)
    ensures forall c :: c in r <==> c in m
    decreases |m|
  {
    if m == map[] then []
    else
      var c :| c in m;
      var rest := m - {c};
      assert |rest| < |m| by {
        assert rest.Keys < m.Keys;
      }
      [c] + SetToSeq(rest)
  }
}
