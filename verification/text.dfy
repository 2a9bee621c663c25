/** The Python string and path operations the preparation code relies on,
    written out over `seq<char>` with the semantics of Python 2 `unicode`
    methods (restricted to ASCII where the two differ, see README). */
module Text {

  type Path = string

  // ---------------------------------------------------------------------
  // Characters

  predicate IsLower(c: char) { 'a' <= c <= 'z' }

  predicate IsDigit(c: char) { '0' <= c <= '9' }

  /** Every character is an ASCII digit (`[0-9]*`). */
  predicate AllDigits(s: string)
  {
    forall c :: c in s ==> IsDigit(c)
  }

  /** The ASCII characters `str.strip()` removes. */
  predicate IsSpace(c: char)
  {
    c == ' ' || c == '\t' || c == '\n' || c == '\r' ||
    c == '\U{000B}' || c == '\U{000C}' ||
    c == '\U{001C}' || c == '\U{001D}' || c == '\U{001E}' || c == '\U{001F}'
  }

  function UpperChar(c: char): (u: char)
    ensures !IsLower(u)
  {
    if IsLower(c) then (c as int - 32) as char else c
  }

  /** `s.upper()` on ASCII letters. */
  function Upper(s: string): (r: string)
    ensures |r| == |s|
    ensures forall i :: 0 <= i < |s| ==> r[i] == UpperChar(s[i])
  {
    seq(|s|, i requires 0 <= i < |s| => UpperChar(s[i]))
  }

  /** No lower-case ASCII letter occurs in `s`. */
  predicate NoLower(s: string)
  {
    forall c :: c in s ==> !IsLower(c)
  }

  // ---------------------------------------------------------------------
  // Prefixes, suffixes, slices

  predicate StartsWith(s: string, prefix: string)
  {
    |prefix| <= |s| && s[..|prefix|] == prefix
  }

  predicate EndsWith(s: string, suffix: string)
  {
    |suffix| <= |s| && s[|s| - |suffix|..] == suffix
  }

  /** Python `s[:n]` for n >= 0. */
  function Take(s: string, n: nat): (r: string)
    ensures |r| <= n && StartsWith(s, r)
    ensures |s| >= n ==> |r| == n
  {
    if n <= |s| then s[..n] else s
  }

  /** Python `s[-n:]` for n > 0. */
  function TakeLast(s: string, n: nat): (r: string)
    ensures |r| <= n && EndsWith(s, r)
    ensures |s| >= n ==> |r| == n
  {
    if n <= |s| then s[|s| - n..] else s
  }

  /** `s[-|t|:] == t` holds exactly when `s` ends with `t`. */
  lemma TakeLastIsEndsWith(s: string, t: string)
    requires |t| > 0
    ensures TakeLast(s, |t|) == t <==> EndsWith(s, t)
  {
  }

  /** Python `sub in s`. */
  predicate Contains(s: string, sub: string)
    decreases |s|
  {
    StartsWith(s, sub) || (|s| > 0 && Contains(s[1..], sub))
  }

  /** Python `last` such that `s[last] == c` is the last occurrence of `c`, -1 if none (`s.rfind(c)`). */
  function LastIndexOf(s: string, c: char): (k: int)
    ensures -1 <= k < |s|
    ensures k >= 0 ==> s[k] == c
    ensures forall m :: k < m < |s| ==> s[m] != c
  {
    if |s| == 0 then -1
    else if s[|s| - 1] == c then |s| - 1
    else LastIndexOf(s[..|s| - 1], c)
  }

  // ---------------------------------------------------------------------
  // str.replace, str.split, str.join, str.strip

  /** Python `s.replace(pat, rep)`: every non-overlapping occurrence of
      `pat`, scanning from the left, is replaced by `rep`. */
  function ReplaceAll(s: string, pat: string, rep: string): string
    requires |pat| > 0
    decreases |s|
  {
    if |s| < |pat| then s
    else if s[..|pat|] == pat then rep + ReplaceAll(s[|pat|..], pat, rep)
    else [s[0]] + ReplaceAll(s[1..], pat, rep)
  }

  /** A replacement introduces no character that is neither in the input nor in the replacement. */
  lemma {:induction false} ReplaceAllChars(s: string, pat: string, rep: string)
    requires |pat| > 0
    ensures forall c :: c in ReplaceAll(s, pat, rep) ==> c in s || c in rep
    decreases |s|
  {
    if |s| < |pat| {
    } else if s[..|pat|] == pat {
      ReplaceAllChars(s[|pat|..], pat, rep);
      forall c | c in s[|pat|..] ensures c in s {
        var k :| 0 <= k < |s[|pat|..]| && s[|pat|..][k] == c;
        assert s[|pat| + k] == c;
      }
    } else {
      ReplaceAllChars(s[1..], pat, rep);
      forall c | c in s[1..] ensures c in s {
        var k :| 0 <= k < |s[1..]| && s[1..][k] == c;
        assert s[1 + k] == c;
      }
    }
  }

  /** Removing a character (`s.replace(c, '')`) leaves none of it. */
  lemma RemoveCharRemoves(s: string, c: char)
    ensures c !in ReplaceAll(s, [c], "")
  {
    ReplaceAllChars(s, [c], "");
  }

  /** Replacing the whole string. */
  lemma ReplaceAllWhole(pat: string, rep: string)
    requires |pat| > 0
    ensures ReplaceAll(pat, pat, rep) == rep
  {
    assert pat[..|pat|] == pat && pat[|pat|..] == "";
    assert rep + "" == rep;
  }

  /** A string that lacks the first character of `pat` is left unchanged by a replacement. */
  lemma {:induction false} ReplaceAllFirstAbsent(s: string, pat: string, rep: string)
    requires |pat| > 0 && pat[0] !in s
    ensures ReplaceAll(s, pat, rep) == s
    decreases |s|
  {
    if |s| >= |pat| {
      assert s[..|pat|][0] == s[0];
      assert s[0] in s;
      assert forall c :: c in s[1..] ==> c in s;
      ReplaceAllFirstAbsent(s[1..], pat, rep);
    }
  }

  /** The upper-case form of a character is a space only for a space. */
  lemma UpperSpace(s: string)
    ensures ' ' !in s ==> ' ' !in Upper(s)
  {
    if ' ' !in s {
      forall k | 0 <= k < |s| ensures Upper(s)[k] != ' ' {
        assert s[k] in s;
      }
    }
  }

  /** A string in which `pat` does not occur is left unchanged by a replacement. */
  lemma {:induction false} ReplaceAllAbsent(s: string, pat: string, rep: string)
    requires |pat| > 0 && !Contains(s, pat)
    ensures ReplaceAll(s, pat, rep) == s
    decreases |s|
  {
    if |s| >= |pat| {
      ReplaceAllAbsent(s[1..], pat, rep);
    }
  }

  /** Python `s.split(sep)` for a non-empty separator: the pieces between
      the non-overlapping occurrences of `sep`, scanning from the left. */
  function Split(s: string, sep: string): (parts: seq<string>)
    requires |sep| > 0
    ensures |parts| >= 1
    decreases |s|
  {
    if |s| == 0 then [""]
    else if StartsWith(s, sep) then [""] + Split(s[|sep|..], sep)
    else
      var rest := Split(s[1..], sep);
      [[s[0]] + rest[0]] + rest[1..]
  }

  /** Python `sep.join(parts)`. */
  function Join(parts: seq<string>, sep: string): string
  {
    if |parts| == 0 then ""
    else if |parts| == 1 then parts[0]
    else parts[0] + sep + Join(parts[1..], sep)
  }

  /** Joining the pieces of a split with the same separator gives back the string. */
  lemma {:induction false} JoinSplit(s: string, sep: string)
    requires |sep| > 0
    ensures Join(Split(s, sep), sep) == s
    decreases |s|
  {
    if |s| == 0 {
    } else if StartsWith(s, sep) {
      var rest := Split(s[|sep|..], sep);
      JoinSplit(s[|sep|..], sep);
      var parts := [""] + rest;
      assert Split(s, sep) == parts;
      assert parts[1..] == rest;
      assert Join(parts, sep) == "" + sep + Join(rest, sep);
      assert s == sep + s[|sep|..];
    } else {
      var rest := Split(s[1..], sep);
      JoinSplit(s[1..], sep);
      var parts := [[s[0]] + rest[0]] + rest[1..];
      assert Split(s, sep) == parts;
      JoinSplitStep(s[0], rest, sep);
      assert s == [s[0]] + s[1..];
    }
  }

  /** Joining after prefixing the first piece prefixes the join. */
  lemma JoinSplitStep(c: char, rest: seq<string>, sep: string)
    requires |rest| >= 1
    ensures Join([[c] + rest[0]] + rest[1..], sep) == [c] + Join(rest, sep)
  {
    var parts := [[c] + rest[0]] + rest[1..];
    if |rest| > 1 {
      assert parts[1..] == rest[1..];
      assert Join(parts, sep) == [c] + rest[0] + sep + Join(rest[1..], sep);
    }
  }

  /** A string whose first character does not occur in `s` does not occur in it. */
  lemma {:induction false} FirstCharAbsent(s: string, sub: string)
    requires |sub| > 0 && sub[0] !in s
    ensures !Contains(s, sub)
    decreases |s|
  {
    if |s| > 0 {
      assert s[0] in s;
      assert forall x :: x in s[1..] ==> x in s;
      FirstCharAbsent(s[1..], sub);
    }
  }

  /** A string in which the separator does not occur splits into itself. */
  lemma {:induction false} SplitNoSep(w: string, sep: string)
    requires |sep| > 0 && !Contains(w, sep)
    ensures Split(w, sep) == [w]
    decreases |w|
  {
    if |w| > 0 {
      assert !StartsWith(w, sep) && !Contains(w[1..], sep);
      SplitNoSep(w[1..], sep);
      assert [w[0]] + w[1..] == w;
    }
  }

  /** Splitting `w + sep + rest`, where `w` holds no first character of the
      separator, yields `w` and then the pieces of `rest`. */
  lemma {:induction false} SplitCons(w: string, sep: string, rest: string)
    requires |sep| > 0 && sep[0] !in w
    ensures Split(w + sep + rest, sep) == [w] + Split(rest, sep)
    decreases |w|
  {
    var s := w + sep + rest;
    if |w| == 0 {
      assert s == sep + rest;
      assert StartsWith(s, sep) && s[|sep|..] == rest;
    } else {
      assert w[0] in w;
      assert forall c :: c in w[1..] ==> c in w;
      assert !StartsWith(s, sep) by {
        assert s[0] == w[0];
      }
      assert s[1..] == w[1..] + sep + rest;
      SplitCons(w[1..], sep, rest);
      assert [w[0]] + w[1..] == w;
    }
  }

  /** Joining words that do not contain the separator character and
      splitting the result gives the words back, empty ones included. */
  lemma {:induction false} SplitJoin(ws: seq<string>, sep: char)
    requires |ws| > 0 && forall w :: w in ws ==> sep !in w
    ensures Split(Join(ws, [sep]), [sep]) == ws
    decreases |ws|
  {
    if |ws| == 1 {
      FirstCharAbsent(ws[0], [sep]);
      SplitNoSep(ws[0], [sep]);
    } else {
      assert ws[0] in ws;
      assert forall w :: w in ws[1..] ==> w in ws;
      SplitJoin(ws[1..], sep);
      SplitCons(ws[0], [sep], Join(ws[1..], [sep]));
      assert [ws[0]] + ws[1..] == ws;
    }
  }

  /** Splitting on one character leaves that character in no piece. */
  lemma {:induction false} SplitCharPieces(s: string, c: char)
    ensures forall p :: p in Split(s, [c]) ==> c !in p
    decreases |s|
  {
    if |s| > 0 {
      SplitCharPieces(s[|[c]|..], c);
      SplitCharPieces(s[1..], c);
    }
  }

  function TrimLeft(s: string): (r: string)
    ensures |r| <= |s| && r == s[|s| - |r|..]
    ensures |r| > 0 ==> !IsSpace(r[0])
    ensures forall k :: 0 <= k < |s| - |r| ==> IsSpace(s[k])
    decreases |s|
  {
    if |s| > 0 && IsSpace(s[0]) then TrimLeft(s[1..]) else s
  }

  function TrimRight(s: string): (r: string)
    ensures |r| <= |s| && r == s[..|r|]
    ensures |r| > 0 ==> !IsSpace(r[|r| - 1])
    ensures forall k :: |r| <= k < |s| ==> IsSpace(s[k])
    decreases |s|
  {
    if |s| > 0 && IsSpace(s[|s| - 1]) then TrimRight(s[..|s| - 1]) else s
  }

  /** Python `s.strip()`: the slice of `s` left when the white space at
      either end is cut off; what remains neither starts nor ends with
      white space. */
  function Strip(s: string): (r: string)
    ensures |r| <= |s|
    ensures |r| > 0 ==> !IsSpace(r[0]) && !IsSpace(r[|r| - 1])
    ensures exists i, j ::
              0 <= i <= j <= |s| && r == s[i..j] &&
              forall k :: 0 <= k < |s| && (k < i || j <= k) ==> IsSpace(s[k])
  {
    var t := TrimLeft(s);
    var r := TrimRight(t);
    assert |r| > 0 ==> r[0] == t[0];
    TrimSlice(s);
    r
  }

  lemma SliceOfSlice<T>(s: seq<T>, i: nat, n: nat)
    requires i + n <= |s|
    ensures s[i..][..n] == s[i..i + n]
  {
  }

  /** Trimming both ends cuts off only white space. */
  lemma TrimSlice(s: string)
    ensures var r := TrimRight(TrimLeft(s));
      exists i, j ::
        0 <= i <= j <= |s| && r == s[i..j] &&
        forall k :: 0 <= k < |s| && (k < i || j <= k) ==> IsSpace(s[k])
  {
    var t := TrimLeft(s);
    var r := TrimRight(t);
    var i := |s| - |t|;
    var j := i + |r|;
    assert t == s[i..];
    assert r == t[..|r|];
    SliceOfSlice(s, i, |r|);
    forall k | 0 <= k < |s| && (k < i || j <= k)
      ensures IsSpace(s[k])
    {
      if j <= k {
        assert s[k] == t[k - i];
      }
    }
  }

  /** A string with no white space at either end is its own strip, also
      when `readlines()` has left its newline on it. */
  lemma StripKeeps(s: string)
    requires s == "" || (!IsSpace(s[0]) && !IsSpace(s[|s| - 1]))
    ensures Strip(s) == s
    ensures Strip(s + "\n") == s
  {
    var t := s + "\n";
    assert t[..|t| - 1] == s;
    if s == "" {
      assert TrimLeft(t) == TrimLeft(t[1..]);
      assert t[1..] == "";
    }
  }

  /** Python `re.sub('[0-9]+', '', s)`: every ASCII digit removed. */
  function RemoveDigits(s: string): (r: string)
    ensures forall c :: c in r ==> !IsDigit(c) && c in s
    ensures forall c :: c in s && !IsDigit(c) ==> c in r
  {
    if |s| == 0 then ""
    else
      var rest := RemoveDigits(s[1..]);
      assert forall c :: c in s[1..] ==> c in s;
      if IsDigit(s[0]) then rest else [s[0]] + rest
  }

  /** Digits are removed piece by piece: the kept characters stay in their
      order and number. */
  lemma {:induction false} RemoveDigitsAppend(a: string, b: string)
    ensures RemoveDigits(a + b) == RemoveDigits(a) + RemoveDigits(b)
    decreases |a|
  {
    if a == [] {
      assert a + b == b;
    } else {
      assert (a + b)[0] == a[0] && (a + b)[1..] == a[1..] + b;
      RemoveDigitsAppend(a[1..], b);
    }
  }

  /** A string without digits is kept whole. */
  lemma {:induction false} RemoveDigitsNone(s: string)
    requires forall k :: 0 <= k < |s| ==> !IsDigit(s[k])
    ensures RemoveDigits(s) == s
    decreases |s|
  {
    if s != [] {
      RemoveDigitsNone(s[1..]);
    }
  }

  /** Replacing a pattern whose first character does not occur in `w`, in
      `w + pat`, replaces exactly the final occurrence. */
  lemma {:induction false} ReplaceAllSuffix(w: string, pat: string, rep: string)
    requires |pat| > 0 && pat[0] !in w
    ensures ReplaceAll(w + pat, pat, rep) == w + rep
    decreases |w|
  {
    var s := w + pat;
    if |w| == 0 {
      assert s[..|pat|] == pat && s[|pat|..] == "";
    } else {
      assert w[0] in w;
      assert forall c :: c in w[1..] ==> c in w;
      assert s[..|pat|] != pat by {
        assert s[0] == w[0];
      }
      assert s[1..] == w[1..] + pat;
      ReplaceAllSuffix(w[1..], pat, rep);
      assert [w[0]] + (w[1..] + rep) == w + rep;
    }
  }

  // ---------------------------------------------------------------------
  // posixpath

  /** `os.path.join(a, b)`. */
  function PathJoin(a: Path, b: string): Path
  {
    if StartsWith(b, "/") then b
    else if a == "" || EndsWith(a, "/") then a + b
    else a + "/" + b
  }

  /** `os.path.basename(p)`: the part after the last slash. */
  function Basename(p: Path): (r: string)
    ensures '/' !in r
    ensures EndsWith(p, r)
  {
    var i := LastIndexOf(p, '/') + 1;
    assert forall c :: c in p[i..] ==> c != '/' by {
      forall c | c in p[i..] ensures c != '/' {
        var k :| 0 <= k < |p[i..]| && p[i..][k] == c;
        assert p[i + k] == c;
      }
    }
    p[i..]
  }

  /** Joining a directory with a plain file name and taking the base name gives the name back. */
  lemma BasenameOfJoin(dir: Path, name: string)
    requires name != "" && '/' !in name
    ensures Basename(PathJoin(dir, name)) == name
  {
    var p := PathJoin(dir, name);
    assert p[..|p| - |name|] + name == p;
    assert |p| > |name| ==> p[|p| - |name| - 1] == '/';
    assert forall k :: |p| - |name| <= k < |p| ==> p[k] == name[k - (|p| - |name|)];
    assert forall k :: |p| - |name| <= k < |p| ==> p[k] != '/';
    var i := LastIndexOf(p, '/');
    if |p| > |name| {
      assert i == |p| - |name| - 1;
    } else {
      assert i == -1;
    }
  }
}
