/** Sequential string primitives the formatter is built from: Python's
    `str.strip`, `str.splitlines`, `str.split(sep, 1)`, `str.replace`,
    `re.split` on a character class, and `str.join`. */
module Text {
  import opened Wrappers

  /** The characters Python's `str.isspace` accepts, which is exactly what
      `str.strip()` removes from both ends. */
  predicate IsSpace(c: char)
  {
    || ('\t' <= c <= '\r')             // U+0009 .. U+000D
    || ('\U{1C}' <= c <= ' ')          // U+001C .. U+0020
    || c == '\U{85}' || c == '\U{A0}' || c == '\U{1680}'
    || ('\U{2000}' <= c <= '\U{200A}')
    || c == '\U{2028}' || c == '\U{2029}' || c == '\U{202F}'
    || c == '\U{205F}' || c == '\U{3000}'
  }

  /** The line boundaries Python's `str.splitlines` breaks on. */
  predicate IsLineBreak(c: char)
  {
    || ('\n' <= c <= '\r')             // U+000A .. U+000D
    || ('\U{1C}' <= c <= '\U{1E}')
    || c == '\U{85}' || c == '\U{2028}' || c == '\U{2029}'
  }

  predicate AllSpace(s: string)
  {
    forall i :: 0 <= i < |s| ==> IsSpace(s[i])
  }

  /** Neither end of `s` is whitespace. */
  predicate IsTrimmed(s: string)
  {
    |s| == 0 || (!IsSpace(s[0]) && !IsSpace(s[|s| - 1]))
  }

  /** `r` is what remains of `s` after removing whitespace from both ends. */
  ghost predicate IsStripOf(r: string, s: string)
  {
    exists i :: 0 <= i <= |s| - |r| && r == s[i..i + |r|]
      && AllSpace(s[..i]) && AllSpace(s[i + |r|..]) && IsTrimmed(r)
  }

  function TrimStart(s: string): (r: string)
    ensures |r| <= |s|
  {
    if |s| > 0 && IsSpace(s[0]) then TrimStart(s[1..]) else s
  }

  function TrimEnd(s: string): (r: string)
    ensures |r| <= |s|
  {
    if |s| > 0 && IsSpace(s[|s| - 1]) then TrimEnd(s[..|s| - 1]) else s
  }

  /** `TrimStart` drops a whitespace prefix and stops at a non-space. */
  lemma {:induction false} TrimStartSpec(s: string)
    ensures TrimStart(s) == s[|s| - |TrimStart(s)|..]
    ensures AllSpace(s[..|s| - |TrimStart(s)|])
    ensures |TrimStart(s)| == 0 || !IsSpace(TrimStart(s)[0])
    decreases |s|
  {
    if |s| > 0 && IsSpace(s[0]) {
      TrimStartSpec(s[1..]);
      var n := |s| - |TrimStart(s)|;
      assert s[1..][..n - 1] == s[1..n];
      forall k | 0 <= k < n ensures IsSpace(s[..n][k]) {
        if k > 0 { assert s[..n][k] == s[1..][..n - 1][k - 1]; }
      }
    }
  }

  /** `TrimEnd` drops a whitespace suffix and stops at a non-space. */
  lemma {:induction false} TrimEndSpec(s: string)
    ensures TrimEnd(s) == s[..|TrimEnd(s)|]
    ensures AllSpace(s[|TrimEnd(s)|..])
    ensures |TrimEnd(s)| == 0 || !IsSpace(TrimEnd(s)[|TrimEnd(s)| - 1])
    decreases |s|
  {
    if |s| > 0 && IsSpace(s[|s| - 1]) {
      var s' := s[..|s| - 1];
      TrimEndSpec(s');
      var n := |TrimEnd(s)|;
      forall k | 0 <= k < |s| - n ensures IsSpace(s[n..][k]) {
        if n + k < |s| - 1 { assert s[n..][k] == s'[n..][k]; }
      }
    }
  }

  lemma StripWitness(r: string, s: string, i: nat)
    requires i <= |s| - |r| && r == s[i..i + |r|]
    requires AllSpace(s[..i]) && AllSpace(s[i + |r|..]) && IsTrimmed(r)
    ensures IsStripOf(r, s)
  {
  }

  /** Trimming the start and then the end leaves the whitespace-framed,
      trimmed infix. */
  lemma TrimBoth(s: string)
    ensures IsStripOf(TrimEnd(TrimStart(s)), s)
  {
    var t := TrimStart(s);
    var r := TrimEnd(t);
    var i := |s| - |t|;
    TrimStartSpec(s);
    TrimEndSpec(t);
    assert t == s[i..];
    assert r == s[i..][..|r|] == s[i..i + |r|];
    assert s[i + |r|..] == t[|r|..];
    assert IsTrimmed(r) by {
      if |r| > 0 {
        assert r[0] == t[0];
      }
    }
    StripWitness(r, s, i);
  }

  /** Python's `str.strip()` with no argument. */
  function Strip(s: string): (r: string)
    ensures |r| <= |s|
    ensures IsStripOf(r, s)
  {
    TrimBoth(s);
    TrimEnd(TrimStart(s))
  }

  /** Reads the whitespace frame of a stripped string off `s` itself. */
  lemma StripOfFrame(r: string, s: string, i: nat)
    requires i <= |s| - |r| && r == s[i..i + |r|]
    requires AllSpace(s[..i]) && AllSpace(s[i + |r|..]) && IsTrimmed(r)
    ensures forall k :: 0 <= k < i ==> IsSpace(s[k])
    ensures forall k :: i + |r| <= k < |s| ==> IsSpace(s[k])
    ensures |r| > 0 ==> !IsSpace(s[i]) && !IsSpace(s[i + |r| - 1])
  {
    forall k | 0 <= k < i ensures IsSpace(s[k]) {
      assert s[..i][k] == s[k];
    }
    forall k | i + |r| <= k < |s| ensures IsSpace(s[k]) {
      assert s[i + |r|..][k - i - |r|] == s[k];
    }
    if |r| > 0 {
      assert s[i] == r[0] && s[i + |r| - 1] == r[|r| - 1];
    }
  }

  /** The result of stripping is unique: any whitespace-framed trimmed infix
      of `s` is `Strip(s)`. */
  lemma StripOfUnique(r1: string, r2: string, s: string)
    requires IsStripOf(r1, s) && IsStripOf(r2, s)
    ensures r1 == r2
  {
    var i1 :| 0 <= i1 <= |s| - |r1| && r1 == s[i1..i1 + |r1|]
      && AllSpace(s[..i1]) && AllSpace(s[i1 + |r1|..]) && IsTrimmed(r1);
    var i2 :| 0 <= i2 <= |s| - |r2| && r2 == s[i2..i2 + |r2|]
      && AllSpace(s[..i2]) && AllSpace(s[i2 + |r2|..]) && IsTrimmed(r2);
    StripOfFrame(r1, s, i1);
    StripOfFrame(r2, s, i2);
    if |r1| > 0 && |r2| > 0 {
      assert i1 == i2;
      assert |r1| == |r2|;
    }
  }

  /** Stripping leaves nothing exactly when the string is all whitespace. */
  lemma StripEmpty(s: string)
    ensures Strip(s) == "" <==> AllSpace(s)
  {
    var r := Strip(s);
    var i :| 0 <= i <= |s| - |r| && r == s[i..i + |r|]
      && AllSpace(s[..i]) && AllSpace(s[i + |r|..]) && IsTrimmed(r);
    StripOfFrame(r, s, i);
  }

  /** Stripping keeps only characters of the input. */
  lemma StripChars(s: string)
    ensures forall c | c in Strip(s) :: c in s
  {
    var r := Strip(s);
    var i :| 0 <= i <= |s| - |r| && r == s[i..i + |r|]
      && AllSpace(s[..i]) && AllSpace(s[i + |r|..]) && IsTrimmed(r);
    forall c | c in r ensures c in s {
      var k :| 0 <= k < |r| && r[k] == c;
      assert s[i + k] == c;
    }
  }

  /** Stripping an already trimmed string changes nothing. */
  lemma StripTrimmed(s: string)
    requires IsTrimmed(s)
    ensures Strip(s) == s
  {
    assert s[..0] == [] && s[|s|..] == [] && s == s[0..0 + |s|];
    assert IsStripOf(s, s);
    StripOfUnique(Strip(s), s, s);
  }

  lemma AllSpaceConcat(a: string, b: string)
    requires AllSpace(a) && AllSpace(b)
    ensures AllSpace(a + b)
  {
    forall k | 0 <= k < |a + b| ensures IsSpace((a + b)[k]) {
      if k < |a| { assert (a + b)[k] == a[k]; } else { assert (a + b)[k] == b[k - |a|]; }
    }
  }

  lemma {:induction false} TrimStartSpace(p: string, x: string)
    requires AllSpace(p)
    ensures TrimStart(p + x) == TrimStart(x)
    decreases |p|
  {
    if |p| > 0 {
      assert (p + x)[0] == p[0] && IsSpace(p[0]);
      assert (p + x)[1..] == p[1..] + x;
      assert AllSpace(p[1..]) by {
        forall k | 0 <= k < |p[1..]| ensures IsSpace(p[1..][k]) { assert p[1..][k] == p[k + 1]; }
      }
      TrimStartSpace(p[1..], x);
      assert TrimStart(p + x) == TrimStart((p + x)[1..]);
    } else {
      assert p + x == x;
    }
  }

  lemma {:induction false} TrimEndSpace(x: string, q: string)
    requires AllSpace(q)
    ensures TrimEnd(x + q) == TrimEnd(x)
    decreases |q|
  {
    if |q| > 0 {
      var q' := q[..|q| - 1];
      assert (x + q)[..|x + q| - 1] == x + q';
      assert AllSpace(q') by {
        forall k | 0 <= k < |q'| ensures IsSpace(q'[k]) { assert q'[k] == q[k]; }
      }
      TrimEndSpace(x, q');
    } else {
      assert x + q == x;
    }
  }

  lemma {:induction false} TrimStartAppend(x: string, q: string)
    requires TrimStart(x) != []
    ensures TrimStart(x + q) == TrimStart(x) + q
    decreases |x|
  {
    if IsSpace(x[0]) {
      assert (x + q)[1..] == x[1..] + q;
      TrimStartAppend(x[1..], q);
    }
  }

  /** Whitespace added around a string does not survive `Strip`. */
  lemma StripPadding(p: string, s: string, q: string)
    requires AllSpace(p) && AllSpace(q)
    ensures Strip(p + s + q) == Strip(s)
  {
    assert p + s + q == p + (s + q);
    TrimStartSpace(p, s + q);
    if TrimStart(s) == [] {
      TrimStartSpec(s);
      assert s[..|s|] == s;
      AllSpaceConcat(s, q);
      TrimStartSpace(s + q, []);
      assert s + q + [] == s + q;
    } else {
      TrimStartAppend(s, q);
      TrimEndSpace(TrimStart(s), q);
    }
  }

  /** The pattern `pat` occurs in `s` starting at index `i`. */
  predicate OccursAt(s: string, pat: string, i: nat)
  {
    i + |pat| <= |s| && s[i..i + |pat|] == pat
  }

  predicate Contains(s: string, pat: string)
  {
    exists i: nat | i <= |s| :: OccursAt(s, pat, i)
  }

  /** Leftmost occurrence of `pat` in `s` at or after `from`. */
  function FindFrom(s: string, pat: string, from: nat): (r: Option<nat>)
    requires from <= |s|
    ensures r.Some? ==> from <= r.value && OccursAt(s, pat, r.value)
    ensures r.Some? ==> forall j: nat :: from <= j < r.value ==> !OccursAt(s, pat, j)
    ensures r.None? ==> forall j: nat :: from <= j ==> !OccursAt(s, pat, j)
    decreases |s| - from
  {
    if from + |pat| > |s| then None
    else if s[from..from + |pat|] == pat then Some(from)
    else if from == |s| then None
    else FindFrom(s, pat, from + 1)
  }

  /** Leftmost occurrence of `pat` in `s`, as `str.find` reports it. */
  function FindFirst(s: string, pat: string): (r: Option<nat>)
    ensures r.None? <==> !Contains(s, pat)
    ensures r.Some? ==> OccursAt(s, pat, r.value)
    ensures r.Some? ==> forall j: nat :: j < r.value ==> !OccursAt(s, pat, j)
  {
    FindFrom(s, pat, 0)
  }

  /** Replaces every character that satisfies `isSep` by `c`. */
  function Unify(s: string, isSep: char -> bool, c: char): (r: string)
    ensures |r| == |s|
    ensures forall i :: 0 <= i < |s| ==> r[i] == (if isSep(s[i]) then c else s[i])
  {
    if |s| == 0 then [] else [if isSep(s[0]) then c else s[0]] + Unify(s[1..], isSep, c)
  }

  /** Python's `str.replace(target, replacement)` for single characters. */
  function ReplaceChar(s: string, target: char, replacement: char): (r: string)
    ensures |r| == |s|
    ensures forall i :: 0 <= i < |s| ==> r[i] == (if s[i] == target then replacement else s[i])
  {
    Unify(s, c => c == target, replacement)
  }

  predicate HasCharIn(s: string, isSep: char -> bool)
  {
    exists i :: 0 <= i < |s| && isSep(s[i])
  }

  function CountIn(s: string, isSep: char -> bool): (n: nat)
    ensures n <= |s|
    ensures n == 0 <==> !HasCharIn(s, isSep)
  {
    if |s| == 0 then 0
    else
      assert forall i :: 1 <= i < |s| ==> s[1..][i - 1] == s[i];
      (if isSep(s[0]) then 1 else 0) + CountIn(s[1..], isSep)
  }

  /** Splits `s` at every character satisfying `isSep`, keeping empty pieces:
      `re.split('[&,]', s)` and, for one character class, `str.splitlines`. */
  function Split(s: string, isSep: char -> bool): (pieces: seq<string>)
    ensures |pieces| > 0
    ensures !HasCharIn(s, isSep) ==> pieces == [s]
  {
    if |s| == 0 then [""]
    else
      var rest := Split(s[1..], isSep);
      assert HasCharIn(s[1..], isSep) ==> HasCharIn(s, isSep) by {
        if HasCharIn(s[1..], isSep) {
          var i :| 0 <= i < |s[1..]| && isSep(s[1..][i]);
          assert isSep(s[i + 1]);
        }
      }
      assert s == [s[0]] + s[1..];
      if isSep(s[0]) then [""] + rest else [[s[0]] + rest[0]] + rest[1..]
  }

  /** There is one piece more than there are separators, no piece holds a
      separator, and the pieces together are no longer than `s`. */
  lemma {:induction false} SplitPieces(s: string, isSep: char -> bool)
    ensures |Split(s, isSep)| == CountIn(s, isSep) + 1
    ensures forall p | p in Split(s, isSep) :: !HasCharIn(p, isSep)
    ensures forall p | p in Split(s, isSep) :: |p| + |Split(s, isSep)| - 1 <= |s|
    ensures forall p, i | p in Split(s, isSep) && 0 <= i < |p| :: p[i] in s
    decreases |s|
  {
    if |s| > 0 {
      var rest := Split(s[1..], isSep);
      SplitPieces(s[1..], isSep);
      if !isSep(s[0]) {
        var first := [s[0]] + rest[0];
        assert rest[0] in rest;
        assert !HasCharIn(first, isSep) by {
          forall i | 0 <= i < |first| ensures !isSep(first[i]) {
            if i > 0 { assert first[i] == rest[0][i - 1]; }
          }
        }
        forall p | p in rest[1..] ensures p in rest { }
        forall i | 0 <= i < |first| ensures first[i] in s {
          if i > 0 { assert first[i] == rest[0][i - 1]; assert first[i] in s[1..]; }
        }
      }
      forall p, i | p in Split(s, isSep) && 0 <= i < |p| ensures p[i] in s {
        if p != [s[0]] + rest[0] { assert p in rest; assert p[i] in s[1..]; }
      }
    }
  }

  /** Python's `sep.join(xs)`: the first piece leads and the last piece
      ends the result. */
  function Join(xs: seq<string>, sep: string): (r: string)
    ensures |xs| == 0 ==> r == ""
    ensures |xs| > 0 ==> |xs[0]| <= |r| && r[..|xs[0]|] == xs[0]
  {
    if |xs| == 0 then ""
    else if |xs| == 1 then xs[0]
    else xs[0] + sep + Join(xs[1..], sep)
  }

  lemma JoinCons(x: string, xs: seq<string>, sep: string)
    requires |xs| > 0
    ensures Join([x] + xs, sep) == x + sep + Join(xs, sep)
  {
    assert ([x] + xs)[1..] == xs;
  }

  /** Joining the pieces with one separator character gives back the input
      with every separator character replaced by that one. */
  lemma {:induction false} JoinSplit(s: string, isSep: char -> bool, c: char)
    ensures Join(Split(s, isSep), [c]) == Unify(s, isSep, c)
    decreases |s|
  {
    if |s| > 0 {
      var rest := Split(s[1..], isSep);
      JoinSplit(s[1..], isSep, c);
      if isSep(s[0]) {
        JoinCons("", rest, [c]);
      } else {
        var first := [s[0]] + rest[0];
        if |rest| == 1 {
          assert Split(s, isSep) == [first];
        } else {
          JoinCons(first, rest[1..], [c]);
          JoinCons(rest[0], rest[1..], [c]);
          assert rest == [rest[0]] + rest[1..];
        }
      }
    }
  }

  /** Moving the first character of the first piece out of a join. */
  lemma JoinFirstChar(x: string, rest: seq<string>, sep: string)
    requires |x| > 0
    ensures Join([x] + rest, sep) == [x[0]] + Join([x[1..]] + rest, sep)
  {
    assert x == [x[0]] + x[1..];
    if |rest| > 0 {
      JoinCons(x, rest, sep);
      JoinCons(x[1..], rest, sep);
    }
  }

  /** Splitting a text that starts with a character that is not a separator. */
  lemma SplitFirstChar(s: string, isSep: char -> bool)
    requires |s| > 0 && !isSep(s[0])
    ensures Split(s, isSep) == [[s[0]] + Split(s[1..], isSep)[0]] + Split(s[1..], isSep)[1..]
  {
  }

  /** Splitting a join of separator-free pieces gives the pieces back. */
  lemma {:induction false} SplitJoin(xs: seq<string>, isSep: char -> bool, c: char)
    requires |xs| > 0 && isSep(c)
    requires forall i :: 0 <= i < |xs| ==> !HasCharIn(xs[i], isSep)
    ensures Split(Join(xs, [c]), isSep) == xs
    decreases |xs|, |xs[0]|
  {
    var x := xs[0];
    if |x| > 0 {
      assert !isSep(x[0]);
      var xs' := [x[1..]] + xs[1..];
      assert !HasCharIn(x[1..], isSep) by {
        forall i | 0 <= i < |x[1..]| ensures !isSep(x[1..][i]) { assert x[1..][i] == x[i + 1]; }
      }
      SplitJoin(xs', isSep, c);
      var j := Join(xs, [c]);
      assert xs == [x] + xs[1..];
      JoinFirstChar(x, xs[1..], [c]);
      assert j[1..] == Join(xs', [c]);
      SplitFirstChar(j, isSep);
      assert [x[0]] + x[1..] == x;
      assert xs == [x] + xs[1..];
    } else if |xs| > 1 {
      SplitJoin(xs[1..], isSep, c);
      JoinCons(x, xs[1..], [c]);
      assert xs == [x] + xs[1..];
      var j := Join(xs, [c]);
      assert j == [c] + Join(xs[1..], [c]);
      assert j[1..] == Join(xs[1..], [c]);
    }
  }
}
