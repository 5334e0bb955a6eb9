/** `SongFormatter.get_artist_name` (song_formatter.py): the normaliser of
    artist names, over any name mapping. The mapping the program ships with is
    in module ArtistTable. */
module ArtistNames {
  import opened Wrappers
  import opened Text
  import opened Script

  /** `lazy_pinyin(s, style=Style.NORMAL)`: the romanised syllables of `s`.
      It comes from a foreign library, so the model takes it as a parameter. */
  type Pinyin = string -> seq<string>

  /** What a `SongFormatter` instance works with: its `artist_mapping` and the
      romanisation library. */
  datatype Formatter = Formatter(mapping: map<string, string>, pinyin: Pinyin)

  /** The characters `re.split('[&,]', ...)` splits co-credited artists on. */
  predicate IsArtistSeparator(c: char)
  {
    c == '&' || c == ','
  }

  /** A single artist: none of `&`, `,` or `/` occurs. */
  predicate IsSingleArtist(s: string)
  {
    forall i :: 0 <= i < |s| ==> !IsArtistSeparator(s[i]) && s[i] != '/'
  }

  function UpperAscii(c: char): char
  {
    if 'a' <= c <= 'z' then (c as int - 32) as char else c
  }

  function LowerAscii(c: char): char
  {
    if 'A' <= c <= 'Z' then (c as int + 32) as char else c
  }

  /** Every character through `LowerAscii`. */
  function LowerAll(s: string): (r: string)
    ensures |r| == |s|
    ensures forall i :: 0 <= i < |s| ==> r[i] == LowerAscii(s[i])
  {
    if |s| == 0 then "" else [LowerAscii(s[0])] + LowerAll(s[1..])
  }

  /** `str.capitalize`: first letter upper case, the rest lower case. */
  function Capitalize(w: string): (r: string)
    ensures |r| == |w|
    ensures |w| > 0 ==> r[0] == UpperAscii(w[0])
    ensures forall i :: 0 < i < |w| ==> r[i] == LowerAscii(w[i])
  {
    if |w| == 0 then "" else [UpperAscii(w[0])] + LowerAll(w[1..])
  }

  function CapitalizeAll(ws: seq<string>): (r: seq<string>)
    ensures |r| == |ws|
    ensures forall i :: 0 <= i < |ws| ==> r[i] == Capitalize(ws[i])
  {
    if |ws| == 0 then [] else [Capitalize(ws[0])] + CapitalizeAll(ws[1..])
  }

  /** Capitalising twice is capitalising once. */
  lemma CapitalizeIdempotent(w: string)
    ensures Capitalize(Capitalize(w)) == Capitalize(w)
  {
  }

  /** Capitalising neither adds nor removes a space. */
  lemma CapitalizeKeepsSpaces(w: string)
    ensures HasCharIn(Capitalize(w), IsWordSpace) <==> HasCharIn(w, IsWordSpace)
  {
    var r := Capitalize(w);
    if HasCharIn(w, IsWordSpace) {
      var i :| 0 <= i < |w| && IsWordSpace(w[i]);
      assert IsWordSpace(r[i]);
    }
    if HasCharIn(r, IsWordSpace) {
      var i :| 0 <= i < |r| && IsWordSpace(r[i]);
      assert IsWordSpace(w[i]);
    }
  }

  /** The separator of the words of a pinyin name. */
  predicate IsWordSpace(c: char)
  {
    c == ' '
  }

  /** Space-joined capitalised syllables split back at the spaces, when no
      syllable holds one. */
  lemma CapitalizedSplit(ws: seq<string>)
    ensures |ws| > 0 && (forall w | w in ws :: !HasCharIn(w, IsWordSpace)) ==>
      Split(Join(CapitalizeAll(ws), " "), IsWordSpace) == CapitalizeAll(ws)
  {
    var words := CapitalizeAll(ws);
    if |words| > 0 && (forall w | w in ws :: !HasCharIn(w, IsWordSpace)) {
      forall i | 0 <= i < |words| ensures !HasCharIn(words[i], IsWordSpace) {
        assert ws[i] in ws;
        CapitalizeKeepsSpaces(ws[i]);
      }
      SplitJoin(words, IsWordSpace, ' ');
    }
  }

  /** The space-joined, capitalised pinyin of a name: no syllables give the
      empty name, and when no syllable holds a space, splitting the name at
      its spaces gives back the capitalised syllables. */
  function PinyinName(f: Formatter, a: string): (r: string)
    ensures f.pinyin(a) == [] ==> r == ""
    ensures |f.pinyin(a)| > 0 && (forall w | w in f.pinyin(a) :: !HasCharIn(w, IsWordSpace)) ==>
      Split(r, IsWordSpace) == CapitalizeAll(f.pinyin(a))
  {
    CapitalizedSplit(f.pinyin(a));
    Join(CapitalizeAll(f.pinyin(a)), " ")
  }

  /** The name-level rules, applied to one trimmed, separator-free artist:
      mapping first, then the ASCII test, then the CJK test, else unchanged. */
  function NormalizeToken(f: Formatter, a: string): (r: Result<string, Error>)
    ensures r.Failure? <==> a == "" && a !in f.mapping
    ensures a in f.mapping ==> r == Success(f.mapping[a])
    ensures a !in f.mapping && r.Success? ==> |a| <= |r.value| && r.value[..|a|] == a
  {
    if a in f.mapping then Success(f.mapping[a])
    else
      match IsEnglish(a)
      case Failure(e) => Failure(e)
      case Success(english) =>
        if english then Success(a)
        else if IsChinese(a) then Success(a + " (" + PinyinName(f, a) + ")")
        else Success(a)
  }

  /** The artist string after its first step: stripped, with every `/`
      rewritten to `&`. */
  function Unslashed(artist: string): string
  {
    ReplaceChar(Strip(artist), '/', '&')
  }

  /** `get_artist_name`: strip, turn `/` into `&`, and either split the
      co-credited artists and join their names with " & ", or apply the
      name-level rules. */
  function Normalize(f: Formatter, artist: string): (r: Result<string, Error>)
    ensures r.Failure? ==> Unslashed(artist) == "" || HasCharIn(Unslashed(artist), IsArtistSeparator)
    ensures Unslashed(artist) == "" && "" !in f.mapping ==> r == Failure(ZeroDivision)
    decreases |artist|, 1, 0
  {
    var a := Unslashed(artist);
    if HasCharIn(a, IsArtistSeparator) then
      SplitPieces(a, IsArtistSeparator);
      match NormalizeEach(f, Split(a, IsArtistSeparator), |a|)
      case Failure(e) => Failure(e)
      case Success(names) => Success(Join(names, " & "))
    else NormalizeToken(f, a)
  }

  /** The generator of the multi-artist branch: each piece is stripped and
      normalised in order, and the first exception ends the join. */
  function NormalizeEach(f: Formatter, pieces: seq<string>, ghost bound: nat)
    : (r: Result<seq<string>, Error>)
    requires forall p | p in pieces :: |p| < bound
    ensures r.Success? ==> |r.value| == |pieces|
    decreases bound, 0, |pieces|
  {
    if |pieces| == 0 then Success([])
    else
      match Normalize(f, Strip(pieces[0]))
      case Failure(e) => Failure(e)
      case Success(n) =>
        match NormalizeEach(f, pieces[1..], bound)
        case Failure(e) => Failure(e)
        case Success(ns) => Success([n] + ns)
  }

  /** A name the normaliser leaves alone under `mapping`: non-empty ASCII,
      trimmed, a single artist and not itself a key. */
  predicate IsCanonical(mapping: map<string, string>, v: string)
  {
    && |v| > 0 && AllAscii(v) && IsTrimmed(v) && IsSingleArtist(v) && v !in mapping
  }

  /** What the shipped mapping satisfies: the empty name is not a key and
      every mapped name is canonical. */
  predicate WellFormedMapping(mapping: map<string, string>)
  {
    && "" !in mapping
    && forall k | k in mapping :: IsCanonical(mapping, mapping[k])
  }

  lemma StripSingle(t: string)
    requires IsSingleArtist(t)
    ensures IsSingleArtist(Strip(t))
  {
    var r := Strip(t);
    StripChars(t);
    forall k | 0 <= k < |r| ensures !IsArtistSeparator(r[k]) && r[k] != '/' {
      assert r[k] in r;
    }
  }

  /** A single artist goes straight to the name-level rules: the recursion of
      `get_artist_name` is never entered for it. */
  lemma SingleArtistIsToken(f: Formatter, t: string)
    requires IsSingleArtist(t)
    ensures IsTrimmed(Unslashed(t)) && Unslashed(t) == Strip(t)
    ensures Normalize(f, t) == NormalizeToken(f, Strip(t))
  {
    StripSingle(t);
    var a := Strip(t);
    assert ReplaceChar(a, '/', '&') == a;
    assert !HasCharIn(a, IsArtistSeparator);
  }

  /** With the empty name unmapped, the name-level rules fail exactly on the
      empty name, where `is_english` divides by zero. */
  lemma TokenFailsOnlyWhenEmpty(f: Formatter, a: string)
    requires "" !in f.mapping
    ensures NormalizeToken(f, a).Failure? <==> a == ""
    ensures a == "" ==> NormalizeToken(f, a) == Failure(ZeroDivision)
  {
  }

  /** A canonical name is returned unchanged. */
  lemma CanonicalIsFixed(f: Formatter, v: string)
    requires IsCanonical(f.mapping, v)
    ensures Normalize(f, v) == Success(v)
  {
    SingleArtistIsToken(f, v);
    StripTrimmed(v);
  }

  /** A single artist whose stripped name is a key is replaced by the mapped
      English name, and normalising that name again leaves it unchanged. */
  lemma NormalizeMapped(f: Formatter, t: string)
    requires WellFormedMapping(f.mapping)
    requires IsSingleArtist(t) && Strip(t) in f.mapping
    ensures Normalize(f, t) == Success(f.mapping[Strip(t)])
    ensures Normalize(f, f.mapping[Strip(t)]) == Success(f.mapping[Strip(t)])
  {
    SingleArtistIsToken(f, t);
    CanonicalIsFixed(f, f.mapping[Strip(t)]);
  }

  /** An unmapped single artist that is more than 90% ASCII is returned
      stripped but otherwise unchanged, even when it holds CJK ideographs. */
  lemma NormalizeKeepsEnglish(f: Formatter, t: string)
    requires IsSingleArtist(t) && Strip(t) !in f.mapping
    requires IsEnglish(Strip(t)) == Success(true)
    ensures Normalize(f, t) == Success(Strip(t))
  {
    SingleArtistIsToken(f, t);
  }

  /** The English test comes before the Chinese one: an unmapped name that
      is more than 90% ASCII is kept as it is, not romanised, even when it
      holds a CJK ideograph. */
  lemma MostlyAsciiNotRomanized(f: Formatter, t: string)
    requires IsSingleArtist(t) && Strip(t) !in f.mapping
    requires IsChinese(Strip(t)) && IsEnglish(Strip(t)) == Success(true)
    ensures Normalize(f, t) == Success(Strip(t))
  {
    NormalizeKeepsEnglish(f, t);
  }

  /** Such names exist: ten or more ASCII characters, the first not a space,
      followed by one CJK ideograph make a trimmed single artist that is
      both Chinese and English. */
  lemma MostlyAsciiChineseName(a: string, c: char)
    requires |a| >= 10 && AllAscii(a) && IsSingleArtist(a) && !IsSpace(a[0]) && IsCjk(c)
    ensures IsSingleArtist(a + [c]) && Strip(a + [c]) == a + [c]
    ensures IsChinese(a + [c]) && IsEnglish(a + [c]) == Success(true)
  {
    var t := a + [c];
    assert t[|a|] == c;
    AsciiCountConcat(a, [c]);
    assert !IsAscii([c][0]);
    assert IsSingleArtist(t) by {
      forall i | 0 <= i < |t| ensures !IsArtistSeparator(t[i]) && t[i] != '/' {
        if i < |a| { assert t[i] == a[i]; }
      }
    }
    assert t[0] == a[0];
    StripTrimmed(t);
  }

  /** An unmapped single artist that is not English but holds a CJK
      ideograph keeps its original text and gains its pinyin in parentheses. */
  lemma NormalizeRomanizes(f: Formatter, t: string)
    requires IsSingleArtist(t) && Strip(t) !in f.mapping
    requires IsEnglish(Strip(t)) == Success(false) && IsChinese(Strip(t))
    ensures Normalize(f, t).Success?
    ensures var a, r := Strip(t), Normalize(f, t).value;
      && |r| == |a| + |PinyinName(f, a)| + 3
      && r[..|a|] == a
      && r[|a|..|a| + 2] == " ("
      && r[|a| + 2..|r| - 1] == PinyinName(f, a)
      && r[|r| - 1] == ')'
  {
    SingleArtistIsToken(f, t);
  }

  /** An unmapped single artist that is neither English nor Chinese (another
      script, punctuation) is returned stripped but otherwise unchanged. */
  lemma NormalizeKeepsOtherScripts(f: Formatter, t: string)
    requires IsSingleArtist(t) && Strip(t) !in f.mapping
    requires IsEnglish(Strip(t)) == Success(false) && !IsChinese(Strip(t))
    ensures Normalize(f, t) == Success(Strip(t))
  {
    SingleArtistIsToken(f, t);
  }

  /** A single artist fails exactly when it is blank: `is_english("")`
      divides by zero. */
  lemma NormalizeSingleFails(f: Formatter, t: string)
    requires "" !in f.mapping && IsSingleArtist(t)
    ensures Normalize(f, t).Failure? <==> Strip(t) == ""
    ensures Strip(t) == "" ==> Normalize(f, t) == Failure(ZeroDivision)
  {
    SingleArtistIsToken(f, t);
    TokenFailsOnlyWhenEmpty(f, Strip(t));
  }

  /** The pieces of a co-credit are single artists. */
  lemma PiecesAreSingle(artist: string)
    ensures forall p | p in Split(Unslashed(artist), IsArtistSeparator) :: IsSingleArtist(p)
  {
    var a := Unslashed(artist);
    SplitPieces(a, IsArtistSeparator);
    forall p | p in Split(a, IsArtistSeparator) ensures IsSingleArtist(p) {
      forall i | 0 <= i < |p| ensures !IsArtistSeparator(p[i]) && p[i] != '/' {
        assert p[i] in a;
      }
    }
  }

  /** Over single artists, the generator fails exactly when some piece is
      blank. */
  lemma {:induction false} NormalizeEachFails(f: Formatter, pieces: seq<string>, bound: nat)
    requires "" !in f.mapping
    requires forall p | p in pieces :: |p| < bound && IsSingleArtist(p)
    ensures NormalizeEach(f, pieces, bound).Failure?
      <==> exists i :: 0 <= i < |pieces| && Strip(pieces[i]) == ""
    decreases |pieces|
  {
    if |pieces| > 0 {
      var p, rest := pieces[0], pieces[1..];
      assert p in pieces;
      assert forall q | q in rest :: q in pieces;
      var sp := Strip(p);
      StripSingle(p);
      StripTrimmed(sp);
      NormalizeSingleFails(f, sp);
      NormalizeEachFails(f, rest, bound);
      var r := NormalizeEach(f, pieces, bound);
      if sp == "" {
        assert r.Failure?;
      } else if exists j :: 0 <= j < |rest| && Strip(rest[j]) == "" {
        var j :| 0 <= j < |rest| && Strip(rest[j]) == "";
        assert r.Failure? && Strip(pieces[j + 1]) == "";
      } else {
        forall i | 0 <= i < |pieces| ensures Strip(pieces[i]) != "" {
          if i > 0 { assert pieces[i] == rest[i - 1]; }
        }
      }
    }
  }

  /** The rest of a list of single artists, each shorter than `bound`, is
      one too. */
  lemma RestSingle(pieces: seq<string>, bound: nat)
    requires |pieces| > 0
    requires forall p | p in pieces :: |p| < bound && IsSingleArtist(p)
    ensures |pieces[0]| < bound && IsSingleArtist(pieces[0])
    ensures forall p | p in pieces[1..] :: |p| < bound && IsSingleArtist(p)
  {
    assert pieces[0] in pieces;
    assert forall q | q in pieces[1..] :: q in pieces;
  }

  /** A list of results agrees pointwise with `g` over `xs` once its head
      agrees with `g` on the head of `xs` and its rest on the rest. */
  lemma ConsPointwise(g: string -> Result<string, Error>, xs: seq<string>, n: string, ns: seq<string>)
    requires |xs| > 0 && |ns| == |xs| - 1 && Success(n) == g(xs[0])
    requires forall j :: 0 <= j < |ns| ==> Success(ns[j]) == g(xs[1..][j])
    ensures forall i :: 0 <= i < |xs| ==> Success(([n] + ns)[i]) == g(xs[i])
  {
    forall i | 0 <= i < |xs| ensures Success(([n] + ns)[i]) == g(xs[i]) {
      if i > 0 {
        assert xs[i] == xs[1..][i - 1] && ([n] + ns)[i] == ns[i - 1];
      }
    }
  }

  /** The name-level rules applied to a stripped piece. */
  function PieceName(f: Formatter, p: string): Result<string, Error>
  {
    NormalizeToken(f, Strip(p))
  }

  /** The names of a list of pieces from the name of its head and the names
      of its rest. */
  lemma NamesCons(f: Formatter, pieces: seq<string>, n: string, ns: seq<string>)
    requires |pieces| > 0 && |ns| == |pieces| - 1
    requires Success(n) == NormalizeToken(f, Strip(pieces[0]))
    requires forall j :: 0 <= j < |ns| ==> Success(ns[j]) == NormalizeToken(f, Strip(pieces[1..][j]))
    ensures forall i :: 0 <= i < |pieces| ==> Success(([n] + ns)[i]) == NormalizeToken(f, Strip(pieces[i]))
  {
    var g := p => PieceName(f, p);
    ConsPointwise(g, pieces, n, ns);
  }

  /** Over single artists, a successful generator yields one name per piece,
      each the name-level rules applied to the stripped piece. */
  lemma {:induction false} NormalizeEachNames(f: Formatter, pieces: seq<string>, bound: nat)
    requires forall p | p in pieces :: |p| < bound && IsSingleArtist(p)
    ensures NormalizeEach(f, pieces, bound).Success? ==>
      var names := NormalizeEach(f, pieces, bound).value;
      && |names| == |pieces|
      && forall i :: 0 <= i < |pieces| ==> Success(names[i]) == NormalizeToken(f, Strip(pieces[i]))
    decreases |pieces|
  {
    var r := NormalizeEach(f, pieces, bound);
    if |pieces| > 0 && r.Success? {
      RestSingle(pieces, bound);
      var sp := Strip(pieces[0]);
      StripSingle(pieces[0]);
      StripTrimmed(sp);
      SingleArtistIsToken(f, sp);
      NormalizeEachNames(f, pieces[1..], bound);
      var n := Normalize(f, sp).value;
      var ns := NormalizeEach(f, pieces[1..], bound).value;
      assert r.value == [n] + ns;
      NamesCons(f, pieces, n, ns);
    }
  }

  /** A co-credit (an `&` or `,` after the `/` rewrite) is split into pieces,
      each piece is normalised by the name-level rules alone (the recursion is
      one level deep) and the names are joined with " & "; the whole name
      fails exactly when some piece is blank. */
  lemma NormalizeMultiArtist(f: Formatter, artist: string)
    requires "" !in f.mapping
    requires HasCharIn(Unslashed(artist), IsArtistSeparator)
    ensures var pieces := Split(Unslashed(artist), IsArtistSeparator);
      && |pieces| == CountIn(Unslashed(artist), IsArtistSeparator) + 1
      && (Normalize(f, artist).Failure? <==> exists i :: 0 <= i < |pieces| && Strip(pieces[i]) == "")
      && (Normalize(f, artist).Success? ==>
            exists names: seq<string> ::
              && |names| == |pieces|
              && (forall i :: 0 <= i < |pieces| ==> Success(names[i]) == NormalizeToken(f, Strip(pieces[i])))
              && Normalize(f, artist) == Success(Join(names, " & ")))
  {
    var a := Unslashed(artist);
    SplitPieces(a, IsArtistSeparator);
    PiecesAreSingle(artist);
    NormalizeEachFails(f, Split(a, IsArtistSeparator), |a|);
    NormalizeEachNames(f, Split(a, IsArtistSeparator), |a|);
  }

  /** "x&y" for two trimmed single artists is trimmed and has no `/`. */
  lemma TwoArtistsForm(x: string, y: string)
    requires x != "" && IsTrimmed(x) && IsSingleArtist(x)
    requires y != "" && IsTrimmed(y) && IsSingleArtist(y)
    ensures IsTrimmed(x + "&" + y)
    ensures forall i :: 0 <= i < |x + "&" + y| ==> (x + "&" + y)[i] != '/'
  {
    var s := x + "&" + y;
    assert s[0] == x[0] && s[|s| - 1] == y[|y| - 1];
    forall i | 0 <= i < |s| ensures s[i] != '/' {
      if i < |x| { assert s[i] == x[i]; } else if i > |x| { assert s[i] == y[i - |x| - 1]; }
    }
  }

  /** "x&y" for two single artists splits back into x and y. */
  lemma TwoPiecesSplit(x: string, y: string)
    requires IsSingleArtist(x) && IsSingleArtist(y)
    ensures Split(x + "&" + y, IsArtistSeparator) == [x, y]
  {
    JoinCons(x, [y], "&");
    assert !HasCharIn(x, IsArtistSeparator) && !HasCharIn(y, IsArtistSeparator);
    assert forall i :: 0 <= i < |[x, y]| ==> !HasCharIn([x, y][i], IsArtistSeparator);
    SplitJoin([x, y], IsArtistSeparator, '&');
  }

  /** "x&y" for two single artists is its own first-step form and splits
      back into x and y. */
  lemma TwoArtistsSplit(x: string, y: string)
    requires x != "" && IsTrimmed(x) && IsSingleArtist(x)
    requires y != "" && IsTrimmed(y) && IsSingleArtist(y)
    ensures Unslashed(x + "&" + y) == x + "&" + y
    ensures HasCharIn(x + "&" + y, IsArtistSeparator)
    ensures Split(x + "&" + y, IsArtistSeparator) == [x, y]
  {
    var s := x + "&" + y;
    TwoArtistsForm(x, y);
    StripTrimmed(s);
    assert ReplaceChar(s, '/', '&') == s;
    assert IsArtistSeparator(s[|x|]);
    TwoPiecesSplit(x, y);
  }

  /** The generator over two stripped names that both normalise. */
  lemma NormalizeEachPair(f: Formatter, x: string, y: string, bound: nat)
    requires |x| < bound && |y| < bound && Strip(x) == x && Strip(y) == y
    requires Normalize(f, x).Success? && Normalize(f, y).Success?
    ensures NormalizeEach(f, [x, y], bound) == Success([Normalize(f, x).value, Normalize(f, y).value])
  {
    var nx, ny := Normalize(f, x).value, Normalize(f, y).value;
    assert forall p | p in [y] :: |p| < bound;
    assert [y][0] == y && [y][1..] == [];
    assert NormalizeEach(f, [], bound) == Success([]);
    assert [ny] + [] == [ny];
    assert NormalizeEach(f, [y], bound) == Success([ny]);
    assert [x, y][0] == x && [x, y][1..] == [y];
    assert [nx] + [ny] == [nx, ny];
  }

  /** Two artists credited as "x&y" are normalised each on its own and
      joined with " & ". */
  lemma NormalizeTwoArtists(f: Formatter, x: string, y: string)
    requires "" !in f.mapping
    requires x != "" && IsTrimmed(x) && IsSingleArtist(x)
    requires y != "" && IsTrimmed(y) && IsSingleArtist(y)
    ensures Normalize(f, x).Success? && Normalize(f, y).Success?
    ensures Normalize(f, x + "&" + y) == Success(Normalize(f, x).value + " & " + Normalize(f, y).value)
  {
    var s := x + "&" + y;
    TwoArtistsSplit(x, y);
    StripTrimmed(x);
    StripTrimmed(y);
    NormalizeSingleFails(f, x);
    NormalizeSingleFails(f, y);
    NormalizeEachPair(f, x, y, |s|);
    var names := [Normalize(f, x).value, Normalize(f, y).value];
    assert Normalize(f, s) == Success(Join(names, " & "));
    assert names[1..] == [names[1]];
  }
}
