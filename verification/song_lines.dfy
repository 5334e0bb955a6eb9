/** `SongFormatter.parse_song_line` (song_formatter.py): one input line
    "Title - Artist" into its title and artist. */
module SongLines {
  import opened Wrappers
  import opened Text

  /** The literal the line is split on. */
  const Separator: string := " - "

  datatype Song = Song(title: string, artist: string)

  /** `s` is `title + " - " + artist` cut at the first occurrence of the
      separator in `s`. */
  predicate SplitsAtFirst(s: string, title: string, artist: string)
  {
    && s == title + Separator + artist
    && forall j: nat :: j < |title| ==> !OccursAt(s, Separator, j)
  }

  /** `parse_song_line`: strip the line; a blank line or one without the
      separator gives nothing; otherwise split at the first separator and
      strip both halves. */
  function ParseSongLine(line: string): (r: Option<Song>)
    ensures Strip(line) == "" ==> r == None
    ensures r.None? <==> !Contains(Strip(line), Separator)
    ensures r.Some? ==> r.value.title != "" && IsTrimmed(r.value.title)
    ensures r.Some? ==> r.value.artist != "" && IsTrimmed(r.value.artist)
  {
    var s := Strip(line);
    if s == "" then None
    else
      match FindFirst(s, Separator)
      case None => None
      case Some(i) =>
        SplitHalvesNonBlank(s, s[..i], s[i + |Separator|..]);
        Some(Song(Strip(s[..i]), Strip(s[i + |Separator|..])))
  }

  /** A stripped line that splits at the separator has a non-blank half on
      each side, since it begins and ends with a non-space character. */
  lemma SplitHalvesNonBlank(s: string, title: string, artist: string)
    requires s != "" && IsTrimmed(s) && s == title + Separator + artist
    ensures Strip(title) != "" && Strip(artist) != ""
  {
    assert s[0] == (if |title| > 0 then title[0] else ' ');
    assert s[|s| - 1] == (if |artist| > 0 then artist[|artist| - 1] else ' ');
    StripEmpty(title);
    StripEmpty(artist);
  }

  lemma FirstSplit(s: string, i: nat)
    requires OccursAt(s, Separator, i)
    requires forall j: nat :: j < i ==> !OccursAt(s, Separator, j)
    ensures SplitsAtFirst(s, s[..i], s[i + |Separator|..])
  {
    assert s == s[..i] + s[i..i + |Separator|] + s[i + |Separator|..];
  }

  /** Nothing before the first occurrence holds a whole separator. */
  lemma NoSeparatorBeforeFirst(s: string, i: nat)
    requires i <= |s|
    requires forall j: nat :: j < i ==> !OccursAt(s, Separator, j)
    ensures !Contains(s[..i], Separator)
  {
    forall j: nat | j <= i ensures !OccursAt(s[..i], Separator, j) {
      if j + |Separator| <= i {
        assert !OccursAt(s, Separator, j);
        assert s[..i][j..j + |Separator|] == s[j..j + |Separator|];
      }
    }
  }

  /** The cut `parse_song_line` makes, at the first separator of the
      stripped line. */
  lemma FirstCut(line: string)
    requires ParseSongLine(line).Some?
    ensures var s := Strip(line);
      && FindFirst(s, Separator).Some?
      && var i := FindFirst(s, Separator).value;
      && SplitsAtFirst(s, s[..i], s[i + |Separator|..])
      && !Contains(s[..i], Separator)
      && ParseSongLine(line).value == Song(Strip(s[..i]), Strip(s[i + |Separator|..]))
  {
    var s := Strip(line);
    var i := FindFirst(s, Separator).value;
    FirstSplit(s, i);
    NoSeparatorBeforeFirst(s, i);
  }

  /** On success the line was cut at its first separator: the untrimmed
      title holds no separator, the two halves and the separator make up the
      stripped line, and each result is its half stripped. */
  lemma ParseSplitsAtFirst(line: string)
    requires ParseSongLine(line).Some?
    ensures exists title, artist ::
      && SplitsAtFirst(Strip(line), title, artist)
      && !Contains(title, Separator)
      && ParseSongLine(line).value == Song(Strip(title), Strip(artist))
  {
    FirstCut(line);
    var s := Strip(line);
    var i := FindFirst(s, Separator).value;
    var title, artist := s[..i], s[i + |Separator|..];
    assert SplitsAtFirst(s, title, artist);
  }

  /** Conversely, any cut of the stripped line at its first separator is the
      one `parse_song_line` makes. */
  lemma ParseFromSplit(line: string, title: string, artist: string)
    requires SplitsAtFirst(Strip(line), title, artist)
    ensures ParseSongLine(line) == Some(Song(Strip(title), Strip(artist)))
  {
    var s := Strip(line);
    assert OccursAt(s, Separator, |title|) by {
      assert s[|title|..|title| + |Separator|] == Separator;
    }
    var i := FindFirst(s, Separator).value;
    assert i == |title|;
    assert s[..i] == title && s[i + |Separator|..] == artist;
  }

  /** Whitespace around a line does not change how it parses. */
  lemma ParseIgnoresPadding(p: string, line: string, q: string)
    requires AllSpace(p) && AllSpace(q)
    ensures ParseSongLine(p + line + q) == ParseSongLine(line)
  {
    StripPadding(p, line, q);
  }
}
