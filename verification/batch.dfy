/** The pure part of `SongFormatter.format_songs` (song_formatter.py): every
    line that parses becomes an "Artist - Title" record, and the records are
    sorted. */
module Batch {
  import opened Wrappers
  import opened Text
  import opened Script
  import opened ArtistNames
  import opened SongLines
  import opened Ordering

  /** What one line adds to the batch: nothing, one record, or the error
      that ends the batch. */
  type Outcome = Result<Option<string>, Error>

  /** `text_input.strip().splitlines()`: at least one line, and a blank
      input is the single empty line. */
  function Lines(text: string): (ls: seq<string>)
    ensures |ls| > 0
    ensures AllSpace(text) ==> ls == [""]
  {
    StripEmpty(text);
    Split(Strip(text), IsLineBreak)
  }

  // ---------------------------------------------------------------------
  // Folding the lines, for any per-line parse and render

  /** The outcome of a line that parsed to `parsed`: a line that does not
      parse adds nothing, a parsed one adds its rendering or its error. */
  function Emit<T>(parsed: Option<T>, render: T -> Result<string, Error>): Outcome
  {
    match parsed
    case None => Success(None)
    case Some(x) =>
      match render(x)
      case Failure(e) => Failure(e)
      case Success(rec) => Success(Some(rec))
  }

  /** Extends the records so far by what one more line adds; the first
      error is kept. */
  function Step(acc: Result<seq<string>, Error>, add: Outcome): Result<seq<string>, Error>
  {
    match acc
    case Failure(e) => Failure(e)
    case Success(rs) =>
      match add
      case Failure(e) => Failure(e)
      case Success(None) => Success(rs)
      case Success(Some(rec)) => Success(rs + [rec])
  }

  /** The records of `lines` in input order, one line at a time. */
  function Collect(step: string -> Outcome, lines: seq<string>): (r: Result<seq<string>, Error>)
    ensures r.Success? ==> |r.value| <= |lines|
    decreases |lines|
  {
    if |lines| == 0 then Success([])
    else Step(Collect(step, lines[..|lines| - 1]), step(lines[|lines| - 1]))
  }

  /** The values of the lines that parse, in input order. */
  function Kept<T>(parse: string -> Option<T>, lines: seq<string>): (r: seq<T>)
    ensures |r| <= |lines|
    decreases |lines|
  {
    if |lines| == 0 then []
    else
      var init := Kept(parse, lines[..|lines| - 1]);
      match parse(lines[|lines| - 1])
      case None => init
      case Some(x) => init + [x]
  }

  lemma CollectSnoc(step: string -> Outcome, xs: seq<string>, x: string)
    ensures Collect(step, xs + [x]) == Step(Collect(step, xs), step(x))
  {
    assert (xs + [x])[..|xs|] == xs;
  }

  lemma KeptSnoc<T>(parse: string -> Option<T>, xs: seq<string>, x: string)
    ensures Kept(parse, xs + [x]) == Kept(parse, xs) + (if parse(x).Some? then [parse(x).value] else [])
  {
    assert (xs + [x])[..|xs|] == xs;
  }

  /** Once a prefix fails, the fold keeps its error. */
  lemma {:induction false} CollectPrefixFails(step: string -> Outcome, xs: seq<string>, ys: seq<string>)
    requires Collect(step, xs).Failure?
    ensures Collect(step, xs + ys) == Collect(step, xs)
    decreases |ys|
  {
    if |ys| == 0 {
      assert xs + ys == xs;
    } else {
      var y := ys[|ys| - 1];
      assert xs + ys == (xs + ys[..|ys| - 1]) + [y];
      CollectPrefixFails(step, xs, ys[..|ys| - 1]);
      CollectSnoc(step, xs + ys[..|ys| - 1], y);
    }
  }

  /** A line that adds nothing can be dropped from the fold. */
  lemma {:induction false} CollectSkip(step: string -> Outcome, xs: seq<string>, bad: string, ys: seq<string>)
    requires step(bad) == Success(None)
    ensures Collect(step, xs + [bad] + ys) == Collect(step, xs + ys)
    decreases |ys|
  {
    if |ys| == 0 {
      assert xs + [bad] + ys == xs + [bad];
      assert xs + ys == xs;
      CollectSnoc(step, xs, bad);
    } else {
      var ys' := ys[..|ys| - 1];
      var y := ys[|ys| - 1];
      assert ys == ys' + [y];
      assert xs + [bad] + ys == (xs + [bad] + ys') + [y];
      assert xs + ys == (xs + ys') + [y];
      CollectSkip(step, xs, bad, ys');
      CollectSnoc(step, xs + [bad] + ys', y);
      CollectSnoc(step, xs + ys', y);
    }
  }

  /** A value is kept exactly when some line parses to it. */
  lemma {:induction false} KeptFromLines<T>(parse: string -> Option<T>, lines: seq<string>, x: T)
    ensures x in Kept(parse, lines) <==> exists i :: 0 <= i < |lines| && parse(lines[i]) == Some(x)
    decreases |lines|
  {
    if |lines| > 0 {
      var init := lines[..|lines| - 1];
      var last := lines[|lines| - 1];
      assert lines == init + [last];
      KeptFromLines(parse, init, x);
      KeptSnoc(parse, init, last);
      if x in Kept(parse, lines) {
        if x in Kept(parse, init) {
          var i :| 0 <= i < |init| && parse(init[i]) == Some(x);
          assert lines[i] == init[i];
        } else {
          assert parse(lines[|lines| - 1]) == Some(x);
        }
      } else {
        forall i | 0 <= i < |lines|
          ensures parse(lines[i]) != Some(x)
        {
          if i < |init| {
            assert lines[i] == init[i];
          }
        }
      }
    }
  }

  /** Each value is kept once for every line that parses to it: nothing
      is merged or dropped. */
  lemma {:induction false} KeptCount<T>(parse: string -> Option<T>, lines: seq<string>, x: T)
    ensures multiset(Kept(parse, lines))[x] == |set i | 0 <= i < |lines| && parse(lines[i]) == Some(x)|
    decreases |lines|
  {
    var hits := set i | 0 <= i < |lines| && parse(lines[i]) == Some(x);
    if |lines| == 0 {
      assert hits == {};
    } else {
      var init := lines[..|lines| - 1];
      var last := lines[|lines| - 1];
      assert lines == init + [last];
      var before := set i | 0 <= i < |init| && parse(init[i]) == Some(x);
      var extra := if parse(last) == Some(x) then 1 else 0;
      assert |hits| == |before| + extra by {
        assert |init| !in before;
        if parse(last) == Some(x) {
          assert hits == before + {|init|};
        } else {
          assert hits == before;
        }
      }
      assert multiset(Kept(parse, lines))[x] == multiset(Kept(parse, init))[x] + extra by {
        KeptSnoc(parse, init, last);
      }
      KeptCount(parse, init, x);
    }
  }

  /** One value is kept for every line that parses. */
  lemma {:induction false} KeptLength<T>(parse: string -> Option<T>, lines: seq<string>)
    ensures |Kept(parse, lines)| == |set i | 0 <= i < |lines| && parse(lines[i]).Some?|
    decreases |lines|
  {
    var hits := set i | 0 <= i < |lines| && parse(lines[i]).Some?;
    if |lines| == 0 {
      assert hits == {};
    } else {
      var init := lines[..|lines| - 1];
      var last := lines[|lines| - 1];
      assert lines == init + [last];
      KeptLength(parse, init);
      KeptSnoc(parse, init, last);
      var before := set i | 0 <= i < |init| && parse(init[i]).Some?;
      assert |init| !in before;
      if parse(last).Some? {
        assert hits == before + {|init|};
      } else {
        assert hits == before;
      }
    }
  }

  /** When every line's outcome is its parse rendered, the fold succeeds
      exactly when every kept value renders, and then holds one rendering
      per kept value, in order. */
  lemma {:induction false} CollectKept<T>(step: string -> Outcome, parse: string -> Option<T>,
                                          render: T -> Result<string, Error>, lines: seq<string>)
    requires forall line :: step(line) == Emit(parse(line), render)
    ensures Collect(step, lines).Success? <==>
      forall i :: 0 <= i < |Kept(parse, lines)| ==> render(Kept(parse, lines)[i]).Success?
    ensures Collect(step, lines).Success? ==>
      && |Collect(step, lines).value| == |Kept(parse, lines)|
      && forall i :: 0 <= i < |Kept(parse, lines)| ==>
           render(Kept(parse, lines)[i]) == Success(Collect(step, lines).value[i])
    decreases |lines|
  {
    if |lines| > 0 {
      var init := lines[..|lines| - 1];
      var last := lines[|lines| - 1];
      assert lines == init + [last];
      CollectKept(step, parse, render, init);
      CollectSnoc(step, init, last);
      KeptSnoc(parse, init, last);
      var kept := Kept(parse, init);
      match parse(last)
      case None =>
      case Some(x) =>
        assert Kept(parse, lines) == kept + [x];
        assert Kept(parse, lines)[|kept|] == x;
        if Collect(step, init).Failure? {
          var i :| 0 <= i < |kept| && render(kept[i]).Failure?;
          assert Kept(parse, lines)[i] == kept[i];
        } else if render(x).Success? {
          forall i | 0 <= i < |Kept(parse, lines)|
            ensures render(Kept(parse, lines)[i]) == Success(Collect(step, lines).value[i])
          {
            if i < |kept| {
              assert Kept(parse, lines)[i] == kept[i];
            }
          }
        }
    }
  }

  // ---------------------------------------------------------------------
  // The batch of `format_songs`

  /** The record of one parsed song: `f"{formatted_artist} - {title}"`. */
  function RecordOf(f: Formatter, song: Song): (r: Result<string, Error>)
    ensures r.Failure? <==> Normalize(f, song.artist).Failure?
    ensures r.Success? ==>
      && |r.value| == |Normalize(f, song.artist).value| + |Separator| + |song.title|
      && r.value[..|Normalize(f, song.artist).value|] == Normalize(f, song.artist).value
      && r.value[|Normalize(f, song.artist).value|..|Normalize(f, song.artist).value| + |Separator|] == Separator
      && r.value[|r.value| - |song.title|..] == song.title
  {
    match Normalize(f, song.artist)
    case Failure(e) => Failure(e)
    case Success(name) => Success(name + " - " + song.title)
  }

  function Render(f: Formatter): Song -> Result<string, Error>
  {
    song => RecordOf(f, song)
  }

  /** What one input line adds: nothing when it does not parse, otherwise
      its record, or the error its artist raises. */
  function LineOutcome(f: Formatter, line: string): Outcome
  {
    Emit(ParseSongLine(line), Render(f))
  }

  function LineRecord(f: Formatter): string -> Outcome
  {
    line => LineOutcome(f, line)
  }

  /** The loop of `format_songs`, for any per-line outcome: fold the
      lines in order, stop at the first error, and sort the records. */
  method CollectSorted(step: string -> Outcome, lines: seq<string>) returns (r: Result<seq<string>, Error>)
    ensures r.Failure? <==> Collect(step, lines).Failure?
    ensures r.Failure? ==> r == Collect(step, lines)
    ensures r.Success? ==> Sorted(r.value)
    ensures r.Success? ==> multiset(r.value) == multiset(Collect(step, lines).value)
  {
    var formatted: seq<string> := [];
    var i := 0;
    while i < |lines|
      invariant 0 <= i <= |lines|
      invariant Collect(step, lines[..i]) == Success(formatted)
    {
      assert lines[..i + 1] == lines[..i] + [lines[i]];
      CollectSnoc(step, lines[..i], lines[i]);
      var add := step(lines[i]);
      if add.Failure? {
        CollectPrefixFails(step, lines[..i + 1], lines[i + 1..]);
        assert lines[..i + 1] + lines[i + 1..] == lines;
        return Failure(add.error);
      }
      if add.value.Some? {
        formatted := formatted + [add.value.value];
      }
      i := i + 1;
    }
    assert lines[..|lines|] == lines;
    return Success(SortStrings(formatted));
  }

  /** `format_songs` without the file write: parse every line, format the
      ones that parse, and sort the records. The `ZeroDivisionError` of an
      empty artist name is not caught inside the loop, so it ends the batch. */
  method FormatSongs(f: Formatter, text: string) returns (r: Result<seq<string>, Error>)
    ensures r.Failure? <==> Collect(LineRecord(f), Lines(text)).Failure?
    ensures r.Failure? ==> r == Collect(LineRecord(f), Lines(text))
    ensures r.Success? ==> Sorted(r.value)
    ensures r.Success? ==> multiset(r.value) == multiset(Collect(LineRecord(f), Lines(text)).value)
  {
    r := CollectSorted(LineRecord(f), Lines(text));
  }

  /** A song is parsed exactly when some line parses to it. */
  lemma ParsedSongsFromLines(lines: seq<string>, song: Song)
    ensures song in Kept(ParseSongLine, lines) <==>
      exists i :: 0 <= i < |lines| && ParseSongLine(lines[i]) == Some(song)
  {
    KeptFromLines(ParseSongLine, lines, song);
  }

  /** The batch succeeds exactly when every parsed song's artist normalises,
      and then holds one record per parsed song, in order. */
  lemma RecordsOfParsedSongs(f: Formatter, lines: seq<string>)
    ensures Collect(LineRecord(f), lines).Success? <==>
      forall i :: 0 <= i < |Kept(ParseSongLine, lines)| ==> RecordOf(f, Kept(ParseSongLine, lines)[i]).Success?
    ensures Collect(LineRecord(f), lines).Success? ==>
      && |Collect(LineRecord(f), lines).value| == |Kept(ParseSongLine, lines)|
      && forall i :: 0 <= i < |Kept(ParseSongLine, lines)| ==>
           RecordOf(f, Kept(ParseSongLine, lines)[i]) == Success(Collect(LineRecord(f), lines).value[i])
  {
    CollectKept(LineRecord(f), ParseSongLine, Render(f), lines);
  }

  /** A batch that succeeds holds exactly one record per line that parses,
      duplicates included. */
  lemma OneRecordPerParsedLine(f: Formatter, lines: seq<string>)
    ensures Collect(LineRecord(f), lines).Success? ==>
      |Collect(LineRecord(f), lines).value| == |set i | 0 <= i < |lines| && ParseSongLine(lines[i]).Some?|
  {
    var kept := Kept(ParseSongLine, lines);
    assert Collect(LineRecord(f), lines).Success? ==> |Collect(LineRecord(f), lines).value| == |kept| by {
      RecordsOfParsedSongs(f, lines);
    }
    KeptLength(ParseSongLine, lines);
    var parse: string -> Option<Song> := ParseSongLine;
    assert (set i | 0 <= i < |lines| && parse(lines[i]).Some?)
        == (set i | 0 <= i < |lines| && ParseSongLine(lines[i]).Some?);
  }

  /** The batch fails exactly when some parsed song's artist fails to
      normalise (an artist with a blank `&`/`,`/`/` piece). */
  lemma BatchFailsOnArtist(f: Formatter, lines: seq<string>)
    ensures Collect(LineRecord(f), lines).Failure? <==>
      exists i :: 0 <= i < |Kept(ParseSongLine, lines)| && Normalize(f, Kept(ParseSongLine, lines)[i].artist).Failure?
  {
    RecordsOfParsedSongs(f, lines);
    var songs := Kept(ParseSongLine, lines);
    if Collect(LineRecord(f), lines).Failure? {
      var i :| 0 <= i < |songs| && RecordOf(f, songs[i]).Failure?;
      assert Normalize(f, songs[i].artist).Failure?;
    } else {
      forall i | 0 <= i < |songs|
        ensures Normalize(f, songs[i].artist).Success?
      {
        assert RecordOf(f, songs[i]).Success?;
      }
    }
  }

  /** A failure in a prefix of the lines fails the whole batch with the same
      error. */
  lemma RecordsPrefixFails(f: Formatter, xs: seq<string>, ys: seq<string>)
    requires Collect(LineRecord(f), xs).Failure?
    ensures Collect(LineRecord(f), xs + ys) == Collect(LineRecord(f), xs)
  {
    CollectPrefixFails(LineRecord(f), xs, ys);
  }

  /** A line that does not parse (blank, or without the separator) can be
      dropped without changing the batch. */
  lemma SkipUnparsed(f: Formatter, xs: seq<string>, bad: string, ys: seq<string>)
    requires ParseSongLine(bad).None?
    ensures Collect(LineRecord(f), xs + [bad] + ys) == Collect(LineRecord(f), xs + ys)
  {
    CollectSkip(LineRecord(f), xs, bad, ys);
  }

  /** The lines of the input: no line holds a line break, there is one more
      line than there are line breaks in the stripped text, and joining the
      lines back with "\n" gives that text with every line break made "\n". */
  lemma LinesOfText(text: string)
    ensures forall line, i | line in Lines(text) && 0 <= i < |line| :: !IsLineBreak(line[i])
    ensures |Lines(text)| == CountIn(Strip(text), IsLineBreak) + 1
    ensures Join(Lines(text), "\n") == Unify(Strip(text), IsLineBreak, '\n')
  {
    SplitPieces(Strip(text), IsLineBreak);
    JoinSplit(Strip(text), IsLineBreak, '\n');
  }
}
