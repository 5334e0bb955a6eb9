/** The `artist_mapping` table a `SongFormatter` is constructed with
    (song_formatter.py), and the facts about it the normaliser relies on. */
module ArtistTable {
  import opened Wrappers
  import opened Text
  import opened Script
  import opened ArtistNames

  /** `artist_mapping`: known artists and the English name shown for them. */
  const ArtistMapping: map<string, string> := map[
    "方大同" := "Khalil Fong",
    "王力宏" := "Leehom Wang",
    "林俊杰" := "JJ Lin",
    "林忆莲" := "Sandy Lam",
    "张惠妹" := "A-mei",
    "陈奕迅" := "Eason Chan",
    "陶喆" := "David Tao",
    "汪苏泷" := "Silence Wang",
    "王菲" := "Faye Wong",
    "李宗盛" := "Jonathan Lee",
    "张学友" := "Jacky Cheung",
    "周杰伦" := "Jay Chou",
    "周笔畅" := "Bibi Zhou",
    "周传雄" := "Steve Chou",
    "薛之谦" := "Joker Xue",
    "孙燕姿" := "Stefanie Sun",
    "莫文蔚" := "Karen Mok",
    "邓紫棋" := "G.E.M.",
    "蔡依林" := "Jolin Tsai",
    "蔡健雅" := "Tanya Chua",
    "萧敬腾" := "Jam Hsiao",
    "Kevin" := "JJ Lin",
    "G.E.M.邓紫棋" := "G.E.M."
  ]

  /** `SongFormatter()`: a formatter holding the shipped mapping. */
  function NewFormatter(pinyin: Pinyin): (f: Formatter)
    ensures f.mapping == ArtistMapping && f.pinyin == pinyin
    ensures WellFormedMapping(f.mapping)
  {
    MappingWellFormed();
    Formatter(ArtistMapping, pinyin)
  }

  // The facts below are checked one table entry at a time by the verifier.

  lemma KeyNonAscii(k: string)
    requires k in ArtistMapping
    ensures k == "Kevin" || !IsAscii(k[0]) || (|k| > 6 && !IsAscii(k[6]))
  {
  }

  /** What every mapped name satisfies, before the check that it is not a
      key. */
  predicate PlainName(v: string)
  {
    |v| > 0 && v != "Kevin" && AllAscii(v) && IsTrimmed(v) && IsSingleArtist(v)
  }

  // The names are checked in groups of four or five: one lemma over all
  // 23 literal names would be too costly for the verifier.

  lemma PlainNamesA(v: string)
    requires v in {"Khalil Fong", "Leehom Wang", "JJ Lin", "Sandy Lam", "A-mei"}
    ensures PlainName(v)
  {
  }

  lemma PlainNamesB(v: string)
    requires v in {"Eason Chan", "David Tao", "Silence Wang", "Faye Wong"}
    ensures PlainName(v)
  {
  }

  lemma PlainNamesC(v: string)
    requires v in {"Jonathan Lee", "Jacky Cheung", "Jay Chou", "Bibi Zhou"}
    ensures PlainName(v)
  {
  }

  lemma PlainNamesD(v: string)
    requires v in {"Steve Chou", "Joker Xue", "Stefanie Sun", "Karen Mok"}
    ensures PlainName(v)
  {
  }

  lemma PlainNamesE(v: string)
    requires v in {"G.E.M.", "Jolin Tsai", "Tanya Chua", "Jam Hsiao"}
    ensures PlainName(v)
  {
  }

  lemma ValuePlain(k: string)
    requires k in ArtistMapping
    ensures PlainName(ArtistMapping[k])
  {
    var v := ArtistMapping[k];
    if v in {"Khalil Fong", "Leehom Wang", "JJ Lin", "Sandy Lam", "A-mei"} {
      PlainNamesA(v);
    } else if v in {"Eason Chan", "David Tao", "Silence Wang", "Faye Wong"} {
      PlainNamesB(v);
    } else if v in {"Jonathan Lee", "Jacky Cheung", "Jay Chou", "Bibi Zhou"} {
      PlainNamesC(v);
    } else if v in {"Steve Chou", "Joker Xue", "Stefanie Sun", "Karen Mok"} {
      PlainNamesD(v);
    } else {
      PlainNamesE(v);
    }
  }

  /** Every key names one artist and has no outer whitespace. */
  lemma KeyPlain(k: string)
    requires k in ArtistMapping
    ensures IsTrimmed(k) && IsSingleArtist(k)
  {
  }

  /** Only one key of the table is pure ASCII. */
  lemma AsciiIsNotKey(v: string)
    requires AllAscii(v) && v != "Kevin"
    ensures v !in ArtistMapping
  {
    if v in ArtistMapping {
      KeyNonAscii(v);
    }
  }

  /** Every mapped name is ASCII, a single artist, trimmed and not itself a
      key, and the empty name is not a key. */
  lemma MappingWellFormed()
    ensures WellFormedMapping(ArtistMapping)
  {
    forall k | k in ArtistMapping ensures IsCanonical(ArtistMapping, ArtistMapping[k]) {
      ValuePlain(k);
      AsciiIsNotKey(ArtistMapping[k]);
    }
  }

  /** A key of the shipped table that names a single artist is replaced by
      its English name. */
  lemma MappedKey(f: Formatter, key: string)
    requires f.mapping == ArtistMapping && key in ArtistMapping
    ensures Normalize(f, key) == Success(ArtistMapping[key])
  {
    KeyPlain(key);
    StripTrimmed(key);
    SingleArtistIsToken(f, key);
  }

  /** "周杰伦" becomes "Jay Chou". */
  lemma ExampleMappedName(f: Formatter, name: string)
    requires f.mapping == ArtistMapping && name == "周杰伦"
    ensures Normalize(f, name) == Success("Jay Chou")
  {
    assert ArtistMapping[name] == "Jay Chou";
    MappedKey(f, name);
  }

  /** "Jay Chou" normalises to itself. */
  lemma ExampleCanonicalName(f: Formatter, name: string)
    requires f.mapping == ArtistMapping && name == "Jay Chou"
    ensures Normalize(f, name) == Success(name)
  {
    AsciiIsNotKey(name);
    CanonicalIsFixed(f, name);
  }

  /** An unmapped ASCII name passes through. */
  lemma ExampleEnglishName(f: Formatter, name: string)
    requires f.mapping == ArtistMapping && name == "Taylor Swift"
    ensures Normalize(f, name) == Success(name)
  {
    AsciiIsNotKey(name);
    CanonicalIsFixed(f, name);
  }
}
