/** The two script classifiers of `SongFormatter` (song_formatter.py). */
module Script {
  import opened Wrappers

  /** The exception `is_english` raises on the empty string. */
  datatype Error = ZeroDivision

  /** A code point in the CJK Unified Ideographs block, U+4E00 .. U+9FFF. */
  predicate IsCjk(c: char)
  {
    '\U{4E00}' <= c <= '\U{9FFF}'
  }

  predicate IsAscii(c: char)
  {
    c as int < 128
  }

  predicate AllAscii(s: string)
  {
    forall i :: 0 <= i < |s| ==> IsAscii(s[i])
  }

  /** `is_chinese`: whether some character of `s` is a CJK ideograph. */
  function IsChinese(s: string): (r: bool)
    ensures r <==> exists i :: 0 <= i < |s| && IsCjk(s[i])
  {
    if |s| == 0 then false
    else
      assert forall i :: 1 <= i < |s| ==> s[1..][i - 1] == s[i];
      IsCjk(s[0]) || IsChinese(s[1..])
  }

  /** The number of ASCII characters in `s`. */
  function AsciiCount(s: string): (n: nat)
    ensures n <= |s|
    ensures n == |s| <==> AllAscii(s)
    ensures n > 0 <==> exists i :: 0 <= i < |s| && IsAscii(s[i])
  {
    if |s| == 0 then 0
    else
      assert forall i :: 1 <= i < |s| ==> s[1..][i - 1] == s[i];
      (if IsAscii(s[0]) then 1 else 0) + AsciiCount(s[1..])
  }

  lemma {:induction false} AsciiCountConcat(a: string, b: string)
    ensures AsciiCount(a + b) == AsciiCount(a) + AsciiCount(b)
    decreases |a|
  {
    if |a| == 0 {
      assert a + b == b;
    } else {
      assert (a + b)[1..] == a[1..] + b;
      AsciiCountConcat(a[1..], b);
    }
  }

  /** `is_english`: more than nine in ten characters are ASCII. The ratio
      `len(ascii) / len(s) > 0.9` is compared in integers; on the empty
      string Python divides by zero. */
  function IsEnglish(s: string): (r: Result<bool, Error>)
    ensures r.Failure? <==> |s| == 0
    ensures |s| > 0 && AllAscii(s) ==> r == Success(true)
    ensures r == Success(true) ==> exists i :: 0 <= i < |s| && IsAscii(s[i])
    ensures 0 < |s| <= 10 ==> (r == Success(true) <==> AllAscii(s))
  {
    if |s| == 0 then Failure(ZeroDivision)
    else Success(10 * AsciiCount(s) > 9 * |s|)
  }
}
