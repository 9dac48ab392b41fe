/**
 * The string operations the program uses: Python's whitespace class,
 * `str.lower` on ASCII letters, `str.strip`, `str.endswith`, regex deletion of
 * a character class (`str.replace(r'[...]', '', regex=True)`) and the
 * substring test `phrase in text`.
 */
module Text {
  import opened Sequences

  /** Python's `str.isspace`, which is also what `\s` and a bare `strip()` use on `str`. */
  predicate IsSpace(c: char) {
    c == ' ' || ('\t' <= c <= '\r') || ('\U{1c}' <= c <= '\U{1f}') ||
    c == '\U{85}' || c == '\U{a0}' || c == '\U{1680}' || ('\U{2000}' <= c <= '\U{200a}') ||
    c == '\U{2028}' || c == '\U{2029}' || c == '\U{202f}' || c == '\U{205f}' || c == '\U{3000}'
  }

  predicate IsAsciiUpper(c: char) {
    'A' <= c <= 'Z'
  }

  function LowerChar(c: char): (d: char)
    ensures !IsAsciiUpper(d)
    ensures IsAsciiUpper(c) ==> d as int == c as int + 32
    ensures !IsAsciiUpper(c) ==> d == c
  {
    if IsAsciiUpper(c) then (c as int + 32) as char else c
  }

  /** `str.lower()`, restricted to the ASCII letters. */
  function Lower(s: string): (r: string)
    ensures |r| == |s|
    ensures forall k :: 0 <= k < |s| ==> r[k] == LowerChar(s[k])
  {
    if s == [] then [] else [LowerChar(s[0])] + Lower(s[1..])
  }

  /** Lowering twice is lowering once. */
  lemma LowerIdempotent(s: string)
    ensures Lower(Lower(s)) == Lower(s)
  {
  }

  /** The number of leading characters of `s` that satisfy `junk`. */
  function LeadingRun(s: string, junk: char -> bool): (n: nat)
    ensures n <= |s|
    ensures forall k :: 0 <= k < n ==> junk(s[k])
    ensures n < |s| ==> !junk(s[n])
  {
    if s == [] || !junk(s[0]) then 0 else 1 + LeadingRun(s[1..], junk)
  }

  /** The number of trailing characters of `s` that satisfy `junk`. */
  function TrailingRun(s: string, junk: char -> bool): (n: nat)
    ensures n <= |s|
    ensures forall k :: |s| - n <= k < |s| ==> junk(s[k])
    ensures n < |s| ==> !junk(s[|s| - 1 - n])
  {
    if s == [] || !junk(s[|s| - 1]) then 0 else 1 + TrailingRun(s[..|s| - 1], junk)
  }

  /**
   * `str.strip(chars)`: the slice `s[i..j]` left after removing every
   * leading and every trailing character of the class. What is left is
   * empty or starts and ends with a character outside the class.
   */
  function Strip(s: string, junk: char -> bool): (r: string)
    ensures LeadingRun(s, junk) + |r| <= |s|
    ensures r == s[LeadingRun(s, junk)..LeadingRun(s, junk) + |r|]
    ensures forall k :: 0 <= k < LeadingRun(s, junk) ==> junk(s[k])
    ensures forall k :: LeadingRun(s, junk) + |r| <= k < |s| ==> junk(s[k])
    ensures |r| > 0 ==> !junk(r[0]) && !junk(r[|r| - 1])
    ensures (forall k :: 0 <= k < |s| ==> junk(s[k])) ==> r == []
  {
    var i := LeadingRun(s, junk);
    var n := TrailingRun(s[i..], junk);
    TrailingShift(s, i, n, junk);
    AllJunkRun(s, junk);
    s[i..|s| - n]
  }

  lemma TrailingShift(s: string, i: nat, n: nat, junk: char -> bool)
    requires i <= |s| && n == TrailingRun(s[i..], junk)
    ensures i + n <= |s|
    ensures forall k :: |s| - n <= k < |s| ==> junk(s[k])
    ensures i + n < |s| ==> !junk(s[|s| - 1 - n])
  {
    var tail := s[i..];
    forall k | |s| - n <= k < |s| ensures junk(s[k]) {
      assert s[k] == tail[k - i];
    }
    if i + n < |s| {
      assert s[|s| - 1 - n] == tail[|tail| - 1 - n];
    }
  }

  lemma AllJunkRun(s: string, junk: char -> bool)
    ensures (forall k :: 0 <= k < |s| ==> junk(s[k])) ==> LeadingRun(s, junk) == |s|
  {
  }

  /** A regex replacement of a character class by the empty string. */
  function RemoveAll(s: string, junk: char -> bool): (r: string)
    ensures |r| <= |s|
    ensures forall k :: 0 <= k < |r| ==> !junk(r[k])
    ensures (forall k :: 0 <= k < |s| ==> !junk(s[k])) ==> r == s
  {
    if s == [] then []
    else if junk(s[0]) then RemoveAll(s[1..], junk)
    else [s[0]] + RemoveAll(s[1..], junk)
  }

  /**
   * Deletion keeps everything else: the result is a subsequence of the text
   * holding each character outside the class as often as the text does, so
   * it is exactly the text's other characters, in their order.
   */
  lemma {:induction false} RemoveAllKeeps(s: string, junk: char -> bool)
    ensures Subsequence(RemoveAll(s, junk), s)
    ensures forall c :: !junk(c) ==> multiset(RemoveAll(s, junk))[c] == multiset(s)[c]
  {
    if s != [] {
      var rest := RemoveAll(s[1..], junk);
      RemoveAllKeeps(s[1..], junk);
      assert s == [s[0]] + s[1..];
      if !junk(s[0]) {
        assert ([s[0]] + rest)[1..] == rest;
      }
    }
  }

  /** Stripping text without upper-case letters leaves none. */
  lemma StripNoUpper(s: string, junk: char -> bool)
    requires forall k :: 0 <= k < |s| ==> !IsAsciiUpper(s[k])
    ensures forall k :: 0 <= k < |Strip(s, junk)| ==> !IsAsciiUpper(Strip(s, junk)[k])
  {
    var r := Strip(s, junk);
    var i := LeadingRun(s, junk);
    forall k | 0 <= k < |r| ensures !IsAsciiUpper(r[k]) {
      assert r[k] == s[i + k];
    }
  }

  /** Deletion distributes over concatenation: it works character by character. */
  lemma {:induction false} RemoveAllAppend(a: string, b: string, junk: char -> bool)
    ensures RemoveAll(a + b, junk) == RemoveAll(a, junk) + RemoveAll(b, junk)
  {
    if a != [] {
      assert (a + b)[0] == a[0];
      assert (a + b)[1..] == a[1..] + b;
      assert RemoveAll(a + b, junk) == if junk(a[0]) then RemoveAll(a[1..] + b, junk)
                                       else [a[0]] + RemoveAll(a[1..] + b, junk);
      RemoveAllAppend(a[1..], b, junk);
      if !junk(a[0]) {
        assert [a[0]] + (RemoveAll(a[1..], junk) + RemoveAll(b, junk))
            == ([a[0]] + RemoveAll(a[1..], junk)) + RemoveAll(b, junk);
      }
    } else {
      assert a + b == b;
    }
  }

  predicate EndsWith(s: string, suffix: string) {
    |suffix| <= |s| && s[|s| - |suffix|..] == suffix
  }

  /** Lower-casing keeps a suffix that has no upper-case letter. */
  lemma LowerKeepsSuffix(s: string, suffix: string)
    requires EndsWith(s, suffix)
    requires forall k :: 0 <= k < |suffix| ==> !IsAsciiUpper(suffix[k])
    ensures EndsWith(Lower(s), suffix)
  {
    var n := |s| - |suffix|;
    forall k | 0 <= k < |suffix| ensures Lower(s)[n + k] == suffix[k] {
      assert s[n + k] == suffix[k];
    }
    assert Lower(s)[n..] == suffix;
  }

  /** Python's `needle in hay` on strings. */
  predicate Contains(hay: string, needle: string)
    decreases |hay|
  {
    |needle| <= |hay| && (hay[..|needle|] == needle || Contains(hay[1..], needle))
  }

  /** `needle` occurs in `hay` starting at offset `i`. */
  predicate OccursAt(hay: string, needle: string, i: int) {
    0 <= i && i + |needle| <= |hay| && hay[i..i + |needle|] == needle
  }

  /** `Contains` holds exactly when the needle occurs at some offset. */
  lemma {:induction false} ContainsAt(hay: string, needle: string)
    ensures Contains(hay, needle) <==> exists i :: OccursAt(hay, needle, i)
    decreases |hay|
  {
    if |needle| <= |hay| {
      if hay[..|needle|] == needle {
        assert OccursAt(hay, needle, 0);
      } else {
        ContainsAt(hay[1..], needle);
        if Contains(hay[1..], needle) {
          var i :| OccursAt(hay[1..], needle, i);
          assert hay[i + 1..i + 1 + |needle|] == hay[1..][i..i + |needle|];
          assert OccursAt(hay, needle, i + 1);
        } else {
          forall i | OccursAt(hay, needle, i) ensures i > 0 && OccursAt(hay[1..], needle, i - 1) {
            assert hay[0..|needle|] == hay[..|needle|];
            if i > 0 {
              forall k | 0 <= k < |needle| ensures hay[1..][i - 1..i - 1 + |needle|][k] == needle[k] {
                assert hay[1..][i - 1..i - 1 + |needle|][k] == hay[i + k] == hay[i..i + |needle|][k];
              }
            }
          }
        }
      }
    } else {
      forall i | OccursAt(hay, needle, i) ensures false { }
    }
  }

  /** A string that does not hold some character of `needle` cannot contain `needle`. */
  lemma ContainsNeedsChar(hay: string, needle: string, k: nat)
    requires k < |needle|
    requires needle[k] !in hay
    ensures !Contains(hay, needle)
  {
    ContainsAt(hay, needle);
    forall i | 0 <= i && i + |needle| <= |hay| ensures !OccursAt(hay, needle, i) {
      assert hay[i..i + |needle|][k] == hay[i + k];
    }
  }
}
