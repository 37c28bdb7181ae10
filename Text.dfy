/**
 * The string operations the pages use: ASCII case mapping (`toLowerCase`,
 * `toUpperCase`), `includes`, `startsWith`, `slice(0, n)`, `split` on a
 * one-character separator, `join`, and "first character of every word".
 */
module Text {

  // ---------------------------------------------------------------- case

  predicate IsUpperLetter(c: char) { 'A' <= c <= 'Z' }
  predicate IsLowerLetter(c: char) { 'a' <= c <= 'z' }

  /**
   * ASCII lower-casing of one character: an upper-case letter becomes the
   * lower-case letter at the same place in the alphabet; every other
   * character is kept.
   */
  function LowerChar(c: char): (r: char)
    ensures IsUpperLetter(c) ==> IsLowerLetter(r) && r as int - 'a' as int == c as int - 'A' as int
    ensures !IsUpperLetter(c) ==> r == c
    ensures !IsUpperLetter(r)
  {
    if IsUpperLetter(c) then (c as int - 'A' as int + 'a' as int) as char else c
  }

  /**
   * ASCII upper-casing of one character: a lower-case letter becomes the
   * upper-case letter at the same place in the alphabet; every other
   * character is kept.
   */
  function UpperChar(c: char): (r: char)
    ensures IsLowerLetter(c) ==> IsUpperLetter(r) && r as int - 'A' as int == c as int - 'a' as int
    ensures !IsLowerLetter(c) ==> r == c
    ensures !IsLowerLetter(r)
  {
    if IsLowerLetter(c) then (c as int - 'a' as int + 'A' as int) as char else c
  }

  /** The two case mappings undo each other on letters and both keep every non-letter. */
  lemma CaseRoundTrip(c: char)
    ensures IsUpperLetter(c) ==> UpperChar(LowerChar(c)) == c
    ensures IsLowerLetter(c) ==> LowerChar(UpperChar(c)) == c
    ensures !IsLowerLetter(c) && !IsUpperLetter(c) ==> LowerChar(c) == c && UpperChar(c) == c
  {
  }

  /**
   * `s.toLowerCase()`: same length, each character lower-cased by `LowerChar`
   * in place, so no upper-case letter is left and every other character is kept.
   */
  function Lower(s: string): (r: string)
    ensures |r| == |s|
    ensures forall i :: 0 <= i < |s| ==> r[i] == LowerChar(s[i])
    ensures forall i :: 0 <= i < |s| ==> !IsUpperLetter(r[i])
    ensures forall i :: 0 <= i < |s| && !IsUpperLetter(s[i]) ==> r[i] == s[i]
  {
    seq(|s|, i requires 0 <= i < |s| => LowerChar(s[i]))
  }

  /**
   * `s.toUpperCase()`: same length, each character upper-cased by `UpperChar`
   * in place, so no lower-case letter is left and every other character is kept.
   */
  function Upper(s: string): (r: string)
    ensures |r| == |s|
    ensures forall i :: 0 <= i < |s| ==> r[i] == UpperChar(s[i])
    ensures forall i :: 0 <= i < |s| ==> !IsLowerLetter(r[i])
    ensures forall i :: 0 <= i < |s| && !IsLowerLetter(s[i]) ==> r[i] == s[i]
  {
    seq(|s|, i requires 0 <= i < |s| => UpperChar(s[i]))
  }

  /** Lower-casing is idempotent, and a string without upper-case letters is its own lower-casing. */
  lemma LowerProperties(s: string)
    ensures Lower(Lower(s)) == Lower(s)
    ensures (forall i :: 0 <= i < |s| ==> !IsUpperLetter(s[i])) ==> Lower(s) == s
  {
  }

  /** Upper-casing is idempotent, and a string without lower-case letters is its own upper-casing. */
  lemma UpperProperties(s: string)
    ensures Upper(Upper(s)) == Upper(s)
    ensures (forall i :: 0 <= i < |s| ==> !IsLowerLetter(s[i])) ==> Upper(s) == s
  {
  }

  /** Upper-casing commutes with taking a prefix (`toUpperCase().slice(0, n)`). */
  lemma UpperTake(s: string, n: nat)
    ensures Upper(Take(s, n)) == Take(Upper(s), n)
  {
  }

  // ------------------------------------------------------ slice, prefix

  /** `s.slice(0, n)` for n >= 0: the first n characters, or all of s if it is shorter. */
  function Take(s: string, n: nat): (r: string)
    ensures |r| <= n && |r| <= |s|
    ensures |r| == n || r == s
    ensures r <= s
  {
    if |s| <= n then s else s[..n]
  }

  /** `s.startsWith(p)`: p is no longer than s and agrees with s character by character from the front. */
  function StartsWith(s: string, p: string): (b: bool)
    ensures b <==> |p| <= |s| && forall i :: 0 <= i < |p| ==> s[i] == p[i]
  {
    |p| <= |s| && s[..|p|] == p
  }

  // ------------------------------------------------------------ includes

  /** p occurs in s at offset i. */
  predicate OccursAt(s: string, p: string, i: nat)
  {
    i + |p| <= |s| && s[i..i + |p|] == p
  }

  /**
   * `s.includes(p)`, computed by trying every offset from the left: the
   * empty pattern is found in every string, and a pattern is never found in
   * a shorter string.
   */
  function Contains(s: string, p: string): (r: bool)
    ensures |p| == 0 ==> r
    ensures r ==> |p| <= |s|
    decreases |s|
  {
    if StartsWith(s, p) then true
    else if |s| == 0 then false
    else Contains(s[1..], p)
  }

  /** `includes` holds exactly when p occurs at some offset of s. */
  lemma {:induction false} ContainsIff(s: string, p: string)
    ensures Contains(s, p) <==> exists i: nat :: OccursAt(s, p, i)
    decreases |s|
  {
    if StartsWith(s, p) {
      assert OccursAt(s, p, 0);
    } else if |s| == 0 {
      forall i: nat ensures !OccursAt(s, p, i) {
      }
    } else {
      ContainsIff(s[1..], p);
      forall i: nat | OccursAt(s[1..], p, i) ensures OccursAt(s, p, i + 1) {
        assert s[i + 1..i + 1 + |p|] == s[1..][i..i + |p|];
      }
      forall i: nat | OccursAt(s, p, i) ensures i > 0 && OccursAt(s[1..], p, i - 1) {
        assert s[i..i + |p|] == s[1..][i - 1..i - 1 + |p|];
      }
    }
  }

  // ---------------------------------------------------------- split, join

  /** `s.split(sep)` for a one-character separator: never empty; `"".split(sep)` is `[""]`. */
  function Split(s: string, sep: char): (words: seq<string>)
    ensures |words| >= 1
  {
    if |s| == 0 then [""]
    else
      var rest := Split(s[1..], sep);
      if s[0] == sep then [""] + rest
      else [[s[0]] + rest[0]] + rest[1..]
  }

  /**
   * Joining pieces with a one-character separator, the inverse of `Split`
   * by which `JoinSplit` states that splitting loses nothing. It begins with
   * the first word and ends with the last.
   */
  function Join(words: seq<string>, sep: char): (r: string)
    ensures |words| > 0 ==> words[0] <= r
    ensures |words| > 0 ==> |words[|words| - 1]| <= |r| && r[|r| - |words[|words| - 1]|..] == words[|words| - 1]
  {
    if |words| == 0 then ""
    else if |words| == 1 then words[0]
    else words[0] + [sep] + Join(words[1..], sep)
  }

  /** Joining the pieces with the separator gives back the string. */
  lemma {:induction false} JoinSplit(s: string, sep: char)
    ensures Join(Split(s, sep), sep) == s
  {
    if |s| > 0 {
      var rest := Split(s[1..], sep);
      JoinSplit(s[1..], sep);
      if s[0] == sep {
        assert ([""] + rest)[1..] == rest;
      } else {
        var ws := [[s[0]] + rest[0]] + rest[1..];
        assert ws[1..] == rest[1..];
        if |rest| > 1 {
          assert Join(rest, sep) == rest[0] + [sep] + Join(rest[1..], sep);
          assert Join(ws, sep) == [s[0]] + rest[0] + [sep] + Join(rest[1..], sep);
        }
        assert s == [s[0]] + s[1..];
      }
    }
  }

  /** No piece contains the separator. */
  lemma {:induction false} SplitPiecesHaveNoSeparator(s: string, sep: char)
    ensures forall w :: w in Split(s, sep) ==> sep !in w
  {
    if |s| > 0 {
      SplitPiecesHaveNoSeparator(s[1..], sep);
      var rest := Split(s[1..], sep);
      if s[0] != sep {
        assert rest[0] in rest;
        forall w | w in rest[1..] ensures w in rest {
        }
      }
    }
  }

  // ---------------------------------------------------- first letters

  /** The first character of w, or nothing for an empty word (`w[0]` is undefined, which `join` prints as ""). */
  function FirstChar(w: string): (c: string)
  {
    if w == "" then "" else [w[0]]
  }

  /** The first character of every word, concatenated: at most one character per word. */
  function FirstLetters(words: seq<string>): (r: string)
    ensures |r| <= |words|
  {
    if |words| == 0 then "" else FirstChar(words[0]) + FirstLetters(words[1..])
  }

  /**
   * Reference definition, independent of Split: the characters of s that
   * start a word, i.e. are not sep and stand at the front or right after a
   * sep. `atStart` says whether s itself begins at a word boundary.
   */
  function WordStarts(s: string, sep: char, atStart: bool): (starts: string)
  {
    if |s| == 0 then ""
    else (if s[0] != sep && atStart then [s[0]] else "") + WordStarts(s[1..], sep, s[0] == sep)
  }

  /** A single word (no separator) starts at most one word. */
  lemma {:induction false} WordStartsOfWord(w: string, sep: char, atStart: bool)
    requires sep !in w
    ensures WordStarts(w, sep, atStart) == if atStart && w != "" then [w[0]] else ""
  {
    if |w| > 0 {
      assert sep !in w[1..] by {
        forall c | c in w[1..] ensures c in w {
        }
      }
      WordStartsOfWord(w[1..], sep, false);
    }
  }

  /** Word starts of a concatenation: the second part starts a word iff the first is empty and did, or ends in sep. */
  lemma {:induction false} WordStartsAppend(a: string, b: string, sep: char, atStart: bool)
    ensures WordStarts(a + b, sep, atStart) ==
              WordStarts(a, sep, atStart) + WordStarts(b, sep, if a == "" then atStart else a[|a| - 1] == sep)
  {
    if |a| == 0 {
      assert a + b == b;
    } else {
      var head := if a[0] != sep && atStart then [a[0]] else "";
      var flag := a[|a| - 1] == sep;
      assert (a + b)[0] == a[0];
      assert (a + b)[1..] == a[1..] + b;
      assert WordStarts(a + b, sep, atStart) == head + WordStarts(a[1..] + b, sep, a[0] == sep);
      assert WordStarts(a, sep, atStart) == head + WordStarts(a[1..], sep, a[0] == sep);
      WordStartsAppend(a[1..], b, sep, a[0] == sep);
      assert (if a[1..] == "" then a[0] == sep else a[1..][|a| - 2] == sep) == flag;
    }
  }

  /** The first letters of the split pieces are exactly the word-start characters. */
  lemma {:induction false} FirstLettersOfSplit(s: string, sep: char)
    ensures FirstLetters(Split(s, sep)) == WordStarts(s, sep, true)
    ensures FirstLetters(Split(s, sep)[1..]) == WordStarts(s, sep, false)
  {
    if |s| > 0 {
      var rest := Split(s[1..], sep);
      FirstLettersOfSplit(s[1..], sep);
      if s[0] == sep {
        assert ([""] + rest)[1..] == rest;
      } else {
        var ws := [[s[0]] + rest[0]] + rest[1..];
        assert ws[1..] == rest[1..];
        assert FirstChar(ws[0]) == [s[0]];
      }
    }
  }

  /** Two words separated by one space start exactly two words. */
  lemma WordStartsOfTwoWords(a: string, b: string)
    requires a != "" && b != "" && ' ' !in a && ' ' !in b
    ensures WordStarts(a + " " + b, ' ', true) == [a[0], b[0]]
  {
    var rest := " " + b;
    assert a + " " + b == a + rest;
    WordStartsAppend(a, rest, ' ', true);
    WordStartsOfWord(a, ' ', true);
    assert a[|a| - 1] in a;
    WordStartsAppend(" ", b, ' ', false);
    WordStartsOfWord(b, ' ', true);
  }

  /** A name of two words separated by one space gives the first character of each. */
  lemma FirstLettersOfTwoWords(a: string, b: string)
    requires a != "" && b != "" && ' ' !in a && ' ' !in b
    ensures FirstLetters(Split(a + " " + b, ' ')) == [a[0], b[0]]
  {
    FirstLettersOfSplit(a + " " + b, ' ');
    WordStartsOfTwoWords(a, b);
  }
}
