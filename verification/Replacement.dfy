/** strings.Replace and bytes.Replace with no limit. A Go string or byte slice is a Dafny
    string, one char per byte. */
module Replacement {

  /** For a search that is not empty: leftmost matches, not overlapping. */
  function Replace(s: string, search: string, replacement: string): string
    requires search != ""
    decreases |s|
  {
    if s == "" then ""
    else if search <= s then replacement + Replace(s[|search|..], search, replacement)
    else [s[0]] + Replace(s[1..], search, replacement)
  }

  /** x occurs in s, starting at i. */
  predicate OccursAt(s: string, x: string, i: int) {
    0 <= i <= |s| && x <= s[i..]
  }

  predicate Contains(s: string, x: string) {
    exists i :: 0 <= i <= |s| && OccursAt(s, x, i)
  }

  // ----- An empty search -----

  predicate Follows(c: char) {
    0x80 <= c as int <= 0xBF
  }

  /** The bytes utf8.DecodeRune takes: a well-formed sequence, or else one byte. */
  function RuneLength(s: string): (n: nat)
    requires s != ""
    ensures 1 <= n <= |s|
  {
    var first := s[0] as int;
    if 0xC2 <= first <= 0xDF && |s| >= 2 && Follows(s[1]) then 2
    else if 0xE0 <= first <= 0xEF && |s| >= 3 && Follows(s[1]) && Follows(s[2])
         && (first == 0xE0 ==> s[1] as int >= 0xA0) && (first == 0xED ==> s[1] as int <= 0x9F) then 3
    else if 0xF0 <= first <= 0xF4 && |s| >= 4 && Follows(s[1]) && Follows(s[2]) && Follows(s[3])
         && (first == 0xF0 ==> s[1] as int >= 0x90) && (first == 0xF4 ==> s[1] as int <= 0x8F) then 4
    else 1
  }

  /** The replacement before every rune and at the end. */
  function Interleave(s: string, replacement: string): string
    decreases |s|
  {
    if s == "" then replacement
    else replacement + (s[..RuneLength(s)] + Interleave(s[RuneLength(s)..], replacement))
  }

  function ReplaceBytes(s: string, search: string, replacement: string): string {
    if search == "" then Interleave(s, replacement) else Replace(s, search, replacement)
  }

  lemma {:induction false} InterleaveNothing(s: string)
    ensures Interleave(s, "") == s
    decreases |s|
  {
    if s != "" {
      InterleaveNothing(s[RuneLength(s)..]);
    }
  }

  /** Between plain bytes, before them and after them. */
  lemma {:induction false} InterleavePlain(s: string, c: char)
    requires forall i :: 0 <= i < |s| ==> s[i] as int < 0x80
    ensures |Interleave(s, [c])| == 2 * |s| + 1
    ensures forall i :: 0 <= i <= |s| ==> Interleave(s, [c])[2 * i] == c
    ensures forall i :: 0 <= i < |s| ==> Interleave(s, [c])[2 * i + 1] == s[i]
    decreases |s|
  {
    if s != "" {
      var rest := Interleave(s[1..], [c]);
      InterleavePlain(s[1..], c);
      assert Interleave(s, [c]) == [c] + ([s[0]] + rest);
      forall i | 0 <= i <= |s| ensures Interleave(s, [c])[2 * i] == c {
        if i > 0 {
          assert rest[2 * (i - 1)] == c;
        }
      }
      forall i | 0 <= i < |s| ensures Interleave(s, [c])[2 * i + 1] == s[i] {
        if i > 0 {
          assert rest[2 * (i - 1) + 1] == s[1..][i - 1];
        }
      }
    }
  }

  /** A text in which the search does not occur stays as it is. */
  lemma {:induction false} Untouched(s: string, search: string, replacement: string)
    requires search != "" && !Contains(s, search)
    ensures Replace(s, search, replacement) == s
    decreases |s|
  {
    assert s[0..] == s;
    assert search <= s ==> OccursAt(s, search, 0);
    if s != "" {
      TailContains(s, search, 1);
      Untouched(s[1..], search, replacement);
    }
  }

  /** Replacing a text by itself changes nothing. */
  lemma {:induction false} ReplaceSelf(s: string, x: string)
    requires x != ""
    ensures Replace(s, x, x) == s
    decreases |s|
  {
    if s != "" && x <= s {
      ReplaceSelf(s[|x|..], x);
      assert x + s[|x|..] == s;
    } else if s != "" {
      ReplaceSelf(s[1..], x);
    }
  }

  lemma {:induction false} ReplaceLength(s: string, x: string, y: string)
    requires x != ""
    ensures |y| >= |x| ==> |Replace(s, x, y)| >= |s|
    ensures |y| <= |x| ==> |Replace(s, x, y)| <= |s|
    decreases |s|
  {
    if s != "" && x <= s {
      ReplaceLength(s[|x|..], x, y);
    } else if s != "" {
      ReplaceLength(s[1..], x, y);
    }
  }

  /** Replacing what occurs by anything else changes the text. */
  lemma {:induction false} ReplaceChanges(s: string, x: string, y: string)
    requires x != "" && x != y && Contains(s, x)
    ensures Replace(s, x, y) != s
    decreases |s|
  {
    if x <= s {
      ReplaceLength(s[|x|..], x, y);
      var all := Replace(s, x, y);
      assert |y| == |x| ==> all[..|x|] == y && s[..|x|] == x;
    } else {
      var i :| 0 <= i <= |s| && OccursAt(s, x, i);
      assert s[0..] == s;
      assert s[1..][i - 1..] == s[i..];
      assert OccursAt(s[1..], x, i - 1);
      ReplaceChanges(s[1..], x, y);
      assert Replace(s, x, y)[1..] == Replace(s[1..], x, y);
    }
  }

  lemma TailContains(s: string, x: string, n: nat)
    requires n <= |s|
    ensures Contains(s[n..], x) ==> Contains(s, x)
  {
    if i :| OccursAt(s[n..], x, i) {
      assert s[n..][i..] == s[n + i..];
      assert OccursAt(s, x, n + i);
    }
  }

  /** Deleting a search text shortens s exactly when s contains it. */
  lemma {:induction false} DeletingShortens(s: string, search: string)
    requires search != ""
    ensures |Replace(s, search, "")| <= |s|
    ensures Contains(s, search) ==> |Replace(s, search, "")| < |s|
    decreases |s|
  {
    if s == "" {
    } else if search <= s {
      DeletingShortens(s[|search|..], search);
    } else {
      DeletingShortens(s[1..], search);
      assert s[0..] == s;
      if i :| 0 <= i <= |s| && OccursAt(s, search, i) {
        assert s[1..][i - 1..] == s[i..];
        assert OccursAt(s[1..], search, i - 1);
      }
    }
  }
}
