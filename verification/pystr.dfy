/**
 * The few Python string builtins the answer-preparation path relies on:
 * `str.lower()`, the substring test `pat in text`, and `str.strip()`.
 */
module PyStr {

  // ---------------------------------------------------------------------------
  // str.lower()
  // ---------------------------------------------------------------------------

  /** Lower-cases one character; only the ASCII letters 'A'..'Z' change. */
  function LowerChar(c: char): (r: char)
    ensures 'A' <= c <= 'Z' ==> r as int == c as int + 32
    ensures !('A' <= c <= 'Z') ==> r == c
    ensures !('A' <= r <= 'Z')
  {
    if 'A' <= c <= 'Z' then (c as int + 32) as char else c
  }

  /** `s.lower()`, character by character. */
  function Lower(s: string): (r: string)
    ensures |r| == |s|
    ensures forall i :: 0 <= i < |s| ==> r[i] == LowerChar(s[i])
  {
    seq(|s|, i requires 0 <= i < |s| => LowerChar(s[i]))
  }

  /** Lower-casing twice is lower-casing once. */
  lemma LowerIdempotent(s: string)
    ensures Lower(Lower(s)) == Lower(s)
  {
    var once, twice := Lower(s), Lower(Lower(s));
    assert |twice| == |once|;
    forall i | 0 <= i < |once| ensures twice[i] == once[i] {
      assert !('A' <= once[i] <= 'Z');
    }
  }

  // ---------------------------------------------------------------------------
  // pat in text
  // ---------------------------------------------------------------------------

  /** `pat` occurs in `text` starting at index `i`. */
  ghost predicate OccursAt(text: string, pat: string, i: int)
  {
    0 <= i && i + |pat| <= |text| && text[i..i + |pat|] == pat
  }

  lemma OccursAtShift(text: string, pat: string, i: int)
    requires |text| > 0 && i >= 0
    ensures OccursAt(text[1..], pat, i) <==> OccursAt(text, pat, i + 1)
  {
    if 0 <= i && i + |pat| <= |text| - 1 {
      assert text[1..][i..i + |pat|] == text[i + 1..i + 1 + |pat|];
    }
  }

  /** Python's `pat in text` on strings: does `pat` occur anywhere in `text`? */
  function Contains(text: string, pat: string): (r: bool)
    ensures r <==> exists i :: OccursAt(text, pat, i)
    decreases |text|
  {
    if pat <= text then
      assert OccursAt(text, pat, 0);
      true
    else if text == [] then
      false
    else
      var rest := Contains(text[1..], pat);
      assert rest ==> exists i :: OccursAt(text, pat, i) by {
        if rest {
          var j :| OccursAt(text[1..], pat, j);
          OccursAtShift(text, pat, j);
        }
      }
      assert (exists i :: OccursAt(text, pat, i)) ==> rest by {
        if i :| OccursAt(text, pat, i) {
          assert i != 0;
          OccursAtShift(text, pat, i - 1);
        }
      }
      rest
  }

  // ---------------------------------------------------------------------------
  // str.strip()
  // ---------------------------------------------------------------------------

  /** Python's `str.isspace()` for one character: the characters `str.strip()` removes. */
  predicate IsSpace(c: char)
  {
    var n := c as int;
    || 0x09 <= n <= 0x0D || 0x1C <= n <= 0x20
    || n == 0x85 || n == 0xA0 || n == 0x1680
    || 0x2000 <= n <= 0x200A
    || n == 0x2028 || n == 0x2029 || n == 0x202F || n == 0x205F || n == 0x3000
  }

  ghost predicate AllSpace(s: string)
  {
    forall k :: 0 <= k < |s| ==> IsSpace(s[k])
  }

  /** Number of whitespace characters in `s` from index `i` onwards, up to the first non-space. */
  function SpacesFrom(s: string, i: nat): (n: nat)
    requires i <= |s|
    ensures i + n <= |s|
    ensures forall k :: i <= k < i + n ==> IsSpace(s[k])
    ensures i + n < |s| ==> !IsSpace(s[i + n])
    decreases |s| - i
  {
    if i < |s| && IsSpace(s[i]) then 1 + SpacesFrom(s, i + 1) else 0
  }

  /** Number of whitespace characters in `s` just before index `j`, back to the last non-space. */
  function SpacesBefore(s: string, j: nat): (n: nat)
    requires j <= |s|
    ensures n <= j
    ensures forall k :: j - n <= k < j ==> IsSpace(s[k])
    ensures n < j ==> !IsSpace(s[j - n - 1])
  {
    if j > 0 && IsSpace(s[j - 1]) then 1 + SpacesBefore(s, j - 1) else 0
  }

  /** `s` sits inside `t` at `i`, with nothing but whitespace before and after it. */
  ghost predicate StrippedAt(t: string, s: string, i: int)
  {
    && 0 <= i && i + |s| <= |t|
    && t[i..i + |s|] == s
    && AllSpace(t[..i])
    && AllSpace(t[i + |s|..])
  }

  /**
   * `s.strip()`: the part of `s` left after removing whitespace at both ends.
   * The result is a slice of `s` framed by whitespace only, and it is either
   * empty (exactly when `s` is all whitespace) or neither starts nor ends
   * with whitespace.
   */
  function Strip(s: string): (r: string)
    ensures exists i :: StrippedAt(s, r, i)
    ensures r == [] <==> AllSpace(s)
    ensures r != [] ==> !IsSpace(r[0]) && !IsSpace(r[|r| - 1])
  {
    var i := SpacesFrom(s, 0);
    if i == |s| then
      assert StrippedAt(s, [], i) by {
        var before := s[..i];
        assert forall k :: 0 <= k < i ==> before[k] == s[k];
      }
      assert AllSpace(s);
      []
    else
      var j := |s| - SpacesBefore(s, |s|);
      assert !IsSpace(s[i]) && i < j;
      var r := s[i..j];
      assert r[0] == s[i] && r[|r| - 1] == s[j - 1];
      assert !AllSpace(s);
      assert StrippedAt(s, r, i) by {
        var before, after := s[..i], s[j..];
        assert forall k :: 0 <= k < i ==> before[k] == s[k];
        assert forall k :: 0 <= k < |after| ==> after[k] == s[j + k];
      }
      r
  }

  /** A non-space character of `u` lies before any all-space suffix of `u`. */
  lemma NonSpaceBeforeSpaces(u: string, j: int, k: int)
    requires 0 <= j <= |u| && 0 <= k < |u|
    requires AllSpace(u[j..]) && !IsSpace(u[k])
    ensures k < j
  {
  }

  /** A string that neither starts nor ends with whitespace loses only the whitespace appended to it. */
  lemma {:induction false} StripAppendedSpace(s: string, ws: string)
    requires s != [] && !IsSpace(s[0]) && !IsSpace(s[|s| - 1])
    requires AllSpace(ws)
    ensures Strip(s + ws) == s
  {
    var t := s + ws;
    var i :| StrippedAt(t, Strip(t), i);
    var r := Strip(t);
    assert i == 0;
    NonSpaceBeforeSpaces(t, |r|, |s| - 1);
    assert r != [] && r[|r| - 1] == t[|r| - 1];
    assert t[|s|..] == ws;
    NonSpaceBeforeSpaces(t, |s|, |r| - 1);
    assert r == t[..|s|] == s;
  }

  lemma StripEmpty()
    ensures Strip("") == ""
  {
    assert AllSpace("");
  }

  /** Stripping removes the newline after a line with non-space ends. */
  lemma StripLineEnd(s: string)
    requires s != [] && !IsSpace(s[0]) && !IsSpace(s[|s| - 1])
    ensures Strip(s + "\n") == s
  {
    assert AllSpace("\n");
    StripAppendedSpace(s, "\n");
  }
}
