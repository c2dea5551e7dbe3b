/**
 * String helpers the controllers rely on: .NET's `char.IsWhiteSpace`,
 * `string.Trim`, `string.ToLower` and the upper-casing used by the identity
 * library to look users up by e-mail. Strings are sequences of characters.
 */
module Text {

  /** The characters `char.IsWhiteSpace` accepts (the Unicode White_Space set). */
  predicate IsWhiteSpace(c: char)
  {
    || c == ' '
    || ('\t' <= c <= '\r')
    || c == '\U{85}'
    || c == '\U{A0}'
    || c == '\U{1680}'
    || ('\U{2000}' <= c <= '\U{200A}')
    || c == '\U{2028}'
    || c == '\U{2029}'
    || c == '\U{202F}'
    || c == '\U{205F}'
    || c == '\U{3000}'
  }

  /** `string.IsNullOrWhiteSpace` for a present string: every character is white space. */
  predicate IsBlank(s: string)
  {
    forall i :: 0 <= i < |s| ==> IsWhiteSpace(s[i])
  }

  /** The first index from `i` on that does not hold white space, or `|s|`. */
  function SkipLeading(s: string, i: nat): (r: nat)
    requires i <= |s|
    ensures i <= r <= |s|
    ensures forall k :: i <= k < r ==> IsWhiteSpace(s[k])
    ensures r == |s| || !IsWhiteSpace(s[r])
    decreases |s| - i
  {
    if i < |s| && IsWhiteSpace(s[i]) then SkipLeading(s, i + 1) else i
  }

  /** Scanning down from `j`, but not below `lo`: the end of the last character that is not white space. */
  function SkipTrailing(s: string, j: nat, lo: nat): (r: nat)
    requires lo <= j <= |s|
    ensures lo <= r <= j
    ensures forall k :: r <= k < j ==> IsWhiteSpace(s[k])
    ensures r == lo || !IsWhiteSpace(s[r - 1])
    decreases j
  {
    if j > lo && IsWhiteSpace(s[j - 1]) then SkipTrailing(s, j - 1, lo) else j
  }

  /**
   * `string.Trim()`: skips the white space at the start, then the white space
   * at the end of what is left, and keeps the characters in between.
   */
  function Trim(s: string): (r: string)
    ensures |r| <= |s|
    ensures r == [] || (!IsWhiteSpace(r[0]) && !IsWhiteSpace(r[|r| - 1]))
    ensures r == [] <==> IsBlank(s)
  {
    var start := SkipLeading(s, 0);
    var end := SkipTrailing(s, |s|, start);
    assert end > start || IsBlank(s) by {
      if start < |s| {
        assert !IsWhiteSpace(s[start]);
      }
    }
    s[start..end]
  }

  /**
   * `Trim` cuts only white space: what it keeps is the infix of `s` that
   * starts at the first character that is not white space, and what it drops
   * on either side is blank.
   */
  lemma {:induction false} TrimIsInfix(s: string)
    ensures var i := SkipLeading(s, 0);
      && i + |Trim(s)| <= |s|
      && Trim(s) == s[i..i + |Trim(s)|]
      && IsBlank(s[..i]) && IsBlank(s[i + |Trim(s)|..])
  {
    var i := SkipLeading(s, 0);
    var j := SkipTrailing(s, |s|, i);
    assert Trim(s) == s[i..j];
    var head, tail := s[..i], s[j..];
    forall k | 0 <= k < |head|
      ensures IsWhiteSpace(head[k])
    {
      assert head[k] == s[k];
    }
    forall k | 0 <= k < |tail|
      ensures IsWhiteSpace(tail[k])
    {
      assert tail[k] == s[j + k];
    }
  }

  /** Every character `Trim` keeps comes from `s`, so a property of all of `s`'s characters holds of the result. */
  lemma {:induction false} TrimKeepsProperty(s: string, p: char -> bool)
    requires forall k :: 0 <= k < |s| ==> p(s[k])
    ensures forall k :: 0 <= k < |Trim(s)| ==> p(Trim(s)[k])
  {
    var i := SkipLeading(s, 0);
    var j := SkipTrailing(s, |s|, i);
    var t := Trim(s);
    assert t == s[i..j];
    forall k | 0 <= k < |t|
      ensures p(t[k])
    {
      assert t[k] == s[i + k];
    }
  }

  /** A character of `s` that is not white space survives `Trim`. */
  lemma {:induction false} TrimKeepsNonWhiteSpace(s: string, d: nat)
    requires d < |s| && !IsWhiteSpace(s[d])
    ensures exists k :: 0 <= k < |Trim(s)| && Trim(s)[k] == s[d]
  {
    var i := SkipLeading(s, 0);
    var j := SkipTrailing(s, |s|, i);
    assert Trim(s) == s[i..j];
    assert Trim(s)[d - i] == s[d];
  }

  /** Trimming twice trims nothing more. */
  lemma {:induction false} TrimIdempotent(s: string)
    ensures Trim(Trim(s)) == Trim(s)
  {
    var r := Trim(s);
    assert SkipLeading(r, 0) == 0;
    assert SkipTrailing(r, |r|, 0) == |r|;
    assert r[0..|r|] == r;
  }

  /** Lower-cases one character; only the ASCII capitals change. */
  function LowerChar(c: char): (d: char)
    ensures 'A' <= c <= 'Z' ==> 'a' <= d <= 'z' && d as int - c as int == 32
    ensures !('A' <= c <= 'Z') ==> d == c
  {
    if 'A' <= c <= 'Z' then (c as int + 32) as char else c
  }

  /** Upper-cases one character; only the ASCII small letters change. */
  function UpperChar(c: char): (d: char)
    ensures 'a' <= c <= 'z' ==> 'A' <= d <= 'Z' && c as int - d as int == 32
    ensures !('a' <= c <= 'z') ==> d == c
  {
    if 'a' <= c <= 'z' then (c as int - 32) as char else c
  }

  /** `string.ToLower()`, character by character. */
  function Lower(s: string): (r: string)
    ensures |r| == |s|
  {
    seq(|s|, i requires 0 <= i < |s| => LowerChar(s[i]))
  }

  /** The upper-casing the identity library applies to e-mails before looking them up. */
  function Upper(s: string): (r: string)
    ensures |r| == |s|
  {
    seq(|s|, i requires 0 <= i < |s| => UpperChar(s[i]))
  }

  /** A lower-cased string has no ASCII capital left, and lower-casing it again changes nothing. */
  lemma {:induction false} LowerIdempotent(s: string)
    ensures forall i :: 0 <= i < |s| ==> !('A' <= Lower(s)[i] <= 'Z')
    ensures Lower(Lower(s)) == Lower(s)
  {
  }

  /** Lower-casing neither creates nor removes white space, so both scans stop at the same index. */
  lemma {:induction false} LowerSkipLeading(s: string, i: nat)
    requires i <= |s|
    ensures SkipLeading(Lower(s), i) == SkipLeading(s, i)
    decreases |s| - i
  {
    if i < |s| {
      assert Lower(s)[i] == LowerChar(s[i]);
      if IsWhiteSpace(s[i]) {
        LowerSkipLeading(s, i + 1);
      }
    }
  }

  lemma {:induction false} LowerSkipTrailing(s: string, j: nat, lo: nat)
    requires lo <= j <= |s|
    ensures SkipTrailing(Lower(s), j, lo) == SkipTrailing(s, j, lo)
    decreases j
  {
    if j > lo {
      assert Lower(s)[j - 1] == LowerChar(s[j - 1]);
      if IsWhiteSpace(s[j - 1]) {
        LowerSkipTrailing(s, j - 1, lo);
      }
    }
  }

  /** Lower-casing a slice is slicing the lower-cased string. */
  lemma {:induction false} LowerSlice(s: string, i: nat, j: nat)
    requires i <= j <= |s|
    ensures Lower(s)[i..j] == Lower(s[i..j])
  {
    var a, b := Lower(s)[i..j], Lower(s[i..j]);
    forall k | 0 <= k < |a|
      ensures a[k] == b[k]
    {
      assert a[k] == Lower(s)[i + k];
    }
  }

  /** Lower-casing commutes with `Trim`. */
  lemma {:induction false} LowerTrim(s: string)
    ensures Trim(Lower(s)) == Lower(Trim(s))
  {
    var i := SkipLeading(s, 0);
    var j := SkipTrailing(s, |s|, i);
    LowerSkipLeading(s, 0);
    LowerSkipTrailing(s, |s|, i);
    LowerSlice(s, i, j);
  }
}
