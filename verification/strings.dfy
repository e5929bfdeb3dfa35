/**
  Character-level text helpers: the ASCII case folding and substring search
  behind the case-insensitive keyword detectors, and the JavaScript notion of
  white space behind the analyzer's `trim()` guard.
 */
module Strings {

  /** ASCII lower-casing. A regular expression with the `i` flag and without
      the `u` flag never folds a non-ASCII character onto an ASCII one, so for
      the all-ASCII patterns of the detectors this is the whole of the folding. */
  function Lower(c: char): char
  {
    if 'A' <= c <= 'Z' then (c as int + 32) as char else c
  }

  predicate IsDigit(c: char)
  {
    '0' <= c <= '9'
  }

  /** The (lower-case) pattern `kw` matches `text` case-insensitively at position `i`. */
  predicate MatchesAt(text: string, i: int, kw: string)
  {
    && 0 <= i
    && i + |kw| <= |text|
    && forall j :: 0 <= j < |kw| ==> Lower(text[i + j]) == kw[j]
  }

  /** `kw` occurs somewhere in `text`, ignoring ASCII case. No word boundaries. */
  predicate Occurs(text: string, kw: string)
  {
    exists i :: 0 <= i <= |text| - |kw| && MatchesAt(text, i, kw)
  }

  /** Leftmost case-insensitive match of `kw` in `text`, or -1: the search a
      regular expression's `test` performs for a single literal alternative. */
  method IndexOf(text: string, kw: string) returns (idx: int)
    ensures idx == -1 || 0 <= idx <= |text| - |kw|
    ensures idx == -1 <==> !Occurs(text, kw)
    ensures idx >= 0 ==> MatchesAt(text, idx, kw)
    ensures forall k :: 0 <= k < idx ==> !MatchesAt(text, k, kw)
  {
    var i := 0;
    while i <= |text| - |kw|
      invariant 0 <= i
      invariant |kw| <= |text| ==> i <= |text| - |kw| + 1
      invariant forall k :: 0 <= k < i ==> !MatchesAt(text, k, kw)
      decreases |text| - |kw| - i + 1
    {
      var j := 0;
      while j < |kw| && Lower(text[i + j]) == kw[j]
        invariant 0 <= j <= |kw|
        invariant forall m :: 0 <= m < j ==> Lower(text[i + m]) == kw[m]
      {
        j := j + 1;
      }
      if j == |kw| {
        assert MatchesAt(text, i, kw);
        return i;
      }
      i := i + 1;
    }
    return -1;
  }

  /** A match survives any text added on either side: the detectors are
      monotone under extension of the input. */
  lemma OccursInContext(text: string, kw: string, before: string, after: string)
    requires Occurs(text, kw)
    ensures Occurs(before + text + after, kw)
  {
    var i :| 0 <= i <= |text| - |kw| && MatchesAt(text, i, kw);
    var t := before + text + after;
    forall j | 0 <= j < |kw|
      ensures Lower(t[|before| + i + j]) == kw[j]
    {
      assert t[|before| + i + j] == text[i + j];
    }
    assert MatchesAt(t, |before| + i, kw);
  }

  /** A match of `kw` implies a match of every piece of it. */
  lemma OccursOfPiece(text: string, kw: string, from: nat, to: nat)
    requires Occurs(text, kw)
    requires from <= to <= |kw|
    ensures Occurs(text, kw[from..to])
  {
    var i :| 0 <= i <= |text| - |kw| && MatchesAt(text, i, kw);
    var piece := kw[from..to];
    forall j | 0 <= j < |piece|
      ensures Lower(text[i + from + j]) == piece[j]
    {
      assert piece[j] == kw[from + j];
    }
    assert MatchesAt(text, i + from, piece);
  }

  /** Some character of `text` folds to `c`. */
  predicate HasLetter(text: string, c: char)
  {
    exists i :: 0 <= i < |text| && Lower(text[i]) == c
  }

  /** The upper-case partner of a lower-case ASCII letter. */
  function UpperOf(c: char): char
  {
    if 'a' <= c <= 'z' then (c as int - 32) as char else c
  }

  /** `c` appears in `text` in neither case: a check the verifier can
      evaluate on a literal. */
  predicate Absent(text: string, c: char)
  {
    c !in text && UpperOf(c) !in text
  }

  lemma AbsentHasNoLetter(text: string, c: char)
    requires Lower(c) == c
    requires Absent(text, c)
    ensures !HasLetter(text, c)
  {
    forall i | 0 <= i < |text|
      ensures Lower(text[i]) != c
    {
      assert text[i] in text;
    }
  }

  /** Every character of a match folds from a character of the text. */
  lemma MatchHasLetter(text: string, i: int, kw: string, j: int)
    requires MatchesAt(text, i, kw)
    requires 0 <= j < |kw|
    ensures HasLetter(text, kw[j])
  {
    assert Lower(text[i + j]) == kw[j];
  }

  /** The characters `String.prototype.trim` removes: ECMAScript WhiteSpace
      and LineTerminator code points. */
  predicate IsJsWhiteSpace(c: char)
  {
    || c == '\t' || c == '\n' || c == '\U{000B}' || c == '\U{000C}' || c == '\r'
    || c == ' ' || c == '\U{00A0}' || c == '\U{1680}'
    || ('\U{2000}' <= c <= '\U{200A}')
    || c == '\U{2028}' || c == '\U{2029}' || c == '\U{202F}' || c == '\U{205F}'
    || c == '\U{3000}' || c == '\U{FEFF}'
  }

  predicate IsBlank(s: string)
  {
    forall i :: 0 <= i < |s| ==> IsJsWhiteSpace(s[i])
  }

  function TrimStart(s: string): (r: string)
    ensures |r| <= |s| && r == s[|s| - |r|..]
    ensures IsBlank(s[..|s| - |r|])
    ensures |r| > 0 ==> !IsJsWhiteSpace(r[0])
  {
    if |s| > 0 && IsJsWhiteSpace(s[0]) then TrimStart(s[1..]) else s
  }

  function TrimEnd(s: string): (r: string)
    ensures |r| <= |s| && r == s[..|r|]
    ensures IsBlank(s[|r|..])
    ensures |r| > 0 ==> !IsJsWhiteSpace(r[|r| - 1])
  {
    if |s| > 0 && IsJsWhiteSpace(s[|s| - 1]) then TrimEnd(s[..|s| - 1]) else s
  }

  /** `String.prototype.trim`. */
  function Trim(s: string): (r: string)
    ensures |r| > 0 ==> !IsJsWhiteSpace(r[0]) && !IsJsWhiteSpace(r[|r| - 1])
    ensures exists lead ::
      && 0 <= lead <= |s| - |r|
      && s[lead..lead + |r|] == r && IsBlank(s[..lead]) && IsBlank(s[lead + |r|..])
  {
    var t := TrimStart(s);
    TrimmedInfix(s, t, TrimEnd(t));
    TrimEnd(t)
  }

  /** Blank text cut from the front and then from the back leaves an infix
      with blank text on either side. */
  lemma TrimmedInfix(s: string, t: string, r: string)
    requires |t| <= |s| && t == s[|s| - |t|..] && IsBlank(s[..|s| - |t|])
    requires |r| <= |t| && r == t[..|r|] && IsBlank(t[|r|..])
    requires |t| > 0 ==> !IsJsWhiteSpace(t[0])
    requires |r| > 0 ==> !IsJsWhiteSpace(r[|r| - 1])
    ensures |r| > 0 ==> !IsJsWhiteSpace(r[0]) && !IsJsWhiteSpace(r[|r| - 1])
    ensures exists lead ::
      && 0 <= lead <= |s| - |r|
      && s[lead..lead + |r|] == r && IsBlank(s[..lead]) && IsBlank(s[lead + |r|..])
  {
    var lead := |s| - |t|;
    if |r| > 0 {
      assert r[0] == t[0];
    }
    assert s[lead..lead + |r|] == r;
    assert s[lead + |r|..] == t[|r|..];
  }

  /** The analyzer's guard `!text.trim()` holds exactly for blank text. */
  lemma {:induction false} TrimEmptyIffBlank(s: string)
    ensures Trim(s) == "" <==> IsBlank(s)
  {
    var t := TrimStart(s);
    if Trim(s) == "" {
      assert t[0..] == t;
      assert |t| == 0;
      assert s[..|s|] == s;
    } else {
      var r := Trim(s);
      assert r[0] == t[0];
      assert t[0] == s[|s| - |t|];
    }
  }
}
