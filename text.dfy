/**
 * The two string transforms of app.js: JavaScript's `String.prototype.trim`
 * (used on prep notes) and `toTitle` (used on cuisine keys).
 */
module Text {

  /**
   * The characters `trim` removes: ECMAScript WhiteSpace (tab, vertical tab,
   * form feed, space, no-break space, byte order mark and the other Unicode
   * space separators) and LineTerminator (line feed, carriage return, line
   * and paragraph separators).
   */
  predicate IsJsSpace(c: char) {
    var k := c as int;
    || k == 0x09 || k == 0x0A || k == 0x0B || k == 0x0C || k == 0x0D || k == 0x20
    || k == 0xA0 || k == 0x1680 || (0x2000 <= k <= 0x200A) || k == 0x2028 || k == 0x2029
    || k == 0x202F || k == 0x205F || k == 0x3000 || k == 0xFEFF
  }

  predicate AllSpace(s: string) {
    forall i :: 0 <= i < |s| ==> IsJsSpace(s[i])
  }

  /** The index of the first non-space at or after `lo`, or `|s|` when there is none. */
  function SkipSpaces(s: string, lo: nat): (b: nat)
    requires lo <= |s|
    ensures lo <= b <= |s|
    ensures forall i :: lo <= i < b ==> IsJsSpace(s[i])
    ensures b < |s| ==> !IsJsSpace(s[b])
    decreases |s| - lo
  {
    if lo < |s| && IsJsSpace(s[lo]) then SkipSpaces(s, lo + 1) else lo
  }

  /** The index just past the last non-space in `s[lo..hi]`, or `lo` when there is none. */
  function SkipSpacesBack(s: string, lo: nat, hi: nat): (e: nat)
    requires lo <= hi <= |s|
    ensures lo <= e <= hi
    ensures forall i :: e <= i < hi ==> IsJsSpace(s[i])
    ensures e > lo ==> !IsJsSpace(s[e - 1])
    decreases hi
  {
    if lo < hi && IsJsSpace(s[hi - 1]) then SkipSpacesBack(s, lo, hi - 1) else hi
  }

  /**
   * `s.trim()`: the infix of `s` that starts after its `SkipSpaces(s, 0)`
   * leading white-space characters; everything removed before and after it
   * is white space, it neither starts nor ends with white space, and it is
   * empty exactly when `s` is all white space.
   */
  function Trim(s: string): (r: string)
    ensures var lead := SkipSpaces(s, 0);
            && lead + |r| <= |s|
            && r == s[lead..lead + |r|]
            && (forall i :: 0 <= i < lead ==> IsJsSpace(s[i]))
            && (forall i :: lead + |r| <= i < |s| ==> IsJsSpace(s[i]))
    ensures r != [] ==> !IsJsSpace(r[0]) && !IsJsSpace(r[|r| - 1])
    ensures r == [] <==> AllSpace(s)
  {
    var b := SkipSpaces(s, 0);
    var e := SkipSpacesBack(s, b, |s|);
    s[b..e]
  }

  /** Trimming twice is trimming once. */
  lemma TrimIdempotent(s: string)
    ensures Trim(Trim(s)) == Trim(s)
  {
    var r := Trim(s);
    if r != [] {
      assert SkipSpaces(r, 0) == 0;
      assert SkipSpacesBack(r, 0, |r|) == |r|;
    }
  }

  /** JavaScript's `\w`, which is ASCII only without the `u` flag. */
  predicate IsWordChar(c: char) {
    ('a' <= c <= 'z') || ('A' <= c <= 'Z') || ('0' <= c <= '9') || c == '_'
  }

  /** `toUpperCase` on the characters `\w` matches: only a to z change. */
  function ToUpper(c: char): (u: char)
    ensures IsWordChar(c) <==> IsWordChar(u)
    ensures 'a' <= c <= 'z' ==> 'A' <= u <= 'Z' && u as int == c as int - 32
    ensures !('a' <= c <= 'z') ==> u == c
  {
    if 'a' <= c <= 'z' then (c as int - 32) as char else c
  }

  predicate IsSeparator(c: char) {
    c == '-' || c == '_'
  }

  /** A letter or digit: the characters that stay word characters once `-` and `_` are spaces. */
  predicate IsAlnum(c: char) {
    IsWordChar(c) && c != '_'
  }

  /**
   * Position `i` of `s` begins a word of the title: its character is a letter
   * or digit and the character before it (if any) is not.
   */
  predicate BeginsWord(s: string, i: int)
    requires 0 <= i < |s|
  {
    IsAlnum(s[i]) && (i == 0 || !IsAlnum(s[i - 1]))
  }

  /** First pass, `replace(/[-_]/g, ' ')`. */
  function SeparatorsToSpaces(s: string): (r: string)
    ensures |r| == |s|
    ensures forall i :: 0 <= i < |s| ==> r[i] == if IsSeparator(s[i]) then ' ' else s[i]
  {
    if s == [] then []
    else [if IsSeparator(s[0]) then ' ' else s[0]] + SeparatorsToSpaces(s[1..])
  }

  /** Whether the character before position `i` of `s` is a `\w`; `afterWord` for the first. */
  predicate AfterWordAt(s: string, afterWord: bool, i: int)
    requires 0 <= i < |s|
  {
    if i == 0 then afterWord else IsWordChar(s[i - 1])
  }

  /** The character the second pass leaves at position `i`. */
  function UpperAt(s: string, afterWord: bool, i: int): char
    requires 0 <= i < |s|
  {
    if IsWordChar(s[i]) && !AfterWordAt(s, afterWord, i) then ToUpper(s[i]) else s[i]
  }

  /**
   * Second pass, `replace(/\b\w/g, c => c.toUpperCase())`, scanning left to
   * right; `afterWord` says whether the character before `s` was a `\w`.
   */
  function UpperWordStarts(s: string, afterWord: bool): (r: string)
    ensures |r| == |s|
    ensures forall i :: 0 <= i < |s| ==> r[i] == UpperAt(s, afterWord, i)
  {
    if s == [] then []
    else
      var start := IsWordChar(s[0]) && !afterWord;
      var rest := UpperWordStarts(s[1..], IsWordChar(s[0]));
      UpperAtShift(s, afterWord);
      [if start then ToUpper(s[0]) else s[0]] + rest
  }

  lemma UpperAtShift(s: string, afterWord: bool)
    requires s != []
    ensures forall i :: 1 <= i < |s| ==> UpperAt(s[1..], IsWordChar(s[0]), i - 1) == UpperAt(s, afterWord, i)
  {
    forall i | 1 <= i < |s|
      ensures UpperAt(s[1..], IsWordChar(s[0]), i - 1) == UpperAt(s, afterWord, i)
    {
      assert s[1..][i - 1] == s[i];
      if i > 1 { assert s[1..][i - 2] == s[i - 1]; }
    }
  }

  /**
   * `toTitle(s)`: same length as `s`; every `-` and `_` becomes a space, the
   * first character of every word is upper-cased, and every other character
   * is left as it was.
   */
  function ToTitle(s: string): (r: string)
    ensures |r| == |s|
    ensures forall i :: 0 <= i < |s| ==>
      r[i] == if IsSeparator(s[i]) then ' '
              else if BeginsWord(s, i) then ToUpper(s[i])
              else s[i]
    ensures forall i :: 0 <= i < |r| ==> !IsSeparator(r[i])
  {
    ToTitlePointwise(s);
    UpperWordStarts(SeparatorsToSpaces(s), false)
  }

  lemma ToTitlePointwise(s: string)
    ensures var r := UpperWordStarts(SeparatorsToSpaces(s), false);
            forall i :: 0 <= i < |s| ==>
              r[i] == if IsSeparator(s[i]) then ' ' else if BeginsWord(s, i) then ToUpper(s[i]) else s[i]
  {
    var t := SeparatorsToSpaces(s);
    var r := UpperWordStarts(t, false);
    forall i | 0 <= i < |s|
      ensures r[i] == if IsSeparator(s[i]) then ' ' else if BeginsWord(s, i) then ToUpper(s[i]) else s[i]
    {
      assert r[i] == UpperAt(t, false, i);
      assert IsWordChar(t[i]) <==> IsAlnum(s[i]);
      if i > 0 {
        assert IsWordChar(t[i - 1]) <==> IsAlnum(s[i - 1]);
      }
    }
  }

  /** Applying `toTitle` to a title changes nothing. */
  lemma ToTitleIdempotent(s: string)
    ensures ToTitle(ToTitle(s)) == ToTitle(s)
  {
    var t := ToTitle(s);
    assert forall i :: 0 <= i < |s| ==> (IsAlnum(t[i]) <==> IsAlnum(s[i]));
    assert forall i :: 0 <= i < |s| ==> !IsSeparator(t[i]);
  }
}
