// Trimming a text of Unicode characters.
module Texts {

  // unicode.IsSpace
  predicate IsWhite(c: char) {
    || '\U{0009}' <= c <= '\U{000D}'
    || c in {' ', '\U{0085}', '\U{00A0}', '\U{1680}', '\U{2028}', '\U{2029}', '\U{202F}', '\U{205F}', '\U{3000}'}
    || '\U{2000}' <= c <= '\U{200A}'
  }

  // The text without the characters at its ends for which `off` holds.
  function TrimWhere(off: char -> bool, s: string): (r: string)
    ensures |r| <= |s|
    ensures r != [] ==> !off(r[0]) && !off(r[|r| - 1])
    ensures s != [] && !off(s[0]) && !off(s[|s| - 1]) ==> r == s
  {
    if s == [] then []
    else if off(s[0]) then TrimWhere(off, s[1..])
    else if off(s[|s| - 1]) then TrimWhere(off, s[..|s| - 1])
    else s
  }

  // What is taken off stood at the ends, and all of it is such characters.
  lemma {:induction false} TrimCuts(off: char -> bool, s: string) returns (front: string, back: string)
    ensures s == front + TrimWhere(off, s) + back && AllOff(off, front) && AllOff(off, back)
    decreases |s|
  {
    hide AllOff;
    assert AllOff(off, []) by { NoneOff(off); }
    if s == [] {
      front, back := [], [];
    } else if off(s[0]) {
      front, back := TrimCuts(off, s[1..]);
      assert s == [s[0]] + s[1..];
      OneMoreOff(off, [s[0]], front);
      front := [s[0]] + front;
    } else if off(s[|s| - 1]) {
      front, back := TrimCuts(off, s[..|s| - 1]);
      assert s == s[..|s| - 1] + [s[|s| - 1]];
      OneMoreOff(off, back, [s[|s| - 1]]);
      back := back + [s[|s| - 1]];
    } else {
      front, back := [], [];
    }
  }

  lemma NoneOff(off: char -> bool)
    ensures AllOff(off, [])
  {
  }

  lemma OneMoreOff(off: char -> bool, s: string, t: string)
    requires (|s| == 1 && off(s[0]) && AllOff(off, t)) || (AllOff(off, s) && |t| == 1 && off(t[0]))
    ensures AllOff(off, s + t)
  {
  }

  ghost predicate AllOff(off: char -> bool, s: string) {
    forall c :: c in s ==> off(c)
  }
}
