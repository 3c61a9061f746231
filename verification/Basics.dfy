/** What several modules share: optional values, Python's `strip`, and the folding of ASCII letters. */
module Basics {

  datatype Option<T> = None | Some(value: T)

  // ---------------------------------------------------------------- strip

  function StripLeft(space: char -> bool, s: string): (r: string)
    ensures |r| <= |s| && r == s[|s| - |r|..]
    ensures r == [] || !space(r[0])
    ensures forall i :: 0 <= i < |s| - |r| ==> space(s[i])
  {
    if s != [] && space(s[0]) then StripLeft(space, s[1..]) else s
  }

  function StripRight(space: char -> bool, s: string): (r: string)
    ensures r <= s
    ensures r == [] || !space(r[|r| - 1])
    ensures forall i :: |r| <= i < |s| ==> space(s[i])
  {
    if s != [] && space(s[|s| - 1]) then StripRight(space, s[..|s| - 1]) else s
  }

  function Strip(space: char -> bool, s: string): string {
    StripRight(space, StripLeft(space, s))
  }

  lemma StripTwice(space: char -> bool, s: string)
    ensures Strip(space, Strip(space, s)) == Strip(space, s)
  {
    var l := StripLeft(space, s);
    var r := Strip(space, s);
    assert r <= l;
    assert r != [] ==> r[0] == l[0];
  }

  // ---------------------------------------------------------------- ASCII letters

  /** Lower case for the ASCII letters, every other character as it is. */
  function LowerChar(c: char): (r: char)
    ensures !('A' <= r <= 'Z') && (r != c ==> 'a' <= r <= 'z' && r as int == c as int + 32)
    ensures !('A' <= c <= 'Z') ==> r == c
  {
    if 'A' <= c <= 'Z' then c - 'A' + 'a' else c
  }
}
