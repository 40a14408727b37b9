/**
 * The two string operations the filter relies on: `toLowerCase`, folded
 * here on ASCII letters only, and `includes`, substring search.
 */
module Text {

  predicate IsUpperAscii(c: char) { 'A' <= c <= 'Z' }

  /** Case folding of one character; non-ASCII characters are left as they are. */
  function LowerChar(c: char): (r: char)
    ensures !IsUpperAscii(r)
    ensures IsUpperAscii(c) ==> r as int - c as int == 'a' as int - 'A' as int
    ensures !IsUpperAscii(c) ==> r == c
  {
    if IsUpperAscii(c) then (c as int - 'A' as int + 'a' as int) as char else c
  }

  /** `s.toLowerCase()`: every position is folded, nothing is added or removed. */
  function ToLower(s: string): (r: string)
    ensures |r| == |s|
    ensures forall i :: 0 <= i < |s| ==> r[i] == LowerChar(s[i])
    ensures forall i :: 0 <= i < |r| ==> !IsUpperAscii(r[i])
  {
    if s == [] then [] else [LowerChar(s[0])] + ToLower(s[1..])
  }

  lemma ToLowerEmpty()
    ensures ToLower("") == ""
  {
  }

  /** `t` occurs in `s` starting at index `i` (the reference meaning of `includes`). */
  ghost predicate OccursAt(s: string, t: string, i: int)
  {
    0 <= i && i + |t| <= |s| && s[i..i + |t|] == t
  }

  ghost predicate Occurs(s: string, t: string)
  {
    exists i :: OccursAt(s, t, i)
  }

  predicate IsPrefix(t: string, s: string)
  {
    |t| <= |s| && s[..|t|] == t
  }

  /** `s.includes(t)`: try every start position from the left. */
  function Includes(s: string, t: string): (r: bool)
    ensures r <==> Occurs(s, t)
    decreases |s|
  {
    if IsPrefix(t, s) then
      assert OccursAt(s, t, 0);
      true
    else if s == [] then
      assert forall i :: !OccursAt(s, t, i);
      false
    else
      var rest := Includes(s[1..], t);
      OccursInTail(s, t);
      rest
  }

  /** Past position 0, an occurrence in `s` is an occurrence in `s[1..]`, one place earlier. */
  lemma OccursInTail(s: string, t: string)
    requires s != []
    ensures forall i :: 1 <= i ==> (OccursAt(s, t, i) <==> OccursAt(s[1..], t, i - 1))
    ensures forall j :: OccursAt(s[1..], t, j) ==> OccursAt(s, t, j + 1)
  {
    forall i | 1 <= i
      ensures OccursAt(s, t, i) <==> OccursAt(s[1..], t, i - 1)
    {
      if i + |t| <= |s| {
        assert s[1..][i - 1..i - 1 + |t|] == s[i..i + |t|];
      }
    }
  }

  /** The empty string is a substring of every string. */
  lemma EmptyIncluded(s: string)
    ensures Includes(s, "")
  {
    assert OccursAt(s, "", 0);
  }
}
