/**
 * String helpers shared by the page renderer and the request builder.
 * Strings are sequences of characters; JavaScript's UTF-16 code units are
 * not distinguished from characters here.
 */
module Strings {

  /** `s.indexOf(c)` of JavaScript for a one-character pattern: the first
      position holding `c`, or -1 when there is none. */
  function IndexOf(s: string, c: char): (r: int)
    ensures r == -1 <==> c !in s
    ensures r != -1 ==> 0 <= r < |s| && s[r] == c && c !in s[..r]
  {
    if s == [] then -1
    else if s[0] == c then 0
    else
      var rest := IndexOf(s[1..], c);
      if rest < 0 then -1 else rest + 1
  }

  /** The first occurrence of `c` is found again after a prefix free of `c`. */
  lemma {:induction false} IndexOfAfterPrefix(prefix: string, c: char, rest: string)
    requires c !in prefix
    requires c in rest
    ensures IndexOf(prefix + rest, c) == |prefix| + IndexOf(rest, c)
  {
    var i := IndexOf(rest, c);
    var s := prefix + rest;
    assert s[|prefix| + i] == c;
    assert s[..|prefix| + i] == prefix + rest[..i];
  }
}
