/**
 * The JavaScript string operations the front end relies on: `toLowerCase` (on
 * ASCII letters), `includes` and `trim`.
 */
module JsText {

  /** `toLowerCase` of one character, for the ASCII letters. */
  function LowerChar(c: char): char
  {
    if 'A' <= c <= 'Z' then (c as int + 32) as char else c
  }

  /** `s.toLowerCase()`, character by character. */
  function Lower(s: string): (r: string)
    ensures |r| == |s| && forall k :: 0 <= k < |s| ==> r[k] == LowerChar(s[k])
    ensures forall k :: 0 <= k < |r| ==> !('A' <= r[k] <= 'Z')
  {
    seq(|s|, k requires 0 <= k < |s| => LowerChar(s[k]))
  }

  /** Lowering twice is lowering once. */
  lemma LowerIdempotent(s: string)
    ensures Lower(Lower(s)) == Lower(s)
  {
  }

  /** `s.includes(q)`: `q` occurs in `s` starting at some position, tried from the left. */
  function Contains(s: string, q: string): bool
    decreases |s|
  {
    if q <= s then true
    else if s == [] then false
    else Contains(s[1..], q)
  }

  /** `q` occurs in `s` at position `i`. */
  predicate OccursAt(s: string, q: string, i: int)
  {
    0 <= i <= |s| - |q| && s[i..i + |q|] == q
  }

  /** `includes` finds exactly the substrings: there is a position where `q` occurs. */
  lemma {:induction false} ContainsIff(s: string, q: string)
    ensures Contains(s, q) <==> exists i :: OccursAt(s, q, i)
    decreases |s|
  {
    if q <= s {
      assert OccursAt(s, q, 0);
    } else if s != [] {
      ContainsIff(s[1..], q);
      if exists i :: OccursAt(s, q, i) {
        var i :| OccursAt(s, q, i);
        assert i != 0;
        assert OccursAt(s[1..], q, i - 1);
      }
      if exists i :: OccursAt(s[1..], q, i) {
        var i :| OccursAt(s[1..], q, i);
        assert OccursAt(s, q, i + 1);
      }
    } else {
      assert !exists i :: OccursAt(s, q, i);
    }
  }

  /**
   * The characters `trim` removes: the WhiteSpace and LineTerminator code points of
   * section 12.2 and 12.3 of ECMA-262 (tab, vertical tab, form feed, the no-break
   * space, the byte order mark, the space separators of Unicode category Zs, line
   * feed, carriage return, and the line and paragraph separators).
   */
  predicate IsJsSpace(c: char)
  {
    var n := c as int;
    || (0x09 <= n <= 0x0D) || n == 0x20 || n == 0xA0 || n == 0x1680
    || (0x2000 <= n <= 0x200A) || n == 0x2028 || n == 0x2029 || n == 0x202F
    || n == 0x205F || n == 0x3000 || n == 0xFEFF
  }

  function TrimStart(s: string): (r: string)
    ensures |r| <= |s| && r == s[|s| - |r|..]
    ensures r != [] ==> !IsJsSpace(r[0])
    ensures forall k :: 0 <= k < |s| - |r| ==> IsJsSpace(s[k])
  {
    if s != [] && IsJsSpace(s[0]) then TrimStart(s[1..]) else s
  }

  function TrimEnd(s: string): (r: string)
    ensures |r| <= |s| && r == s[..|r|]
    ensures r != [] ==> !IsJsSpace(r[|r| - 1])
    ensures forall k :: |r| <= k < |s| ==> IsJsSpace(s[k])
  {
    if s != [] && IsJsSpace(s[|s| - 1]) then TrimEnd(s[..|s| - 1]) else s
  }

  /** `s.trim()`. */
  function Trim(s: string): string
  {
    TrimEnd(TrimStart(s))
  }

  /** `s.trim() !== ""` fails exactly for the strings made only of white space, the empty one included. */
  lemma TrimEmpty(s: string)
    ensures Trim(s) == [] <==> forall k :: 0 <= k < |s| ==> IsJsSpace(s[k])
  {
    var a := TrimStart(s);
    assert |a| > 0 ==> a[0] == s[|s| - |a|];
  }
}
