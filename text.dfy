/** String operations used by the pages' list logic (JavaScript's `trim`,
    `toLowerCase`, `includes`, `localeCompare`) and by the database's
    case-insensitive matching. */
module Text {

  /** Case folding: 'A'..'Z' become 'a'..'z'; every other character is kept. */
  function LowerChar(c: char): char {
    if 'A' <= c <= 'Z' then (c as int + 32) as char else c
  }

  function Lower(s: string): string {
    seq(|s|, i requires 0 <= i < |s| => LowerChar(s[i]))
  }

  lemma LowerAppend(a: string, b: string)
    ensures Lower(a + b) == Lower(a) + Lower(b)
  {
    assert forall i :: 0 <= i < |a + b| ==> Lower(a + b)[i] == (Lower(a) + Lower(b))[i];
  }

  /** Folding never produces a character that was not already a lower-case
      letter or the character itself, so characters outside 'A'..'Z' are fixed. */
  lemma LowerCharFixes(c: char)
    ensures !('A' <= c <= 'Z') ==> LowerChar(c) == c
    ensures LowerChar(LowerChar(c)) == LowerChar(c)
  {
  }

  /** ECMAScript's WhiteSpace and LineTerminator characters, which `trim` removes. */
  predicate IsSpace(c: char) {
    c == '\t' || c == '\n' || c == '\U{000B}' || c == '\U{000C}' || c == '\r' || c == ' '
    || c == '\U{00A0}' || c == '\U{1680}' || ('\U{2000}' <= c <= '\U{200A}')
    || c == '\U{2028}' || c == '\U{2029}' || c == '\U{202F}' || c == '\U{205F}'
    || c == '\U{3000}' || c == '\U{FEFF}'
  }

  predicate AllSpace(s: string) {
    forall i :: 0 <= i < |s| ==> IsSpace(s[i])
  }

  /** The number of white-space characters `s` starts with. */
  function LeadingSpaces(s: string): (n: nat)
    ensures n <= |s|
    ensures forall k :: 0 <= k < n ==> IsSpace(s[k])
    ensures n < |s| ==> !IsSpace(s[n])
  {
    if s != [] && IsSpace(s[0]) then 1 + LeadingSpaces(s[1..]) else 0
  }

  /** The number of white-space characters `s` ends with. */
  function TrailingSpaces(s: string): (n: nat)
    ensures n <= |s|
    ensures forall k :: |s| - n <= k < |s| ==> IsSpace(s[k])
    ensures n < |s| ==> !IsSpace(s[|s| - n - 1])
  {
    if s != [] && IsSpace(s[|s| - 1]) then 1 + TrailingSpaces(s[..|s| - 1]) else 0
  }

  /** `String.prototype.trim`: the slice of `s` left after removing leading and
      trailing white space.  It is empty exactly when `s` is all white space. */
  function Trim(s: string): (r: string)
    ensures r == [] || (!IsSpace(r[0]) && !IsSpace(r[|r| - 1]))
    ensures r == [] <==> AllSpace(s)
    ensures exists i, j :: 0 <= i <= j <= |s| && r == s[i..j]
  {
    var i := LeadingSpaces(s);
    if i == |s| then
      assert s[0..0] == [];
      []
    else
      var n := TrailingSpaces(s);
      assert |s| - n > i;
      s[i..|s| - n]
  }

  /** `t.includes(q)`: some suffix of `t` starts with `q`. */
  predicate Contains(t: string, q: string)
    decreases |t|
  {
    q <= t || (t != [] && Contains(t[1..], q))
  }

  lemma {:induction false} ContainsAt(t: string, q: string)
    ensures Contains(t, q) <==> exists i :: 0 <= i <= |t| && q <= t[i..]
    decreases |t|
  {
    if q <= t {
      assert t[0..] == t;
    } else if t == [] {
    } else {
      ContainsAt(t[1..], q);
      if Contains(t, q) {
        var i :| 0 <= i <= |t[1..]| && q <= t[1..][i..];
        assert t[1..][i..] == t[i + 1..];
      }
      if exists i :: 0 <= i <= |t| && q <= t[i..] {
        var i :| 0 <= i <= |t| && q <= t[i..];
        assert i != 0 by { assert t[0..] == t; }
        assert t[1..][i - 1..] == t[i..];
      }
    }
  }

  /** A string-valued total order standing for `localeCompare(a, b) <= 0`:
      code-point lexicographic order, a proper prefix first. */
  predicate StrLe(a: string, b: string)
    decreases |a|
  {
    if a == [] then true
    else if b == [] then false
    else if a[0] != b[0] then a[0] < b[0]
    else StrLe(a[1..], b[1..])
  }

  lemma {:induction false} StrLeTotal(a: string, b: string)
    ensures StrLe(a, b) || StrLe(b, a)
    decreases |a|
  {
    if a != [] && b != [] && a[0] == b[0] {
      StrLeTotal(a[1..], b[1..]);
    }
  }

  lemma {:induction false} StrLeTransitive(a: string, b: string, c: string)
    requires StrLe(a, b) && StrLe(b, c)
    ensures StrLe(a, c)
    decreases |a|
  {
    if a != [] && b != [] && c != [] && a[0] == b[0] && b[0] == c[0] {
      StrLeTransitive(a[1..], b[1..], c[1..]);
    }
  }

  lemma {:induction false} StrLeAntisymmetric(a: string, b: string)
    requires StrLe(a, b) && StrLe(b, a)
    ensures a == b
    decreases |a|
  {
    if a != [] && b != [] {
      StrLeAntisymmetric(a[1..], b[1..]);
      assert a == [a[0]] + a[1..] && b == [b[0]] + b[1..];
    }
  }
}
