/**
 * Lexicographic order on strings, by code point, with a proper prefix before
 * the longer string: the order of Python's `<=` on `str` and of an SQL
 * `ORDER BY` on a text column under a byte-wise collation.
 */
module Lex {

  /** `a <= b` on Python strings. */
  predicate LexLe(a: string, b: string)
    decreases |a|
  {
    |a| == 0 || (|b| > 0 && (a[0] < b[0] || (a[0] == b[0] && LexLe(a[1..], b[1..]))))
  }

  lemma {:induction false} LexRefl(a: string)
    ensures LexLe(a, a)
    decreases |a|
  {
    if |a| > 0 { LexRefl(a[1..]); }
  }

  lemma {:induction false} LexTotal(a: string, b: string)
    ensures LexLe(a, b) || LexLe(b, a)
    decreases |a|
  {
    if |a| > 0 && |b| > 0 && a[0] == b[0] { LexTotal(a[1..], b[1..]); }
  }

  lemma {:induction false} LexTrans(a: string, b: string, c: string)
    requires LexLe(a, b) && LexLe(b, c)
    ensures LexLe(a, c)
    decreases |a|
  {
    if |a| > 0 && a[0] == b[0] && b[0] == c[0] { LexTrans(a[1..], b[1..], c[1..]); }
  }

  lemma {:induction false} LexAntisym(a: string, b: string)
    requires LexLe(a, b) && LexLe(b, a)
    ensures a == b
    decreases |a|
  {
    if |a| > 0 {
      LexAntisym(a[1..], b[1..]);
      assert a == [a[0]] + a[1..] && b == [b[0]] + b[1..];
    }
  }

  /** A shared prefix does not change the order. */
  lemma {:induction false} LexCommonPrefix(p: string, a: string, b: string)
    ensures LexLe(p + a, p + b) <==> LexLe(a, b)
    decreases |p|
  {
    if |p| > 0 {
      assert (p + a)[1..] == p[1..] + a && (p + b)[1..] == p[1..] + b;
      LexCommonPrefix(p[1..], a, b);
    } else {
      assert p + a == a && p + b == b;
    }
  }

  /** The greatest string of a non-empty list: what `ORDER BY ... DESC` puts first. */
  function LexMax(s: seq<string>): (m: string)
    requires |s| > 0
    ensures m in s
    ensures forall x :: x in s ==> LexLe(x, m)
    decreases |s|
  {
    if |s| == 1 then
      LexRefl(s[0]);
      s[0]
    else
      var rest := LexMax(s[1..]);
      assert forall x :: x in s ==> x == s[0] || x in s[1..];
      if LexLe(s[0], rest) then
        rest
      else
        LexTotal(s[0], rest);
        LexRefl(s[0]);
        forall x | x in s[1..] ensures LexLe(x, s[0]) { LexTrans(x, rest, s[0]); }
        s[0]
  }

  /** The greatest element does not depend on how the list is arranged. */
  lemma LexMaxUnique(s: seq<string>, t: seq<string>)
    requires |s| > 0 && forall x :: x in s <==> x in t
    ensures |t| > 0 && LexMax(s) == LexMax(t)
  {
    assert LexMax(s) in t;
    LexAntisym(LexMax(s), LexMax(t));
  }
}
