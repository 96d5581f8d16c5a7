/**
 * SQL pattern matching as the queries use it: `column LIKE 'prefix%'` in the
 * job-number allocator and `column ILIKE '%search%'` in the client search.
 * `%` matches any run of characters and `_` exactly one; `ILIKE` compares
 * after folding ASCII letters to lower case.
 */
module SqlPattern {
  import opened Common

  /** `s LIKE p`, with no escape character. */
  predicate Like(p: string, s: string)
    decreases |p| + |s|
  {
    if |p| == 0 then |s| == 0
    else if p[0] == '%' then Like(p[1..], s) || (|s| > 0 && Like(p, s[1..]))
    else |s| > 0 && (p[0] == '_' || p[0] == s[0]) && Like(p[1..], s[1..])
  }

  /** A pattern piece with no wildcard in it matches only itself. */
  predicate Literal(q: string) {
    '%' !in q && '_' !in q
  }

  predicate Contains(s: string, q: string) {
    exists k :: 0 <= k <= |s| && StartsWith(s[k..], q)
  }

  lemma {:induction false} LikeAnything(s: string)
    ensures Like("%", s)
    decreases |s|
  {
    if |s| > 0 { LikeAnything(s[1..]); }
  }

  /** `LIKE 'q%'` with a literal `q` is a prefix test. */
  lemma {:induction false} LikePrefix(q: string, s: string)
    requires Literal(q)
    ensures Like(q + "%", s) <==> StartsWith(s, q)
    decreases |q|
  {
    if |q| == 0 {
      assert q + "%" == "%";
      LikeAnything(s);
    } else {
      assert (q + "%")[0] == q[0];
      assert (q + "%")[1..] == q[1..] + "%";
      assert Literal(q[1..]) by {
        assert forall i :: 0 <= i < |q[1..]| ==> q[1..][i] == q[i + 1];
      }
      if |s| > 0 {
        LikePrefix(q[1..], s[1..]);
        assert StartsWith(s, q) <==> q[0] == s[0] && StartsWith(s[1..], q[1..]) by {
          if q[0] == s[0] && StartsWith(s[1..], q[1..]) {
            assert s[..|q|] == [s[0]] + s[1..][..|q| - 1];
            assert q == [q[0]] + q[1..];
          }
          if StartsWith(s, q) {
            assert s[1..][..|q| - 1] == s[..|q|][1..];
          }
        }
      }
    }
  }

  /** A leading `%` tries every suffix. */
  lemma {:induction false} LikeLeadingRun(r: string, s: string)
    ensures Like("%" + r, s) <==> exists k :: 0 <= k <= |s| && Like(r, s[k..])
    decreases |s|
  {
    var p := "%" + r;
    assert p[0] == '%' && p[1..] == r;
    assert s[0..] == s;
    if |s| > 0 {
      LikeLeadingRun(r, s[1..]);
      if exists k :: 0 <= k <= |s| && Like(r, s[k..]) {
        var k :| 0 <= k <= |s| && Like(r, s[k..]);
        if k > 0 { assert s[1..][k - 1..] == s[k..]; }
      }
      if exists k :: 0 <= k <= |s[1..]| && Like(r, s[1..][k..]) {
        var k :| 0 <= k <= |s[1..]| && Like(r, s[1..][k..]);
        assert s[1..][k..] == s[k + 1..];
      }
    }
  }

  /** `LIKE '%q%'` with a literal `q` is a substring test. */
  lemma LikeContains(q: string, s: string)
    requires Literal(q)
    ensures Like("%" + q + "%", s) <==> Contains(s, q)
  {
    assert "%" + q + "%" == "%" + (q + "%");
    LikeLeadingRun(q + "%", s);
    forall k | 0 <= k <= |s| ensures Like(q + "%", s[k..]) <==> StartsWith(s[k..], q) {
      LikePrefix(q, s[k..]);
    }
  }

  /** ASCII lower-casing; other characters are left alone. */
  function LowerChar(c: char): char {
    if 'A' <= c <= 'Z' then (c as int + 32) as char else c
  }

  function Lower(s: string): (r: string)
    ensures |r| == |s| && forall i :: 0 <= i < |s| ==> r[i] == LowerChar(s[i])
  {
    seq(|s|, i requires 0 <= i < |s| => LowerChar(s[i]))
  }

  /** `s ILIKE p` */
  predicate ILike(p: string, s: string) {
    Like(Lower(p), Lower(s))
  }

  /** `ILIKE '%q%'` with a literal `q` keeps the strings holding `q`, ignoring ASCII case. */
  lemma ILikeContains(q: string, s: string)
    requires Literal(q)
    ensures ILike("%" + q + "%", s) <==> Contains(Lower(s), Lower(q))
  {
    assert Lower("%" + q + "%") == "%" + Lower(q) + "%";
    assert Literal(Lower(q)) by {
      forall i | 0 <= i < |q| ensures Lower(q)[i] != '%' && Lower(q)[i] != '_' {
        assert q[i] != '%' && q[i] != '_';
      }
    }
    LikeContains(Lower(q), Lower(s));
  }
}
