/**
 * Shared vocabulary of the model: optional values, the two ways a request
 * handler can fail, bytes, and the few string operations of Python's `str`
 * that the handlers use (prefix test, membership, `split` on one character).
 */
module Common {

  /** One octet of a file or of an encoded string. */
  newtype byte = x: int | 0 <= x < 256

  /** Python's `None` or a value. */
  datatype Option<+T> = None | Some(value: T) {
    /** `value if value is not None else d` */
    function GetOr(d: T): T {
      match this
      case Some(v) => v
      case None => d
    }
  }

  /**
   * How a handler ends when it does not return normally: an `HTTPException`
   * raised on purpose (status code and detail text), or an exception nobody
   * catches, which the framework answers with status 500.
   */
  datatype Error = HttpError(status: int, detail: string) | Crash(exception: string) {
    function StatusCode(): int {
      match this
      case HttpError(s, _) => s
      case Crash(_) => 500
    }
  }

  datatype Result<+T> = Ok(value: T) | Err(error: Error)

  /** Python truthiness of an optional string: `None` and `""` are false. */
  predicate Truthy(s: Option<string>) {
    s.Some? && s.value != ""
  }

  /** `s.startswith(p)` */
  predicate StartsWith(s: string, p: string) {
    |p| <= |s| && s[..|p|] == p
  }

  /** `sep.join(parts)` for a one-character separator. */
  function Join(parts: seq<string>, sep: char): string
    decreases |parts|
  {
    if |parts| == 0 then ""
    else if |parts| == 1 then parts[0]
    else parts[0] + [sep] + Join(parts[1..], sep)
  }

  /** `s.split(sep)` for a one-character separator: never empty, pieces may be empty. */
  function Split(s: string, sep: char): (r: seq<string>)
    ensures |r| >= 1
    decreases |s|
  {
    if |s| == 0 then [""]
    else
      var rest := Split(s[1..], sep);
      if s[0] == sep then [""] + rest
      else [[s[0]] + rest[0]] + rest[1..]
  }

  /** No piece of a split holds the separator, and joining the pieces gives the string back. */
  lemma {:induction false} SplitJoin(s: string, sep: char)
    ensures forall i :: 0 <= i < |Split(s, sep)| ==> sep !in Split(s, sep)[i]
    ensures Join(Split(s, sep), sep) == s
    decreases |s|
  {
    if |s| > 0 {
      SplitJoin(s[1..], sep);
      var rest := Split(s[1..], sep);
      if s[0] == sep {
        assert Split(s, sep) == [""] + rest;
        assert Join([""] + rest, sep) == "" + [sep] + Join(rest, sep);
      } else {
        var r := [[s[0]] + rest[0]] + rest[1..];
        assert Split(s, sep) == r;
        if |rest| == 1 {
          assert Join(r, sep) == [s[0]] + rest[0];
        } else {
          assert rest == [rest[0]] + rest[1..];
          assert Join(rest, sep) == rest[0] + [sep] + Join(rest[1..], sep);
          assert Join(r, sep) == [s[0]] + rest[0] + [sep] + Join(rest[1..], sep);
        }
      }
    }
  }

  /** A string without the separator splits into itself alone. */
  lemma {:induction false} SplitWithout(s: string, sep: char)
    requires sep !in s
    ensures Split(s, sep) == [s]
    decreases |s|
  {
    if |s| > 0 {
      assert sep !in s[1..] by {
        forall i | 0 <= i < |s[1..]| ensures s[1..][i] != sep { assert s[1..][i] == s[i + 1]; }
      }
      SplitWithout(s[1..], sep);
      assert s == [s[0]] + s[1..];
    }
  }

  /** Splitting at the first separator: the text before it is the first piece. */
  lemma {:induction false} SplitAtFirst(a: string, sep: char, rest: string)
    requires sep !in a
    ensures Split(a + [sep] + rest, sep) == [a] + Split(rest, sep)
    decreases |a|
  {
    var s := a + [sep] + rest;
    if |a| == 0 {
      assert s == [sep] + rest;
      assert s[1..] == rest;
    } else {
      assert s[0] == a[0] && a[0] != sep;
      assert s[1..] == a[1..] + [sep] + rest;
      assert sep !in a[1..] by {
        forall i | 0 <= i < |a[1..]| ensures a[1..][i] != sep { assert a[1..][i] == a[i + 1]; }
      }
      SplitAtFirst(a[1..], sep, rest);
      assert [a[0]] + a[1..] == a;
    }
  }

  /** Two separator-free parts around one separator split back into those parts. */
  lemma SplitTwo(a: string, sep: char, b: string)
    requires sep !in a && sep !in b
    ensures Split(a + [sep] + b, sep) == [a, b]
  {
    SplitAtFirst(a, sep, b);
    SplitWithout(b, sep);
  }

  /** `s.split(sep)[-1]`: the text after the last separator (or all of `s`). */
  function LastPiece(s: string, sep: char): string {
    var parts := Split(s, sep);
    parts[|parts| - 1]
  }

  /** The last piece holds no separator. */
  lemma LastPieceFree(s: string, sep: char)
    ensures sep !in LastPiece(s, sep)
  {
    SplitJoin(s, sep);
  }

  /** The position of the first `sep` in `s`, or `|s|` when there is none. */
  function IndexOf(s: string, sep: char): (k: nat)
    ensures k <= |s|
    ensures k < |s| ==> s[k] == sep
    ensures forall i :: 0 <= i < k ==> s[i] != sep
    decreases |s|
  {
    if |s| == 0 then 0
    else if s[0] == sep then 0
    else 1 + IndexOf(s[1..], sep)
  }

  /** The last piece of `a + sep + d`, when `d` has no separator, is `d`. */
  lemma {:induction false} LastPieceAfter(a: string, sep: char, d: string)
    requires sep !in d
    ensures LastPiece(a + [sep] + d, sep) == d
    decreases |a|
  {
    var f := IndexOf(a, sep);
    assert sep !in a[..f] by {
      forall i | 0 <= i < f ensures a[..f][i] != sep { assert a[..f][i] == a[i]; }
    }
    if f == |a| {
      assert a[..f] == a;
      SplitAtFirst(a, sep, d);
      SplitWithout(d, sep);
    } else {
      var rest := a[f + 1..] + [sep] + d;
      assert a + [sep] + d == a[..f] + [sep] + rest by {
        assert a == a[..f] + [sep] + a[f + 1..];
      }
      SplitAtFirst(a[..f], sep, rest);
      LastPieceAfter(a[f + 1..], sep, d);
    }
  }

  /** The first piece of a split is the text before the first separator. */
  lemma {:induction false} SplitFirst(s: string, sep: char)
    ensures Split(s, sep)[0] == s[..IndexOf(s, sep)]
    decreases |s|
  {
    if |s| > 0 && s[0] != sep {
      SplitFirst(s[1..], sep);
      assert s[..IndexOf(s, sep)] == [s[0]] + s[1..][..IndexOf(s[1..], sep)];
    }
  }

  /** `query.filter(key == v).first()`: the position of the first row whose key is `v`. */
  function FirstWhere<T, K(==)>(s: seq<T>, key: T -> K, v: K): (r: Option<nat>)
    ensures r.Some? ==> r.value < |s| && key(s[r.value]) == v && forall j :: 0 <= j < r.value ==> key(s[j]) != v
    ensures r.None? <==> forall i :: 0 <= i < |s| ==> key(s[i]) != v
    decreases |s|
  {
    if |s| == 0 then None
    else if key(s[0]) == v then Some(0)
    else
      match FirstWhere(s[1..], key, v)
      case None => None
      case Some(k) => Some(k + 1)
  }

  /** `query.filter(key == v).all()`: the rows whose key is `v`, in table order. */
  function Where<T(!new), K(==)>(s: seq<T>, key: T -> K, v: K): (r: seq<T>)
    ensures forall x :: x in r <==> x in s && key(x) == v
    ensures multiset(r) <= multiset(s)
    decreases |s|
  {
    if |s| == 0 then []
    else
      assert forall x :: x in s <==> x == s[0] || x in s[1..];
      assert s == [s[0]] + s[1..];
      (if key(s[0]) == v then [s[0]] else []) + Where(s[1..], key, v)
  }

  /** `os.path.join(a, b)` on POSIX: an absolute `b` replaces `a`. */
  function PosixJoin(a: string, b: string): (r: string)
    ensures StartsWith(b, "/") ==> r == b
    ensures !StartsWith(b, "/") && a != "" && a[|a| - 1] != '/' ==> r == a + "/" + b
  {
    if StartsWith(b, "/") then b
    else if a == "" || a[|a| - 1] == '/' then a + b
    else a + "/" + b
  }

  /** `s.rfind(c)`: the position of the last `c`, or -1. */
  function LastIndexOf(s: string, c: char): (k: int)
    ensures -1 <= k < |s|
    ensures k >= 0 ==> s[k] == c
    ensures forall j :: k < j < |s| ==> s[j] != c
    decreases |s|
  {
    if |s| == 0 then -1
    else if s[|s| - 1] == c then |s| - 1
    else LastIndexOf(s[..|s| - 1], c)
  }

  /** The last `c` is at `k` when `s[k]` is one and none follows it. */
  lemma {:induction false} LastIndexOfAt(s: string, c: char, k: int)
    requires -1 <= k < |s| && (k >= 0 ==> s[k] == c)
    requires forall j :: k < j < |s| ==> s[j] != c
    ensures LastIndexOf(s, c) == k
    decreases |s|
  {
    if |s| > 0 && k < |s| - 1 {
      var t := s[..|s| - 1];
      assert forall j :: k < j < |t| ==> t[j] == s[j];
      LastIndexOfAt(t, c, k);
    }
  }

  /** A prefix one longer is the shorter prefix and the next element. */
  lemma TakeOneMore<T>(s: seq<T>, k: nat)
    requires k < |s|
    ensures s[..k + 1] == s[..k] + [s[k]]
  {
  }
}
