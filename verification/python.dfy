/**
 * The pieces of Python's built-in behaviour that the panorama pipeline leans on:
 * `int()` on a float, list indexing (negative indices wrap, anything else raises
 * IndexError), `os.path.join` on POSIX, `str.split` and `str.join`, and `2**k`.
 */
module Python {

  datatype Option<T> = None | Some(value: T)

  /** The exceptions the modelled code can raise and does not catch. */
  datatype Error = IndexError | ZeroDivisionError | ValueError

  datatype Result<T> = Ok(value: T) | Err(error: Error)

  /** `int(r)` for a float `r`: truncation toward zero (not floor). */
  function Trunc(r: real): int
  {
    if r >= 0.0 then r.Floor else -((-r).Floor)
  }

  /** Truncation keeps the sign and drops the fraction: `|int(r)| <= |r| < |int(r)| + 1`. */
  lemma TruncTowardZero(r: real)
    ensures 0.0 <= r ==> 0 <= Trunc(r) && Trunc(r) as real <= r < Trunc(r) as real + 1.0
    ensures r < 0.0 ==> Trunc(r) <= 0 && Trunc(r) as real - 1.0 < r <= Trunc(r) as real
  {
  }

  /**
   * The cell `xs[i]` picks in a list of length `n`: indices in [-n, n) are
   * valid, a negative one counts from the end; every other index raises
   * IndexError (None).
   */
  function PyIndex(i: int, n: nat): (r: Option<nat>)
    ensures r.Some? <==> -(n as int) <= i < n
    ensures r.Some? ==> r.value < n
  {
    if 0 <= i < n then Some(i)
    else if -(n as int) <= i < 0 then Some(n + i)
    else None
  }

  /** A valid index reaches the cell at the same position modulo the length. */
  lemma PyIndexWraps(i: int, n: nat)
    requires -(n as int) <= i < n
    ensures PyIndex(i, n).value == if 0 <= i then i else n + i
    ensures (PyIndex(i, n).value - i) % n == 0
  {
  }

  /** `2**k` for a non-negative integer `k`. */
  function Pow2(k: nat): (p: nat)
    ensures 1 <= p
    ensures 0 < k ==> p % 2 == 0
  {
    if k == 0 then 1 else 2 * Pow2(k - 1)
  }

  /** A POSIX path is absolute when it starts with a slash. */
  predicate IsAbsolute(p: string)
  {
    0 < |p| && p[0] == '/'
  }

  /**
   * `os.path.join(a, b)` on POSIX: an absolute `b` replaces `a`; otherwise a
   * slash is inserted unless `a` is empty or already ends with one.
   */
  function PathJoin(a: string, b: string): string
  {
    if IsAbsolute(b) then b
    else if a == "" || a[|a| - 1] == '/' then a + b
    else a + "/" + b
  }

  /**
   * An absolute name is the whole path; a relative one ends the path, after
   * the directory and, unless the directory is empty or ends with a slash,
   * one slash.
   */
  lemma PathJoinParts(a: string, b: string)
    ensures IsAbsolute(b) ==> PathJoin(a, b) == b
    ensures !IsAbsolute(b) ==>
      var p := PathJoin(a, b);
      |a| + |b| <= |p| && p[..|a|] == a && p[|p| - |b|..] == b
    ensures !IsAbsolute(b) && a != "" && a[|a| - 1] != '/' ==>
      var p := PathJoin(a, b);
      |p| == |a| + 1 + |b| && p[|a|] == '/'
  {
  }

  /** Joining one directory with two different relative names never gives the same path. */
  lemma PathJoinInjective(a: string, b1: string, b2: string)
    requires !IsAbsolute(b1) && !IsAbsolute(b2)
    requires PathJoin(a, b1) == PathJoin(a, b2)
    ensures b1 == b2
  {
    PathJoinParts(a, b1);
    PathJoinParts(a, b2);
    var p := PathJoin(a, b1);
    var sep := if a == "" || a[|a| - 1] == '/' then 0 else 1;
    assert b1 == p[|a| + sep..];
    assert b2 == p[|a| + sep..];
  }

  /** `sep.join(parts)` */
  function JoinWith(parts: seq<string>, sep: char): (s: string)
  {
    if |parts| == 0 then ""
    else if |parts| == 1 then parts[0]
    else parts[0] + [sep] + JoinWith(parts[1..], sep)
  }

  /** `s.split(sep)` for a one-character separator (no maxsplit). */
  function Split(s: string, sep: char): (parts: seq<string>)
    ensures 1 <= |parts|
    ensures forall k :: 0 <= k < |parts| ==> sep !in parts[k]
    ensures JoinWith(parts, sep) == s
    decreases |s|
  {
    if |s| == 0 then [""]
    else if s[0] == sep then
      var rest := Split(s[1..], sep);
      assert s == [sep] + s[1..];
      [""] + rest
    else
      var rest := Split(s[1..], sep);
      var parts := [[s[0]] + rest[0]] + rest[1..];
      assert JoinWith(parts, sep) == s by {
        if |rest| == 1 {
          assert s == [s[0]] + s[1..];
        } else {
          assert parts[1..] == rest[1..];
          assert JoinWith(rest, sep) == rest[0] + [sep] + JoinWith(rest[1..], sep);
          assert s == [s[0]] + s[1..];
        }
      }
      parts
  }

  /** Splitting a separator-free string gives it back whole. */
  lemma {:induction false} SplitNoSep(a: string, sep: char)
    requires sep !in a
    ensures Split(a, sep) == [a]
    decreases |a|
  {
    if |a| > 0 {
      SplitNoSep(a[1..], sep);
      assert [a[0]] + a[1..] == a;
    }
  }

  /** A separator-free first field splits off cleanly. */
  lemma {:induction false} SplitCons(a: string, b: string, sep: char)
    requires sep !in a
    ensures Split(a + [sep] + b, sep) == [a] + Split(b, sep)
    decreases |a|
  {
    var s := a + [sep] + b;
    if |a| == 0 {
      assert s[0] == sep && s[1..] == b;
      assert Split(s, sep) == [""] + Split(s[1..], sep);
    } else {
      assert s[0] == a[0] != sep;
      assert s[1..] == a[1..] + [sep] + b;
      SplitCons(a[1..], b, sep);
      var rest := Split(s[1..], sep);
      assert rest == [a[1..]] + Split(b, sep);
      assert Split(s, sep) == [[s[0]] + rest[0]] + rest[1..];
      assert [a[0]] + a[1..] == a;
    }
  }

  /** Splitting undoes joining whenever no part contains the separator. */
  lemma {:induction false} SplitJoinWith(parts: seq<string>, sep: char)
    requires 1 <= |parts|
    requires forall k :: 0 <= k < |parts| ==> sep !in parts[k]
    ensures Split(JoinWith(parts, sep), sep) == parts
    decreases |parts|
  {
    if |parts| == 1 {
      SplitNoSep(parts[0], sep);
    } else {
      SplitJoinWith(parts[1..], sep);
      SplitCons(parts[0], JoinWith(parts[1..], sep), sep);
      assert [parts[0]] + parts[1..] == parts;
    }
  }

  /** Shares of one total add up like their parts. */
  lemma DivAdd(a: real, b: real, t: real)
    requires t != 0.0
    ensures a / t + b / t == (a + b) / t
  {
    assert (a / t + b / t) * t == a + b;
  }

  /** Any positive amount is all of itself. */
  lemma Whole(x: real)
    requires 0.0 < x
    ensures x / x == 1.0
  {
  }
}
