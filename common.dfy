/**
 * Vocabulary shared by every module of the model: optional values and
 * results, the two closed enumerations of the schema (task status and
 * member role), the HTTP failures the route handlers answer with,
 * JavaScript string truthiness and `trim()`, substring search, and the
 * two sequence operations the store needs everywhere: an order-preserving
 * filter and a sort by an integer key.
 */
module Common {

  datatype Option<T> = None | Some(value: T)

  datatype Result<T, E> = Ok(value: T) | Err(error: E)

  /** The task lifecycle, in the order the schema's enumeration lists it. */
  datatype TaskStatus = BACKLOG | TODO | IN_PROGRESS | DONE | IN_REVIEW

  /** The string the database stores for a status. */
  function StatusName(s: TaskStatus): string
  {
    match s
    case BACKLOG => "BACKLOG"
    case TODO => "TODO"
    case IN_PROGRESS => "IN_PROGRESS"
    case DONE => "DONE"
    case IN_REVIEW => "IN_REVIEW"
  }

  /** `z.nativeEnum(TaskStatus)`: accepts exactly the five names. */
  function ParseStatus(name: string): (r: Option<TaskStatus>)
    ensures r.Some? ==> StatusName(r.value) == name
    ensures r.None? <==> forall s: TaskStatus :: StatusName(s) != name
  {
    if name == "BACKLOG" then Some(BACKLOG)
    else if name == "TODO" then Some(TODO)
    else if name == "IN_PROGRESS" then Some(IN_PROGRESS)
    else if name == "DONE" then Some(DONE)
    else if name == "IN_REVIEW" then Some(IN_REVIEW)
    else None
  }

  datatype MemberRole = ADMIN | MEMBER

  function RoleName(r: MemberRole): string
  {
    match r
    case ADMIN => "ADMIN"
    case MEMBER => "MEMBER"
  }

  /** The failures a route handler answers with, before it changes anything. */
  datatype Failure =
    | NotFound(message: string)
    | Unauthorized
    | BadRequest(message: string)
    | Conflict(message: string)
    | ValidationFailed

  function HttpStatus(f: Failure): int
  {
    match f
    case NotFound(_) => 404
    case Unauthorized => 401
    case BadRequest(_) => 400
    case Conflict(_) => 409
    case ValidationFailed => 400
  }

  datatype Response<T> = Success(data: T) | Failed(failure: Failure)

  /** A JavaScript string (possibly null or undefined) is truthy iff it is non-empty. */
  predicate Truthy(s: Option<string>)
  {
    s.Some? && s.value != ""
  }

  /** ECMAScript WhiteSpace and LineTerminator code points, which `trim()` removes. */
  predicate IsJsWhitespace(c: char)
  {
    var n := c as int;
    (9 <= n <= 13) || n == 0x20 || n == 0xA0 || n == 0x1680 || (0x2000 <= n <= 0x200A)
    || n == 0x2028 || n == 0x2029 || n == 0x202F || n == 0x205F || n == 0x3000 || n == 0xFEFF
  }

  function TrimStart(s: string): (r: string)
    ensures |r| <= |s| && r == s[|s| - |r|..]
    ensures forall i :: 0 <= i < |s| - |r| ==> IsJsWhitespace(s[i])
    ensures r == [] || !IsJsWhitespace(r[0])
  {
    if s == [] || !IsJsWhitespace(s[0]) then s else TrimStart(s[1..])
  }

  function TrimEnd(s: string): (r: string)
    ensures |r| <= |s| && r == s[..|r|]
    ensures forall i :: |r| <= i < |s| ==> IsJsWhitespace(s[i])
    ensures r == [] || !IsJsWhitespace(r[|r| - 1])
  {
    if s == [] || !IsJsWhitespace(s[|s| - 1]) then s else TrimEnd(s[..|s| - 1])
  }

  /** `String.prototype.trim`. */
  function Trim(s: string): string
  {
    TrimEnd(TrimStart(s))
  }

  /** A string trims to the empty string iff it consists of whitespace only. */
  lemma {:induction false} TrimEmptyIffBlank(s: string)
    ensures Trim(s) == [] <==> forall i :: 0 <= i < |s| ==> IsJsWhitespace(s[i])
  {
    var a := TrimStart(s);
    if Trim(s) == [] {
      forall i | 0 <= i < |s| ensures IsJsWhitespace(s[i]) {
        if i >= |s| - |a| {
          assert s[i] == a[i - (|s| - |a|)];
        }
      }
    } else {
      var r := Trim(s);
      assert !IsJsWhitespace(r[0]);
      assert r[0] == a[0] == s[|s| - |a|];
    }
  }

  /** `s.includes(sub)`. */
  predicate Contains(s: string, sub: string)
  {
    exists i :: 0 <= i <= |s| && sub <= s[i..]
  }

  /** `s.filter(p)`: the elements satisfying p, in their original order. */
  function Filter<T>(s: seq<T>, p: T -> bool): (r: seq<T>)
    ensures |r| <= |s|
    ensures forall i :: 0 <= i < |r| ==> r[i] in s && p(r[i])
    ensures forall i :: 0 <= i < |s| && p(s[i]) ==> s[i] in r
    decreases |s|
  {
    if s == [] then []
    else Filter(s[..|s| - 1], p) + (if p(s[|s| - 1]) then [s[|s| - 1]] else [])
  }

  /** Filtering by a predicate and by its negation splits the sequence. */
  lemma {:induction false} FilterPartition<T>(s: seq<T>, p: T -> bool, q: T -> bool)
    requires forall x :: q(x) == !p(x)
    ensures |Filter(s, p)| + |Filter(s, q)| == |s|
    decreases |s|
  {
    if s != [] {
      FilterPartition(s[..|s| - 1], p, q);
    }
  }

  /** A weaker predicate keeps at least as many elements. */
  lemma {:induction false} FilterMonotone<T>(s: seq<T>, p: T -> bool, q: T -> bool)
    requires forall x :: p(x) ==> q(x)
    ensures |Filter(s, p)| <= |Filter(s, q)|
    decreases |s|
  {
    if s != [] {
      FilterMonotone(s[..|s| - 1], p, q);
    }
  }

  /** Filtering depends only on the values of the predicate. */
  lemma {:induction false} FilterCongruent<T>(s: seq<T>, p: T -> bool, q: T -> bool)
    requires forall x :: x in s ==> p(x) == q(x)
    ensures Filter(s, p) == Filter(s, q)
    decreases |s|
  {
    if s != [] {
      FilterCongruent(s[..|s| - 1], p, q);
    }
  }

  /** Filtering twice is filtering by the conjunction. */
  lemma {:induction false} FilterFilter<T>(s: seq<T>, p: T -> bool, q: T -> bool, pq: T -> bool)
    requires forall x :: pq(x) == (p(x) && q(x))
    ensures Filter(Filter(s, p), q) == Filter(s, pq)
    decreases |s|
  {
    if s != [] {
      var init := s[..|s| - 1];
      var last := s[|s| - 1];
      FilterFilter(init, p, q, pq);
      var fp := Filter(s, p);
      if p(last) {
        assert fp == Filter(init, p) + [last];
        assert fp[..|fp| - 1] == Filter(init, p);
      } else {
        assert fp == Filter(init, p);
      }
    }
  }

  /** Filtering keeps everything when every element qualifies. */
  lemma {:induction false} FilterAll<T>(s: seq<T>, p: T -> bool)
    requires forall i :: 0 <= i < |s| ==> p(s[i])
    ensures Filter(s, p) == s
    decreases |s|
  {
    if s != [] {
      FilterAll(s[..|s| - 1], p);
      assert s == s[..|s| - 1] + [s[|s| - 1]];
    }
  }

  /** Filtering keeps nothing when no element qualifies. */
  lemma FilterNone<T>(s: seq<T>, p: T -> bool)
    requires forall i :: 0 <= i < |s| ==> !p(s[i])
    ensures Filter(s, p) == []
  {
    var r := Filter(s, p);
    assert forall x :: x in s ==> !p(x);
  }

  /** Filtering distributes over concatenation. */
  lemma {:induction false} FilterAppend<T>(a: seq<T>, b: seq<T>, p: T -> bool)
    ensures Filter(a + b, p) == Filter(a, p) + Filter(b, p)
    decreases |b|
  {
    if b == [] {
      assert a + b == a;
    } else {
      var init := b[..|b| - 1];
      FilterAppend(a, init, p);
      assert (a + b)[..|a + b| - 1] == a + init;
      assert (a + b)[|a + b| - 1] == b[|b| - 1];
    }
  }

  /** Distinct keys: no two positions share a key. */
  predicate DistinctBy<T, K(==)>(s: seq<T>, key: T -> K)
  {
    forall i, j :: 0 <= i < |s| && 0 <= j < |s| && key(s[i]) == key(s[j]) ==> i == j
  }

  /** Filtering keeps keys distinct. */
  lemma {:induction false} FilterKeepsDistinct<T, K>(s: seq<T>, p: T -> bool, key: T -> K)
    requires DistinctBy(s, key)
    ensures DistinctBy(Filter(s, p), key)
    decreases |s|
  {
    if s != [] {
      var init, last := s[..|s| - 1], s[|s| - 1];
      assert DistinctBy(init, key) by {
        forall i, j | 0 <= i < |init| && 0 <= j < |init| && key(init[i]) == key(init[j]) ensures i == j {
          assert init[i] == s[i] && init[j] == s[j];
        }
      }
      FilterKeepsDistinct(init, p, key);
      var f := Filter(init, p);
      if p(last) {
        var r := f + [last];
        forall i | 0 <= i < |f| ensures key(f[i]) != key(last) {
          var k :| 0 <= k < |init| && init[k] == f[i];
          assert s[k] == init[k];
        }
        assert DistinctBy(r, key) by {
          forall i, j | 0 <= i < |r| && 0 <= j < |r| && key(r[i]) == key(r[j]) ensures i == j {
            if i < |f| && j < |f| {
              assert r[i] == f[i] && r[j] == f[j];
            }
          }
        }
      }
    }
  }

  /** Removing an element before the last one, then putting the last back, is removing it from the whole. */
  lemma RemoveBeforeLast<T>(s: seq<T>, i: int)
    requires 0 <= i < |s| - 1
    ensures s[..|s| - 1][..i] + s[..|s| - 1][i + 1..] + [s[|s| - 1]] == s[..i] + s[i + 1..]
  {
    var init := s[..|s| - 1];
    assert init[..i] == s[..i];
    assert init[i + 1..] + [s[|s| - 1]] == s[i + 1..];
  }

  /** A prefix one longer is the prefix followed by the next element. */
  lemma PrefixStep<T>(s: seq<T>, k: int)
    requires 0 <= k < |s|
    ensures s[..k + 1] == s[..k] + [s[k]]
  {
  }

  /** Every element of a sequence of length one is the same element. */
  lemma SingletonElements<T>(s: seq<T>, x: T, y: T)
    requires |s| == 1 && x in s && y in s
    ensures x == y
  {
  }

  /** Ascending order by key: what a sort with comparator `key(a) - key(b)` produces. */
  ghost predicate SortedBy<T>(s: seq<T>, key: T -> int)
  {
    forall i, j :: 0 <= i < j < |s| ==> key(s[i]) <= key(s[j])
  }

  /** Inserts x before the first element whose key is not smaller. */
  function InsertBy<T>(x: T, s: seq<T>, key: T -> int): (r: seq<T>)
    ensures multiset(r) == multiset(s) + multiset{x}
  {
    if s == [] || key(x) <= key(s[0]) then
      [x] + s
    else
      assert s == [s[0]] + s[1..];
      [s[0]] + InsertBy(x, s[1..], key)
  }

  /** Inserting into a sorted sequence keeps it sorted. */
  lemma {:induction false} InsertBySorted<T>(x: T, s: seq<T>, key: T -> int)
    requires SortedBy(s, key)
    ensures SortedBy(InsertBy(x, s, key), key)
    decreases |s|
  {
    if s == [] || key(x) <= key(s[0]) {
      var r := InsertBy(x, s, key);
      forall i, j | 0 <= i < j < |r| ensures key(r[i]) <= key(r[j]) {
        assert r[j] == s[j - 1];
        if i > 0 {
          assert r[i] == s[i - 1];
        }
      }
    } else {
      var tail := s[1..];
      assert SortedBy(tail, key) by {
        forall i, j | 0 <= i < j < |tail| ensures key(tail[i]) <= key(tail[j]) {
          assert tail[i] == s[i + 1] && tail[j] == s[j + 1];
        }
      }
      var rest := InsertBy(x, tail, key);
      InsertBySorted(x, tail, key);
      var r := [s[0]] + rest;
      assert r == InsertBy(x, s, key);
      forall j | 0 <= j < |rest| ensures key(s[0]) <= key(rest[j]) {
        assert rest[j] in multiset(rest);
        if rest[j] != x {
          assert rest[j] in multiset(tail);
          var k :| 0 <= k < |tail| && tail[k] == rest[j];
          assert s[k + 1] == rest[j];
        }
      }
      forall i, j | 0 <= i < j < |r| ensures key(r[i]) <= key(r[j]) {
        assert r[j] == rest[j - 1];
        if i > 0 {
          assert r[i] == rest[i - 1];
        }
      }
    }
  }

  /**
   * A sort by an integer key, ascending: the model of JavaScript's
   * `Array.prototype.sort` and of a SQL `ORDER BY` on one column. Its
   * contract promises a sorted permutation and says nothing about the
   * order of rows with equal keys.
   */
  function SortBy<T>(s: seq<T>, key: T -> int): (r: seq<T>)
    ensures multiset(r) == multiset(s)
    ensures |r| == |s|
    ensures SortedBy(r, key)
  {
    if s == [] then []
    else
      assert s == [s[0]] + s[1..];
      InsertBySorted(s[0], SortBy(s[1..], key), key);
      InsertBy(s[0], SortBy(s[1..], key), key)
  }

  /** Elements survive a sort, and nothing else appears. */
  lemma SortByMembers<T>(s: seq<T>, key: T -> int)
    ensures forall x :: x in SortBy(s, key) <==> x in s
  {
    var r := SortBy(s, key);
    forall x ensures x in r <==> x in s {
      assert x in r <==> x in multiset(r);
      assert x in s <==> x in multiset(s);
    }
  }

  /** The first element of the sorted copy is a least element of the input. */
  lemma SortedFrontIsLeast<T>(s: seq<T>, key: T -> int)
    requires s != []
    ensures SortBy(s, key) != [] && SortBy(s, key)[0] in s
    ensures forall x :: x in s ==> key(SortBy(s, key)[0]) <= key(x)
  {
    var r := SortBy(s, key);
    SortByMembers(s, key);
    assert r[0] in r;
    forall x | x in s ensures key(r[0]) <= key(x) {
      var i :| 0 <= i < |r| && r[i] == x;
      if i > 0 {
        assert key(r[0]) <= key(r[i]);
      }
    }
  }

  /** `Math.round` on exact reals: the nearest integer, halves rounded up. */
  function Round(x: real): (r: int)
    ensures x - 0.5 < r as real <= x + 0.5
  {
    (x + 0.5).Floor
  }

  function DigitChar(d: nat): char
    requires d < 10
  {
    "0123456789"[d]
  }

  function DigitsOf(n: nat): (r: string)
    ensures |r| > 0
    ensures forall i :: 0 <= i < |r| ==> '0' <= r[i] <= '9'
  {
    if n < 10 then [DigitChar(n)] else DigitsOf(n / 10) + [DigitChar(n % 10)]
  }

  /** The decimal text JavaScript prints for an integral number. */
  function IntToString(i: int): string
  {
    if i < 0 then "-" + DigitsOf(-i) else DigitsOf(i)
  }

  /** The number a text of decimal digits denotes. */
  function DigitsValue(s: string): nat
    requires forall i :: 0 <= i < |s| ==> '0' <= s[i] <= '9'
  {
    if s == [] then 0 else DigitsValue(s[..|s| - 1]) * 10 + (s[|s| - 1] as int - '0' as int)
  }

  /** The digits of a natural number read back as that number, without a leading zero. */
  lemma {:induction false} DigitsRoundTrip(n: nat)
    ensures DigitsValue(DigitsOf(n)) == n
    ensures DigitsOf(n)[0] == '0' ==> n == 0
  {
    var c := DigitChar(n % 10);
    assert c as int - '0' as int == n % 10 by {
      var d := n % 10;
      assert d == 0 || d == 1 || d == 2 || d == 3 || d == 4 || d == 5 || d == 6 || d == 7 || d == 8 || d == 9;
    }
    if n >= 10 {
      DigitsRoundTrip(n / 10);
      var s := DigitsOf(n);
      assert s[..|s| - 1] == DigitsOf(n / 10);
    }
  }

  /** The text of an integer is its sign, when negative, followed by the digits of its magnitude. */
  lemma IntToStringRoundTrip(i: int)
    ensures var s := IntToString(i);
      |s| > 0 &&
      (s[0] == '-' <==> i < 0) &&
      (i < 0 ==> DigitsValue(s[1..]) == -i) &&
      (i >= 0 ==> DigitsValue(s) == i)
  {
    DigitsRoundTrip(if i < 0 then -i else i);
    if i < 0 {
      assert IntToString(i)[1..] == DigitsOf(-i);
    }
  }
}
