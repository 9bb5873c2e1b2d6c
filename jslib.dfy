/**
 * The few JavaScript built-ins the core relies on, stated over Dafny strings
 * (`seq<char>`) and integers: white space as `\s` and `String.prototype.trim`
 * see it, `split(',')[0]`, `Array.prototype.slice` with its index clamping,
 * `String(n)` for integers, `includes`/`startsWith`/`endsWith`, the
 * truncating `%` operator and string truthiness.
 */
module JsLib {

  /** The white-space and line-terminator characters of ECMAScript (the `\s` class, and what `trim` removes). */
  predicate IsSpace(c: char) {
    || c == '\t' || c == '\n' || c == '\U{000B}' || c == '\U{000C}' || c == '\r' || c == ' '
    || c == '\U{00A0}' || c == '\U{1680}' || ('\U{2000}' <= c <= '\U{200A}')
    || c == '\U{2028}' || c == '\U{2029}' || c == '\U{202F}' || c == '\U{205F}'
    || c == '\U{3000}' || c == '\U{FEFF}'
  }

  /** A string is truthy in JavaScript exactly when it is not empty. */
  predicate Truthy(s: string) {
    s != ""
  }

  /** `s.trimStart()`: the suffix of `s` that begins at its first non-space character. */
  function TrimStart(s: string): (r: string)
    ensures |r| <= |s| && r == s[|s| - |r|..]
    ensures forall i :: 0 <= i < |s| - |r| ==> IsSpace(s[i])
    ensures r == "" || !IsSpace(r[0])
    ensures |s| > 0 && IsSpace(s[0]) ==> |r| < |s|
  {
    if |s| > 0 && IsSpace(s[0]) then TrimStart(s[1..]) else s
  }

  /** `s.trimEnd()`: the prefix of `s` that ends at its last non-space character. */
  function TrimEnd(s: string): (r: string)
    ensures |r| <= |s| && r == s[..|r|]
    ensures forall i :: |r| <= i < |s| ==> IsSpace(s[i])
    ensures r == "" || !IsSpace(r[|r| - 1])
  {
    if |s| > 0 && IsSpace(s[|s| - 1]) then TrimEnd(s[..|s| - 1]) else s
  }

  /** `r` is `s` from position `k` on, without white space before or after it in `s`. */
  predicate TrimmedAt(s: string, r: string, k: int) {
    && 0 <= k <= |s| - |r| && r == s[k..k + |r|]
    && (forall i :: 0 <= i < k ==> IsSpace(s[i]))
    && (forall i :: k + |r| <= i < |s| ==> IsSpace(s[i]))
  }

  /** `s.trim()`. */
  function Trim(s: string): (r: string)
    ensures |r| <= |s|
    ensures r == "" || (!IsSpace(r[0]) && !IsSpace(r[|r| - 1]))
    ensures TrimmedAt(s, r, |s| - |TrimStart(s)|)
  {
    var t := TrimStart(s);
    var r := TrimEnd(t);
    var k := |s| - |t|;
    TrimParts(s, t, r, k);
    r
  }

  /** A prefix of a suffix is a middle part. */
  lemma SliceOfSlice(s: string, k: int, n: int)
    requires 0 <= k && 0 <= n && k + n <= |s|
    ensures s[k..][..n] == s[k..k + n]
  {
  }

  /** The trimmed text sits at `k` in `s`, with white space on both sides of it. */
  lemma TrimParts(s: string, t: string, r: string, k: int)
    requires t == TrimStart(s) && r == TrimEnd(t) && k == |s| - |t|
    ensures TrimmedAt(s, r, k)
  {
    var n := |r|;
    assert t == s[k..];
    assert r == t[..n];
    SliceOfSlice(s, k, n);
    forall i | k + |r| <= i < |s|
      ensures IsSpace(s[i])
    {
      assert s[i] == t[i - k];
    }
  }

  /** `Trim(s)` is empty exactly when every character of `s` is white space. */
  lemma TrimEmptyIff(s: string)
    ensures Trim(s) == "" <==> forall i :: 0 <= i < |s| ==> IsSpace(s[i])
  {
    var t := TrimStart(s);
    if Trim(s) == "" {
      assert t == "";
    } else {
      var r := Trim(s);
      assert r == t[..|r|];
      assert !IsSpace(t[0]) && t[0] == s[|s| - |t|];
    }
  }

  /** `s.split(sep)[0]`: everything before the first `sep`, or all of `s` when there is none. */
  function BeforeFirst(s: string, sep: char): (r: string)
    ensures |r| <= |s| && r == s[..|r|]
    ensures sep !in r
    ensures |r| < |s| ==> s[|r|] == sep
  {
    if s == [] then []
    else if s[0] == sep then []
    else [s[0]] + BeforeFirst(s[1..], sep)
  }

  /** `s.startsWith(p)`. */
  predicate StartsWith(s: string, p: string) {
    |p| <= |s| && s[..|p|] == p
  }

  /** `s.endsWith(p)`. */
  predicate EndsWith(s: string, p: string) {
    |p| <= |s| && s[|s| - |p|..] == p
  }

  /** `s.includes(t)`: `t` occurs somewhere in `s`. */
  predicate Includes(s: string, t: string)
    decreases |s|
  {
    StartsWith(s, t) || (|s| > 0 && Includes(s[1..], t))
  }

  /** `t` occurs in `s` starting at position `p`. */
  predicate OccursAt(s: string, t: string, p: nat) {
    p + |t| <= |s| && s[p..p + |t|] == t
  }

  /** `includes` means an occurrence at some position. */
  lemma {:induction false} IncludesOccurs(s: string, t: string)
    ensures Includes(s, t) <==> exists p: nat :: OccursAt(s, t, p)
    decreases |s|
  {
    if StartsWith(s, t) {
      assert OccursAt(s, t, 0);
    } else if |s| > 0 {
      IncludesOccurs(s[1..], t);
      if exists p: nat :: OccursAt(s[1..], t, p) {
        var p: nat :| OccursAt(s[1..], t, p);
        assert s[p + 1..p + 1 + |t|] == s[1..][p..p + |t|];
        assert OccursAt(s, t, p + 1);
      }
      forall p: nat | p > 0 && OccursAt(s, t, p)
        ensures OccursAt(s[1..], t, p - 1)
      {
        assert s[1..][p - 1..p - 1 + |t|] == s[p..p + |t|];
      }
    }
  }

  /** The character for a decimal digit. */
  function DigitChar(d: nat): (c: char)
    requires d < 10
    ensures '0' <= c <= '9' && (c as int) - ('0' as int) == d
  {
    (('0' as int) + d) as char
  }

  predicate IsDigit(c: char) {
    '0' <= c <= '9'
  }

  /** `String(n)` for a non-negative integer: its decimal digits, most significant first, no leading zero. */
  function NatToString(n: nat): (r: string)
    ensures |r| >= 1
    ensures forall i :: 0 <= i < |r| ==> IsDigit(r[i])
    ensures r[0] == '0' ==> n == 0
  {
    if n < 10 then [DigitChar(n)] else NatToString(n / 10) + [DigitChar(n % 10)]
  }

  /** `String(n)` for any integer: a minus sign before the digits of `-n` when `n` is negative. */
  function IntToString(n: int): (r: string)
    ensures |r| >= 1 && IsDigit(r[|r| - 1])
    ensures n < 0 <==> r[0] == '-'
  {
    if n < 0 then "-" + NatToString(-n) else NatToString(n)
  }

  /** The value of a string of decimal digits. */
  function DigitsValue(s: string): nat
    requires forall i :: 0 <= i < |s| ==> IsDigit(s[i])
  {
    if s == [] then 0
    else
      assert IsDigit(s[|s| - 1]);
      10 * DigitsValue(s[..|s| - 1]) + ((s[|s| - 1] as int) - ('0' as int))
  }

  /** `NatToString` loses nothing: reading its digits back gives `n`. */
  lemma {:induction false} NatToStringRoundTrip(n: nat)
    ensures DigitsValue(NatToString(n)) == n
  {
    if n >= 10 {
      NatToStringRoundTrip(n / 10);
      var r := NatToString(n);
      assert r[..|r| - 1] == NatToString(n / 10);
    }
  }

  /** Different non-negative numbers print differently. */
  lemma NatToStringInjective(a: nat, b: nat)
    requires NatToString(a) == NatToString(b)
    ensures a == b
  {
    NatToStringRoundTrip(a);
    NatToStringRoundTrip(b);
  }

  /** Different numbers print differently. */
  lemma IntToStringInjective(a: int, b: int)
    requires IntToString(a) == IntToString(b)
    ensures a == b
  {
    if a < 0 {
      assert b < 0;
      assert IntToString(a)[1..] == NatToString(-a);
      assert IntToString(b)[1..] == NatToString(-b);
      NatToStringInjective(-a, -b);
    } else {
      assert b >= 0;
      NatToStringInjective(a, b);
    }
  }

  /**
   * The index `Array.prototype.slice` uses for an argument `k` on a sequence of
   * length `n`: negative values count from the end, and the result is clamped to [0, n].
   */
  function SliceIndex(k: int, n: nat): (r: nat)
    ensures r <= n
    ensures 0 <= k <= n ==> r == k
    ensures k > n ==> r == n
    ensures -(n as int) <= k < 0 ==> r == n + k
    ensures k < -(n as int) ==> r == 0
  {
    if k < 0 then (if n + k < 0 then 0 else n + k) else if k > n then n else k
  }

  /** `s.slice(start, end)`. */
  function Slice<T>(s: seq<T>, start: int, end: int): (r: seq<T>)
    ensures |r| <= |s|
    ensures SliceIndex(start, |s|) < SliceIndex(end, |s|) ==> r == s[SliceIndex(start, |s|)..SliceIndex(end, |s|)]
    ensures SliceIndex(end, |s|) <= SliceIndex(start, |s|) ==> r == []
  {
    var a := SliceIndex(start, |s|);
    var b := SliceIndex(end, |s|);
    if a < b then s[a..b] else []
  }

  /** `s.slice(start)`. */
  function SliceFrom<T>(s: seq<T>, start: int): (r: seq<T>)
    ensures r == s[SliceIndex(start, |s|)..]
  {
    Slice(s, start, |s|)
  }

  /** `s.slice(0, k)` with `k >= 0` is the first `min(k, |s|)` elements. */
  lemma SlicePrefix<T>(s: seq<T>, k: nat)
    ensures Slice(s, 0, k) == s[..if k < |s| then k else |s|]
  {
  }

  /** The JavaScript `%` operator for a positive divisor: the remainder takes the sign of the dividend. */
  function JsRem(a: int, b: int): (r: int)
    requires b > 0
    ensures a >= 0 ==> r == a % b
    ensures a < 0 ==> r == -((-a) % b)
  {
    if a >= 0 then a % b else -((-a) % b)
  }

  /** A product with a positive factor is at least the other factor. */
  lemma {:induction false} MulAtLeast(k: nat, m: nat)
    requires k >= 1
    ensures k * m >= m
  {
    if k > 1 {
      MulAtLeast(k - 1, m);
      assert k * m == (k - 1) * m + m;
    }
  }

  /** Division with remainder is unique: `a == q * m + r` with `0 <= r < m` makes `r` the remainder. */
  lemma ModUnique(a: int, m: int, q: int, r: int)
    requires m > 0 && 0 <= r < m && a == q * m + r
    ensures a % m == r
  {
    var q2, r2 := a / m, a % m;
    assert a == q2 * m + r2;
    if q > q2 {
      assert (q - q2) * m == q * m - q2 * m;
      MulAtLeast(q - q2, m);
    } else if q < q2 {
      assert (q2 - q) * m == q2 * m - q * m;
      MulAtLeast(q2 - q, m);
    }
  }

  /** Below `2 * m`, taking the remainder subtracts `m` at most once. */
  lemma ModRange(a: int, m: int)
    requires m > 0 && 0 <= a < 2 * m
    ensures a % m == (if a < m then a else a - m)
  {
    if a < m {
      ModUnique(a, m, 0, a);
    } else {
      ModUnique(a, m, 1, a - m);
    }
  }

  /** The remainder of `a + 1` is one more than that of `a`, or 0 after the last one. */
  lemma ModSucc(a: nat, m: nat)
    requires m > 0
    ensures (a + 1) % m == (if a % m == m - 1 then 0 else a % m + 1)
  {
    var q, r := a / m, a % m;
    assert a == q * m + r;
    if r == m - 1 {
      ModUnique(a + 1, m, q + 1, 0);
    } else {
      ModUnique(a + 1, m, q, r + 1);
    }
  }

  /** Adding or removing one `m` keeps the remainder. */
  lemma ModShift(a: int, m: int)
    requires m > 0
    ensures (a + m) % m == a % m && (a - m) % m == a % m
  {
    var q, r := a / m, a % m;
    assert a == q * m + r;
    ModUnique(a + m, m, q + 1, r);
    ModUnique(a - m, m, q - 1, r);
  }

  /** `xs.join(sep)`. */
  function Join(xs: seq<string>, sep: string): string {
    if xs == [] then "" else if |xs| == 1 then xs[0] else xs[0] + sep + Join(xs[1..], sep)
  }

  /** `Join` comes out empty only for no strings or the single empty string. */
  lemma {:induction false} JoinEmptyIff(xs: seq<string>, sep: string)
    requires sep != ""
    ensures Join(xs, sep) == "" <==> xs == [] || xs == [""]
  {
    if |xs| >= 2 {
      assert |Join(xs, sep)| >= |sep|;
    }
  }

  /** `xs.filter(p)`: the elements satisfying `p`, in their original order. */
  function Filter<T>(xs: seq<T>, p: T -> bool): (r: seq<T>)
    ensures |r| <= |xs|
    ensures forall i :: 0 <= i < |r| ==> p(r[i])
  {
    if xs == [] then [] else (if p(xs[0]) then [xs[0]] else []) + Filter(xs[1..], p)
  }

  /** An element is kept exactly when it occurs in the input and passes the test. */
  lemma {:induction false} FilterMembers<T>(xs: seq<T>, p: T -> bool)
    ensures forall x :: x in Filter(xs, p) <==> x in xs && p(x)
  {
    if xs != [] {
      FilterMembers(xs[1..], p);
      assert xs == [xs[0]] + xs[1..];
    }
  }

  /** Filtering a concatenation filters each part. */
  lemma {:induction false} FilterAppend<T>(a: seq<T>, b: seq<T>, p: T -> bool)
    ensures Filter(a + b, p) == Filter(a, p) + Filter(b, p)
  {
    if a != [] {
      assert (a + b)[0] == a[0];
      assert (a + b)[1..] == a[1..] + b;
      FilterAppend(a[1..], b, p);
      AppendRegroup(if p(a[0]) then [a[0]] else [], Filter(a[1..], p), Filter(b, p), Filter(a + b, p));
    } else {
      assert a + b == b;
    }
  }

  /** The filter of a suffix, one element unfolded. */
  lemma FilterFrom<T>(xs: seq<T>, i: nat, p: T -> bool)
    requires i < |xs|
    ensures Filter(xs[i..], p) == (if p(xs[i]) then [xs[i]] else []) + Filter(xs[i + 1..], p)
  {
    assert xs[i..][1..] == xs[i + 1..];
  }

  /** A filter computed left to right: examining element `i` appends it to the kept ones exactly when it passes. */
  lemma FilterStep<T>(kept: seq<T>, xs: seq<T>, i: nat, p: T -> bool)
    requires i < |xs|
    requires kept + Filter(xs[i..], p) == Filter(xs, p)
    ensures (kept + (if p(xs[i]) then [xs[i]] else [])) + Filter(xs[i + 1..], p) == Filter(xs, p)
  {
    FilterFrom(xs, i, p);
    AppendRegroup(kept, if p(xs[i]) then [xs[i]] else [], Filter(xs[i + 1..], p), Filter(xs, p));
  }

  /** Concatenation regrouped. */
  lemma AppendRegroup<T>(a: seq<T>, b: seq<T>, c: seq<T>, whole: seq<T>)
    requires a + (b + c) == whole
    ensures (a + b) + c == whole
  {
  }

  /** `a` is `b` with some elements left out, the rest in the same order. */
  predicate IsSubsequence<T(==)>(a: seq<T>, b: seq<T>)
    decreases |b|
  {
    if a == [] then true
    else if b == [] then false
    else if a[0] == b[0] then IsSubsequence(a[1..], b[1..])
    else IsSubsequence(a, b[1..])
  }

  /** A filter keeps its elements in their original order. */
  lemma {:induction false} FilterIsSubsequence<T>(xs: seq<T>, p: T -> bool)
    ensures IsSubsequence(Filter(xs, p), xs)
  {
    if xs != [] {
      FilterIsSubsequence(xs[1..], p);
      var rest := Filter(xs[1..], p);
      if p(xs[0]) {
        assert Filter(xs, p) == [xs[0]] + rest;
        assert ([xs[0]] + rest)[1..] == rest;
      } else {
        assert Filter(xs, p) == rest;
        if rest != [] {
          assert p(rest[0]);
          assert rest[0] != xs[0];
        }
      }
    }
  }

  /** Filtering on a test and on its negation splits the elements between the two results. */
  lemma {:induction false} FilterPartition<T>(xs: seq<T>, p: T -> bool, q: T -> bool)
    requires forall i :: 0 <= i < |xs| ==> q(xs[i]) == !p(xs[i])
    ensures |Filter(xs, p)| + |Filter(xs, q)| == |xs|
  {
    if xs != [] {
      FilterPartition(xs[1..], p, q);
    }
  }

  /** Keys never increase along `xs`. */
  predicate SortedDesc<T>(xs: seq<T>, key: T -> int) {
    forall i, j :: 0 <= i < j < |xs| ==> key(xs[i]) >= key(xs[j])
  }

  /** Inserts `x` before the first element whose key is not larger, so equal keys keep their order. */
  function Insert<T>(x: T, xs: seq<T>, key: T -> int): (r: seq<T>)
    requires SortedDesc(xs, key)
    ensures SortedDesc(r, key)
    ensures multiset(r) == multiset(xs) + multiset{x}
    ensures forall i :: 0 <= i < |r| ==> r[i] == x || r[i] in xs
    ensures |r| == |xs| + 1
  {
    if xs == [] then [x]
    else if key(xs[0]) <= key(x) then [x] + xs
    else
      var rest := Insert(x, xs[1..], key);
      assert forall i :: 0 <= i < |rest| ==> key(xs[0]) >= key(rest[i]);
      ConsSorted(xs[0], rest, key);
      assert xs == [xs[0]] + xs[1..];
      [xs[0]] + rest
  }

  lemma ConsSorted<T>(h: T, xs: seq<T>, key: T -> int)
    requires SortedDesc(xs, key)
    requires forall i :: 0 <= i < |xs| ==> key(h) >= key(xs[i])
    ensures SortedDesc([h] + xs, key)
  {
    var r := [h] + xs;
    assert forall i :: 0 < i < |r| ==> r[i] == xs[i - 1];
  }

  /** `xs.sort((a, b) => key(b) - key(a))`: a stable sort, largest key first (an insertion sort here). */
  function SortDesc<T>(xs: seq<T>, key: T -> int): (r: seq<T>)
    ensures SortedDesc(r, key)
    ensures multiset(r) == multiset(xs)
    ensures |r| == |xs|
  {
    if xs == [] then []
    else
      assert xs == [xs[0]] + xs[1..];
      Insert(xs[0], SortDesc(xs[1..], key), key)
  }

  /** The elements of `xs` whose key is `k`, in their order. */
  function WithKey<T>(xs: seq<T>, key: T -> int, k: int): (r: seq<T>)
    ensures |r| <= |xs|
  {
    if xs == [] then [] else (if key(xs[0]) == k then [xs[0]] else []) + WithKey(xs[1..], key, k)
  }

  lemma WithKeyCons<T>(x: T, xs: seq<T>, key: T -> int, k: int)
    ensures WithKey([x] + xs, key, k) == (if key(x) == k then [x] else []) + WithKey(xs, key, k)
  {
    assert ([x] + xs)[1..] == xs;
  }

  /** Inserting `x` puts it before every element with its own key, and moves no other element past one with that key. */
  lemma {:induction false} InsertWithKey<T>(x: T, xs: seq<T>, key: T -> int, k: int)
    requires SortedDesc(xs, key)
    ensures WithKey(Insert(x, xs, key), key, k) == (if key(x) == k then [x] else []) + WithKey(xs, key, k)
  {
    if xs == [] {
      WithKeyCons(x, [], key, k);
    } else if key(xs[0]) <= key(x) {
      WithKeyCons(x, xs, key, k);
    } else {
      var rest := Insert(x, xs[1..], key);
      assert Insert(x, xs, key) == [xs[0]] + rest;
      InsertWithKey(x, xs[1..], key, k);
      WithKeyCons(xs[0], rest, key, k);
      WithKeyCons(xs[0], xs[1..], key, k);
      assert xs == [xs[0]] + xs[1..];
      assert key(x) == k ==> key(xs[0]) != k;
    }
  }

  /** The sort is stable: the elements with any one key keep the order they had in the input. */
  lemma {:induction false} SortDescStable<T>(xs: seq<T>, key: T -> int, k: int)
    ensures WithKey(SortDesc(xs, key), key, k) == WithKey(xs, key, k)
  {
    if xs != [] {
      SortDescStable(xs[1..], key, k);
      InsertWithKey(xs[0], SortDesc(xs[1..], key), key, k);
    }
  }

  /** `SortDescStable` for every key at once. */
  lemma SortDescStableAll<T>(xs: seq<T>, key: T -> int)
    ensures forall k :: WithKey(SortDesc(xs, key), key, k) == WithKey(xs, key, k)
  {
    forall k ensures WithKey(SortDesc(xs, key), key, k) == WithKey(xs, key, k) {
      SortDescStable(xs, key, k);
    }
  }
}
