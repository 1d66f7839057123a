/** File names and the few string rules the stages share: prefix and suffix
    tests, Python's lexicographic `str` order and `sorted`, list filtering,
    `str.split("_")[0]` and the decimal rendering of an index. */
module Text {

  predicate StartsWith(s: string, prefix: string) {
    |prefix| <= |s| && s[..|prefix|] == prefix
  }

  predicate EndsWith(s: string, suffix: string) {
    |suffix| <= |s| && s[|s| - |suffix|..] == suffix
  }

  /** `f.lower().endswith(".jpg")`, with `lower` taken on ASCII letters. */
  predicate IsJpgIgnoreCase(f: string) {
    |f| >= 4 &&
    f[|f| - 4] == '.' &&
    f[|f| - 3] in {'j', 'J'} &&
    f[|f| - 2] in {'p', 'P'} &&
    f[|f| - 1] in {'g', 'G'}
  }

  lemma JpgSuffixCases(f: string)
    ensures EndsWith(f, ".jpg") ==> IsJpgIgnoreCase(f)
    ensures EndsWith(f, ".JPG") ==> IsJpgIgnoreCase(f)
  {
    if EndsWith(f, ".jpg") {
      assert f[|f| - 4..][0] == '.' && f[|f| - 4..][1] == 'j';
      assert f[|f| - 4..][2] == 'p' && f[|f| - 4..][3] == 'g';
    }
    if EndsWith(f, ".JPG") {
      assert f[|f| - 4..][0] == '.' && f[|f| - 4..][1] == 'J';
      assert f[|f| - 4..][2] == 'P' && f[|f| - 4..][3] == 'G';
    }
  }

  predicate Distinct<T(==)>(s: seq<T>) {
    forall i, j :: 0 <= i < j < |s| ==> s[i] != s[j]
  }

  lemma DistinctAppend<T>(a: seq<T>, b: seq<T>)
    requires Distinct(a) && Distinct(b)
    requires forall x :: x in a ==> x !in b
    ensures Distinct(a + b)
  {
    forall i, j | 0 <= i < j < |a + b| ensures (a + b)[i] != (a + b)[j] {
      if i < |a| && j >= |a| {
        assert (a + b)[i] in a && (a + b)[j] == b[j - |a|];
      } else if i >= |a| {
        assert (a + b)[i] == b[i - |a|];
      }
    }
  }

  // ---------------------------------------------------------------------
  // Python's order on `str`: code point by code point, a proper prefix first.

  predicate Less(a: string, b: string)
    decreases |a|
  {
    if a == [] then b != []
    else if b == [] then false
    else if a[0] < b[0] then true
    else if a[0] == b[0] then Less(a[1..], b[1..])
    else false
  }

  lemma {:induction false} LessIrreflexive(a: string)
    ensures !Less(a, a)
    decreases |a|
  {
    if a != [] {
      LessIrreflexive(a[1..]);
    }
  }

  lemma {:induction false} LessTransitive(a: string, b: string, c: string)
    requires Less(a, b) && Less(b, c)
    ensures Less(a, c)
    decreases |a|
  {
    if a != [] && b != [] && c != [] && a[0] == b[0] == c[0] {
      LessTransitive(a[1..], b[1..], c[1..]);
    }
  }

  lemma {:induction false} LessTotal(a: string, b: string)
    requires a != b
    ensures Less(a, b) || Less(b, a)
    decreases |a|
  {
    if a != [] && b != [] && a[0] == b[0] {
      assert a == [a[0]] + a[1..] && b == [b[0]] + b[1..];
      LessTotal(a[1..], b[1..]);
    }
  }

  lemma {:induction false} LessAsymmetric(a: string, b: string)
    requires Less(a, b)
    ensures !Less(b, a)
  {
    if Less(b, a) {
      LessTransitive(a, b, a);
      LessIrreflexive(a);
    }
  }

  predicate StrictlySorted(s: seq<string>) {
    forall i, j :: 0 <= i < j < |s| ==> Less(s[i], s[j])
  }

  lemma StrictlySortedIsDistinct(s: seq<string>)
    requires StrictlySorted(s)
    ensures Distinct(s)
  {
    forall i, j | 0 <= i < j < |s| ensures s[i] != s[j] {
      LessIrreflexive(s[i]);
    }
  }

  /** Places `x` in front of the first element it is below. */
  function Insert(x: string, s: seq<string>): seq<string> {
    if s == [] then [x]
    else if Less(x, s[0]) then [x] + s
    else [s[0]] + Insert(x, s[1..])
  }

  /** `sorted(xs)`, as an insertion sort. */
  function Sort(xs: seq<string>): seq<string> {
    if xs == [] then [] else Insert(xs[0], Sort(xs[1..]))
  }

  lemma {:induction false} InsertSorted(x: string, s: seq<string>)
    requires StrictlySorted(s) && x !in s
    ensures multiset(Insert(x, s)) == multiset(s) + multiset{x}
    ensures StrictlySorted(Insert(x, s))
  {
    if s == [] {
    } else if Less(x, s[0]) {
      forall j | 0 < j < |s| ensures Less(x, s[j]) { LessTransitive(x, s[0], s[j]); }
    } else {
      assert StrictlySorted(s[1..]);
      InsertSorted(x, s[1..]);
      InsertHead(x, s, Insert(x, s[1..]));
    }
  }

  lemma InsertHead(x: string, s: seq<string>, t: seq<string>)
    requires StrictlySorted(s) && s != [] && x !in s && !Less(x, s[0])
    requires multiset(t) == multiset(s[1..]) + multiset{x} && StrictlySorted(t)
    ensures multiset([s[0]] + t) == multiset(s) + multiset{x}
    ensures StrictlySorted([s[0]] + t)
  {
    assert s == [s[0]] + s[1..];
    LessTotal(x, s[0]);
    forall j | 0 <= j < |t| ensures Less(s[0], t[j]) {
      assert t[j] in multiset(t);
      if t[j] != x {
        assert t[j] in s[1..];
      }
    }
    var r := [s[0]] + t;
    forall i, j | 0 <= i < j < |r| ensures Less(r[i], r[j]) {
      if i > 0 {
        assert r[i] == t[i - 1] && r[j] == t[j - 1];
      }
    }
  }

  /** Sorting a list of distinct names orders them strictly and keeps
      every name exactly once. */
  lemma {:induction false} SortSpec(xs: seq<string>)
    requires Distinct(xs)
    ensures multiset(Sort(xs)) == multiset(xs)
    ensures StrictlySorted(Sort(xs))
  {
    if xs != [] {
      assert xs == [xs[0]] + xs[1..];
      SortSpec(xs[1..]);
      assert xs[0] !in multiset(Sort(xs[1..]));
      InsertSorted(xs[0], Sort(xs[1..]));
    }
  }

  /** `xs` is `ys` with some entries dropped, in the order of `ys`. */
  predicate Subsequence(xs: seq<string>, ys: seq<string>)
    decreases |ys|
  {
    || xs == []
    || (ys != [] && ((xs[0] == ys[0] && Subsequence(xs[1..], ys[1..])) || Subsequence(xs, ys[1..])))
  }

  /** Dropping entries twice is dropping them once. */
  lemma {:induction false} SubsequenceTrans(a: seq<string>, b: seq<string>, c: seq<string>)
    requires Subsequence(a, b) && Subsequence(b, c)
    ensures Subsequence(a, c)
    decreases |c|
  {
    if a != [] {
      if Subsequence(b, c[1..]) {
        SubsequenceTrans(a, b, c[1..]);
      } else if a[0] == b[0] && Subsequence(a[1..], b[1..]) {
        SubsequenceTrans(a[1..], b[1..], c[1..]);
      } else {
        SubsequenceTrans(a, b[1..], c[1..]);
      }
    }
  }

  /** `[f for f in xs if f.lower().endswith(".jpg")]`. */
  function JpgNames(xs: seq<string>): (r: seq<string>)
    ensures Subsequence(r, xs)
    ensures forall f :: f in r <==> f in xs && IsJpgIgnoreCase(f)
    ensures Distinct(xs) ==> Distinct(r)
  {
    if xs == [] then []
    else
      var rest := JpgNames(xs[1..]);
      assert forall f :: f in xs <==> f == xs[0] || f in xs[1..];
      if IsJpgIgnoreCase(xs[0]) then [xs[0]] + rest else rest
  }

  /** `[f for f in xs if f.startswith(prefix)]`. */
  function WithPrefix(xs: seq<string>, prefix: string): (r: seq<string>)
    ensures Subsequence(r, xs)
    ensures forall f :: f in r <==> f in xs && StartsWith(f, prefix)
    ensures Distinct(xs) ==> Distinct(r)
  {
    if xs == [] then []
    else
      var rest := WithPrefix(xs[1..], prefix);
      assert forall f :: f in xs <==> f == xs[0] || f in xs[1..];
      if StartsWith(xs[0], prefix) then [xs[0]] + rest else rest
  }

  /** `[f for f in xs if f not in seen]`, which keeps the order of `xs`. */
  function NotIn(xs: seq<string>, seen: set<string>): (r: seq<string>)
    ensures Subsequence(r, xs)
    ensures forall f :: f in r <==> f in xs && f !in seen
    ensures StrictlySorted(xs) ==> StrictlySorted(r)
  {
    if xs == [] then []
    else
      var rest := NotIn(xs[1..], seen);
      assert forall f :: f in xs <==> f == xs[0] || f in xs[1..];
      assert StrictlySorted(xs) ==> forall f :: f in rest ==> Less(xs[0], f);
      if xs[0] !in seen then [xs[0]] + rest else rest
  }

  // ---------------------------------------------------------------------
  // `str.split("_")[0]`

  /** The text before the first `c`, or all of `s` when it has none. */
  function Before(s: string, c: char): (r: string)
    ensures c !in r
    ensures StartsWith(s, r)
    ensures |r| < |s| ==> s[|r|] == c
  {
    if s == [] || s[0] == c then []
    else
      var rest := Before(s[1..], c);
      assert s == [s[0]] + s[1..];
      [s[0]] + rest
  }

  lemma {:induction false} BeforeJoin(p: string, c: char, q: string)
    requires c !in p
    ensures Before(p + [c] + q, c) == p
  {
    if p != [] {
      assert (p + [c] + q)[1..] == p[1..] + [c] + q;
      BeforeJoin(p[1..], c, q);
    }
  }

  // ---------------------------------------------------------------------
  // `str(n)` for a natural number

  function Digit(d: nat): char
    requires d < 10
  {
    "0123456789"[d]
  }

  function DecimalOf(n: nat): (r: string)
    ensures 0 < |r|
    ensures forall k :: 0 <= k < |r| ==> '0' <= r[k] <= '9'
    ensures n >= 10 <==> |r| >= 2
  {
    if n < 10 then [Digit(n)] else DecimalOf(n / 10) + [Digit(n % 10)]
  }

  lemma DigitInjective(a: nat, b: nat)
    requires a < 10 && b < 10 && Digit(a) == Digit(b)
    ensures a == b
  {
  }

  lemma {:induction false} DecimalOfInjective(m: nat, n: nat)
    requires DecimalOf(m) == DecimalOf(n)
    ensures m == n
    decreases m
  {
    var dm, dn := DecimalOf(m), DecimalOf(n);
    if m < 10 && n < 10 {
      DigitInjective(m, n);
    } else if m >= 10 && n >= 10 {
      assert dm == DecimalOf(m / 10) + [Digit(m % 10)];
      assert dn == DecimalOf(n / 10) + [Digit(n % 10)];
      assert DecimalOf(m / 10) == dm[..|dm| - 1];
      assert DecimalOf(n / 10) == dn[..|dn| - 1];
      DigitInjective(m % 10, n % 10);
      DecimalOfInjective(m / 10, n / 10);
    }
  }

}
