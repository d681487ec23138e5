/** Comparison functions in the manner of `strcmp` and `qsort`: only the sign of the result matters. */
module Orders {

  /** The comparison is a total preorder. */
  ghost predicate Preorder<T(!new)>(c: (T, T) -> int) {
    && (forall a, b {:trigger c(a, b)} :: c(a, b) < 0 <==> c(b, a) > 0)
    && (forall a, b, d {:trigger c(a, b), c(b, d)} :: c(a, b) <= 0 && c(b, d) <= 0 ==> c(a, d) <= 0)
  }

  lemma Reflexive<T(!new)>(c: (T, T) -> int, a: T)
    requires Preorder(c)
    ensures c(a, a) == 0
  {
  }

  /** The two ways to compare agree. */
  lemma Mirror<T(!new)>(c: (T, T) -> int, a: T, b: T)
    requires Preorder(c)
    ensures c(a, b) <= 0 <==> c(b, a) >= 0
    ensures c(a, b) == 0 <==> c(b, a) == 0
  {
  }

  lemma Trans<T(!new)>(c: (T, T) -> int, a: T, b: T, d: T)
    requires Preorder(c) && c(a, b) <= 0 && c(b, d) <= 0
    ensures c(a, d) <= 0
    ensures c(a, b) < 0 || c(b, d) < 0 ==> c(a, d) < 0
  {
    if c(a, d) == 0 {
      Mirror(c, a, d);
      assert c(d, a) <= 0;
    }
  }

  // ---- Building comparisons ----

  /** First by `c`, and by `d` where `c` makes no difference. */
  function ThenBy<T(!new)>(c: (T, T) -> int, d: (T, T) -> int): (T, T) -> int {
    (a, b) => if c(a, b) != 0 then c(a, b) else d(a, b)
  }

  function Reversed<T(!new)>(c: (T, T) -> int): (T, T) -> int {
    (a, b) => c(b, a)
  }

  /** By a number. */
  function ByNumber<T(!new)>(f: T -> real): (T, T) -> int {
    (a, b) => if f(a) == f(b) then 0 else if f(a) < f(b) then -1 else 1
  }

  /** By a string, in the manner of `std::string::compare`. */
  function ByString<T(!new)>(f: T -> string): (T, T) -> int {
    (a, b) => StrCmp(f(a), f(b))
  }

  function StrCmp(a: string, b: string): int
    decreases |a|
  {
    if a == "" then (if b == "" then 0 else -1)
    else if b == "" then 1
    else if a[0] != b[0] then (if a[0] < b[0] then -1 else 1)
    else StrCmp(a[1..], b[1..])
  }

  lemma {:induction false} StrCmpMirror(a: string, b: string)
    ensures StrCmp(a, b) < 0 <==> StrCmp(b, a) > 0
    ensures StrCmp(a, b) == 0 <==> a == b
    decreases |a|
  {
    if a != "" && b != "" && a[0] == b[0] {
      StrCmpMirror(a[1..], b[1..]);
      assert a == [a[0]] + a[1..] && b == [b[0]] + b[1..];
    }
  }

  lemma {:induction false} StrCmpTrans(a: string, b: string, d: string)
    requires StrCmp(a, b) <= 0 && StrCmp(b, d) <= 0
    ensures StrCmp(a, d) <= 0
    decreases |a|
  {
    if a != "" && b != "" && d != "" && a[0] == b[0] == d[0] { StrCmpTrans(a[1..], b[1..], d[1..]); }
  }

  // ---- What it means that one string is before another ----

  /** They differ first at place `k`: there `a` has the smaller character, or ends. */
  predicate DiffersAt(a: string, b: string, k: nat) {
    k <= |a| && k < |b| && a[..k] == b[..k] && (k < |a| ==> a[k] < b[k])
  }

  ghost predicate Precedes(a: string, b: string) {
    exists k: nat :: DiffersAt(a, b, k)
  }

  /** The comparison is negative exactly then. */
  lemma {:induction false} StrCmpMeans(a: string, b: string)
    ensures StrCmp(a, b) < 0 <==> Precedes(a, b)
    ensures StrCmp(a, b) > 0 <==> Precedes(b, a)
    decreases |a|
  {
    StrCmpMirror(a, b);
    StrCmpMirror(b, a);
    if StrCmp(a, b) < 0 { var k := Difference(a, b); }
    if StrCmp(b, a) < 0 { var k := Difference(b, a); }
    if k: nat :| DiffersAt(a, b, k) { DifferenceCounts(a, b, k); }
    if k: nat :| DiffersAt(b, a, k) { DifferenceCounts(b, a, k); }
  }

  lemma {:induction false} Difference(a: string, b: string) returns (k: nat)
    requires StrCmp(a, b) < 0
    ensures DiffersAt(a, b, k)
    decreases |a|
  {
    k := 0;
    if a != "" && a[0] == b[0] {
      k := Difference(a[1..], b[1..]);
      assert a[..k + 1] == [a[0]] + a[1..][..k] && b[..k + 1] == [b[0]] + b[1..][..k];
      k := k + 1;
    }
  }

  lemma {:induction false} DifferenceCounts(a: string, b: string, k: nat)
    requires DiffersAt(a, b, k)
    ensures StrCmp(a, b) < 0
    decreases k
  {
    if k > 0 {
      assert a[0] == a[..k][0] == b[..k][0] == b[0];
      assert a[1..][..k - 1] == a[..k][1..] && b[1..][..k - 1] == b[..k][1..];
      DifferenceCounts(a[1..], b[1..], k - 1);
    }
  }

  lemma ByStringPreorder<T(!new)>(f: T -> string)
    ensures Preorder(ByString(f))
  {
    var c := ByString(f);
    forall a, b ensures c(a, b) < 0 <==> c(b, a) > 0 { StrCmpMirror(f(a), f(b)); }
    forall a, b, d | c(a, b) <= 0 && c(b, d) <= 0 ensures c(a, d) <= 0 { StrCmpTrans(f(a), f(b), f(d)); }
  }

  lemma ByNumberPreorder<T(!new)>(f: T -> real)
    ensures Preorder(ByNumber(f))
  {
  }

  lemma ThenByPreorder<T(!new)>(c: (T, T) -> int, d: (T, T) -> int)
    requires Preorder(c) && Preorder(d)
    ensures Preorder(ThenBy(c, d))
  {
    var e := ThenBy(c, d);
    forall a, b ensures e(a, b) < 0 <==> e(b, a) > 0 {
      Mirror(c, a, b);
      Mirror(d, a, b);
    }
    forall x, y, z | e(x, y) <= 0 && e(y, z) <= 0 ensures e(x, z) <= 0 {
      Trans(c, x, y, z);
      if c(x, z) == 0 {
        Mirror(c, x, y);
        Mirror(c, y, z);
        Trans(d, x, y, z);
      }
    }
  }

  lemma ReversedPreorder<T(!new)>(c: (T, T) -> int)
    requires Preorder(c)
    ensures Preorder(Reversed(c))
  {
    var e := Reversed(c);
    forall a, b, d | e(a, b) <= 0 && e(b, d) <= 0 ensures e(a, d) <= 0 { Trans(c, d, b, a); }
  }

  // ---- Ordered sequences ----

  ghost predicate Ordered<T(!new)>(s: seq<T>, c: (T, T) -> int) {
    forall i, j | 0 <= i <= j < |s| :: c(s[i], s[j]) <= 0
  }

  function Backwards<T>(s: seq<T>): (r: seq<T>)
    ensures |r| == |s| && forall i | 0 <= i < |s| :: r[i] == s[|s| - 1 - i]
  {
    seq(|s|, i requires 0 <= i < |s| => s[|s| - 1 - i])
  }

  /** The reversed comparison orders a sequence exactly if the comparison orders it backwards. */
  lemma ReversedIsMirrored<T(!new)>(s: seq<T>, c: (T, T) -> int)
    ensures Ordered(s, Reversed(c)) <==> Ordered(Backwards(s), c)
  {
    var r, n := Backwards(s), |s|;
    if Ordered(r, c) {
      forall i, j | 0 <= i <= j < n ensures Reversed(c)(s[i], s[j]) <= 0 {
        assert s[i] == r[n - 1 - i] && s[j] == r[n - 1 - j];
      }
    }
    if Ordered(s, Reversed(c)) {
      forall i, j | 0 <= i <= j < n ensures c(r[i], r[j]) <= 0 {
        assert Reversed(c)(s[n - 1 - j], s[n - 1 - i]) <= 0;
      }
    }
  }

  // ---- Sorting is unique up to ties ----

  /** How many elements of `s` are at most `x`. */
  function CountUpTo<T(!new)>(s: seq<T>, c: (T, T) -> int, x: T): nat {
    if s == [] then 0 else CountUpTo(s[..|s| - 1], c, x) + if c(s[|s| - 1], x) <= 0 then 1 else 0
  }

  lemma {:induction false} CountConcat<T(!new)>(s: seq<T>, t: seq<T>, c: (T, T) -> int, x: T)
    ensures CountUpTo(s + t, c, x) == CountUpTo(s, c, x) + CountUpTo(t, c, x)
    decreases |t|
  {
    if t == [] {
      assert s + t == s;
    } else {
      assert (s + t)[..|s + t| - 1] == s + t[..|t| - 1];
      CountConcat(s, t[..|t| - 1], c, x);
    }
  }

  lemma {:induction false} WithoutOne<T(!new)>(t: seq<T>, k: nat, c: (T, T) -> int, x: T)
    requires k < |t|
    ensures multiset(t[..k] + t[k + 1..]) == multiset(t) - multiset{t[k]}
    ensures CountUpTo(t, c, x) == CountUpTo(t[..k] + t[k + 1..], c, x) + if c(t[k], x) <= 0 then 1 else 0
  {
    var y := t[k];
    assert t == t[..k] + [y] + t[k + 1..];
    CountConcat(t[..k] + [y], t[k + 1..], c, x);
    CountConcat(t[..k], t[k + 1..], c, x);
    assert (t[..k] + [y])[..k] == t[..k];
  }

  /** The count does not depend on the order of the elements. */
  lemma {:induction false} CountOfPermutation<T(!new)>(s: seq<T>, t: seq<T>, c: (T, T) -> int, x: T)
    requires multiset(s) == multiset(t)
    ensures CountUpTo(s, c, x) == CountUpTo(t, c, x)
    decreases |s|
  {
    if s == [] {
      assert |multiset(t)| == 0 && t == [];
    } else {
      var y := s[|s| - 1];
      assert y in multiset(s) && y in t;
      var k :| 0 <= k < |t| && t[k] == y;
      WithoutOne(t, k, c, x);
      assert s == s[..|s| - 1] + [y];
      CountOfPermutation(s[..|s| - 1], t[..k] + t[k + 1..], c, x);
    }
  }

  lemma {:induction false} CountPrefix<T(!new)>(s: seq<T>, c: (T, T) -> int, x: T, n: nat)
    requires n <= |s|
    ensures (forall i | 0 <= i < n :: c(s[i], x) <= 0) ==> CountUpTo(s, c, x) >= n
    ensures (forall i | n <= i < |s| :: c(s[i], x) > 0) ==> CountUpTo(s, c, x) <= n
    decreases |s|
  {
    if s != [] {
      var s' := s[..|s| - 1];
      CountPrefix(s', c, x, if n == |s| then n - 1 else n);
    }
  }

  /** Two orderings of the same elements can differ only in the places of elements that tie. */
  lemma {:induction false} SortedUpToTies<T(!new)>(s: seq<T>, t: seq<T>, c: (T, T) -> int)
    requires Preorder(c) && multiset(s) == multiset(t) && Ordered(s, c) && Ordered(t, c)
    ensures |s| == |t| && forall i | 0 <= i < |s| :: c(s[i], t[i]) == 0
  {
    assert |s| == |multiset(s)| == |multiset(t)| == |t|;
    forall i | 0 <= i < |s| ensures c(s[i], t[i]) == 0 {
      NotBefore(s, t, c, i);
      NotBefore(t, s, c, i);
      Mirror(c, s[i], t[i]);
    }
  }

  lemma {:induction false} NotBefore<T(!new)>(s: seq<T>, t: seq<T>, c: (T, T) -> int, i: nat)
    requires Preorder(c) && multiset(s) == multiset(t) && Ordered(s, c) && Ordered(t, c) && i < |s| == |t|
    ensures c(s[i], t[i]) >= 0
  {
    if c(s[i], t[i]) < 0 {
      forall k | i <= k < |t| ensures c(t[k], s[i]) > 0 {
        Trans(c, s[i], t[i], t[k]);
        Mirror(c, s[i], t[k]);
      }
      CountPrefix(s, c, s[i], i + 1);
      CountPrefix(t, c, s[i], i);
      CountOfPermutation(s, t, c, s[i]);
    }
  }
}
