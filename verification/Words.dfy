/** Machine words, bounded arithmetic and the small sequence vocabulary shared by every part. */
module Words {

  type byte = x: int | 0 <= x < 0x100
  type u16 = x: int | 0 <= x < 0x1_0000
  type u32 = x: int | 0 <= x < 0x1_0000_0000
  type u64 = x: int | 0 <= x < 0x1_0000_0000_0000_0000
  type i32 = x: int | -0x8000_0000 <= x < 0x8000_0000

  const U16_MAX: u16 := 0xFFFF
  const U64_MAX: u64 := 0xFFFF_FFFF_FFFF_FFFF
  const U64_LIMIT: int := 0x1_0000_0000_0000_0000

  /** A Rust vector: its length is a machine word. */
  type Vec<T> = s: seq<T> | |s| <= U64_MAX

  datatype Option<+T> = None | Some(value: T)

  function Min(a: int, b: int): int {
    if a <= b then a else b
  }

  function Max(a: int, b: int): int {
    if a <= b then b else a
  }

  /** `u64::saturating_add` */
  function SatAdd(a: u64, b: u64): u64 {
    if a + b > U64_MAX then U64_MAX else a + b
  }

  /** `u64::saturating_sub` */
  function SatSub(a: u64, b: u64): u64 {
    if a < b then 0 else a - b
  }

  /** Addition on a C `u64`, which wraps. */
  function WrapAdd(a: u64, b: u64): u64 {
    if a + b > U64_MAX then a + b - U64_LIMIT else a + b
  }

  lemma WrapIsModulo(c: nat, b: u64)
    ensures WrapAdd(c % U64_LIMIT, b) == (c + b) % U64_LIMIT
  {
  }

  /** The last `n` elements of `s`, or all of it when it is shorter. */
  function LastN<T>(n: nat, s: seq<T>): seq<T> {
    if |s| <= n then s else s[|s| - n..]
  }

  /** Truncating to the last `n` after every append is truncating once at the end. */
  lemma LastNAppend<T>(n: nat, s: seq<T>, t: seq<T>)
    ensures LastN(n, LastN(n, s) + t) == LastN(n, s + t)
  {
    if |s| > n {
      assert s + t == s[..|s| - n] + (LastN(n, s) + t);
    }
  }

  lemma LastNPush<T>(n: nat, s: seq<T>, t: seq<T>, x: T)
    ensures LastN(n, LastN(n, s + t) + [x]) == LastN(n, s + (t + [x]))
  {
    LastNAppend(n, s + t, [x]);
    assert s + t + [x] == s + (t + [x]);
  }

  lemma Associative<T>(a: seq<T>, b: seq<T>, c: seq<T>)
    ensures a + (b + c) == a + b + c
  {
  }

  lemma PushAssociative<T>(s: seq<T>, t: seq<T>, x: T)
    ensures s + t + [x] == s + (t + [x])
  {
  }

  ghost predicate NoDuplicates<T>(s: seq<T>) {
    forall i, j :: 0 <= i < j < |s| ==> s[i] != s[j]
  }

  // Sums

  function SumBy<T>(f: T -> nat, s: seq<T>): nat {
    if s == [] then 0 else f(s[0]) + SumBy(f, s[1..])
  }

  function Itself(n: nat): nat { n }

  function Sum(s: seq<nat>): nat { SumBy(Itself, s) }

  lemma {:induction false} SumAppend<T>(f: T -> nat, s: seq<T>, t: seq<T>)
    ensures SumBy(f, s + t) == SumBy(f, s) + SumBy(f, t)
  {
    if s == [] {
      assert s + t == t;
    } else {
      assert (s + t)[1..] == s[1..] + t;
      SumAppend(f, s[1..], t);
    }
  }

  /** `Vec::remove`, on values. */
  function Without<T>(s: seq<T>, k: nat): seq<T>
    requires k < |s|
  {
    s[..k] + s[k + 1..]
  }

  lemma MultisetWithout<T>(s: seq<T>, k: nat)
    requires k < |s|
    ensures multiset(s) == multiset(Without(s, k)) + multiset{s[k]}
    ensures multiset(Without(s, k)) == multiset(s) - multiset{s[k]}
  {
    assert s == s[..k] + [s[k]] + s[k + 1..];
  }

  lemma SumWithout<T>(f: T -> nat, s: seq<T>, k: nat)
    requires k < |s|
    ensures SumBy(f, s) == SumBy(f, Without(s, k)) + f(s[k])
  {
    var a, x, b := s[..k], [s[k]], s[k + 1..];
    assert s == a + (x + b);
    SumAppend(f, a, x + b);
    SumAppend(f, x, b);
    SumAppend(f, a, b);
    assert SumBy(f, x) == f(s[k]) + SumBy(f, x[1..]);
  }

  /** A sum does not depend on the order of its terms. */
  lemma {:induction false} SumPermutation<T>(f: T -> nat, s: seq<T>, t: seq<T>)
    requires multiset(s) == multiset(t)
    ensures SumBy(f, s) == SumBy(f, t)
  {
    if s == [] {
      assert |t| == |multiset(t)| == 0;
    } else {
      assert s[0] in multiset(t);
      var k :| 0 <= k < |t| && t[k] == s[0];
      MultisetWithout(s, 0);
      MultisetWithout(t, k);
      SumWithout(f, t, k);
      assert Without(s, 0) == s[1..];
      SumPermutation(f, s[1..], Without(t, k));
    }
  }

  lemma {:induction false} SumAtLeast<T>(f: T -> nat, s: seq<T>, each: nat)
    requires forall i :: 0 <= i < |s| ==> f(s[i]) >= each
    ensures SumBy(f, s) >= |s| * each
  {
    if s != [] {
      SumAtLeast(f, s[1..], each);
      assert |s| * each == each + |s[1..]| * each;
    }
  }

  lemma {:induction false} SumAtMost<T>(f: T -> nat, s: seq<T>, each: nat)
    requires forall i :: 0 <= i < |s| ==> f(s[i]) <= each
    ensures SumBy(f, s) <= |s| * each
  {
    if s != [] {
      SumAtMost(f, s[1..], each);
      assert |s| * each == each + |s[1..]| * each;
    }
  }

  lemma {:induction false} SumMonotone(s: seq<nat>, t: seq<nat>)
    requires |s| == |t| && forall i :: 0 <= i < |s| ==> s[i] <= t[i]
    ensures Sum(s) <= Sum(t)
  {
    if s != [] {
      SumMonotone(s[1..], t[1..]);
    }
  }

  lemma {:induction false} SumRaise(s: seq<nat>, k: nat, d: nat)
    requires k < |s|
    ensures Sum(s[k := s[k] + d]) == Sum(s) + d
  {
    if k > 0 {
      SumRaise(s[1..], k - 1, d);
      assert s[k := s[k] + d][1..] == s[1..][k - 1 := s[k] + d];
    }
  }

  lemma {:induction false} SumsAgree<T>(f: T -> nat, s: seq<T>, amounts: seq<nat>)
    requires |s| == |amounts| && forall i :: 0 <= i < |s| ==> f(s[i]) == amounts[i]
    ensures SumBy(f, s) == Sum(amounts)
  {
    if s != [] {
      SumsAgree(f, s[1..], amounts[1..]);
    }
  }
}
