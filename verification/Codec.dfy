/**
 Byte layouts as pairs of an encoder and a decoder, in the style of bincode 1.3 with its default
 options: fixed-width little-endian integers, `u64` lengths, fields one after another, and a decoder
 that hands back what it did not read.
 */
module Codec {
  import opened Words
  import opened Names

  datatype Codec<!T> = Codec(enc: T -> seq<byte>, dec: seq<byte> -> Option<(T, seq<byte>)>)

  /** Decoding undoes encoding and stops exactly where the encoding stops. */
  ghost predicate RoundTrips<T(!new)>(c: Codec<T>) {
    forall x: T, rest: seq<byte> :: c.dec(c.enc(x) + rest) == Some((x, rest))
  }

  /** The decoder accepts nothing but encodings: each value has one byte form. */
  ghost predicate Canonical<T(!new)>(c: Codec<T>) {
    forall s :: c.dec(s).Some? ==> s == c.enc(c.dec(s).value.0) + c.dec(s).value.1
  }

  ghost predicate Exact<T(!new)>(c: Codec<T>) {
    RoundTrips(c) && Canonical(c)
  }

  // Little-endian integers

  function ToLe(n: nat, x: nat): (s: seq<byte>)
    ensures |s| == n
  {
    if n == 0 then [] else [x % 256] + ToLe(n - 1, x / 256)
  }

  function FromLe(s: seq<byte>): nat {
    if s == [] then 0 else s[0] + 256 * FromLe(s[1..])
  }

  function Pow256(n: nat): nat {
    if n == 0 then 1 else 256 * Pow256(n - 1)
  }

  /** The bytes of a word, the lowest first. */
  lemma LittleEndian(x: nat)
    ensures ToLe(2, x) == [x % 256, x / 256 % 256]
    ensures ToLe(4, x) == ToLe(2, x) + ToLe(2, x / 256 / 256)
    ensures ToLe(8, x) == ToLe(4, x) + ToLe(4, x / 256 / 256 / 256 / 256)
  {
    ToLeSplit(2, 2, x);
    ToLeSplit(4, 4, x);
    assert ToLe(1, x / 256) == [x / 256 % 256] + ToLe(0, x / 256 / 256);
    assert ToLe(2, x) == [x % 256] + ToLe(1, x / 256);
    assert DropBytes(2, x) == DropBytes(1, x / 256) == DropBytes(0, x / 256 / 256);
    assert DropBytes(4, x) == DropBytes(3, x / 256) == DropBytes(2, x / 256 / 256);
    assert DropBytes(2, x / 256 / 256) == DropBytes(1, x / 256 / 256 / 256);
  }

  function DropBytes(n: nat, x: nat): nat {
    if n == 0 then x else DropBytes(n - 1, x / 256)
  }

  lemma {:induction false} ToLeSplit(n: nat, m: nat, x: nat)
    ensures ToLe(n + m, x) == ToLe(n, x) + ToLe(m, DropBytes(n, x))
  {
    if n > 0 {
      ToLeSplit(n - 1, m, x / 256);
    }
  }

  lemma {:induction false} FromToLe(n: nat, x: nat)
    requires x < Pow256(n)
    ensures FromLe(ToLe(n, x)) == x
  {
    if n > 0 {
      FromToLe(n - 1, x / 256);
      assert ToLe(n, x)[1..] == ToLe(n - 1, x / 256);
    }
  }

  lemma {:induction false} ToFromLe(s: seq<byte>)
    ensures FromLe(s) < Pow256(|s|)
    ensures ToLe(|s|, FromLe(s)) == s
  {
    if s != [] {
      ToFromLe(s[1..]);
      var x := FromLe(s);
      assert x % 256 == s[0] && x / 256 == FromLe(s[1..]);
      assert s == [s[0]] + s[1..];
    }
  }

  lemma Pow256Widths()
    ensures Pow256(2) == 0x1_0000
    ensures Pow256(4) == 0x1_0000_0000
    ensures Pow256(8) == 0x1_0000_0000_0000_0000
  {
    assert Pow256(1) == 256;
    assert Pow256(3) == 256 * Pow256(2);
    assert Pow256(5) == 256 * Pow256(4);
    assert Pow256(6) == 256 * Pow256(5);
    assert Pow256(7) == 256 * Pow256(6);
  }

  /** `n` bytes read as an integer, when they are there. */
  function TakeLe(n: nat, s: seq<byte>): (r: Option<(nat, seq<byte>)>)
    ensures r.Some? <==> |s| >= n
    ensures r.Some? ==> r.value.0 < Pow256(n) && s == ToLe(n, r.value.0) + r.value.1
  {
    if |s| < n then None
    else
      ToFromLe(s[..n]);
      Some((FromLe(s[..n]), s[n..]))
  }

  lemma TakeToLe(n: nat, x: nat, rest: seq<byte>)
    requires x < Pow256(n)
    ensures TakeLe(n, ToLe(n, x) + rest) == Some((x, rest))
  {
    FromToLe(n, x);
    assert (ToLe(n, x) + rest)[..n] == ToLe(n, x);
    assert (ToLe(n, x) + rest)[n..] == rest;
  }

  function DecU16(s: seq<byte>): Option<(u16, seq<byte>)> {
    Pow256Widths();
    match TakeLe(2, s) case None => None case Some((x, rest)) => Some((x, rest))
  }

  function DecU32(s: seq<byte>): Option<(u32, seq<byte>)> {
    Pow256Widths();
    match TakeLe(4, s) case None => None case Some((x, rest)) => Some((x, rest))
  }

  function DecU64(s: seq<byte>): Option<(u64, seq<byte>)> {
    Pow256Widths();
    match TakeLe(8, s) case None => None case Some((x, rest)) => Some((x, rest))
  }

  const U16: Codec<u16> := Codec(x => ToLe(2, x), DecU16)
  const U32: Codec<u32> := Codec(x => ToLe(4, x), DecU32)
  const U64: Codec<u64> := Codec(x => ToLe(8, x), DecU64)

  lemma WordsExact()
    ensures Exact(U16) && Exact(U32) && Exact(U64)
  {
    Pow256Widths();
    forall x: u16, rest: seq<byte> ensures U16.dec(U16.enc(x) + rest) == Some((x, rest)) {
      TakeToLe(2, x, rest);
    }
    forall x: u32, rest: seq<byte> ensures U32.dec(U32.enc(x) + rest) == Some((x, rest)) {
      TakeToLe(4, x, rest);
    }
    forall x: u64, rest: seq<byte> ensures U64.dec(U64.enc(x) + rest) == Some((x, rest)) {
      TakeToLe(8, x, rest);
    }
  }

  // Composite layouts

  /** Two values one after the other. */
  function Pair<A, B>(a: Codec<A>, b: Codec<B>): Codec<(A, B)> {
    Codec((p: (A, B)) => a.enc(p.0) + b.enc(p.1),
          s => match a.dec(s)
               case None => None
               case Some((x, r)) =>
                 match b.dec(r) case None => None case Some((y, rest)) => Some(((x, y), rest)))
  }

  lemma PairEnc<A, B>(a: Codec<A>, b: Codec<B>, x: A, y: B)
    ensures Pair(a, b).enc((x, y)) == a.enc(x) + b.enc(y)
  {
  }

  lemma PairExact<A(!new), B(!new)>(a: Codec<A>, b: Codec<B>)
    requires Exact(a) && Exact(b)
    ensures Exact(Pair(a, b))
  {
    var c := Pair(a, b);
    forall p: (A, B), rest: seq<byte> ensures c.dec(c.enc(p) + rest) == Some((p, rest)) {
      assert c.enc(p) + rest == a.enc(p.0) + (b.enc(p.1) + rest);
      assert b.dec(b.enc(p.1) + rest) == Some((p.1, rest));
    }
    forall s | c.dec(s).Some? ensures s == c.enc(c.dec(s).value.0) + c.dec(s).value.1 {
      var (x, r) := a.dec(s).value;
      var (y, rest) := b.dec(r).value;
      assert s == a.enc(x) + (b.enc(y) + rest);
    }
  }

  /** The same bytes under another type. */
  function As<A, B>(a: Codec<A>, to: A -> B, from: B -> A): Codec<B> {
    Codec((y: B) => a.enc(from(y)),
          s => match a.dec(s) case None => None case Some((x, rest)) => Some((to(x), rest)))
  }

  lemma AsEnc<A, B>(a: Codec<A>, to: A -> B, from: B -> A, y: B)
    ensures As(a, to, from).enc(y) == a.enc(from(y))
  {
  }

  lemma AsExact<A(!new), B(!new)>(a: Codec<A>, to: A -> B, from: B -> A)
    requires Exact(a)
    requires forall x :: from(to(x)) == x
    requires forall y :: to(from(y)) == y
    ensures Exact(As(a, to, from))
  {
    var c := As(a, to, from);
    forall y: B, rest: seq<byte> ensures c.dec(c.enc(y) + rest) == Some((y, rest)) {
      assert a.dec(a.enc(from(y)) + rest) == Some((from(y), rest));
    }
    forall s | c.dec(s).Some? ensures s == c.enc(c.dec(s).value.0) + c.dec(s).value.1 {
      assert a.dec(s).Some?;
    }
  }

  function EncAll<T>(c: Codec<T>, v: seq<T>): seq<byte> {
    if v == [] then [] else c.enc(v[0]) + EncAll(c, v[1..])
  }

  function DecAll<T>(c: Codec<T>, n: nat, s: seq<byte>): (r: Option<(seq<T>, seq<byte>)>)
    ensures r.Some? ==> |r.value.0| == n
  {
    if n == 0 then Some(([], s))
    else
      match c.dec(s)
      case None => None
      case Some((x, r)) =>
        match DecAll(c, n - 1, r) case None => None case Some((v, rest)) => Some(([x] + v, rest))
  }

  /** Elements are encoded one after another, first to last. */
  lemma {:induction false} EncAllAppend<T>(c: Codec<T>, v: seq<T>, x: T)
    ensures EncAll(c, v + [x]) == EncAll(c, v) + c.enc(x)
  {
    if v == [] {
      assert v + [x] == [x] && EncAll(c, [x]) == c.enc(x) + EncAll(c, [x][1..]);
    } else {
      EncAllAppend(c, v[1..], x);
      assert (v + [x])[1..] == v[1..] + [x];
      assert c.enc(v[0]) + (EncAll(c, v[1..]) + c.enc(x)) == EncAll(c, v) + c.enc(x);
    }
  }

  lemma {:induction false} DecEncAll<T(!new)>(c: Codec<T>, v: seq<T>, rest: seq<byte>)
    requires RoundTrips(c)
    ensures DecAll(c, |v|, EncAll(c, v) + rest) == Some((v, rest))
  {
    if v == [] {
      assert EncAll(c, v) + rest == rest;
    } else {
      DecEncAll(c, v[1..], rest);
      assert EncAll(c, v) + rest == c.enc(v[0]) + (EncAll(c, v[1..]) + rest);
      assert v == [v[0]] + v[1..];
    }
  }

  lemma {:induction false} EncDecAll<T(!new)>(c: Codec<T>, n: nat, s: seq<byte>)
    requires Canonical(c)
    requires DecAll(c, n, s).Some?
    ensures s == EncAll(c, DecAll(c, n, s).value.0) + DecAll(c, n, s).value.1
  {
    if n > 0 {
      var (x, r) := c.dec(s).value;
      EncDecAll(c, n - 1, r);
      var (v, rest) := DecAll(c, n - 1, r).value;
      assert ([x] + v)[1..] == v;
      assert s == c.enc(x) + (EncAll(c, v) + rest);
    }
  }

  function DecVec<T>(c: Codec<T>, s: seq<byte>): Option<(Vec<T>, seq<byte>)> {
    match DecU64(s)
    case None => None
    case Some((n, r)) =>
      match DecAll(c, n, r) case None => None case Some((v, rest)) => Some((v, rest))
  }

  /** A `u64` length and that many elements. */
  function VecOf<T>(c: Codec<T>): Codec<Vec<T>> {
    Codec((v: Vec<T>) => ToLe(8, |v|) + EncAll(c, v), s => DecVec(c, s))
  }

  lemma VecExact<T(!new)>(c: Codec<T>)
    requires Exact(c)
    ensures Exact(VecOf(c))
  {
    Pow256Widths();
    var d := VecOf(c);
    forall v: Vec<T>, rest: seq<byte> ensures d.dec(d.enc(v) + rest) == Some((v, rest)) {
      assert d.enc(v) + rest == ToLe(8, |v|) + (EncAll(c, v) + rest);
      TakeToLe(8, |v|, EncAll(c, v) + rest);
      DecEncAll(c, v, rest);
    }
    forall s | d.dec(s).Some? ensures s == d.enc(d.dec(s).value.0) + d.dec(s).value.1 {
      var (n, r) := DecU64(s).value;
      EncDecAll(c, n, r);
      var (v, rest) := DecAll(c, n, r).value;
      assert s == ToLe(8, n) + (EncAll(c, v) + rest);
    }
  }

  function DecName(s: seq<byte>): Option<(Name, seq<byte>)> {
    match DecU64(s)
    case None => None
    case Some((n, r)) =>
      if |r| < n || !Utf8(r[..n]) then None else Some((r[..n], r[n..]))
  }

  /** A string: a `u64` byte count and the bytes, which must be UTF-8. */
  const NAME: Codec<Name> := Codec((s: Name) => ToLe(8, |s|) + s, DecName)

  lemma NameExact()
    ensures Exact(NAME)
  {
    Pow256Widths();
    forall v: Name, rest: seq<byte> ensures NAME.dec(NAME.enc(v) + rest) == Some((v, rest)) {
      assert NAME.enc(v) + rest == ToLe(8, |v|) + (v + rest);
      TakeToLe(8, |v|, v + rest);
      assert (v + rest)[..|v|] == v && (v + rest)[|v|..] == rest;
    }
    forall s | NAME.dec(s).Some? ensures s == NAME.enc(NAME.dec(s).value.0) + NAME.dec(s).value.1 {
      var (n, r) := DecU64(s).value;
      assert s == ToLe(8, n) + (r[..n] + r[n..]);
    }
  }

  /** The length of a vector's elements, added up. */
  lemma {:induction false} EncAllLength<T(!new)>(c: Codec<T>, size: T -> nat, v: seq<T>)
    requires forall x :: |c.enc(x)| == size(x)
    ensures |EncAll(c, v)| == SumBy(size, v)
  {
    if v != [] {
      EncAllLength(c, size, v[1..]);
    }
  }

  /** Layouts of one width: `n` bytes are enough, and exactly `n` are read. */
  ghost predicate FixedWidth<T(!new)>(c: Codec<T>, n: nat) {
    forall s :: |s| >= n ==> c.dec(s).Some? && |c.dec(s).value.1| == |s| - n
  }

  lemma PairFixed<A(!new), B(!new)>(a: Codec<A>, b: Codec<B>, n: nat, m: nat)
    requires FixedWidth(a, n) && FixedWidth(b, m)
    ensures FixedWidth(Pair(a, b), n + m)
  {
    forall s: seq<byte> | |s| >= n + m
      ensures Pair(a, b).dec(s).Some? && |Pair(a, b).dec(s).value.1| == |s| - (n + m)
    {
      assert a.dec(s).Some? && b.dec(a.dec(s).value.1).Some?;
    }
  }

  lemma AsFixed<A(!new), B(!new)>(a: Codec<A>, to: A -> B, from: B -> A, n: nat)
    requires FixedWidth(a, n)
    ensures FixedWidth(As(a, to, from), n)
  {
    forall s: seq<byte> | |s| >= n
      ensures As(a, to, from).dec(s).Some? && |As(a, to, from).dec(s).value.1| == |s| - n
    {
      assert a.dec(s).Some?;
    }
  }

  /** Reads a value that must fill `data` exactly, as a cast of a `repr(C)` record does. */
  function Cast<T>(c: Codec<T>, n: nat, data: seq<byte>): Option<T> {
    if |data| != n then None
    else
      match c.dec(data) case None => None case Some((x, _)) => Some(x)
  }

  lemma CastExact<T(!new)>(c: Codec<T>, n: nat, data: seq<byte>, x: T)
    requires Exact(c) && FixedWidth(c, n) && |c.enc(x)| == n
    ensures Cast(c, n, data).Some? <==> |data| == n
    ensures Cast(c, n, data) == Some(x) <==> data == c.enc(x)
  {
    assert c.enc(x) + [] == c.enc(x);
    assert c.dec(c.enc(x) + []) == Some((x, []));
    if |data| == n {
      assert c.dec(data).Some? && |c.dec(data).value.1| == 0;
    }
  }
}
