// hashString and hashSlice of internal/services/cached_workflow_services.go: 32-bit hashes used in
// cache keys.  A uint32 is an integer below 2^32; products are reduced modulo 2^32.
module Hashing {
  import opened Powers

  const MODULUS: int := 0x1_0000_0000
  const BASIS: int := 2166136261
  const PRIME: int := 16777619
  // The inverse of PRIME modulo 2^32.
  const INVERSE: int := 899433627

  type Word = h: int | 0 <= h < 0x1_0000_0000
  type Byte = b: int | 0 <= b < 256
  type Bytes = seq<Byte>

  const COMMA: Byte := 44

  // Bitwise exclusive or.
  function Xor(x: nat, y: nat): nat
    decreases x + y
  {
    if x == 0 && y == 0 then 0 else (if x % 2 != y % 2 then 1 else 0) + 2 * Xor(x / 2, y / 2)
  }

  lemma {:induction false} XorBound(x: nat, y: nat, n: nat)
    requires x < Pow2(n) && y < Pow2(n)
    ensures Xor(x, y) < Pow2(n)
    decreases n
  {
    if n > 0 && !(x == 0 && y == 0) { XorBound(x / 2, y / 2, n - 1); }
  }

  lemma {:induction false} XorUndoesXor(x: nat, y: nat)
    ensures Xor(Xor(x, y), y) == x
    decreases x + y
  {
    if !(x == 0 && y == 0) {
      XorUndoesXor(x / 2, y / 2);
      var z := Xor(x, y);
      assert z / 2 == Xor(x / 2, y / 2) && z % 2 == if x % 2 != y % 2 then 1 else 0;
    }
  }

  lemma {:induction false} XorCommutes(x: nat, y: nat)
    ensures Xor(x, y) == Xor(y, x)
    decreases x + y
  {
    if !(x == 0 && y == 0) { XorCommutes(x / 2, y / 2); }
  }

  lemma WordIs32Bits()
    ensures Pow2(32) == MODULUS
  {
    assert Pow2(8) == 256;
    assert Pow2(16) == 65536;
    assert Pow2(24) == 16777216;
  }

  function Times(h: Word): Word {
    h * PRIME % MODULUS
  }

  function ExclusiveOr(h: Word, b: Byte): Word {
    WordIs32Bits();
    XorBound(h, b, 32);
    Xor(h, b)
  }

  function Mix(h: Word, b: Byte): Word {
    ExclusiveOr(Times(h), b)
  }

  function Fold(h: Word, s: Bytes): Word
    decreases |s|
  {
    if s == [] then h else Fold(Mix(h, s[0]), s[1..])
  }

  function HashString(s: Bytes): Word {
    Fold(BASIS, s)
  }

  // Each string followed by a comma.
  function Joined(slice: seq<Bytes>): Bytes {
    if slice == [] then [] else slice[0] + [COMMA] + Joined(slice[1..])
  }

  method ComputeHashString(s: Bytes) returns (h: Word)
    ensures h == HashString(s)
  {
    h := BASIS;
    for i := 0 to |s|
      invariant h == Fold(BASIS, s[..i])
    {
      FoldMore(BASIS, s[..i], s[i]);
      assert s[..i + 1] == s[..i] + [s[i]];
      h := Times(h);
      h := ExclusiveOr(h, s[i]);
    }
    assert s[..|s|] == s;
  }

  // The hash of a slice is the hash of its strings, each followed by a comma, run together.
  method ComputeHashSlice(slice: seq<Bytes>) returns (h: Word)
    ensures h == HashString(Joined(slice))
  {
    h := BASIS;
    for k := 0 to |slice|
      invariant h == HashString(Joined(slice[..k]))
    {
      var s := slice[k];
      ghost var before := Joined(slice[..k]);
      assert before + s[..0] == before;
      for i := 0 to |s|
        invariant h == Fold(BASIS, before + s[..i])
      {
        FoldMore(BASIS, before + s[..i], s[i]);
        assert before + s[..i + 1] == before + s[..i] + [s[i]];
        h := Times(h);
        h := ExclusiveOr(h, s[i]);
      }
      assert s[..|s|] == s;
      FoldMore(BASIS, before + s, COMMA);
      h := Times(h);
      h := ExclusiveOr(h, COMMA);
      JoinedMore(slice[..k], s);
      assert slice[..k + 1] == slice[..k] + [s];
      assert before + s + [COMMA] == before + (s + [COMMA]);
    }
    assert slice[..|slice|] == slice;
  }

  lemma {:induction false} JoinedMore(slice: seq<Bytes>, s: Bytes)
    ensures Joined(slice + [s]) == Joined(slice) + (s + [COMMA])
  {
    if slice == [] {
      assert slice + [s] == [s] && [s][1..] == [];
    } else {
      assert (slice + [s])[1..] == slice[1..] + [s];
      JoinedMore(slice[1..], s);
    }
  }

  lemma {:induction false} FoldConcat(h: Word, a: Bytes, b: Bytes)
    ensures Fold(h, a + b) == Fold(Fold(h, a), b)
    decreases |a|
  {
    if a == [] {
      assert a + b == b;
    } else {
      assert (a + b)[1..] == a[1..] + b;
      FoldConcat(Mix(h, a[0]), a[1..], b);
    }
  }

  lemma FoldMore(h: Word, a: Bytes, b: Byte)
    ensures Fold(h, a + [b]) == Mix(Fold(h, a), b)
  {
    FoldConcat(h, a, [b]);
    assert [b][1..] == [];
  }

  // ----- What is computed -----

  // A binary digit, the least significant one first.
  function Bit(x: nat, i: nat): nat {
    if i == 0 then x % 2 else Bit(x / 2, i - 1)
  }

  // The digits of an exclusive or are 1 where those of its operands differ.
  lemma {:induction false} XorBits(x: nat, y: nat, i: nat)
    ensures Bit(Xor(x, y), i) == if Bit(x, i) != Bit(y, i) then 1 else 0
    decreases i
  {
    if x == 0 && y == 0 {
      NoBit(i);
    } else if i > 0 {
      XorBits(x / 2, y / 2, i - 1);
      assert Xor(x, y) / 2 == Xor(x / 2, y / 2);
    }
  }

  lemma {:induction false} NoBit(i: nat)
    ensures Bit(0, i) == 0
  {
    if i > 0 { NoBit(i - 1); }
  }

  // From 2166136261 on, each byte is exclusive-ored in after a multiplication by 16777619 modulo
  // 2^32, in that order.
  lemma HashGrows(s: Bytes, b: Byte)
    ensures HashString([]) == 2166136261
    ensures HashString(s + [b]) == Xor(HashString(s) * 16777619 % 4294967296, b)
  {
    FoldMore(BASIS, s, b);
  }

  // ----- Collisions -----

  // Multiplying by the prime loses nothing.
  lemma TimesIsInvertible(h: Word)
    ensures Times(h) * INVERSE % MODULUS == h
  {
    var q, k := h * PRIME / MODULUS, PRIME * INVERSE / MODULUS;
    assert PRIME * INVERSE == MODULUS * k + 1;
    assert Times(h) == h * PRIME - MODULUS * q;
    assert Times(h) * INVERSE == h + MODULUS * (k * h - q * INVERSE);
  }

  lemma MixIsInjective(h1: Word, h2: Word, b: Byte)
    requires Mix(h1, b) == Mix(h2, b)
    ensures h1 == h2
  {
    XorUndoesXor(Times(h1), b);
    XorUndoesXor(Times(h2), b);
    TimesIsInvertible(h1);
    TimesIsInvertible(h2);
  }

  lemma {:induction false} FoldIsInjective(h1: Word, h2: Word, s: Bytes)
    requires Fold(h1, s) == Fold(h2, s)
    ensures h1 == h2
    decreases |s|
  {
    if s != [] {
      FoldIsInjective(Mix(h1, s[0]), Mix(h2, s[0]), s[1..]);
      MixIsInjective(h1, h2, s[0]);
    }
  }

  // A common suffix neither makes nor breaks a collision.
  lemma SuffixKeepsCollisions(a: Bytes, b: Bytes, suffix: Bytes)
    ensures HashString(a + suffix) == HashString(b + suffix) <==> HashString(a) == HashString(b)
  {
    FoldConcat(BASIS, a, suffix);
    FoldConcat(BASIS, b, suffix);
    if HashString(a + suffix) == HashString(b + suffix) {
      FoldIsInjective(HashString(a), HashString(b), suffix);
    }
  }

  // Strings that differ in exactly one byte never collide.
  lemma OneByteApart(p: Bytes, x: Byte, y: Byte, q: Bytes)
    requires x != y
    ensures HashString(p + [x] + q) != HashString(p + [y] + q)
  {
    var t := Times(HashString(p));
    FoldMore(BASIS, p, x);
    FoldMore(BASIS, p, y);
    XorCommutes(t, x);
    XorCommutes(t, y);
    XorUndoesXor(x, t);
    XorUndoesXor(y, t);
    SuffixKeepsCollisions(p + [x], p + [y], q);
  }

  // ----- What the separator tells apart -----

  // A string split at its commas.
  function Parts(s: Bytes): (ps: seq<Bytes>)
    ensures |ps| >= 1 && CommaFree(ps)
  {
    if s == [] then [[]]
    else
      var rest := Parts(s[1..]);
      if s[0] == COMMA then [[]] + rest else Prepend(s[0], rest)
  }

  // One more byte at the beginning of the first part.
  function Prepend(x: Byte, ps: seq<Bytes>): (qs: seq<Bytes>)
    requires |ps| >= 1
    ensures |qs| == |ps|
    ensures x != COMMA && CommaFree(ps) ==> CommaFree(qs)
  {
    [[x] + ps[0]] + ps[1..]
  }

  lemma PrependConcat(x: Byte, ps: seq<Bytes>, qs: seq<Bytes>)
    requires |ps| >= 1
    ensures Prepend(x, ps + qs) == Prepend(x, ps) + qs
  {
    assert (ps + qs)[0] == ps[0] && (ps + qs)[1..] == ps[1..] + qs;
  }

  predicate CommaFree(slice: seq<Bytes>) {
    forall s :: s in slice ==> COMMA !in s
  }

  // A slice with all its strings split.
  function Split(slice: seq<Bytes>): seq<Bytes> {
    if slice == [] then [] else Parts(slice[0]) + Split(slice[1..])
  }

  lemma {:induction false} JoinedConcat(a: seq<Bytes>, b: seq<Bytes>)
    ensures Joined(a + b) == Joined(a) + Joined(b)
  {
    if a == [] {
      assert a + b == b;
    } else {
      assert (a + b)[1..] == a[1..] + b;
      JoinedConcat(a[1..], b);
    }
  }

  lemma {:induction false} JoinedParts(s: Bytes)
    ensures Joined(Parts(s)) == s + [COMMA]
  {
    if s != [] {
      var rest, ps := Parts(s[1..]), Parts(s);
      JoinedParts(s[1..]);
      if s[0] == COMMA {
        assert ps[1..] == rest;
      } else {
        assert ps[0] == [s[0]] + rest[0] && ps[1..] == rest[1..];
        assert Joined(ps) == [s[0]] + Joined(rest);
        assert s == [s[0]] + s[1..];
      }
    }
  }

  // Splitting the strings first does not change the text that is hashed.
  lemma {:induction false} JoinedSplit(slice: seq<Bytes>)
    ensures Joined(Split(slice)) == Joined(slice)
  {
    if slice != [] {
      JoinedSplit(slice[1..]);
      JoinedParts(slice[0]);
      JoinedConcat(Parts(slice[0]), Split(slice[1..]));
    }
  }

  lemma {:induction false} PartsOfConcat(s: Bytes, t: Bytes)
    ensures Parts(s + [COMMA] + t) == Parts(s) + Parts(t)
  {
    var whole := s + [COMMA] + t;
    if s == [] {
      assert whole[0] == COMMA && whole[1..] == t && Parts(s) == [[]];
    } else {
      assert whole[0] == s[0] && whole[1..] == s[1..] + [COMMA] + t;
      PartsOfConcat(s[1..], t);
      PrependConcat(s[0], Parts(s[1..]), Parts(t));
    }
  }

  // The text can be read back, as the split strings and an empty rest.
  lemma {:induction false} PartsOfJoined(slice: seq<Bytes>)
    ensures Parts(Joined(slice)) == Split(slice) + [[]]
  {
    if slice != [] {
      PartsOfConcat(slice[0], Joined(slice[1..]));
      PartsOfJoined(slice[1..]);
    }
  }

  // The separator is not escaped: the text that is hashed is the same for two slices exactly when
  // they are after splitting every string at its commas.
  lemma CommaIsAmbiguous(a: seq<Bytes>, b: seq<Bytes>)
    ensures Joined(a) == Joined(b) <==> Split(a) == Split(b)
    ensures Split(a) == Split(b) ==> HashString(Joined(a)) == HashString(Joined(b))
  {
    if Joined(a) == Joined(b) {
      PartsOfJoined(a);
      PartsOfJoined(b);
      assert Split(a) == (Split(a) + [[]])[..|Split(a)|] && Split(b) == (Split(b) + [[]])[..|Split(b)|];
    }
    if Split(a) == Split(b) {
      JoinedSplit(a);
      JoinedSplit(b);
    }
  }

  lemma {:induction false} PartsOfCommaFree(s: Bytes)
    requires COMMA !in s
    ensures Parts(s) == [s]
  {
    if s != [] {
      assert s[0] in s && forall x :: x in s[1..] ==> x in s;
      PartsOfCommaFree(s[1..]);
      assert s == [s[0]] + s[1..];
    }
  }

  lemma {:induction false} SplitOfCommaFree(slice: seq<Bytes>)
    requires CommaFree(slice)
    ensures Split(slice) == slice
  {
    if slice != [] {
      assert slice[0] in slice && forall s :: s in slice[1..] ==> s in slice;
      PartsOfCommaFree(slice[0]);
      SplitOfCommaFree(slice[1..]);
      assert slice == [slice[0]] + slice[1..];
    }
  }

  // Without commas in the strings different slices give different texts.
  lemma JoinedIsInjective(a: seq<Bytes>, b: seq<Bytes>)
    requires CommaFree(a) && CommaFree(b) && Joined(a) == Joined(b)
    ensures a == b
  {
    CommaIsAmbiguous(a, b);
    SplitOfCommaFree(a);
    SplitOfCommaFree(b);
  }

  // A comma inside a string hashes like the end of one.
  lemma CommaReadsAsBoundary(a: Bytes, b: Bytes, rest: seq<Bytes>)
    ensures HashString(Joined([a + [COMMA] + b] + rest)) == HashString(Joined([a, b] + rest))
  {
    assert ([a + [COMMA] + b] + rest)[1..] == rest;
    assert ([a, b] + rest)[1..] == [b] + rest && ([b] + rest)[1..] == rest;
    assert Joined([a + [COMMA] + b] + rest) == Joined([a, b] + rest);
  }
}
