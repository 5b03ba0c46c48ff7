/**
 * The 64-bit Fowler-Noll-Vo 1a hash, as the Go package fasthash/fnv1a
 * exposes it: a running state that starts at Init64 and absorbs a string
 * one byte at a time (exclusive-or with the byte, then multiplication by
 * the FNV prime modulo 2^64).
 */
module Fnv1a {
  import opened Bytes

  /** The FNV-1a 64-bit offset basis. */
  const Init64: bv64 := 14695981039346656037

  /** The FNV 64-bit prime. */
  const Prime64: bv64 := 1099511628211

  /** Absorbs one byte; bv64 multiplication wraps modulo 2^64 as uint64 does. */
  function Step(h: bv64, b: byte): bv64 {
    (h ^ (b as bv64)) * Prime64
  }

  /** The state after absorbing every byte of `s`, first byte first. */
  function Fold(h: bv64, s: Bytes): bv64
    decreases |s|
  {
    if s == [] then h else Step(Fold(h, s[..|s| - 1]), s[|s| - 1])
  }

  /** FNV-1a 64 of a whole string. */
  function Hash64(s: Bytes): bv64 {
    Fold(Init64, s)
  }

  /**
   * fnv1a.AddString64: continues the hash state `h` over the bytes of `s`.
   */
  method AddString64(h: bv64, s: Bytes) returns (r: bv64)
    ensures r == Fold(h, s)
  {
    r := h;
    var i := 0;
    while i < |s|
      invariant 0 <= i <= |s|
      invariant r == Fold(h, s[..i])
    {
      assert s[..i + 1][..i] == s[..i];
      r := Step(r, s[i]);
      i := i + 1;
    }
    assert s[..i] == s;
  }

  /** Absorbing the empty string leaves the state as it was. */
  lemma FoldEmpty(h: bv64)
    ensures Fold(h, []) == h
  {
  }

  /**
   * Absorbing `a` and then `b` is absorbing `a + b`: the state is all the
   * hash carries from one call to the next.
   */
  lemma {:induction false} FoldAppend(h: bv64, a: Bytes, b: Bytes)
    ensures Fold(h, a + b) == Fold(Fold(h, a), b)
    decreases |b|
  {
    if b == [] {
      assert a + b == a;
    } else {
      var b' := b[..|b| - 1];
      assert (a + b)[..|a + b| - 1] == a + b';
      assert (a + b)[|a + b| - 1] == b[|b| - 1];
      FoldAppend(h, a, b');
    }
  }

  /** The published test vector for "a" pins the basis, the prime and the order of the two steps. */
  lemma {:induction false} HashOfA()
    ensures Hash64(Ascii("a")) == 0xaf63dc4c8601ec8c
  {
    var s := Ascii("a");
    assert s == [97];
    assert s[..0] == [];
    calc {
      Hash64(s);
      Step(Fold(Init64, []), 97);
      Step(Init64, 97);
      (0xcbf29ce484222325 ^ 0x61) * 0x100000001b3;
    }
  }
}
