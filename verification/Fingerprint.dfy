/** Public-key fingerprints (internal/inventory/collect.go): the hash of an RSA
    modulus without the zero bytes a token may put in front of it. */
module Fingerprint {
  import opened Bytes

  /** The integer a big-endian byte string stands for. */
  function BigEndian(b: seq<byte>): nat {
    if b == [] then 0 else BigEndian(b[..|b| - 1]) * 256 + b[|b| - 1] as int
  }

  /** Leading zeros removed, but never the last byte. */
  function Normalized(b: seq<byte>): seq<byte> { if |b| > 1 && b[0] == 0 then Normalized(b[1..]) else b }

  method NormalizeBig(b: seq<byte>) returns (r: seq<byte>)
    ensures r == Normalized(b)
  {
    var i := 0;
    while i < |b| - 1 && b[i] == 0
      invariant i <= |b| && (b != [] ==> i < |b|)
      invariant Normalized(b) == Normalized(b[i..])
    {
      i := i + 1;
    }
    return b[i..];
  }

  /** A byte string no normalisation shortens. */
  predicate Canonical(b: seq<byte>) { b != [] && (|b| > 1 ==> b[0] != 0) }

  lemma {:induction false} ZeroInFront(b: seq<byte>)
    ensures BigEndian([0] + b) == BigEndian(b)
  {
    if b != [] {
      assert ([0] + b)[..|b|] == [0] + b[..|b| - 1];
      ZeroInFront(b[..|b| - 1]);
    }
  }

  lemma {:induction false} NormalizedIsCanonical(b: seq<byte>)
    requires b != []
    ensures Canonical(Normalized(b)) && BigEndian(Normalized(b)) == BigEndian(b)
  {
    if |b| > 1 && b[0] == 0 {
      NormalizedIsCanonical(b[1..]);
      ZeroInFront(b[1..]);
      assert b == [0] + b[1..];
    }
  }

  lemma {:induction false} LongIsLarge(b: seq<byte>)
    requires |b| > 0 && b[0] != 0
    ensures BigEndian(b) >= 1 && (|b| > 1 ==> BigEndian(b) >= 256)
  {
    if |b| > 1 { LongIsLarge(b[..|b| - 1]); }
  }

  lemma {:induction false} CanonicalUnique(a: seq<byte>, b: seq<byte>)
    requires Canonical(a) && Canonical(b) && BigEndian(a) == BigEndian(b)
    ensures a == b
  {
    var m, n := |a| - 1, |b| - 1;
    LastByte(a);
    LastByte(b);
    assert a == a[..m] + [a[m]] && b == b[..n] + [b[n]];
    if |a| > 1 { LongIsLarge(a); }
    if |b| > 1 { LongIsLarge(b); }
    if |a| > 1 && |b| > 1 {
      CanonicalUnique(a[..m], b[..n]);
    } else {
      assert BigEndian(a[..m]) == 0 ==> |a| == 1;
      assert BigEndian(b[..n]) == 0 ==> |b| == 1;
    }
  }

  lemma LastByte(b: seq<byte>)
    requires b != []
    ensures BigEndian(b) / 256 == BigEndian(b[..|b| - 1]) && BigEndian(b) % 256 == b[|b| - 1] as int
  {
  }

  /** Byte strings normalise alike exactly when they are the same integer. */
  lemma SameIntegerExactly(a: seq<byte>, b: seq<byte>)
    requires a != [] && b != []
    ensures Normalized(a) == Normalized(b) <==> BigEndian(a) == BigEndian(b)
  {
    NormalizedIsCanonical(a);
    NormalizedIsCanonical(b);
    if BigEndian(a) == BigEndian(b) { CanonicalUnique(Normalized(a), Normalized(b)); }
  }

  // ---- fingerprints ----

  /** A hash without collisions, none of whose values is the empty string. */
  ghost predicate Injective(hash: seq<byte> -> string) {
    && (forall a, b :: hash(a) == hash(b) ==> a == b)
    && (forall a :: hash(a) != "")
  }

  function FingerprintOf(b: seq<byte>, hash: seq<byte> -> string): string { if b == [] then "" else hash(b) }

  /** The fingerprint of an RSA key object whose CKA_MODULUS reads v. */
  function OfModulus(v: seq<byte>, hash: seq<byte> -> string): string { FingerprintOf(Normalized(v), hash) }

  /** A key without a modulus has no fingerprint, and any other has one. */
  lemma NoModulusNoFingerprint(v: seq<byte>, hash: seq<byte> -> string)
    requires Injective(hash)
    ensures OfModulus(v, hash) == "" <==> v == []
  {
    if v != [] { NormalizedIsCanonical(v); }
  }

  /** The shortest big-endian form of an integer: empty for zero. */
  function Minimal(n: nat): seq<byte> { if n == 0 then [] else Minimal(n / 256) + [(n % 256) as byte] }

  lemma {:induction false} MinimalIsValue(n: nat)
    ensures BigEndian(Minimal(n)) == n && (Minimal(n) == [] <==> n == 0)
  {
    if n != 0 {
      MinimalIsValue(n / 256);
      assert Minimal(n)[..|Minimal(n)| - 1] == Minimal(n / 256);
    }
  }

  /** Two RSA key objects have one fingerprint exactly when their moduli are the
      same integer, however many zeros either token writes in front. */
  lemma SameModulusExactly(v: seq<byte>, w: seq<byte>, hash: seq<byte> -> string)
    requires v != [] && w != [] && Injective(hash)
    ensures OfModulus(v, hash) != "" && (OfModulus(v, hash) == OfModulus(w, hash) <==> BigEndian(v) == BigEndian(w))
  {
    NormalizedIsCanonical(v);
    NormalizedIsCanonical(w);
    SameIntegerExactly(v, w);
  }

  /** A certificate's RSA key, given as an integer, has a key object's
      fingerprint exactly when that integer is the object's modulus. */
  lemma CertificateMatchesKey(n: nat, v: seq<byte>, hash: seq<byte> -> string)
    requires n > 0 && v != [] && Injective(hash)
    ensures OfModulus(Minimal(n), hash) == OfModulus(v, hash) <==> BigEndian(v) == n
  {
    MinimalIsValue(n);
    SameModulusExactly(Minimal(n), v, hash);
  }
}
