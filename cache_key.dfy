/**
 * Derivation of the compilation-cache key.
 *
 * The key of a computation is the 64-bit fingerprint of its deterministic
 * serialization, rendered as a decimal string. The serializer and the
 * fingerprint function are library code and appear here as parameters: any
 * deterministic serializer that may fail, and any function from bytes to an
 * unsigned 64-bit value. The decimal rendering is modelled exactly.
 */
module CacheKey {
  import opened XrtStatus

  newtype byte = x: int | 0 <= x < 0x100
  newtype uint64 = x: int | 0 <= x < 0x1_0000_0000_0000_0000

  predicate IsDigit(ch: char)
  {
    '0' <= ch <= '9'
  }

  /** A decimal numeral as absl::StrCat writes an unsigned value: digits only, no leading zero. */
  predicate IsCanonicalDecimal(s: string)
  {
    |s| >= 1 && (forall i :: 0 <= i < |s| ==> IsDigit(s[i])) && (|s| > 1 ==> s[0] != '0')
  }

  function DigitChar(d: nat): (ch: char)
    requires d < 10
    ensures IsDigit(ch) && ch as int - '0' as int == d
  {
    (d + '0' as int) as char
  }

  function DigitValue(ch: char): nat
    requires IsDigit(ch)
  {
    ch as int - '0' as int
  }

  /** The decimal rendering of n. */
  function Decimal(n: nat): (s: string)
    ensures IsCanonicalDecimal(s)
    ensures s[0] == '0' <==> n == 0
    decreases n
  {
    if n < 10 then [DigitChar(n)] else Decimal(n / 10) + [DigitChar(n % 10)]
  }

  /** The value of a string of digits, read most significant digit first. */
  function ParseDecimal(s: string): nat
    requires forall i :: 0 <= i < |s| ==> IsDigit(s[i])
    decreases |s|
  {
    if s == [] then 0 else ParseDecimal(s[..|s| - 1]) * 10 + DigitValue(s[|s| - 1])
  }

  /** Reading back the decimal rendering gives the number. */
  lemma {:induction false} ParseDecimalOfDecimal(n: nat)
    ensures ParseDecimal(Decimal(n)) == n
    decreases n
  {
    var s := Decimal(n);
    if n >= 10 {
      ParseDecimalOfDecimal(n / 10);
      assert s[..|s| - 1] == Decimal(n / 10);
    }
  }

  /** Distinct numbers have distinct decimal renderings. */
  lemma DecimalInjective(a: nat, b: nat)
    ensures Decimal(a) == Decimal(b) <==> a == b
  {
    ParseDecimalOfDecimal(a);
    ParseDecimalOfDecimal(b);
  }

  /**
   * The cache key of `computation`: the decimal fingerprint of its
   * deterministic serialization, or an Internal error when the serializer
   * cannot produce one.
   */
  function CompilationCacheKey<Computation>(
    computation: Computation,
    serialize: Computation -> Option<seq<byte>>,
    fingerprint: seq<byte> -> uint64): (key: Result<string>)
    ensures serialize(computation).None? <==> key.Failure?
    ensures key.Failure? ==> key.error == Internal(DeterministicSerialization)
    ensures key.Success? ==>
      IsCanonicalDecimal(key.value) &&
      ParseDecimal(key.value) == fingerprint(serialize(computation).value) as nat
  {
    match serialize(computation)
    case None => Failure(Internal(DeterministicSerialization))
    case Some(bytes) =>
      ParseDecimalOfDecimal(fingerprint(bytes) as nat);
      Success(Decimal(fingerprint(bytes) as nat))
  }

  /** The key depends on the computation only through its serialized bytes. */
  lemma KeyDependsOnlyOnBytes<Computation>(
    a: Computation, b: Computation,
    serialize: Computation -> Option<seq<byte>>,
    fingerprint: seq<byte> -> uint64)
    requires serialize(a) == serialize(b)
    ensures CompilationCacheKey(a, serialize, fingerprint) == CompilationCacheKey(b, serialize, fingerprint)
  {
  }

  /**
   * Two serializable computations share a key exactly when their serialized
   * bytes share a fingerprint (so fingerprint collisions are key collisions,
   * and nothing else is).
   */
  lemma KeysEqualIffFingerprintsEqual<Computation>(
    a: Computation, b: Computation,
    serialize: Computation -> Option<seq<byte>>,
    fingerprint: seq<byte> -> uint64)
    requires serialize(a).Some? && serialize(b).Some?
    ensures CompilationCacheKey(a, serialize, fingerprint) == CompilationCacheKey(b, serialize, fingerprint)
        <==> fingerprint(serialize(a).value) == fingerprint(serialize(b).value)
  {
    DecimalInjective(fingerprint(serialize(a).value) as nat, fingerprint(serialize(b).value) as nat);
  }
}
