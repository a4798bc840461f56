/** Shared value types: options, machine words and 32-byte digests. */
module Common {

  datatype Option<+T> = None | Some(value: T)

  /** One more than the greatest `u64`. */
  const U64_LIMIT: nat := 0x1_0000_0000_0000_0000

  type U64 = x: int | 0 <= x < 0x1_0000_0000_0000_0000

  /** `u64` arithmetic as compiled in release mode: the result is taken modulo 2^64. */
  function Wrap(x: int): U64 {
    x % 0x1_0000_0000_0000_0000
  }

  lemma WrapSmall(x: U64)
    ensures Wrap(x) == x
  {
  }

  lemma WrapAdd(a: int, b: int)
    ensures Wrap(Wrap(a) + b) == Wrap(a + b)
  {
    var q := a / 0x1_0000_0000_0000_0000;
    assert a + b == Wrap(a) + b + q * 0x1_0000_0000_0000_0000;
    WrapShift(Wrap(a) + b, q);
  }

  lemma WrapShift(a: int, q: int)
    ensures Wrap(a + q * 0x1_0000_0000_0000_0000) == Wrap(a)
  {
    var d := a / 0x1_0000_0000_0000_0000;
    assert a + q * 0x1_0000_0000_0000_0000 == Wrap(a) + (d + q) * 0x1_0000_0000_0000_0000;
  }

  function Max(a: U64, b: U64): U64 {
    if a < b then b else a
  }

  function Min(a: nat, b: nat): (r: nat)
    ensures r <= a && r <= b && (r == a || r == b)
  {
    if a < b then a else b
  }

  /** No element occurs twice. */
  ghost predicate Distinct<T>(s: seq<T>) {
    forall i, j :: 0 <= i < j < |s| ==> s[i] != s[j]
  }

  type Byte = x: int | 0 <= x < 256

  /** A 32-byte hash, event id, tree path or value hash. */
  type Digest = d: seq<Byte> | |d| == 32 witness seq(32, _ => 0)

  /** SHA-256 is an uninterpreted parameter wherever it is used. */
  type HashFn = seq<Byte> -> Digest

  /** The value held under a key, if any. */
  function Lookup<K, V>(m: map<K, V>, k: K): Option<V> {
    if k in m then Some(m[k]) else None
  }
}
