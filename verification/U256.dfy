/** 256-bit words as four little-endian 64-bit limbs, and the keys built from them. */
module Words {
  import opened Common

  type U256 = w: seq<U64> | |w| == 4 witness [0, 0, 0, 0]

  const ZERO: U256 := [0, 0, 0, 0]

  function FromU64(v: U64): U256 {
    [v, 0, 0, 0]
  }

  const U128_LIMIT: nat := U64_LIMIT * U64_LIMIT
  const U256_LIMIT: nat := U128_LIMIT * U128_LIMIT

  /** The number a word stands for. */
  function Val(w: U256): nat {
    w[0] + U64_LIMIT * (w[1] + U64_LIMIT * (w[2] + U64_LIMIT * w[3]))
  }

  /** The limbs above the lowest, as a number. */
  function Upper(w: U256): nat {
    w[1] + U64_LIMIT * (w[2] + U64_LIMIT * w[3])
  }

  lemma UpperSplits(w: U256)
    ensures Val(w) == w[0] + U64_LIMIT * Upper(w)
  {
  }

  lemma ValBound(w: U256)
    ensures Val(w) < U256_LIMIT
  {
  }

  lemma LimbUnique(x: U64, y: U64, p: nat, q: nat)
    requires x + U64_LIMIT * p == y + U64_LIMIT * q
    ensures x == y && p == q
  {
  }

  /** Different words stand for different numbers. */
  lemma ValInjective(a: U256, b: U256)
    requires Val(a) == Val(b)
    ensures a == b
  {
    LimbUnique(a[0], b[0], a[1] + U64_LIMIT * (a[2] + U64_LIMIT * a[3]), b[1] + U64_LIMIT * (b[2] + U64_LIMIT * b[3]));
    LimbUnique(a[1], b[1], a[2] + U64_LIMIT * a[3], b[2] + U64_LIMIT * b[3]);
    LimbUnique(a[2], b[2], a[3], b[3]);
  }

  // ---------------------------------------------------------------- arithmetic

  /** One limb of the carry chain: the sum limb and the carry out. */
  function AddLimb(x: U64, y: U64, carry: U64): (r: (U64, U64))
    requires carry <= 1
    ensures r.0 + U64_LIMIT * r.1 == x + y + carry && r.1 <= 1
  {
    if x + y + carry < U64_LIMIT then (x + y + carry, 0) else (x + y + carry - U64_LIMIT, 1)
  }

  /** The carry that enters limb `i`. */
  function CarryInto(a: U256, b: U256, i: nat): (c: U64)
    requires i <= 4
    ensures c <= 1
  {
    if i == 0 then 0 else AddLimb(a[i - 1], b[i - 1], CarryInto(a, b, i - 1)).1
  }

  function SumLimb(a: U256, b: U256, i: nat): U64
    requires i < 4
  {
    AddLimb(a[i], b[i], CarryInto(a, b, i)).0
  }

  function WrappingAdd(a: U256, b: U256): U256 {
    [SumLimb(a, b, 0), SumLimb(a, b, 1), SumLimb(a, b, 2), SumLimb(a, b, 3)]
  }

  lemma AddCarries(a: U256, b: U256)
    ensures Val(WrappingAdd(a, b)) + U256_LIMIT * CarryInto(a, b, 4) == Val(a) + Val(b)
  {
    forall i | 0 <= i < 4 ensures
      SumLimb(a, b, i) + U64_LIMIT * CarryInto(a, b, i + 1) == a[i] + b[i] + CarryInto(a, b, i)
    {
    }
    assert CarryInto(a, b, 0) == 0;
    hide SumLimb, CarryInto;
  }

  lemma ReduceOnce(x: nat, r: nat)
    requires r < U256_LIMIT && (x == r || x == r + U256_LIMIT)
    ensures x % U256_LIMIT == r
  {
  }

  /** Addition is exact modulo 2^256. */
  lemma AddExact(a: U256, b: U256)
    ensures Val(WrappingAdd(a, b)) == (Val(a) + Val(b)) % U256_LIMIT
    ensures Val(a) + Val(b) < U256_LIMIT ==> Val(WrappingAdd(a, b)) == Val(a) + Val(b)
  {
    AddCarries(a, b);
    ValBound(WrappingAdd(a, b));
    hide Val, WrappingAdd;
    ReduceOnce(Val(a) + Val(b), Val(WrappingAdd(a, b)));
  }

  /** The wrapped sum and whether it overflowed. */
  function OverflowingAdd(x: U64, y: U64): (U64, U64) {
    (Wrap(x as int + y), if x as int + y >= U64_LIMIT then 1 else 0)
  }

  lemma TwoStepAdd(x: U64, y: U64, carry: U64)
    requires carry <= 1
    ensures var first := OverflowingAdd(x, y); var second := OverflowingAdd(first.0, carry);
            first.1 + second.1 < U64_LIMIT && (second.0, first.1 + second.1) == AddLimb(x, y, carry)
  {
  }

  /** The loop of `wrapping_add`: both overflow flags of a limb feed the next. */
  method AddLoop(a: U256, b: U256) returns (r: U256)
    ensures r == WrappingAdd(a, b)
  {
    hide OverflowingAdd;
    var result: seq<U64> := [];
    var carry: U64 := 0;
    for i := 0 to 4
      invariant |result| == i && carry == CarryInto(a, b, i)
      invariant forall j :: 0 <= j < i ==> result[j] == SumLimb(a, b, j)
    {
      var first := OverflowingAdd(a[i], b[i]);
      var second := OverflowingAdd(first.0, carry);
      TwoStepAdd(a[i], b[i], carry);
      result := result + [second.0];
      carry := first.1 + second.1;
    }
    r := result;
  }

  /** `sub_u256` of the virtual machine: borrows from the second limb at most. */
  function SubLow(a: U256, b: U256): U256 {
    var low: U64 := Wrap(a[0] as int - b[0]);
    if a[0] < b[0] && a[1] > 0 then [low, a[1] - 1, a[2], a[3]] else [low, a[1], a[2], a[3]]
  }

  /** Subtraction is exact just when the subtrahend is one limb and the borrow can be paid. */
  lemma SubExact(a: U256, b: U256)
    requires Val(a) >= Val(b)
    ensures Val(SubLow(a, b)) == Val(a) - Val(b) <==>
            b[1] == 0 && b[2] == 0 && b[3] == 0 && (a[0] >= b[0] || a[1] > 0)
  {
    var high := b[1] + U64_LIMIT * (b[2] + U64_LIMIT * b[3]);
    assert Val(b) == b[0] + U64_LIMIT * high;
    if a[0] >= b[0] {
      assert Val(SubLow(a, b)) == Val(a) - b[0];
    } else if a[1] > 0 {
      assert Val(SubLow(a, b)) == Val(a) - b[0];
    } else {
      assert Val(SubLow(a, b)) == Val(a) - b[0] + U64_LIMIT;
    }
  }

  /** `compare_u256`: the most significant differing limb decides. */
  method Compare(a: U256, b: U256) returns (r: int)
    ensures r == if Val(a) > Val(b) then 1 else if Val(a) < Val(b) then -1 else 0
  {
    for i := 4 downto 0
      invariant forall j :: i <= j < 4 ==> a[j] == b[j]
    {
      if a[i] > b[i] {
        return 1;
      }
      if a[i] < b[i] {
        return -1;
      }
    }
    return 0;
  }

  // ---------------------------------------------------------------- bytes

  /** Big-endian bytes of a word of `width` bytes, and back. */
  function ToBe(n: nat, width: nat): (b: seq<Byte>)
    ensures |b| == width
  {
    if width == 0 then [] else ToBe(n / 256, width - 1) + [n % 256]
  }

  function FromBe(b: seq<Byte>): nat {
    if b == [] then 0 else FromBe(b[..|b| - 1]) * 256 + b[|b| - 1]
  }

  function Pow256(width: nat): nat {
    if width == 0 then 1 else 256 * Pow256(width - 1)
  }

  lemma {:induction false} BeRoundTrip(n: nat, width: nat)
    requires n < Pow256(width)
    ensures FromBe(ToBe(n, width)) == n
  {
    if width > 0 {
      BeRoundTrip(n / 256, width - 1);
      assert ToBe(n, width)[..width - 1] == ToBe(n / 256, width - 1);
    }
  }

  lemma EightBytes()
    ensures Pow256(8) == U64_LIMIT
  {
    assert Pow256(4) == 0x1_0000_0000;
  }

  function ToBeBytes(w: U256): (b: seq<Byte>)
    ensures |b| == 32
  {
    ToBe(w[3], 8) + ToBe(w[2], 8) + ToBe(w[1], 8) + ToBe(w[0], 8)
  }

  function LimbFrom(b: seq<Byte>): U64
    requires |b| == 8
  {
    Wrap(FromBe(b))
  }

  function FromBeBytes(b: seq<Byte>): U256
    requires |b| == 32
  {
    [LimbFrom(b[24..32]), LimbFrom(b[16..24]), LimbFrom(b[8..16]), LimbFrom(b[0..8])]
  }

  lemma LimbRoundTrip(x: U64)
    ensures LimbFrom(ToBe(x, 8)) == x
  {
    EightBytes();
    BeRoundTrip(x, 8);
    WrapSmall(x);
  }

  lemma Quarters(p: seq<Byte>, q: seq<Byte>, r: seq<Byte>, s: seq<Byte>)
    requires |p| == 8 && |q| == 8 && |r| == 8 && |s| == 8
    ensures var b := p + q + r + s; b[0..8] == p && b[8..16] == q && b[16..24] == r && b[24..32] == s
  {
  }

  /** Decoding the bytes of a word gives the word back. */
  lemma BytesRoundTrip(w: U256)
    ensures FromBeBytes(ToBeBytes(w)) == w
  {
    forall i | 0 <= i < 4 ensures LimbFrom(ToBe(w[i], 8)) == w[i] {
      LimbRoundTrip(w[i]);
    }
    hide LimbFrom, ToBe;
    var b := ToBeBytes(w);
    Quarters(ToBe(w[3], 8), ToBe(w[2], 8), ToBe(w[1], 8), ToBe(w[0], 8));
  }

  lemma {:induction false} BeConcat(a: seq<Byte>, b: seq<Byte>)
    ensures FromBe(a + b) == FromBe(a) * Pow256(|b|) + FromBe(b)
  {
    if b == [] {
      assert a + b == a;
    } else {
      var rest, last := b[..|b| - 1], b[|b| - 1];
      BeConcat(a, rest);
      assert (a + b)[..|a + b| - 1] == a + rest;
      ScaleUp(FromBe(a), Pow256(|b| - 1), FromBe(rest));
    }
  }

  lemma ScaleUp(x: nat, p: nat, y: nat)
    ensures (x * p + y) * 256 == x * (256 * p) + y * 256
  {
  }

  /** The bytes of a word spell its number, most significant byte first. */
  lemma BytesSpell(w: U256)
    ensures FromBe(ToBeBytes(w)) == Val(w)
  {
    hide FromBe, ToBe, Pow256;
    EightBytes();
    forall i | 0 <= i < 4 ensures FromBe(ToBe(w[i], 8)) == w[i] {
      BeRoundTrip(w[i], 8);
    }
    var a, b, c, d := ToBe(w[3], 8), ToBe(w[2], 8), ToBe(w[1], 8), ToBe(w[0], 8);
    BeConcat(a, b);
    BeConcat(a + b, c);
    BeConcat(a + b + c, d);
  }

  type Address = a: seq<Byte> | |a| == 20 witness seq(20, _ => 0)

  datatype StateKey = StateKey(address: Address, slot: U256)

  function KeyBytes(k: StateKey): (b: seq<Byte>)
    ensures |b| == 52
  {
    k.address + ToBeBytes(k.slot)
  }

  /** A key's bytes are its address and then its slot, most significant byte first. */
  lemma KeyBytesSpell(k: StateKey)
    ensures KeyBytes(k)[..20] == k.address && FromBe(KeyBytes(k)[20..]) == Val(k.slot)
  {
    hide ToBeBytes;
    assert KeyBytes(k)[20..] == ToBeBytes(k.slot);
    BytesSpell(k.slot);
  }

  /** Different keys have different bytes. */
  lemma KeyBytesInjective(a: StateKey, b: StateKey)
    requires KeyBytes(a) == KeyBytes(b)
    ensures a == b
  {
    assert KeyBytes(a)[..20] == a.address && KeyBytes(b)[..20] == b.address;
    assert KeyBytes(a)[20..] == ToBeBytes(a.slot) && KeyBytes(b)[20..] == ToBeBytes(b.slot);
    BytesRoundTrip(a.slot);
    BytesRoundTrip(b.slot);
  }
}
