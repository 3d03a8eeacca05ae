/** The gas a transaction pays before any code runs (core/state_transition.go). */
module Intrinsic {
  import opened Collections
  import opened TxTypes

  const MAX_UINT64: nat := 0xFFFF_FFFF_FFFF_FFFF
  const TX_GAS: nat := 21000
  const TX_GAS_CONTRACT_CREATION: nat := 53000
  const TX_DATA_ZERO_GAS: nat := 4
  const TX_DATA_NON_ZERO_GAS_FRONTIER: nat := 68
  const TX_DATA_NON_ZERO_GAS_EIP2028: nat := 16

  function NonZero(data: seq<Byte>): (n: nat)
    ensures n <= |data|
  {
    if data == [] then 0
    else NonZero(data[..|data| - 1]) + (if data[|data| - 1] != 0 then 1 else 0)
  }

  /** The exact price, computed without any width limit. */
  function ExactGas(data: seq<Byte>, create: bool, eip2: bool, eip2028: bool): nat {
    var base := if create && eip2 then TX_GAS_CONTRACT_CREATION else TX_GAS;
    var perByte := if eip2028 then TX_DATA_NON_ZERO_GAS_EIP2028 else TX_DATA_NON_ZERO_GAS_FRONTIER;
    base + NonZero(data) * perByte + (|data| - NonZero(data)) * TX_DATA_ZERO_GAS
  }

  /** Without data a message pays for itself, more for a creation once EIP-2 is on. */
  lemma EmptyCost(create: bool, eip2: bool, eip2028: bool)
    ensures ExactGas([], create, eip2, eip2028) == if create && eip2 then 53000 else 21000
  {
  }

  /** Every byte adds its own price, wherever it stands: four for a zero, and for any other sixty-eight
      or, since EIP-2028, sixteen. */
  lemma {:induction false} ByteCost(a: seq<Byte>, b: Byte, c: seq<Byte>, create: bool, eip2: bool, eip2028: bool)
    ensures ExactGas(a + [b] + c, create, eip2, eip2028) ==
            ExactGas(a + c, create, eip2, eip2028) + if b == 0 then 4 else if eip2028 then 16 else 68
    decreases |c|
  {
    if c == [] {
      assert (a + [b] + c)[..|a|] == a && a + c == a;
    } else {
      var init, last := c[..|c| - 1], c[|c| - 1];
      ByteCost(a, b, init, create, eip2, eip2028);
      assert (a + [b] + c)[..|a| + |c|] == a + [b] + init && (a + c)[..|a| + |c| - 1] == a + init;
    }
  }

  lemma Multiples(room: nat, n: nat, k: nat)
    requires k > 0
    ensures room / k < n <==> n * k > room
  {
    var q, r := room / k, room % k;
    assert room == q * k + r;
    if q < n {
      Product(n - q - 1, k);
      assert n * k == q * k + k + (n - q - 1) * k;
    } else {
      Product(q - n, k);
      assert q * k == n * k + (q - n) * k;
    }
  }

  /** The overflow guard in front of a product: dividing the room left, instead of multiplying. */
  lemma Guard(gas: nat, n: nat, k: nat)
    requires k > 0 && gas <= MAX_UINT64
    ensures (MAX_UINT64 - gas) / k < n <==> gas + n * k > MAX_UINT64
  {
    Multiples(MAX_UINT64 - gas, n, k);
  }

  /** Computes in 64 bits, and reports overflow exactly when the exact price does not fit. */
  method IntrinsicGas(data: seq<Byte>, create: bool, eip2: bool, eip2028: bool) returns (r: Option<nat>)
    ensures r == if ExactGas(data, create, eip2, eip2028) <= MAX_UINT64
                 then Some(ExactGas(data, create, eip2, eip2028)) else None
  {
    var gas := if create && eip2 then TX_GAS_CONTRACT_CREATION else TX_GAS;
    if |data| > 0 {
      var nz := 0;
      for i := 0 to |data|
        invariant nz == NonZero(data[..i])
      {
        assert data[..i + 1][..i] == data[..i];
        if data[i] != 0 {
          nz := nz + 1;
        }
      }
      assert data[..|data|] == data;
      var nonZeroGas := if eip2028 then TX_DATA_NON_ZERO_GAS_EIP2028 else TX_DATA_NON_ZERO_GAS_FRONTIER;
      Guard(gas, nz, nonZeroGas);
      if (MAX_UINT64 - gas) / nonZeroGas < nz {
        return None;
      }
      gas := gas + nz * nonZeroGas;
      var z := |data| - nz;
      Guard(gas, z, TX_DATA_ZERO_GAS);
      if (MAX_UINT64 - gas) / TX_DATA_ZERO_GAS < z {
        return None;
      }
      gas := gas + z * TX_DATA_ZERO_GAS;
    }
    r := Some(gas);
  }
}
