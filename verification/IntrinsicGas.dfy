/** core/state_transition.go, IntrinsicGas: the gas a transaction costs before any execution, in
    64-bit arithmetic. */
module IntrinsicGas {
  import opened Basics

  const TX_GAS: nat := 21000
  const TX_GAS_CONTRACT_CREATION: nat := 53000
  const TX_DATA_ZERO_GAS: nat := 4
  const TX_DATA_NON_ZERO_GAS: nat := 68

  function NonZeroBytes(data: seq<bv8>): (n: nat)
    ensures n <= |data|
  {
    if data == [] then 0
    else NonZeroBytes(data[..|data| - 1]) + if data[|data| - 1] != 0 then 1 else 0
  }

  /** The exact sum, without any bound. */
  function ExactGas(data: seq<bv8>, contractCreation: bool, homestead: bool): nat {
    var base := if contractCreation && homestead then TX_GAS_CONTRACT_CREATION else TX_GAS;
    var nz := NonZeroBytes(data);
    base + nz * TX_DATA_NON_ZERO_GAS + (|data| - nz) * TX_DATA_ZERO_GAS
  }

  /** Each byte of data has its price, a zero byte a lower one, wherever it stands. */
  lemma {:induction false} GasOfByte(data: seq<bv8>, i: nat, contractCreation: bool, homestead: bool)
    requires i < |data|
    ensures ExactGas(data, contractCreation, homestead) ==
            ExactGas(data[..i] + data[i + 1..], contractCreation, homestead) + if data[i] == 0 then 4 else 68
  {
    NonZeroWithout(data, i);
  }

  lemma {:induction false} NonZeroWithout(data: seq<bv8>, i: nat)
    requires i < |data|
    ensures NonZeroBytes(data) == NonZeroBytes(data[..i] + data[i + 1..]) + if data[i] == 0 then 0 else 1
  {
    var last := |data| - 1;
    var rest := data[..i] + data[i + 1..];
    if i == last {
      assert rest == data[..last];
    } else {
      NonZeroWithout(data[..last], i);
      assert data[..last][..i] + data[..last][i + 1..] == rest[..last - 1];
    }
  }

  /** Without data a transaction costs its base price. */
  lemma GasOfNothing(contractCreation: bool, homestead: bool)
    ensures ExactGas([], contractCreation, homestead) == if contractCreation && homestead then 53000 else 21000
  {}

  /** The exact sum if it fits 64 bits. */
  function Intrinsic(data: seq<bv8>, contractCreation: bool, homestead: bool): Option<nat> {
    var gas := ExactGas(data, contractCreation, homestead);
    if gas <= MAX_UINT64 then Some(gas) else None
  }

  /** IntrinsicGas fails exactly when the exact sum does not fit 64 bits, and no step on the way
      overflows. */
  method ComputeIntrinsicGas(data: seq<bv8>, contractCreation: bool, homestead: bool) returns (r: Option<nat>)
    requires |data| <= MAX_UINT64
    ensures r == Intrinsic(data, contractCreation, homestead)
  {
    var gas := if contractCreation && homestead then TX_GAS_CONTRACT_CREATION else TX_GAS;
    if |data| > 0 {
      var nz := 0;
      for i := 0 to |data|
        invariant nz == NonZeroBytes(data[..i])
      {
        assert data[..i + 1][..i] == data[..i];
        if data[i] != 0 {
          nz := nz + 1;
        }
      }
      assert data[..|data|] == data;
      if (MAX_UINT64 - gas) / TX_DATA_NON_ZERO_GAS < nz {
        return None;
      }
      assert gas + nz * TX_DATA_NON_ZERO_GAS <= MAX_UINT64;
      gas := gas + nz * TX_DATA_NON_ZERO_GAS;
      var z := |data| - nz;
      if (MAX_UINT64 - gas) / TX_DATA_ZERO_GAS < z {
        return None;
      }
      assert gas + z * TX_DATA_ZERO_GAS <= MAX_UINT64;
      gas := gas + z * TX_DATA_ZERO_GAS;
    }
    return Some(gas);
  }
}
