/** Building the parameters of a transaction before it is signed: the raw
    bytes of a signed transaction, the nonce, the EIP-1559 fee fields and the
    gas limit. The node's answers are an oracle `Node`; an answer of `None`
    (or `Err`) stands for the RPC call raising. */
module TxParams {
  import opened PyValue
  import opened TxSubmit

  /** The two attribute spellings a signed transaction may carry its bytes
      under; `None` when the attribute is missing or is None. */
  datatype SignedTx = SignedTx(rawTransaction: Option<Bytes>, rawTransactionSnake: Option<Bytes>)

  /** get_raw_tx_bytes */
  function GetRawTxBytes(signed: SignedTx): (r: Option<Bytes>)
    ensures r.Some? <==> signed.rawTransaction.Some? || signed.rawTransactionSnake.Some?
    ensures r.Some? ==> r == signed.rawTransaction || r == signed.rawTransactionSnake
    ensures signed.rawTransaction.Some? ==> r == signed.rawTransaction
  {
    if signed.rawTransaction.Some? then signed.rawTransaction else signed.rawTransactionSnake
  }

  /** Sending a signed transaction fails before any call exactly when it
      carries no bytes under either name (or empty bytes); otherwise the
      bytes of `rawTransaction` are preferred and every send carries them. */
  lemma SignedTxMissingBytes(signed: SignedTx, net: Network, timeout: real, poll: real, maxRetries: int)
    ensures var (r, t) := Exchange(GetRawTxBytes(signed), net, timeout, poll, maxRetries);
            && (r == Err(MissingRawBytes) <==>
                  (signed.rawTransaction.None? || signed.rawTransaction.value == [])
                  && (signed.rawTransaction.Some? || signed.rawTransactionSnake.None?
                      || signed.rawTransactionSnake.value == []))
            && (r == Err(MissingRawBytes) ==> t == [])
            && (signed.rawTransaction.Some? ==> SendsOnly(t, signed.rawTransaction.value))
  {
    ExchangeSchedule(GetRawTxBytes(signed), net, timeout, poll, maxRetries);
  }

  /** What the node answers to the calls made while building a transaction. */
  datatype Node = Node(
    pendingCount: Option<int>,     // get_transaction_count(address, 'pending')
    latestCount: Option<int>,      // get_transaction_count(address)
    pendingBaseFee: Option<int>,   // baseFeePerGas of the pending block; None also when get_block raises
    maxPriorityFee: Option<int>,   // eth.max_priority_fee
    gasPrice: Option<int>)         // eth.gas_price

  datatype RpcError = TransactionCountFailed

  /** get_pending_nonce: the pending count; only if that query raises, the
      confirmed count, whose failure propagates. */
  function GetPendingNonce(node: Node): (r: Result<int, RpcError>)
    ensures r.Ok? <==> node.pendingCount.Some? || node.latestCount.Some?
    ensures node.pendingCount.Some? ==> r == Ok(node.pendingCount.value)
    ensures node.pendingCount.None? && r.Ok? ==> r.value == node.latestCount.value
  {
    if node.pendingCount.Some? then Ok(node.pendingCount.value)
    else if node.latestCount.Some? then Ok(node.latestCount.value)
    else Err(TransactionCountFailed)
  }

  /** Python's int() of a float: truncation toward zero. */
  function Trunc(x: real): (n: int)
    ensures x >= 0.0 ==> n as real <= x < n as real + 1.0
    ensures x < 0.0 ==> n as real - 1.0 < x <= n as real
  {
    if x >= 0.0 then x.Floor else -((-x).Floor)
  }

  const Gwei: int := 1_000_000_000

  datatype Fees = Fees(maxPriorityFeePerGas: int, maxFeePerGas: int)

  /** build_eip1559_fees: the priority fee is the node's suggestion, else
      `priorityFeeGwei` gwei; the fee cap adds it to `multiplier` times the
      pending base fee, else to the gas price, else it is the priority fee. */
  function BuildEip1559Fees(node: Node, priorityFeeGwei: int, multiplier: real): (f: Fees)
    ensures node.maxPriorityFee.Some? ==> f.maxPriorityFeePerGas == node.maxPriorityFee.value
    ensures node.maxPriorityFee.None? ==> f.maxPriorityFeePerGas == priorityFeeGwei * 1_000_000_000
    ensures node.pendingBaseFee.Some? ==>
              f.maxFeePerGas - f.maxPriorityFeePerGas == Trunc(multiplier * node.pendingBaseFee.value as real)
    ensures node.pendingBaseFee.None? && node.gasPrice.Some? ==>
              f.maxFeePerGas - f.maxPriorityFeePerGas == node.gasPrice.value
    ensures node.pendingBaseFee.None? && node.gasPrice.None? ==> f.maxFeePerGas == f.maxPriorityFeePerGas
  {
    var priority := if node.maxPriorityFee.Some? then node.maxPriorityFee.value else priorityFeeGwei * Gwei;
    var maxFee :=
      if node.pendingBaseFee.Some? then Trunc(multiplier * node.pendingBaseFee.value as real) + priority
      else if node.gasPrice.Some? then node.gasPrice.value + priority
      else priority;
    Fees(priority, maxFee)
  }

  /** With a non-negative base fee, multiplier and gas price the fee cap
      covers the priority fee, as section "Specification" of EIP-1559
      requires of a valid transaction (max_fee_per_gas >=
      max_priority_fee_per_gas); and with the default multiplier 2 the cap
      leaves room for the base fee to double. */
  lemma FeeCapCoversPriority(node: Node, priorityFeeGwei: int, multiplier: real)
    requires multiplier >= 0.0
    requires node.pendingBaseFee.Some? ==> node.pendingBaseFee.value >= 0
    requires node.gasPrice.Some? ==> node.gasPrice.value >= 0
    ensures var f := BuildEip1559Fees(node, priorityFeeGwei, multiplier);
            f.maxFeePerGas >= f.maxPriorityFeePerGas
            && (multiplier == 2.0 && node.pendingBaseFee.Some? ==>
                  f.maxFeePerGas == 2 * node.pendingBaseFee.value + f.maxPriorityFeePerGas)
  {
    if node.pendingBaseFee.Some? {
      var base := node.pendingBaseFee.value;
      assert multiplier * base as real >= 0.0 by {
        assert base as real >= 0.0;
      }
      if multiplier == 2.0 {
        assert 2.0 * base as real == (2 * base) as real;
      }
    }
  }

  /** The fee fields when the node knows nothing: the cap equals the tip,
      30 gwei by default. */
  lemma DefaultFees(node: Node)
    requires node.maxPriorityFee.None? && node.pendingBaseFee.None? && node.gasPrice.None?
    ensures BuildEip1559Fees(node, 30, 2.0) == Fees(30_000_000_000, 30_000_000_000)
  {
  }

  /** build_tx_params: chain id, sender and nonce, then either the EIP-1559
      fee fields or, when the node answers, a legacy gas price. A nonce is
      fetched only when none is given. */
  method BuildTxParams(node: Node, fromAddr: string, chainId: int, nonce: Option<int>, eip1559: bool,
                       priorityFeeGwei: int)
    returns (r: Result<map<string, Value>, RpcError>)
    ensures r.Err? <==> nonce.None? && GetPendingNonce(node).Err?
    ensures r.Ok? ==>
              var p := r.value;
              && {"chainId", "from", "nonce"} <= p.Keys
              && p["chainId"] == Int(chainId) && p["from"] == Str(fromAddr)
              && p["nonce"] == Int(if nonce.Some? then nonce.value else GetPendingNonce(node).value)
              && (eip1559 ==>
                    var f := BuildEip1559Fees(node, priorityFeeGwei, 2.0);
                    p.Keys == {"chainId", "from", "nonce", "maxPriorityFeePerGas", "maxFeePerGas"}
                    && p["maxPriorityFeePerGas"] == Int(f.maxPriorityFeePerGas)
                    && p["maxFeePerGas"] == Int(f.maxFeePerGas))
              && (!eip1559 && node.gasPrice.Some? ==>
                    p.Keys == {"chainId", "from", "nonce", "gasPrice"} && p["gasPrice"] == Int(node.gasPrice.value))
              && (!eip1559 && node.gasPrice.None? ==> p.Keys == {"chainId", "from", "nonce"})
  {
    var n: int;
    if nonce.None? {
      var fetched := GetPendingNonce(node);
      if fetched.Err? {
        return Err(fetched.error);
      }
      n := fetched.value;
    } else {
      n := nonce.value;
    }
    var params := map["chainId" := Int(chainId), "from" := Str(fromAddr), "nonce" := Int(n)];
    if eip1559 {
      var fees := BuildEip1559Fees(node, priorityFeeGwei, 2.0);
      params := params["maxPriorityFeePerGas" := Int(fees.maxPriorityFeePerGas)];
      params := params["maxFeePerGas" := Int(fees.maxFeePerGas)];
    } else if node.gasPrice.Some? {
      params := params["gasPrice" := Int(node.gasPrice.value)];
    }
    return Ok(params);
  }

  /** The gas limit attached for an estimate: the estimate scaled by the
      buffer ratio, truncated. */
  function BufferedGas(estimate: int, bufferRatio: real): (g: int)
  {
    Trunc(estimate as real * bufferRatio)
  }

  /** For a ratio of at least 1 the buffered limit never falls below the
      estimate and is the largest integer not above `estimate * ratio`: it
      rounds down, never up. */
  lemma BufferedGasBounds(estimate: int, bufferRatio: real)
    requires estimate >= 0 && bufferRatio >= 1.0
    ensures var g := BufferedGas(estimate, bufferRatio);
            estimate <= g && g as real <= estimate as real * bufferRatio < g as real + 1.0
  {
    assert estimate as real * bufferRatio >= estimate as real * 1.0;
  }

  /** With the default ratio 1.2, an estimate of 21000 becomes 25200, and an
      estimate of 7 becomes 8 (8.4 truncated). */
  lemma BufferedGasExamples()
    ensures BufferedGas(21000, 1.2) == 25200
    ensures BufferedGas(7, 1.2) == 8
  {
    assert 21000 as real * 1.2 == 25200.0;
    assert 7 as real * 1.2 == 8.4;
  }

  /** A transaction dict that estimate_and_attach_gas updates in place. */
  class Transaction {
    var fields: map<string, Value>

    constructor (fields: map<string, Value>)
      ensures this.fields == fields
    {
      this.fields := fields;
    }

    /** estimate_and_attach_gas: `estimate` is the node's gas estimate for
        the transaction as it stands (None when estimation raises). Only the
        "gas" entry changes, and nothing changes when estimation fails. */
    method EstimateAndAttachGas(estimate: map<string, Value> -> Option<int>, bufferRatio: real)
      modifies this
      ensures estimate(old(fields)).Some? ==>
                fields == old(fields)["gas" := Int(BufferedGas(estimate(old(fields)).value, bufferRatio))]
      ensures estimate(old(fields)).None? ==> fields == old(fields)
    {
      var gas := estimate(fields);
      if gas.Some? {
        fields := fields["gas" := Int(BufferedGas(gas.value, bufferRatio))];
      }
    }
  }

  /** Attaching gas keeps every other entry of the transaction and leaves a
      "gas" entry no smaller than a non-negative estimate when the ratio is
      at least 1. */
  lemma AttachGasKeepsOtherFields(fields: map<string, Value>, estimate: int, bufferRatio: real)
    requires estimate >= 0 && bufferRatio >= 1.0
    ensures var after := fields["gas" := Int(BufferedGas(estimate, bufferRatio))];
            && after.Keys == fields.Keys + {"gas"}
            && (forall k :: k in fields && k != "gas" ==> after[k] == fields[k])
            && after["gas"].Int? && after["gas"].i >= estimate
  {
    BufferedGasBounds(estimate, bufferRatio);
  }
}
