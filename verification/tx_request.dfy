/** Building and sending wallet transactions: the confirmation count, the
    request handed to the wallet's `SendOutputs`, the outputs built from
    address/amount pairs, the mapping of the wallet's errors, and the
    argument checks shared by `createTransaction` and `sendFrom`.
    Address decoding, script building, the wallet itself and the
    float-to-amount conversion are parameters. */
module TxRequest {
  import opened Common
  import UtxoLock

  // ---------------------------------------------------------------------
  // Confirmations

  /** `confirms`: 0 for an unconfirmed transaction (height -1) or one above
      the chain height, else the number of blocks from it to the tip, in
      `int32` arithmetic. */
  function Confirms(txHeight: int, curHeight: int): (r: int)
    requires IsInt32(txHeight) && IsInt32(curHeight)
    ensures IsInt32(r)
    ensures txHeight == -1 || txHeight > curHeight ==> r == 0
    ensures txHeight != -1 && txHeight <= curHeight && curHeight - txHeight + 1 < TWO_31 ==>
              r == curHeight - txHeight + 1 && r >= 1
  {
    if txHeight == -1 || txHeight > curHeight then 0
    else WrapInt32(curHeight - txHeight + 1)
  }

  /** A confirmed transaction gains one confirmation per block. */
  lemma ConfirmsNextBlock(txHeight: int, curHeight: int)
    requires 0 <= txHeight <= curHeight && curHeight + 1 < TWO_31 && curHeight - txHeight + 2 < TWO_31
    ensures Confirms(txHeight, curHeight + 1) == Confirms(txHeight, curHeight) + 1
  {
  }

  /** A transaction in the tip block has exactly one confirmation, and one
      at height -1 never has any. */
  lemma ConfirmsAtTip(h: int, curHeight: int)
    requires IsInt32(h) && h != -1 && IsInt32(curHeight)
    ensures Confirms(h, h) == 1
    ensures Confirms(-1, curHeight) == 0
  {
  }

  /** The count is not saturated: a transaction in the genesis block seen
      from the largest `int32` height wraps to the smallest `int32`. */
  lemma ConfirmsWrapsAtInt32Max()
    ensures Confirms(0, TWO_31 - 1) == -TWO_31
  {
  }

  // ---------------------------------------------------------------------
  // Wallet interface

  /** A decoded address, kept as the payload the decoder produced. */
  datatype Address = Address(payload: Bytes)

  /** The network steward vote attached to every output script. */
  datatype Vote = Vote(voteFor: Bytes, voteAgainst: Bytes)

  const EmptyVote: Vote := Vote([], [])

  datatype TxOut = TxOut(value: int, pkScript: Bytes)

  /** The authored transaction: the outpoints it spends and its outputs. */
  datatype AuthoredTx = AuthoredTx(inputs: seq<UtxoLock.OutPoint>, outputs: seq<TxOut>)

  datatype InputComparator = DefaultOrder | PreferOldest

  datatype SendMode = SendModeBcasted | SendModeSigned | SendModeUnsigned

  datatype CreateTxReq = CreateTxReq(
    minconf: int,
    feeSatPerKB: int,
    sendMode: SendMode,
    inputMinHeight: int,
    maxInputs: int,
    txLabel: string,
    comparator: InputComparator,
    outputs: seq<TxOut>,
    changeAddress: Option<Address>,
    inputAddresses: Option<seq<Address>>)

  /** The wallet's `SendOutputs` failures the endpoint distinguishes. */
  datatype WalletError =
    | NegativeTxOutValue
    | WalletLocked
    | JsonError(code: int, message: string)
    | OtherError(message: string)

  /** The error an endpoint reports. */
  datatype TxError =
    | Failed(message: string)
    | Json(code: int, message: string)
    | Internal(message: string, cause: WalletError)

  /** What the endpoints call out to. */
  datatype Wallet = Wallet(
    decodeAddress: string -> Result<Address, string>,
    payToAddrWithVote: (Address, Bytes, Bytes) -> Result<Bytes, string>,
    stewardVote: Result<Option<Vote>, string>,
    sendOutputs: CreateTxReq -> Result<AuthoredTx, WalletError>)

  // ---------------------------------------------------------------------
  // makeOutputs

  /** The output for one (address, amount) pair, or the error it raises. */
  function PairOutput(w: Wallet, pair: (string, int), vote: Vote): Result<TxOut, TxError> {
    match w.decodeAddress(pair.0)
    case Err(e) => Err(Failed("cannot decode address: " + e))
    case Ok(addr) =>
      match w.payToAddrWithVote(addr, vote.voteFor, vote.voteAgainst)
      case Err(e) => Err(Failed("cannot create txout script: " + e))
      case Ok(script) => Ok(TxOut(pair.1, script))
  }

  /** `makeOutputs`: a missing vote counts as the empty vote; one output per
      pair, in the order the pairs are visited (Go's map order, which the
      caller fixes by choosing the sequence), or the first pair's error. */
  function MakeOutputs(w: Wallet, pairs: seq<(string, int)>, vote: Option<Vote>): (r: Result<seq<TxOut>, TxError>)
    ensures var v := vote.GetOr(EmptyVote);
            r.Ok? <==> forall i :: 0 <= i < |pairs| ==> PairOutput(w, pairs[i], v).Ok?
    ensures var v := vote.GetOr(EmptyVote);
            r.Ok? ==> && |r.value| == |pairs|
                      && forall i :: 0 <= i < |pairs| ==>
                           && r.value[i].value == pairs[i].1
                           && r.value[i] == PairOutput(w, pairs[i], v).value
    ensures var v := vote.GetOr(EmptyVote);
            r.Err? ==> exists i :: && 0 <= i < |pairs|
                                   && PairOutput(w, pairs[i], v) == Err(r.error)
                                   && forall j :: 0 <= j < i ==> PairOutput(w, pairs[j], v).Ok?
    decreases |pairs|
  {
    if |pairs| == 0 then Ok([])
    else
      var v := vote.GetOr(EmptyVote);
      var out :- PairOutput(w, pairs[0], v);
      var rest :- MakeOutputs(w, pairs[1..], Some(v));
      assert forall i :: 0 < i < |pairs| ==> pairs[i] == pairs[1..][i - 1];
      Ok([out] + rest)
  }

  // ---------------------------------------------------------------------
  // sendOutputs

  /** Decodes every address, stopping at the first failure, whose decoder
      error is returned unchanged. */
  function DecodeAll(w: Wallet, addrs: seq<string>): (r: Result<seq<Address>, TxError>)
    ensures r.Ok? <==> forall i :: 0 <= i < |addrs| ==> w.decodeAddress(addrs[i]).Ok?
    ensures r.Ok? ==> |r.value| == |addrs| &&
                      forall i :: 0 <= i < |addrs| ==> r.value[i] == w.decodeAddress(addrs[i]).value
    ensures r.Err? ==> exists i :: && 0 <= i < |addrs|
                                   && w.decodeAddress(addrs[i]).Err?
                                   && r.error == Failed(w.decodeAddress(addrs[i]).error)
                                   && forall j :: 0 <= j < i ==> w.decodeAddress(addrs[j]).Ok?
    decreases |addrs|
  {
    if |addrs| == 0 then Ok([])
    else match w.decodeAddress(addrs[0])
      case Err(e) => Err(Failed(e))
      case Ok(a) =>
        var rest := DecodeAll(w, addrs[1..]);
        assert forall i :: 0 < i < |addrs| ==> addrs[i] == addrs[1..][i - 1];
        if rest.Err? then
          var k :| && 0 <= k < |addrs[1..]|
                   && w.decodeAddress(addrs[1..][k]).Err?
                   && rest.error == Failed(w.decodeAddress(addrs[1..][k]).error)
                   && forall j :: 0 <= j < k ==> w.decodeAddress(addrs[1..][j]).Ok?;
          assert w.decodeAddress(addrs[k + 1]) == w.decodeAddress(addrs[1..][k]);
          Err(rest.error)
        else Ok([a] + rest.value)
  }

  /** The request `sendOutputs` builds before calling the wallet. The oldest
      inputs are preferred exactly when a minimum input height is given; a
      change address is decoded only when present and non-empty; the input
      addresses only when the list is present and non-empty. */
  function BuildRequest(w: Wallet, amounts: seq<(string, int)>, vote: Option<Vote>,
                        fromAddresses: Option<seq<string>>, minconf: int, feeSatPerKb: int,
                        sendMode: SendMode, changeAddress: Option<string>,
                        inputMinHeight: int, maxInputs: int): (r: Result<CreateTxReq, TxError>)
    ensures MakeOutputs(w, amounts, vote).Err? ==> r == Err(MakeOutputs(w, amounts, vote).error)
    ensures r.Ok? ==>
              var req := r.value;
              && MakeOutputs(w, amounts, vote) == Ok(req.outputs)
              && (req.comparator == PreferOldest <==> inputMinHeight > 0)
              && req.minconf == minconf && req.feeSatPerKB == feeSatPerKb && req.sendMode == sendMode
              && req.inputMinHeight == inputMinHeight && req.maxInputs == maxInputs && req.txLabel == ""
              && (req.changeAddress.Some? <==> changeAddress.Some? && changeAddress.value != "")
              && (req.changeAddress.Some? ==> w.decodeAddress(changeAddress.value) == Ok(req.changeAddress.value))
              && (req.inputAddresses.Some? <==> fromAddresses.Some? && |fromAddresses.value| > 0)
              && (req.inputAddresses.Some? ==> DecodeAll(w, fromAddresses.value) == Ok(req.inputAddresses.value))
    ensures (&& MakeOutputs(w, amounts, vote).Ok?
             && changeAddress.Some? && changeAddress.value != "" && w.decodeAddress(changeAddress.value).Err?)
            ==> r == Err(Failed(w.decodeAddress(changeAddress.value).error))
    ensures (&& MakeOutputs(w, amounts, vote).Ok?
             && (changeAddress.Some? && changeAddress.value != "" ==> w.decodeAddress(changeAddress.value).Ok?)
             && fromAddresses.Some? && DecodeAll(w, fromAddresses.value).Err?)
            ==> r == Err(DecodeAll(w, fromAddresses.value).error)
    ensures r.Err? && MakeOutputs(w, amounts, vote).Ok? ==>
              || (changeAddress.Some? && changeAddress.value != "" && w.decodeAddress(changeAddress.value).Err?)
              || (fromAddresses.Some? && DecodeAll(w, fromAddresses.value).Err?)
    ensures (&& MakeOutputs(w, amounts, vote).Ok?
             && (changeAddress.Some? && changeAddress.value != "" ==> w.decodeAddress(changeAddress.value).Ok?)
             && (fromAddresses.Some? ==> DecodeAll(w, fromAddresses.value).Ok?)) ==> r.Ok?
  {
    var outputs :- MakeOutputs(w, amounts, vote);
    var change :-
      if changeAddress.Some? && changeAddress.value != "" then
        match w.decodeAddress(changeAddress.value)
        case Err(e) => Err(Failed(e))
        case Ok(a) => Ok(Some(a))
      else Ok(None);
    var inputs :-
      if fromAddresses.Some? && |fromAddresses.value| > 0 then
        var addrs :- DecodeAll(w, fromAddresses.value);
        Ok(Some(addrs))
      else Ok(None);
    Ok(CreateTxReq(minconf, feeSatPerKb, sendMode, inputMinHeight, maxInputs, "",
                   if inputMinHeight > 0 then PreferOldest else DefaultOrder,
                   outputs, change, inputs))
  }

  /** The endpoint's view of a `SendOutputs` failure: a negative output and
      a locked wallet get fixed messages, RPC errors pass through unchanged
      and anything else becomes an internal error carrying its cause. */
  function MapSendError(e: WalletError): (r: TxError)
    ensures r.Json? <==> e.JsonError?
    ensures r.Internal? <==> e.OtherError?
    ensures r.Json? ==> r.code == e.code && r.message == e.message
    ensures r.Internal? ==> r.cause == e
    ensures r.Failed? ==> (r.message == "amount must be positive" <==> e.NegativeTxOutValue?)
    ensures e.NegativeTxOutValue? ==> r == Failed("amount must be positive")
    ensures e.WalletLocked? ==> r == Failed("Enter the wallet passphrase with walletpassphrase first")
    ensures r.Failed? <==> e.NegativeTxOutValue? || e.WalletLocked?
  {
    match e
    case NegativeTxOutValue => Failed("amount must be positive")
    case WalletLocked => Failed("Enter the wallet passphrase with walletpassphrase first")
    case JsonError(c, m) => Json(c, m)
    case OtherError(_) => Internal("SendOutputs failed", e)
  }

  /** `sendOutputs`: build the request, then hand it to the wallet. */
  function SendOutputs(w: Wallet, amounts: seq<(string, int)>, vote: Option<Vote>,
                       fromAddresses: Option<seq<string>>, minconf: int, feeSatPerKb: int,
                       sendMode: SendMode, changeAddress: Option<string>,
                       inputMinHeight: int, maxInputs: int): (r: Result<AuthoredTx, TxError>)
    ensures var b := BuildRequest(w, amounts, vote, fromAddresses, minconf, feeSatPerKb, sendMode,
                                  changeAddress, inputMinHeight, maxInputs);
            && (b.Err? ==> r == Err(b.error))
            && (b.Ok? && w.sendOutputs(b.value).Ok? ==> r == Ok(w.sendOutputs(b.value).value))
            && (b.Ok? && w.sendOutputs(b.value).Err? ==> r == Err(MapSendError(w.sendOutputs(b.value).error)))
  {
    var req :- BuildRequest(w, amounts, vote, fromAddresses, minconf, feeSatPerKb, sendMode,
                            changeAddress, inputMinHeight, maxInputs);
    match w.sendOutputs(req)
    case Ok(tx) => Ok(tx)
    case Err(e) => Err(MapSendError(e))
  }

  // ---------------------------------------------------------------------
  // Argument checks of createTransaction and sendFrom

  /** A JSON number as Go's `float64` may hold it. */
  datatype Float = Finite(v: real) | PlusInf | MinusInf | NaN

  /** The checked arguments: amount in base units, `int32` minconf and the
      minimum input height. */
  datatype SendArgs = SendArgs(amount: int, minconf: int, minHeight: nat)

  /** Shared by `createTransaction` and `sendFrom`: an amount that is not
      positive is refused first (NaN is not caught here); +Inf becomes 0;
      the minimum confirmation count is cast to `int32` and refused when
      negative; a non-positive minimum height becomes 0; the amount is then
      converted by `newAmount`, whose error is returned. */
  function ValidateSendArgs(amount: Float, minConf: int, minHeight: int,
                            newAmount: Float -> Result<int, string>): (r: Result<SendArgs, string>)
    ensures (amount.MinusInf? || (amount.Finite? && amount.v <= 0.0)) ==>
              r == Err("amount must be positive")
    ensures r.Ok? ==> && !amount.MinusInf?
                      && !(amount.Finite? && amount.v <= 0.0)
                      && r.value.minconf == WrapInt32(minConf) && r.value.minconf >= 0
                      && (minHeight > 0 ==> r.value.minHeight == minHeight)
                      && (minHeight <= 0 ==> r.value.minHeight == 0)
                      && newAmount(if amount.PlusInf? then Finite(0.0) else amount) == Ok(r.value.amount)
    ensures (&& !amount.MinusInf? && !(amount.Finite? && amount.v <= 0.0)
             && WrapInt32(minConf) < 0) ==> r == Err("minconf must be positive")
    ensures (&& !amount.MinusInf? && !(amount.Finite? && amount.v <= 0.0)
             && WrapInt32(minConf) >= 0
             && newAmount(if amount.PlusInf? then Finite(0.0) else amount).Ok?) ==> r.Ok?
    ensures (&& !amount.MinusInf? && !(amount.Finite? && amount.v <= 0.0)
             && WrapInt32(minConf) >= 0
             && newAmount(if amount.PlusInf? then Finite(0.0) else amount).Err?)
            ==> r == Err(newAmount(if amount.PlusInf? then Finite(0.0) else amount).error)
  {
    if amount.MinusInf? || (amount.Finite? && amount.v <= 0.0) then Err("amount must be positive")
    else
      var amt := if amount.PlusInf? then Finite(0.0) else amount;
      var minconf := WrapInt32(minConf);
      if minconf < 0 then Err("minconf must be positive")
      else
        var mh := if minHeight > 0 then minHeight else 0;
        var units :- newAmount(amt);
        Ok(SendArgs(units, minconf, mh))
  }

  /** Arguments in range are accepted unchanged. */
  lemma ValidArgsAccepted(x: real, minConf: int, minHeight: nat, newAmount: Float -> Result<int, string>)
    requires x > 0.0 && 0 <= minConf < TWO_31 && newAmount(Finite(x)).Ok?
    ensures ValidateSendArgs(Finite(x), minConf, minHeight, newAmount)
            == Ok(SendArgs(newAmount(Finite(x)).value, minConf, minHeight))
  {
  }

  /** A minimum confirmation count outside `int32` is taken modulo 2^32: the
      first value past the range is refused as negative. */
  lemma MinConfWraps(newAmount: Float -> Result<int, string>)
    ensures ValidateSendArgs(Finite(1.0), TWO_31, 0, newAmount) == Err("minconf must be positive")
  {
  }

  // ---------------------------------------------------------------------
  // createTransaction and sendFrom

  /** Locks every outpoint, in order, under one name. */
  function LockInputs(t: UtxoLock.LockTable, ops: seq<UtxoLock.OutPoint>, name: string): (r: UtxoLock.LockTable)
    ensures forall op :: op in ops ==> op in r && r[op] == name
    ensures forall op :: op !in ops ==> (op in r <==> op in t) && (op in t ==> r[op] == t[op])
    decreases |ops|
  {
    if |ops| == 0 then t
    else LockInputs(UtxoLock.LockOutpoint(t, ops[0], name), ops[1..], name)
  }

  datatype CreateTransactionRequest = CreateTransactionRequest(
    toAddress: string, amount: Float, fromAddress: seq<string>, minConf: int,
    inputMinHeight: int, maxInputs: int, sign: bool, changeAddress: string, autolock: string)

  /** `createTransaction` up to serialisation: checks the arguments, sends a
      single output to the target address without broadcasting, and locks
      every input of the transaction under the autolock name (which may be
      empty). */
  function CreateTransaction(w: Wallet, req: CreateTransactionRequest, locks: UtxoLock.LockTable,
                             newAmount: Float -> Result<int, string>, relayFeePerKb: int)
    : (r: (UtxoLock.LockTable, Result<AuthoredTx, TxError>))
    ensures ValidateSendArgs(req.amount, req.minConf, req.inputMinHeight, newAmount).Err? ==>
              r == (locks, Err(Failed(ValidateSendArgs(req.amount, req.minConf, req.inputMinHeight, newAmount).error)))
    ensures r.1.Err? ==> r.0 == locks
    ensures r.1.Ok? ==>
              && ValidateSendArgs(req.amount, req.minConf, req.inputMinHeight, newAmount).Ok?
              && (forall op :: op in r.1.value.inputs ==> op in r.0 && r.0[op] == req.autolock)
              && (forall op :: op !in r.1.value.inputs ==> (op in r.0 <==> op in locks))
    ensures r.1.Ok? ==>
              var args := ValidateSendArgs(req.amount, req.minConf, req.inputMinHeight, newAmount).value;
              && w.stewardVote.Ok?
              && r.1 == SendOutputs(w, [(req.toAddress, args.amount)], w.stewardVote.value, Some(req.fromAddress),
                                    args.minconf, relayFeePerKb, if req.sign then SendModeSigned else SendModeUnsigned,
                                    Some(req.changeAddress), args.minHeight, req.maxInputs)
    ensures var v := ValidateSendArgs(req.amount, req.minConf, req.inputMinHeight, newAmount);
            v.Ok? && w.stewardVote.Err? ==> r == (locks, Err(Failed(w.stewardVote.error)))
    ensures var v := ValidateSendArgs(req.amount, req.minConf, req.inputMinHeight, newAmount);
            v.Ok? && w.stewardVote.Ok? ==>
              var sent := SendOutputs(w, [(req.toAddress, v.value.amount)], w.stewardVote.value, Some(req.fromAddress),
                                      v.value.minconf, relayFeePerKb,
                                      if req.sign then SendModeSigned else SendModeUnsigned,
                                      Some(req.changeAddress), v.value.minHeight, req.maxInputs);
              && r.1 == sent
              && (sent.Ok? ==> r.0 == LockInputs(locks, sent.value.inputs, req.autolock))
  {
    match ValidateSendArgs(req.amount, req.minConf, req.inputMinHeight, newAmount)
    case Err(e) => (locks, Err(Failed(e)))
    case Ok(args) =>
      match w.stewardVote
      case Err(e) => (locks, Err(Failed(e)))
      case Ok(vote) =>
        var mode := if req.sign then SendModeSigned else SendModeUnsigned;
        match SendOutputs(w, [(req.toAddress, args.amount)], vote, Some(req.fromAddress), args.minconf,
                          relayFeePerKb, mode, Some(req.changeAddress), args.minHeight, req.maxInputs)
        case Err(e) => (locks, Err(e))
        case Ok(tx) => (LockInputs(locks, tx.inputs, req.autolock), Ok(tx))
  }

  datatype SendFromRequest = SendFromRequest(
    toAddress: string, amount: Float, fromAddress: seq<string>, minConf: int, minHeight: int, maxInputs: int)

  /** `sendFrom` (through `sendPairs`): the same checks, then a broadcast
      send with no change address; the result is the transaction. */
  function SendFrom(w: Wallet, req: SendFromRequest, newAmount: Float -> Result<int, string>, relayFeePerKb: int)
    : (r: Result<AuthoredTx, TxError>)
    ensures ValidateSendArgs(req.amount, req.minConf, req.minHeight, newAmount).Err? ==>
              r == Err(Failed(ValidateSendArgs(req.amount, req.minConf, req.minHeight, newAmount).error))
    ensures r.Ok? ==>
              var args := ValidateSendArgs(req.amount, req.minConf, req.minHeight, newAmount).value;
              && w.stewardVote.Ok?
              && r == SendOutputs(w, [(req.toAddress, args.amount)], w.stewardVote.value, Some(req.fromAddress),
                                  args.minconf, relayFeePerKb, SendModeBcasted, None, args.minHeight, req.maxInputs)
    ensures var v := ValidateSendArgs(req.amount, req.minConf, req.minHeight, newAmount);
            v.Ok? && w.stewardVote.Err? ==> r == Err(Failed(w.stewardVote.error))
    ensures var v := ValidateSendArgs(req.amount, req.minConf, req.minHeight, newAmount);
            v.Ok? && w.stewardVote.Ok? ==>
              r == SendOutputs(w, [(req.toAddress, v.value.amount)], w.stewardVote.value, Some(req.fromAddress),
                               v.value.minconf, relayFeePerKb, SendModeBcasted, None, v.value.minHeight, req.maxInputs)
  {
    match ValidateSendArgs(req.amount, req.minConf, req.minHeight, newAmount)
    case Err(e) => Err(Failed(e))
    case Ok(args) =>
      match w.stewardVote
      case Err(e) => Err(Failed(e))
      case Ok(vote) =>
        SendOutputs(w, [(req.toAddress, args.amount)], vote, Some(req.fromAddress), args.minconf,
                    relayFeePerKb, SendModeBcasted, None, args.minHeight, req.maxInputs)
  }

  /** The two endpoints check their arguments identically and read the
      steward vote the same way: given the same amount, minconf and minimum
      height, when either check fails both report the same failure. */
  lemma SameValidation(w: Wallet, c: CreateTransactionRequest, s: SendFromRequest, locks: UtxoLock.LockTable,
                       newAmount: Float -> Result<int, string>, fee: int)
    requires c.amount == s.amount && c.minConf == s.minConf && c.inputMinHeight == s.minHeight
    ensures ValidateSendArgs(c.amount, c.minConf, c.inputMinHeight, newAmount).Err? || w.stewardVote.Err? ==>
              && CreateTransaction(w, c, locks, newAmount, fee).1 == SendFrom(w, s, newAmount, fee)
              && CreateTransaction(w, c, locks, newAmount, fee).1.Err?
  {
  }

  /** When the checks pass, the two endpoints hand the wallet the same
      request for the same target, amount, sources and input limit, except
      for the send mode (and the change address, which `sendFrom` never
      sets and which is left empty here). So the request is built for one
      exactly when it is built for the other, and a failure to build it is
      the same failure for both. */
  lemma SameRequestUpToMode(w: Wallet, c: CreateTransactionRequest, s: SendFromRequest,
                            newAmount: Float -> Result<int, string>, fee: int)
    requires c.amount == s.amount && c.minConf == s.minConf && c.inputMinHeight == s.minHeight
    requires c.toAddress == s.toAddress && c.fromAddress == s.fromAddress && c.maxInputs == s.maxInputs
    requires c.changeAddress == ""
    requires ValidateSendArgs(c.amount, c.minConf, c.inputMinHeight, newAmount).Ok? && w.stewardVote.Ok?
    ensures var args := ValidateSendArgs(c.amount, c.minConf, c.inputMinHeight, newAmount).value;
            var mode := if c.sign then SendModeSigned else SendModeUnsigned;
            var bc := BuildRequest(w, [(c.toAddress, args.amount)], w.stewardVote.value, Some(c.fromAddress),
                                   args.minconf, fee, mode, Some(c.changeAddress), args.minHeight, c.maxInputs);
            var bs := BuildRequest(w, [(s.toAddress, args.amount)], w.stewardVote.value, Some(s.fromAddress),
                                   args.minconf, fee, SendModeBcasted, None, args.minHeight, s.maxInputs);
            && (bc.Ok? <==> bs.Ok?)
            && (bc.Ok? ==> bc.value == bs.value.(sendMode := mode))
            && (bc.Err? ==> CreateTransaction(w, c, map[], newAmount, fee).1 == SendFrom(w, s, newAmount, fee)
                            == Err(bc.error))
  {
  }
}
