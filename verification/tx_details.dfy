/** Reading wallet transactions back: the raw-transaction bytes accepted by
    `decodeRawTransaction`, and the accounting of `getTransaction` (debit and
    credit totals, the fee, confirmations and the per-entry details). The
    wallet's transaction store, hash parsing and address extraction are
    parameters; amounts are in base units (the BTC-denominated floats the
    endpoint also fills in are not modelled). */
module TxDetails {
  import opened Common
  import Hex
  import TxRequest

  // ---------------------------------------------------------------------
  // decodeRawTransaction

  /** The bytes to deserialise: the binary field when it is non-empty,
      otherwise the hex field, left-padded with "0" to an even length. */
  function SerializedTx(binTx: Bytes, hexTx: string): (r: Result<Bytes, string>)
    ensures |binTx| > 0 ==> r == Ok(binTx)
    ensures |binTx| == 0 ==> (r.Ok? <==> forall i :: 0 <= i < |hexTx| ==> Hex.IsHexDigit(hexTx[i]))
    ensures |binTx| == 0 && r.Ok? ==> |r.value| == (|hexTx| + 1) / 2
  {
    if |binTx| > 0 then Ok(binTx)
    else
      var padded := if |hexTx| % 2 != 0 then "0" + hexTx else hexTx;
      assert forall i :: 0 <= i < |hexTx| ==> hexTx[i] == padded[i + |padded| - |hexTx|];
      Hex.Decode(padded)
  }

  /** Hex text written by the encoder is read back to the same bytes. */
  lemma SerializedTxOfEncoding(b: Bytes)
    ensures SerializedTx([], Hex.Encode(b)) == Ok(b)
  {
    Hex.DecodeEncode(b);
  }

  /** An odd-length string is read as if its first digit were preceded by
      a zero: the first byte is that digit's value alone. */
  lemma SerializedTxOddLength(c: char, b: Bytes)
    requires Hex.IsHexDigit(c)
    ensures SerializedTx([], [c] + Hex.Encode(b)) == Ok([Hex.NibbleValue(c) as byte] + b)
  {
    var s := [c] + Hex.Encode(b);
    var padded := "0" + s;
    Hex.DecodeEncode(b);
    assert padded[2..] == Hex.Encode(b);
    assert padded[0] == '0' && padded[1] == c;
  }

  // ---------------------------------------------------------------------
  // getTransaction

  /** A wallet output of the transaction: its index, amount and whether the
      wallet marked it as change. */
  datatype Credit = Credit(index: nat, amount: int, change: bool)

  /** What the wallet's store knows of one transaction. `blockHeight` is -1
      while it is unconfirmed. */
  datatype TxRecord = TxRecord(
    numTxIn: nat,
    outputValues: seq<int>,
    blockHeight: int,
    blockHash: Hash,
    blockTime: int,
    received: int,
    debits: seq<int>,
    credits: seq<Credit>)

  /** One entry of the details list. `amount` is the signed base-unit
      value whose BTC conversion fills the entry's `Amount`; `amountUnits`
      is the unsigned field, which only the send entry sets. */
  datatype Detail = Detail(category: string, amount: int, amountUnits: nat, address: string, vout: nat)

  datatype BlockInfo = BlockInfo(hash: Hash, time: int, confirmations: int)

  datatype TransactionResult = TransactionResult(
    txid: string,
    time: int,
    timeReceived: int,
    block: Option<BlockInfo>,
    details: seq<Detail>,
    amountUnits: nat,
    feeUnits: nat)

  datatype GetTxError = DecodeHexString | NoTxInfo | StoreError(message: string)

  function Sum(s: seq<int>): int {
    if |s| == 0 then 0 else s[0] + Sum(s[1..])
  }

  /** The total of the credits that are not change. */
  function CreditTotal(cs: seq<Credit>): int {
    if |cs| == 0 then 0 else (if cs[0].change then 0 else cs[0].amount) + CreditTotal(cs[1..])
  }

  /** The fee, known only when every input is one of the wallet's debits. */
  function Fee(tx: TxRecord): int {
    if |tx.debits| == tx.numTxIn then Sum(tx.debits) - Sum(tx.outputValues) else 0
  }

  /** One entry per credit that is not change, in credit order; the
      base-unit field of a receive entry is left zero. */
  function CreditDetails(cs: seq<Credit>, category: string, addressOf: nat -> Option<string>): (r: seq<Detail>)
    ensures |r| <= |cs|
    ensures forall k :: 0 <= k < |r| ==> r[k].category == category && r[k].amountUnits == 0
  {
    if |cs| == 0 then []
    else
      var rest := CreditDetails(cs[1..], category, addressOf);
      if cs[0].change then rest
      else [Detail(category, cs[0].amount, 0, addressOf(cs[0].index).GetOr(""), cs[0].index)] + rest
  }

  /** The "send" entry for the debits, when there are any: the negated
      debit total as its amount and the total, cast to `uint64`, as its
      base units; no address or output index. */
  function SendDetail(debits: seq<int>): (r: seq<Detail>)
    ensures |r| == (if |debits| == 0 then 0 else 1)
    ensures |r| == 1 ==> && r[0].category == "send" && r[0].amount == -Sum(debits)
                         && r[0].amountUnits == ToUint64(Sum(debits))
                         && r[0].address == "" && r[0].vout == 0
  {
    if |debits| == 0 then [] else [Detail("send", -Sum(debits), ToUint64(Sum(debits)), "", 0)]
  }

  /** `getTransaction`. `addressOf` gives the address of an output when its
      script has exactly one; `recvCategory` is the wallet's category for
      the credits at the current sync height. */
  function GetTransaction(txid: string, parseHash: string -> Option<Hash>,
                          lookup: Hash -> Result<Option<TxRecord>, string>,
                          syncHeight: int, recvCategory: string,
                          addressOf: nat -> Option<string>): (r: Result<TransactionResult, GetTxError>)
    requires IsInt32(syncHeight)
    requires forall h :: lookup(h).Ok? && lookup(h).value.Some? ==> IsInt32(lookup(h).value.value.blockHeight)
    ensures parseHash(txid).None? ==> r == Err(DecodeHexString)
    ensures parseHash(txid).Some? && lookup(parseHash(txid).value).Err? ==>
              r == Err(StoreError(lookup(parseHash(txid).value).error))
    ensures parseHash(txid).Some? && lookup(parseHash(txid).value) == Ok(None) ==> r == Err(NoTxInfo)
    ensures r.Ok? ==>
              var tx := lookup(parseHash(txid).value).value.value;
              var res := r.value;
              && res.txid == txid && res.time == tx.received && res.timeReceived == tx.received
              && (res.block.Some? <==> tx.blockHeight != -1)
              && (res.block.Some? ==>
                    res.block.value == BlockInfo(tx.blockHash, tx.blockTime, TxRequest.Confirms(tx.blockHeight, syncHeight)))
              && res.amountUnits == ToUint64(CreditTotal(tx.credits))
              && (|tx.debits| == 0 ==> res.feeUnits == 0)
              && (|tx.debits| > 0 && |tx.debits| != tx.numTxIn ==> res.feeUnits == 0)
              && (|tx.debits| > 0 && |tx.debits| == tx.numTxIn ==>
                    res.feeUnits == ToUint64(Sum(tx.debits) - Sum(tx.outputValues)))
              && res.details == SendDetail(tx.debits) + CreditDetails(tx.credits, recvCategory, addressOf)
    ensures (parseHash(txid).Some? && lookup(parseHash(txid).value).Ok?
             && lookup(parseHash(txid).value).value.Some?) ==> r.Ok?
  {
    match parseHash(txid)
    case None => Err(DecodeHexString)
    case Some(h) =>
      match lookup(h)
      case Err(e) => Err(StoreError(e))
      case Ok(None) => Err(NoTxInfo)
      case Ok(Some(tx)) =>
        var block := if tx.blockHeight != -1
                     then Some(BlockInfo(tx.blockHash, tx.blockTime, TxRequest.Confirms(tx.blockHeight, syncHeight)))
                     else None;
        var fee := Fee(tx);
        var feeUnits := if |tx.debits| == 0 then 0 else ToUint64(fee);
        var details := SendDetail(tx.debits) + CreditDetails(tx.credits, recvCategory, addressOf);
        Ok(TransactionResult(txid, tx.received, tx.received, block, details, ToUint64(CreditTotal(tx.credits)), feeUnits))
  }

  /** Number of credits that are not change. */
  function NonChange(cs: seq<Credit>): nat {
    if |cs| == 0 then 0 else (if cs[0].change then 0 else 1) + NonChange(cs[1..])
  }

  function DetailSum(ds: seq<Detail>): int {
    if |ds| == 0 then 0 else ds[0].amount + DetailSum(ds[1..])
  }

  /** The credit entries account for the credit total exactly: one entry
      per non-change credit, and their amounts (the values behind their BTC
      amounts) add up to the total. */
  lemma {:induction false} CreditDetailsAccount(cs: seq<Credit>, category: string, addressOf: nat -> Option<string>)
    ensures |CreditDetails(cs, category, addressOf)| == NonChange(cs)
    ensures DetailSum(CreditDetails(cs, category, addressOf)) == CreditTotal(cs)
  {
    if |cs| > 0 {
      CreditDetailsAccount(cs[1..], category, addressOf);
    }
  }

  /** The entry stands for this credit: a non-change output of that index
      and amount. */
  predicate StandsFor(d: Detail, c: Credit) {
    !c.change && d.vout == c.index && d.amount == c.amount && d.amountUnits == 0
  }

  /** Each entry stands for one of the credits. */
  lemma {:induction false} CreditDetailsFromCredits(cs: seq<Credit>, category: string, addressOf: nat -> Option<string>)
    ensures forall k :: 0 <= k < |CreditDetails(cs, category, addressOf)| ==>
              exists i :: 0 <= i < |cs| && StandsFor(CreditDetails(cs, category, addressOf)[k], cs[i])
  {
    if |cs| > 0 {
      CreditDetailsFromCredits(cs[1..], category, addressOf);
      var r := CreditDetails(cs, category, addressOf);
      var rest := CreditDetails(cs[1..], category, addressOf);
      var tail := cs[1..];
      assert forall k :: 0 <= k < |rest| ==> exists i :: 0 <= i < |tail| && StandsFor(rest[k], tail[i]);
      forall k | 0 <= k < |r|
        ensures exists i :: 0 <= i < |cs| && StandsFor(r[k], cs[i])
      {
        if !cs[0].change && k == 0 {
          assert StandsFor(r[0], cs[0]);
        } else {
          var k' := if cs[0].change then k else k - 1;
          assert 0 <= k' < |rest| && r[k] == rest[k'];
          var i :| 0 <= i < |tail| && StandsFor(rest[k'], tail[i]);
          assert cs[i + 1] == tail[i];
          assert StandsFor(r[k], cs[i + 1]);
        }
      }
      assert forall k :: 0 <= k < |r| ==> exists i :: 0 <= i < |cs| && StandsFor(r[k], cs[i]);
    } else {
      assert CreditDetails(cs, category, addressOf) == [];
    }
  }

  /** A transaction the wallet only received: no send entry, no fee, and
      the details are the non-change credits. */
  lemma ReceiveOnly(txid: string, parseHash: string -> Option<Hash>,
                    lookup: Hash -> Result<Option<TxRecord>, string>,
                    syncHeight: int, recvCategory: string, addressOf: nat -> Option<string>)
    requires IsInt32(syncHeight)
    requires forall h :: lookup(h).Ok? && lookup(h).value.Some? ==> IsInt32(lookup(h).value.value.blockHeight)
    requires parseHash(txid).Some?
    requires lookup(parseHash(txid).value).Ok? && lookup(parseHash(txid).value).value.Some?
    requires |lookup(parseHash(txid).value).value.value.debits| == 0
    ensures var r := GetTransaction(txid, parseHash, lookup, syncHeight, recvCategory, addressOf);
            var tx := lookup(parseHash(txid).value).value.value;
            && r.Ok? && r.value.feeUnits == 0
            && |r.value.details| == NonChange(tx.credits)
            && (forall k :: 0 <= k < |r.value.details| ==> r.value.details[k].category == recvCategory)
  {
    var tx := lookup(parseHash(txid).value).value.value;
    CreditDetailsAccount(tx.credits, recvCategory, addressOf);
    var r := GetTransaction(txid, parseHash, lookup, syncHeight, recvCategory, addressOf);
    assert r.value.details == [] + CreditDetails(tx.credits, recvCategory, addressOf);
  }
}
