/** The wallet unlocker service: generating a seed, creating a wallet from
    a password and an optional seed, and unlocking an existing wallet. The
    wallet loader, the seed cipher, the random source and the hand-over to
    the daemon are parameters; what is modelled is the order of the checks,
    which input wins, and what the daemon is handed. Go strings that are
    only converted to bytes are modelled as bytes. */
module WalletUnlocker {
  import opened Common
  import Hex
  import LndConfig
  import ChanBackups

  // ---------------------------------------------------------------------
  // Passphrases

  /** The passphrase of a request: the binary field when non-empty,
      otherwise the text field (which may itself be empty). */
  function Passphrase(bin: Bytes, text: Bytes): (r: Bytes)
    ensures |bin| > 0 ==> r == bin
    ensures |bin| == 0 ==> r == text
    ensures |r| == 0 <==> |bin| == 0 && |text| == 0
  {
    if |bin| > 0 then bin else if |text| > 0 then text else []
  }

  // ---------------------------------------------------------------------
  // GenSeed

  /** An enciphered seed; its contents are not interpreted here. */
  datatype CipherSeed = CipherSeed(data: Bytes)

  const EntropyNotSupported := "seed input entropy is not supported"

  /** `GenSeed0`. Caller-supplied entropy is refused; otherwise a fresh seed
      (`randomSeed`) is enciphered under the seed passphrase and its
      mnemonic (`mnemonicOf`) is returned split into words. */
  function GenSeed(seedEntropy: Bytes, seedPassphraseBin: Bytes, seedPassphrase: Bytes,
                   randomSeed: Result<CipherSeed, string>,
                   mnemonicOf: (CipherSeed, Bytes) -> Result<string, string>): (r: Result<seq<string>, string>)
    ensures |seedEntropy| != 0 ==> r == Err(EntropyNotSupported)
    ensures |seedEntropy| == 0 && randomSeed.Err? ==> r == Err(randomSeed.error)
    ensures r.Ok? ==>
              && |seedEntropy| == 0 && randomSeed.Ok?
              && var m := mnemonicOf(randomSeed.value, Passphrase(seedPassphraseBin, seedPassphrase));
                 m.Ok? && |r.value| > 0 && LndConfig.Join(r.value, ' ') == m.value
    ensures r.Ok? ==> forall k :: 0 <= k < |r.value| ==> ' ' !in r.value[k]
  {
    if |seedEntropy| != 0 then Err(EntropyNotSupported)
    else
      var seed :- randomSeed;
      var mnemonic :- mnemonicOf(seed, Passphrase(seedPassphraseBin, seedPassphrase));
      LndConfig.JoinSplit(mnemonic, ' ');
      Ok(LndConfig.Split(mnemonic, ' '))
  }

  /** Go's `strings.Join(words, " ")`: nothing for no words. */
  function Mnemonic(words: seq<string>): (r: string)
    ensures |words| > 0 ==> r == LndConfig.Join(words, ' ')
    ensures |words| == 0 ==> r == ""
  {
    if |words| == 0 then "" else LndConfig.Join(words, ' ')
  }

  /** The words a seed was handed out as are read back as the same
      mnemonic when a wallet is created from them. */
  lemma GeneratedWordsRejoin(seedPassphraseBin: Bytes, seedPassphrase: Bytes,
                             randomSeed: Result<CipherSeed, string>,
                             mnemonicOf: (CipherSeed, Bytes) -> Result<string, string>)
    requires GenSeed([], seedPassphraseBin, seedPassphrase, randomSeed, mnemonicOf).Ok?
    ensures Mnemonic(GenSeed([], seedPassphraseBin, seedPassphrase, randomSeed, mnemonicOf).value)
            == mnemonicOf(randomSeed.value, Passphrase(seedPassphraseBin, seedPassphrase)).value
  {
  }

  // ---------------------------------------------------------------------
  // InitWallet and UnlockWallet

  /** The service's fixed settings. `networkDir` stands for the network
      directory derived from the chain directory and network parameters. */
  datatype Service = Service(networkDir: string, walletPath: string, walletFile: string)

  datatype InitRequest = InitRequest(
    walletPassphraseBin: Bytes,
    walletPassphrase: Bytes,
    recoveryWindow: int,
    walletName: string,
    walletSeed: seq<string>,
    seedPassphraseBin: Bytes,
    seedPassphrase: Bytes,
    channelBackups: Option<ChanBackups.Snapshot>)

  /** What `InitWallet` hands to the daemon. */
  datatype InitMsg = InitMsg(
    passphrase: Bytes,
    seed: Option<CipherSeed>,
    legacySeed: Bytes,
    recoveryWindow: nat,
    walletName: string,
    chanBackups: ChanBackups.ChannelsToRecover)

  /** The external steps `InitWallet` relies on. */
  datatype InitEnv = InitEnv(
    walletExists: (string, string) -> Result<bool, string>,
    seedFromWords: (string, Bytes) -> Result<CipherSeed, string>,
    delivered: bool)

  datatype UnlockerError =
    | NegativeRecoveryWindow(window: int)
    | WalletAlreadyExists
    | WalletNotFound(dir: string)
    | LegacySeedLength
    | Failure(message: string)
    | UnlockTimeout

  /** The wallet directory: the configured wallet path when set, otherwise
      the network directory. */
  function WalletDir(svc: Service): (d: string)
    ensures svc.walletPath != "" ==> d == svc.walletPath
    ensures svc.walletPath == "" ==> d == svc.networkDir
  {
    if svc.walletPath != "" then svc.walletPath else svc.networkDir
  }

  /** The wallet file: the request's name when given, otherwise the
      service's. */
  function WalletName(svc: Service, requested: string): (n: string)
    ensures requested != "" ==> n == requested
    ensures requested == "" ==> n == svc.walletFile
  {
    if requested != "" then requested else svc.walletFile
  }

  /** The bytes of an ASCII text, as Go's `[]byte(s)`. */
  function AsciiBytes(s: string): (r: Bytes)
    requires forall i :: 0 <= i < |s| ==> s[i] as int < 256
    ensures |r| == |s|
    ensures forall i :: 0 <= i < |s| ==> r[i] as int == s[i] as int
  {
    if |s| == 0 then [] else [s[0] as int as byte] + AsciiBytes(s[1..])
  }

  lemma HexDigitsAreAscii(s: string)
    requires Hex.Decode(s).Ok?
    ensures forall i :: 0 <= i < |s| ==> s[i] as int < 256
  {
    forall i | 0 <= i < |s| ensures s[i] as int < 256 {
      assert Hex.IsHexDigit(s[i]);
    }
  }

  /** The seed part of `InitWallet`. A single word is a legacy seed: it must
      be hex for exactly 32 bytes, and the TEXT (not the decoded bytes) is
      kept, as the wallet decodes it again later. Any other number of words
      is a mnemonic, deciphered with the seed passphrase. */
  function InitSeed(req: InitRequest, seedFromWords: (string, Bytes) -> Result<CipherSeed, string>)
    : (r: Result<(Option<CipherSeed>, Bytes), UnlockerError>)
    ensures |req.walletSeed| == 1 ==>
              && (Hex.Decode(req.walletSeed[0]).Err? ==> r == Err(Failure(Hex.Decode(req.walletSeed[0]).error)))
              && (Hex.Decode(req.walletSeed[0]).Ok? && |Hex.Decode(req.walletSeed[0]).value| != 32 ==> r == Err(LegacySeedLength))
              && (r.Ok? <==> |req.walletSeed[0]| == 64 && Hex.Decode(req.walletSeed[0]).Ok?)
              && (r.Ok? ==> r.value.0.None? && |r.value.1| == 64
                            && forall i :: 0 <= i < 64 ==> r.value.1[i] as int == req.walletSeed[0][i] as int)
    ensures |req.walletSeed| != 1 ==>
              var seed := seedFromWords(Mnemonic(req.walletSeed), Passphrase(req.seedPassphraseBin, req.seedPassphrase));
              && (seed.Err? ==> r == Err(Failure(seed.error)))
              && (seed.Ok? ==> r == Ok((Some(seed.value), [])))
  {
    if |req.walletSeed| == 1 then
      var text := req.walletSeed[0];
      match Hex.Decode(text)
      case Err(e) => Err(Failure(e))
      case Ok(ls) =>
        if |ls| != 32 then Err(LegacySeedLength)
        else
          HexDigitsAreAscii(text);
          Ok((None, AsciiBytes(text)))
    else
      match seedFromWords(Mnemonic(req.walletSeed), Passphrase(req.seedPassphraseBin, req.seedPassphrase))
      case Err(e) => Err(Failure(e))
      case Ok(seed) => Ok((Some(seed), []))
  }

  /** `InitWallet`: reject a negative recovery window, then an existing
      wallet, then a bad seed; hand the daemon the password, the seed, the
      window, the wallet file's name and any channel backups, and wait for it
      (a hand-over that does not complete is a timeout). */
  function InitWallet(svc: Service, req: InitRequest, env: InitEnv): (r: Result<InitMsg, UnlockerError>)
    ensures req.recoveryWindow < 0 ==> r == Err(NegativeRecoveryWindow(req.recoveryWindow))
    ensures (req.recoveryWindow >= 0 && env.walletExists(WalletDir(svc), WalletName(svc, req.walletName)) == Ok(true))
              ==> r == Err(WalletAlreadyExists)
    ensures r.Ok? ==>
              && req.recoveryWindow >= 0
              && env.walletExists(WalletDir(svc), WalletName(svc, req.walletName)) == Ok(false)
              && env.delivered
              && InitSeed(req, env.seedFromWords) == Ok((r.value.seed, r.value.legacySeed))
              && r.value.passphrase == Passphrase(req.walletPassphraseBin, req.walletPassphrase)
              && r.value.recoveryWindow == req.recoveryWindow
              && r.value.walletName == WalletName(svc, req.walletName)
              && r.value.chanBackups == ChanBackups.ExtractChanBackupsPtr(req.channelBackups).GetOr(ChanBackups.NothingToRecover)
    ensures (&& req.recoveryWindow >= 0
             && env.walletExists(WalletDir(svc), WalletName(svc, req.walletName)) == Ok(false)
             && InitSeed(req, env.seedFromWords).Ok?) ==>
              (r.Ok? <==> env.delivered)
  {
    var passphrase := Passphrase(req.walletPassphraseBin, req.walletPassphrase);
    if req.recoveryWindow < 0 then Err(NegativeRecoveryWindow(req.recoveryWindow))
    else
      var dir := WalletDir(svc);
      var name := WalletName(svc, req.walletName);
      match env.walletExists(dir, name)
      case Err(e) => Err(Failure(e))
      case Ok(true) => Err(WalletAlreadyExists)
      case Ok(false) =>
        var seeds :- InitSeed(req, env.seedFromWords);
        var backups := ChanBackups.ExtractChanBackupsPtr(req.channelBackups);
        var msg := InitMsg(passphrase, seeds.0, seeds.1, req.recoveryWindow, name,
                           if backups.Some? then backups.value else ChanBackups.NothingToRecover);
        if env.delivered then Ok(msg) else Err(UnlockTimeout)
  }

  /** A legacy seed written as the hex of 32 bytes is accepted and handed
      over as that text, which decodes back to the same 32 bytes. */
  lemma LegacySeedKeepsText(svc: Service, req: InitRequest, env: InitEnv, b: Bytes)
    requires |b| == 32 && req.walletSeed == [Hex.Encode(b)]
    requires req.recoveryWindow >= 0 && env.delivered
    requires env.walletExists(WalletDir(svc), WalletName(svc, req.walletName)) == Ok(false)
    ensures var r := InitWallet(svc, req, env);
            && r.Ok? && r.value.seed.None?
            && |r.value.legacySeed| == 64
            && (forall i :: 0 <= i < 64 ==> r.value.legacySeed[i] as int == Hex.Encode(b)[i] as int)
            && Hex.Decode(Hex.Encode(b)) == Ok(b)
  {
    Hex.DecodeEncode(b);
  }

  /** A single word that is not the hex of exactly 32 bytes never creates
      a wallet. */
  lemma LegacySeedMustBe32Bytes(svc: Service, req: InitRequest, env: InitEnv)
    requires |req.walletSeed| == 1
    requires Hex.Decode(req.walletSeed[0]).Err? || |Hex.Decode(req.walletSeed[0]).value| != 32
    ensures InitWallet(svc, req, env).Err?
  {
  }

  datatype UnlockRequest = UnlockRequest(
    walletPassphraseBin: Bytes,
    walletPassphrase: Bytes,
    recoveryWindow: int,
    walletName: string,
    channelBackups: Option<ChanBackups.Snapshot>)

  /** What `UnlockWallet` hands to the daemon. */
  datatype UnlockMsg = UnlockMsg(
    passphrase: Bytes,
    recoveryWindow: nat,
    chanBackups: ChanBackups.ChannelsToRecover)

  /** The external steps `UnlockWallet` relies on: the existence check,
      opening with the public password, and unlocking with the private
      one. */
  datatype UnlockEnv = UnlockEnv(
    walletExists: (string, string) -> Result<bool, string>,
    openError: Option<string>,
    unlockError: Bytes -> Option<string>,
    delivered: bool)

  /** `UnlockWallet`. Unlike `InitWallet` it does not reject a negative
      recovery window: the `int32` is reinterpreted as a `uint32`. */
  function UnlockWallet(svc: Service, req: UnlockRequest, env: UnlockEnv): (r: Result<UnlockMsg, UnlockerError>)
    requires IsInt32(req.recoveryWindow)
    ensures env.walletExists(WalletDir(svc), WalletName(svc, req.walletName)) == Ok(false) ==>
              r == Err(WalletNotFound(WalletDir(svc)))
    ensures r.Ok? ==>
              && env.walletExists(WalletDir(svc), WalletName(svc, req.walletName)) == Ok(true)
              && env.openError.None?
              && env.unlockError(Passphrase(req.walletPassphraseBin, req.walletPassphrase)).None?
              && env.delivered
              && r.value.passphrase == Passphrase(req.walletPassphraseBin, req.walletPassphrase)
              && r.value.recoveryWindow == ToUint32(req.recoveryWindow)
              && r.value.chanBackups == ChanBackups.ExtractChanBackups(req.channelBackups)
    ensures (&& env.walletExists(WalletDir(svc), WalletName(svc, req.walletName)) == Ok(true)
             && env.openError.None?
             && env.unlockError(Passphrase(req.walletPassphraseBin, req.walletPassphrase)).None?
             && env.delivered) ==> r.Ok?
  {
    var passphrase := Passphrase(req.walletPassphraseBin, req.walletPassphrase);
    var window := ToUint32(req.recoveryWindow);
    var dir := WalletDir(svc);
    match env.walletExists(dir, WalletName(svc, req.walletName))
    case Err(e) => Err(Failure(e))
    case Ok(false) => Err(WalletNotFound(dir))
    case Ok(true) =>
      if env.openError.Some? then Err(Failure(env.openError.value))
      else if env.unlockError(passphrase).Some? then Err(Failure(env.unlockError(passphrase).value))
      else
        ChanBackups.VariantsAgree(req.channelBackups);
        var backups := ChanBackups.ExtractChanBackupsPtr(req.channelBackups);
        var msg := UnlockMsg(passphrase, window, if backups.Some? then backups.value else ChanBackups.NothingToRecover);
        if env.delivered then Ok(msg) else Err(UnlockTimeout)
  }

  /** Creating and unlocking read the password the same way: the same
      fields give the same passphrase to both. */
  lemma SamePassphraseRule(svc: Service, init: InitRequest, ienv: InitEnv, unlock: UnlockRequest, uenv: UnlockEnv)
    requires IsInt32(unlock.recoveryWindow)
    requires init.walletPassphraseBin == unlock.walletPassphraseBin
    requires init.walletPassphrase == unlock.walletPassphrase
    requires InitWallet(svc, init, ienv).Ok? && UnlockWallet(svc, unlock, uenv).Ok?
    ensures InitWallet(svc, init, ienv).value.passphrase == UnlockWallet(svc, unlock, uenv).value.passphrase
  {
  }

  /** A negative window that creation would refuse is accepted on unlock,
      wrapped to a large unsigned value. */
  lemma NegativeWindowOnUnlockWraps(svc: Service, req: UnlockRequest, env: UnlockEnv)
    requires req.recoveryWindow == -1
    requires UnlockWallet(svc, req, env).Ok?
    ensures UnlockWallet(svc, req, env).value.recoveryWindow == TWO_32 - 1
  {
  }
}
