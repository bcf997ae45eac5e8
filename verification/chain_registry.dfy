/** The registry of active chains (which chain code has a running chain
    control, and which chain is the node's primary one), the lookup of a
    chain by its genesis hash, and the configuration checks that run at the
    start of building a chain control: the primary chain's routing policy and
    static fee estimator, and the mapping of the deprecated neutrino fee URL.
    The chain control itself is a type parameter. */
module ChainRegistry {
  import opened Common

  /** The chain codes. The Go type is a 32-bit enum whose first value
      (the zero value) is Bitcoin; any other number is an unknown chain. */
  datatype ChainCode = BitcoinChain | LitecoinChain | PktChain | UnknownChain(code: nat)

  // ---------------------------------------------------------------------
  // Genesis hashes and the hash-to-chain index

  const BitcoinTestnetGenesis: Hash := [
    0x43, 0x49, 0x7f, 0xd7, 0xf8, 0x26, 0x95, 0x71,
    0x08, 0xf4, 0xa3, 0x0f, 0xd9, 0xce, 0xc3, 0xae,
    0xba, 0x79, 0x97, 0x20, 0x84, 0xe9, 0x0e, 0xad,
    0x01, 0xea, 0x33, 0x09, 0x00, 0x00, 0x00, 0x00]

  const BitcoinMainnetGenesis: Hash := [
    0x6f, 0xe2, 0x8c, 0x0a, 0xb6, 0xf1, 0xb3, 0x72,
    0xc1, 0xa6, 0xa2, 0x46, 0xae, 0x63, 0xf7, 0x4f,
    0x93, 0x1e, 0x83, 0x65, 0xe1, 0x5a, 0x08, 0x9c,
    0x68, 0xd6, 0x19, 0x00, 0x00, 0x00, 0x00, 0x00]

  const LitecoinTestnetGenesis: Hash := [
    0xa0, 0x29, 0x3e, 0x4e, 0xeb, 0x3d, 0xa6, 0xe6,
    0xf5, 0x6f, 0x81, 0xed, 0x59, 0x5f, 0x57, 0x88,
    0x0d, 0x1a, 0x21, 0x56, 0x9e, 0x13, 0xee, 0xfd,
    0xd9, 0x51, 0x28, 0x4b, 0x5a, 0x62, 0x66, 0x49]

  const LitecoinMainnetGenesis: Hash := [
    0xe2, 0xbf, 0x04, 0x7e, 0x7e, 0x5a, 0x19, 0x1a,
    0xa4, 0xef, 0x34, 0xd3, 0x14, 0x97, 0x9d, 0xc9,
    0x98, 0x6e, 0x0f, 0x19, 0x25, 0x1e, 0xda, 0xba,
    0x59, 0x40, 0xfd, 0x1f, 0xe3, 0x65, 0xa7, 0x12]

  /** `chainMap`: the Bitcoin and Litecoin test and main networks only. */
  const ChainMap: map<Hash, ChainCode> := map[
    BitcoinTestnetGenesis := BitcoinChain,
    LitecoinTestnetGenesis := LitecoinChain,
    BitcoinMainnetGenesis := BitcoinChain,
    LitecoinMainnetGenesis := LitecoinChain]

  /** The four genesis hashes are distinct, so the index has four entries. */
  lemma ChainMapEntries()
    ensures |ChainMap| == 4
    ensures forall h :: h in ChainMap ==> ChainMap[h] == BitcoinChain || ChainMap[h] == LitecoinChain
  {
    assert BitcoinTestnetGenesis[0] != LitecoinTestnetGenesis[0];
    assert BitcoinTestnetGenesis[0] != BitcoinMainnetGenesis[0];
    assert BitcoinTestnetGenesis[0] != LitecoinMainnetGenesis[0];
    assert LitecoinTestnetGenesis[0] != BitcoinMainnetGenesis[0];
    assert LitecoinTestnetGenesis[0] != LitecoinMainnetGenesis[0];
    assert BitcoinMainnetGenesis[0] != LitecoinMainnetGenesis[0];
    assert ChainMap.Keys == {BitcoinTestnetGenesis, LitecoinTestnetGenesis,
                             BitcoinMainnetGenesis, LitecoinMainnetGenesis};
  }

  // ---------------------------------------------------------------------
  // The registry

  datatype Registry<C> = Registry(activeChains: map<ChainCode, C>, primaryChain: ChainCode)

  /** `NewChainRegistry`: nothing active, primary chain the zero code. */
  function NewChainRegistry<C>(): (r: Registry<C>)
    ensures |r.activeChains| == 0 && r.primaryChain == BitcoinChain
  {
    Registry(map[], BitcoinChain)
  }

  /** `RegisterChain`: the code now maps to `cc`, replacing any earlier one. */
  function RegisterChain<C>(reg: Registry<C>, code: ChainCode, cc: C): (r: Registry<C>)
    ensures r.activeChains.Keys == reg.activeChains.Keys + {code}
    ensures r.primaryChain == reg.primaryChain
  {
    reg.(activeChains := reg.activeChains[code := cc])
  }

  /** `LookupChain`: the control registered for the code, if any. */
  function LookupChain<C>(reg: Registry<C>, code: ChainCode): (r: Option<C>)
    ensures r.Some? <==> code in reg.activeChains
  {
    if code in reg.activeChains then Some(reg.activeChains[code]) else None
  }

  /** A registered control is found under its code; the other codes keep
      what they had. */
  lemma RegisterThenLookup<C>(reg: Registry<C>, code: ChainCode, cc: C, other: ChainCode)
    ensures LookupChain(RegisterChain(reg, code, cc), code) == Some(cc)
    ensures other != code ==> LookupChain(RegisterChain(reg, code, cc), other) == LookupChain(reg, other)
  {
  }

  /** Registering twice under one code keeps only the second control. */
  lemma ReRegisterOverwrites<C>(reg: Registry<C>, code: ChainCode, cc1: C, cc2: C)
    ensures RegisterChain(RegisterChain(reg, code, cc1), code, cc2) == RegisterChain(reg, code, cc2)
  {
  }

  /** `LookupChainByHash`: the hash must be a known genesis hash, and its
      chain must be active. */
  function LookupChainByHash<C>(reg: Registry<C>, genesis: Hash): (r: Option<C>)
    ensures genesis !in ChainMap ==> r.None?
    ensures r.Some? <==> genesis in ChainMap && ChainMap[genesis] in reg.activeChains
    ensures r.Some? ==> r == LookupChain(reg, ChainMap[genesis])
  {
    if genesis !in ChainMap then None
    else LookupChain(reg, ChainMap[genesis])
  }

  /** The PKT chain is never reached by hash: whatever is found is the
      Bitcoin or the Litecoin control, so a registry holding only PKT finds
      nothing by any hash. */
  lemma PktNeverFoundByHash<C>(reg: Registry<C>, genesis: Hash)
    ensures var r := LookupChainByHash(reg, genesis);
            r.Some? ==> r == LookupChain(reg, BitcoinChain) || r == LookupChain(reg, LitecoinChain)
    ensures reg.activeChains.Keys <= {PktChain} ==> LookupChainByHash(reg, genesis).None?
  {
    ChainMapEntries();
  }

  /** `RegisterPrimaryChain`. */
  function RegisterPrimaryChain<C>(reg: Registry<C>, code: ChainCode): (r: Registry<C>)
    ensures r.activeChains == reg.activeChains
  {
    reg.(primaryChain := code)
  }

  /** `PrimaryChain`. */
  function PrimaryChain<C>(reg: Registry<C>): ChainCode {
    reg.primaryChain
  }

  /** The primary chain is the last one registered as primary, whatever
      chains are registered meanwhile. */
  lemma PrimaryIsLastRegistered<C>(reg: Registry<C>, first: ChainCode, last: ChainCode, code: ChainCode, cc: C)
    ensures PrimaryChain(RegisterPrimaryChain(reg, last)) == last
    ensures PrimaryChain(RegisterChain(RegisterPrimaryChain(RegisterPrimaryChain(reg, first), last), code, cc)) == last
  {
  }

  /** `ActiveChains`: every active code exactly once, in the map's
      iteration order (not specified). */
  method ActiveChains<C>(reg: Registry<C>) returns (chains: seq<ChainCode>)
    ensures forall c :: c in chains <==> c in reg.activeChains
    ensures NoDuplicates(chains)
    ensures |chains| == |reg.activeChains|
  {
    chains := [];
    var remaining := reg.activeChains.Keys;
    while remaining != {}
      invariant remaining <= reg.activeChains.Keys
      invariant forall c :: c in chains <==> c in reg.activeChains && c !in remaining
      invariant NoDuplicates(chains)
      invariant |chains| + |remaining| == |reg.activeChains|
      decreases |remaining|
    {
      var c :| c in remaining;
      chains := chains + [c];
      remaining := remaining - {c};
    }
  }

  /** `NumActiveChains`: the number of active codes as a `uint32`. */
  function NumActiveChains<C>(reg: Registry<C>): (n: nat)
    ensures n < TWO_32
    ensures |reg.activeChains| < TWO_32 ==> n == |reg.activeChains|
  {
    ToUint32(|reg.activeChains|)
  }

  /** The count agrees with the listing. */
  method CountMatchesListing<C>(reg: Registry<C>) returns (chains: seq<ChainCode>, n: nat)
    requires |reg.activeChains| < TWO_32
    ensures n == |chains| && NoDuplicates(chains)
    ensures forall c :: c in chains <==> c in reg.activeChains
  {
    chains := ActiveChains(reg);
    n := NumActiveChains(reg);
  }

  // ---------------------------------------------------------------------
  // Building a chain control: routing policy and fee estimation

  /** The per-chain settings the chain control reads. */
  datatype ChainConfig = ChainConfig(
    chainDir: string,
    minHtlcIn: nat,
    minHtlcOut: nat,
    baseFee: nat,
    feeRate: nat,
    timeLockDelta: nat,
    regTest: bool)

  datatype Config = Config(
    bitcoin: ChainConfig,
    litecoin: ChainConfig,
    pkt: ChainConfig,
    primaryChain: ChainCode,
    feeUrl: string,
    neutrinoFeeUrl: string)

  datatype ForwardingPolicy = ForwardingPolicy(minHtlcOut: nat, baseFee: nat, feeRate: nat, timeLockDelta: nat)

  /** The minimum relay fee a static estimator is built with: the fee
      floor for Bitcoin, zero for the other chains. */
  datatype RelayFee = FeePerKwFloor | NoRelayFee

  datatype FeeEstimator =
    | StaticEstimator(feePerKw: nat, minRelay: RelayFee)
    | WebApiEstimator(url: string, noCache: bool)

  const DefaultBitcoinStaticFeePerKW: nat := 12500
  const DefaultLitecoinStaticFeePerKW: nat := 50000
  const DefaultPktStaticFeePerKW: nat := 1000

  /** What the first part of `NewChainControl` settles. */
  datatype FeeSetup = FeeSetup(
    homeChain: ChainConfig,
    routingPolicy: ForwardingPolicy,
    minHtlcIn: nat,
    estimator: FeeEstimator,
    feeUrl: string)

  const MutuallyExclusiveFeeUrls := "feeurl and neutrino.feeurl are mutually exclusive"

  /** The chain whose settings serve as the home chain's: Bitcoin unless the
      primary chain is Litecoin or PKT. */
  function HomeChainConfig(cfg: Config): (r: ChainConfig)
    ensures cfg.primaryChain == LitecoinChain ==> r == cfg.litecoin
    ensures cfg.primaryChain == PktChain ==> r == cfg.pkt
    ensures cfg.primaryChain != LitecoinChain && cfg.primaryChain != PktChain ==> r == cfg.bitcoin
  {
    if cfg.primaryChain == PktChain then cfg.pkt
    else if cfg.primaryChain == LitecoinChain then cfg.litecoin
    else cfg.bitcoin
  }

  function PolicyOf(c: ChainConfig): ForwardingPolicy {
    ForwardingPolicy(c.minHtlcOut, c.baseFee, c.feeRate, c.timeLockDelta)
  }

  /** The primary chain's routing policy, minimum incoming HTLC and static
      estimator; an unknown primary chain is an error. */
  function DefaultPolicy(cfg: Config): (r: Result<(ForwardingPolicy, nat, FeeEstimator), string>)
    ensures r.Err? <==> cfg.primaryChain.UnknownChain?
    ensures cfg.primaryChain == BitcoinChain ==>
              r == Ok((PolicyOf(cfg.bitcoin), cfg.bitcoin.minHtlcIn,
                       StaticEstimator(DefaultBitcoinStaticFeePerKW, FeePerKwFloor)))
    ensures cfg.primaryChain == LitecoinChain ==>
              r == Ok((PolicyOf(cfg.litecoin), cfg.litecoin.minHtlcIn,
                       StaticEstimator(DefaultLitecoinStaticFeePerKW, NoRelayFee)))
    ensures cfg.primaryChain == PktChain ==>
              r == Ok((PolicyOf(cfg.pkt), cfg.pkt.minHtlcIn,
                       StaticEstimator(DefaultPktStaticFeePerKW, NoRelayFee)))
  {
    match cfg.primaryChain
    case BitcoinChain =>
      Ok((PolicyOf(cfg.bitcoin), cfg.bitcoin.minHtlcIn, StaticEstimator(DefaultBitcoinStaticFeePerKW, FeePerKwFloor)))
    case LitecoinChain =>
      Ok((PolicyOf(cfg.litecoin), cfg.litecoin.minHtlcIn, StaticEstimator(DefaultLitecoinStaticFeePerKW, NoRelayFee)))
    case PktChain =>
      Ok((PolicyOf(cfg.pkt), cfg.pkt.minHtlcIn, StaticEstimator(DefaultPktStaticFeePerKW, NoRelayFee)))
    case UnknownChain(_) =>
      Err("default routing policy for chain is unknown")
  }

  /** The fee URL in force: the deprecated neutrino one is copied over when
      set, and setting both is an error. */
  function EffectiveFeeUrl(feeUrl: string, neutrinoFeeUrl: string): (r: Result<string, string>)
    ensures neutrinoFeeUrl != "" && feeUrl != "" ==> r == Err(MutuallyExclusiveFeeUrls)
    ensures neutrinoFeeUrl != "" && feeUrl == "" ==> r == Ok(neutrinoFeeUrl)
    ensures neutrinoFeeUrl == "" ==> r == Ok(feeUrl)
  {
    if neutrinoFeeUrl != "" then
      if feeUrl != "" then Err(MutuallyExclusiveFeeUrls) else Ok(neutrinoFeeUrl)
    else Ok(feeUrl)
  }

  /** The configuration part of `NewChainControl`, up to the choice of fee
      estimator. The height-hint cache and the filtered chain view are
      built in between and can fail: their outcomes are parameters. A fee
      URL replaces the static estimator with the web one, which caches fees
      except on Bitcoin regtest. */
  function SetupFees(cfg: Config, hintCacheErr: Option<string>, chainViewErr: Option<string>)
    : (r: Result<FeeSetup, string>)
    ensures cfg.primaryChain.UnknownChain? ==> r.Err?
    ensures !cfg.primaryChain.UnknownChain? && hintCacheErr.None? && chainViewErr.None? ==>
              (r.Err? <==> cfg.feeUrl != "" && cfg.neutrinoFeeUrl != "")
    ensures r.Ok? ==> r.value.homeChain == HomeChainConfig(cfg)
                      && r.value.routingPolicy == PolicyOf(HomeChainConfig(cfg))
                      && r.value.minHtlcIn == HomeChainConfig(cfg).minHtlcIn
    ensures r.Ok? ==> (r.value.estimator.WebApiEstimator? <==> r.value.feeUrl != "")
    ensures r.Ok? && r.value.feeUrl != "" ==>
              r.value.estimator == WebApiEstimator(r.value.feeUrl, cfg.bitcoin.regTest)
    ensures r.Ok? ==> EffectiveFeeUrl(cfg.feeUrl, cfg.neutrinoFeeUrl) == Ok(r.value.feeUrl)
  {
    var defaults :- DefaultPolicy(cfg);
    var (policy, minIn, fallback) := defaults;
    if hintCacheErr.Some? then Err("unable to initialize height hint cache: " + hintCacheErr.value)
    else if chainViewErr.Some? then Err(chainViewErr.value)
    else
      var url :- EffectiveFeeUrl(cfg.feeUrl, cfg.neutrinoFeeUrl);
      var estimator := if url != "" then WebApiEstimator(url, cfg.bitcoin.regTest) else fallback;
      Ok(FeeSetup(HomeChainConfig(cfg), policy, minIn, estimator, url))
  }

  /** Whichever of the two fee URLs is given alone ends up in force, and
      with none the primary chain's static estimator stays. */
  lemma OneFeeUrlIsUsed(cfg: Config)
    requires !cfg.primaryChain.UnknownChain?
    requires cfg.feeUrl == "" || cfg.neutrinoFeeUrl == ""
    ensures var r := SetupFees(cfg, None, None);
            && r.Ok?
            && r.value.feeUrl == (if cfg.feeUrl != "" then cfg.feeUrl else cfg.neutrinoFeeUrl)
            && (r.value.feeUrl == "" ==> r.value.estimator == DefaultPolicy(cfg).value.2)
  {
  }
}
