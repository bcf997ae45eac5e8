/** Two configuration helpers of the node: the neutrino filter-header state
    assertion (`height:hash`) and the split of the configured wallet file
    into a directory and a file name. Hash parsing is a parameter. */
module LndConfig {
  import opened Common
  import Decimal

  // ---------------------------------------------------------------------
  // Splitting on a separator

  /** Go's `strings.Split` on a one-character separator: the pieces between
      separators, so one more piece than there are separators. */
  function Split(s: string, sep: char): (parts: seq<string>)
    ensures |parts| == Count(s, sep) + 1
    ensures forall k :: 0 <= k < |parts| ==> sep !in parts[k]
    decreases |s|
  {
    if |s| == 0 then [""]
    else
      var rest := Split(s[1..], sep);
      if s[0] == sep then [""] + rest
      else [[s[0]] + rest[0]] + rest[1..]
  }

  /** Pieces joined back with the separator between them. */
  function Join(parts: seq<string>, sep: char): string
    requires |parts| > 0
    decreases |parts|
  {
    if |parts| == 1 then parts[0] else parts[0] + [sep] + Join(parts[1..], sep)
  }

  /** Splitting loses nothing: joining the pieces gives the text back. */
  lemma {:induction false} JoinSplit(s: string, sep: char)
    ensures Join(Split(s, sep), sep) == s
    decreases |s|
  {
    if |s| > 0 {
      JoinSplit(s[1..], sep);
      var rest := Split(s[1..], sep);
      if s[0] == sep {
        assert Split(s, sep)[1..] == rest;
      } else if |rest| == 1 {
        assert Split(s, sep) == [[s[0]] + rest[0]];
      } else {
        var parts := Split(s, sep);
        assert parts[1..] == rest[1..];
        assert Join(rest, sep) == rest[0] + [sep] + Join(rest[1..], sep);
      }
      assert s == [s[0]] + s[1..];
    }
  }

  /** A text with one separator splits into the pieces on either side. */
  lemma {:induction false} SplitAtOnly(a: string, b: string, sep: char)
    requires sep !in a && sep !in b
    ensures Split(a + [sep] + b, sep) == [a, b]
    decreases |a|
  {
    if |a| == 0 {
      assert ([sep] + b)[1..] == b;
      SplitNone(b, sep);
    } else {
      assert (a + [sep] + b)[1..] == a[1..] + [sep] + b;
      SplitAtOnly(a[1..], b, sep);
      assert a == [a[0]] + a[1..];
    }
  }

  lemma {:induction false} SplitNone(s: string, sep: char)
    requires sep !in s
    ensures Split(s, sep) == [s]
    decreases |s|
  {
    if |s| > 0 {
      SplitNone(s[1..], sep);
      assert s == [s[0]] + s[1..];
    }
  }

  // ---------------------------------------------------------------------
  // Filter-header state assertion

  datatype FilterHeader = FilterHeader(height: nat, filterHash: Hash)

  datatype AssertionError =
    | UnexpectedFormat(state: string)
    | InvalidHeight(text: string)
    | InvalidHash(text: string)

  /** `parseHeaderStateAssertion`: no assertion for the empty string;
      otherwise exactly one ':' separating a base-10 height that fits in 32
      bits from a hash. */
  function ParseHeaderStateAssertion(state: string, parseHash: string -> Option<Hash>)
    : (r: Result<Option<FilterHeader>, AssertionError>)
    ensures state == "" ==> r == Ok(None)
    ensures state != "" && Count(state, ':') != 1 ==> r == Err(UnexpectedFormat(state))
    ensures r == Ok(None) ==> state == ""
    ensures r.Ok? && r.value.Some? ==>
              var parts := Split(state, ':');
              && |parts| == 2
              && r.value.value.height < TWO_32
              && Decimal.ParseUint(parts[0], TWO_32) == Some(r.value.value.height)
              && parseHash(parts[1]) == Some(r.value.value.filterHash)
    ensures state != "" && Count(state, ':') == 1 ==>
              var parts := Split(state, ':');
              && (Decimal.ParseUint(parts[0], TWO_32).None? ==> r == Err(InvalidHeight(parts[0])))
              && (Decimal.ParseUint(parts[0], TWO_32).Some? && parseHash(parts[1]).None? ==>
                    r == Err(InvalidHash(parts[1])))
              && (Decimal.ParseUint(parts[0], TWO_32).Some? && parseHash(parts[1]).Some? ==> r.Ok?)
  {
    if |state| == 0 then Ok(None)
    else
      var split := Split(state, ':');
      if |split| != 2 then Err(UnexpectedFormat(state))
      else match Decimal.ParseUint(split[0], TWO_32)
        case None => Err(InvalidHeight(split[0]))
        case Some(height) =>
          match parseHash(split[1])
          case None => Err(InvalidHash(split[1]))
          case Some(hash) => Ok(Some(FilterHeader(ToUint32(height), hash)))
  }

  /** An assertion written as `height:hash` is read back exactly. */
  lemma HeaderStateRoundTrip(h: FilterHeader, hashText: string, parseHash: string -> Option<Hash>)
    requires h.height < TWO_32
    requires ':' !in hashText && parseHash(hashText) == Some(h.filterHash)
    ensures ParseHeaderStateAssertion(Decimal.Render(h.height) + ":" + hashText, parseHash) == Ok(Some(h))
  {
    var digits := Decimal.Render(h.height);
    forall k | 0 <= k < |digits| ensures digits[k] != ':' {
      assert Decimal.IsDigit(digits[k]);
    }
    SplitAtOnly(digits, hashText, ':');
    Decimal.ParseRender32(h.height);
  }

  // ---------------------------------------------------------------------
  // Wallet file name

  predicate HasSuffix(s: string, suffix: string) {
    |suffix| <= |s| && s[|s| - |suffix|..] == suffix
  }

  predicate HasPrefix(s: string, prefix: string) {
    |prefix| <= |s| && s[..|prefix|] == prefix
  }

  /** Index just past the last '/', or 0 when there is none. */
  function AfterLastSlash(s: string): (k: nat)
    ensures k <= |s|
    ensures k > 0 ==> s[k - 1] == '/'
    ensures forall j :: k <= j < |s| ==> s[j] != '/'
    ensures '/' in s ==> k > 0
    decreases |s|
  {
    if |s| == 0 then 0
    else if s[|s| - 1] == '/' then |s|
    else
      var init := s[..|s| - 1];
      assert forall j :: 0 <= j < |init| ==> init[j] == s[j];
      assert s == init + [s[|s| - 1]];
      AfterLastSlash(init)
  }

  /** Go's `filepath.Split`: everything up to and including the last
      separator, and the rest. */
  function PathSplit(path: string): (r: (string, string))
    ensures r.0 + r.1 == path
    ensures '/' !in r.1
    ensures |r.0| > 0 ==> r.0[|r.0| - 1] == '/'
    ensures '/' in path ==> |r.0| > 0
  {
    var k := AfterLastSlash(path);
    assert path[..k] + path[k..] == path;
    (path[..k], path[k..])
  }

  /** `walletFilename`: an absolute `.db` path is split into its directory
      and file name; a relative `.db` name lives in the data directory; any
      other name is the wallet's short name, expanded to `wallet_<name>.db`
      in the data directory. */
  function WalletFilename(walletFile: string, pktDir: string): (r: (string, string))
    ensures HasSuffix(walletFile, ".db") && HasPrefix(walletFile, "/") ==>
              && r.0 + r.1 == walletFile && '/' !in r.1
              && |r.0| > 0 && r.0[0] == '/' && r.0[|r.0| - 1] == '/'
    ensures HasSuffix(walletFile, ".db") && !HasPrefix(walletFile, "/") ==> r == (pktDir, walletFile)
    ensures !HasSuffix(walletFile, ".db") ==> r == (pktDir, "wallet_" + walletFile + ".db")
    ensures HasSuffix(r.1, ".db")
  {
    if HasSuffix(walletFile, ".db") then
      if HasPrefix(walletFile, "/") then
        assert walletFile[0] == '/';
        var (dir, name) := PathSplit(walletFile);
        assert |dir| > 0 && dir[0] == walletFile[0];
        assert walletFile[|dir| - 1] == '/';
        assert walletFile[|walletFile| - 3..] == ".db";
        assert forall i :: |walletFile| - 3 <= i < |walletFile| ==> walletFile[i] == ".db"[i - (|walletFile| - 3)];
        assert |dir| - 1 < |walletFile| - 3;
        assert name[|name| - 3..] == walletFile[|walletFile| - 3..];
        (dir, name)
      else (pktDir, walletFile)
    else
      var name := "wallet_" + walletFile + ".db";
      assert name[|name| - 3..] == ".db";
      (pktDir, name)
  }

  /** The expansion is stable: feeding back the name it produced (joined to
      its directory when the input was absolute) gives the same answer. */
  lemma WalletFilenameStable(walletFile: string, pktDir: string)
    ensures var (dir, name) := WalletFilename(walletFile, pktDir);
            HasPrefix(walletFile, "/") && HasSuffix(walletFile, ".db") ==>
              WalletFilename(dir + name, pktDir) == (dir, name)
    ensures var (dir, name) := WalletFilename(walletFile, pktDir);
            !HasPrefix(walletFile, "/") ==>
              WalletFilename(name, pktDir) == (pktDir, name)
  {
    var (dir, name) := WalletFilename(walletFile, pktDir);
    if !HasPrefix(walletFile, "/") && !HasSuffix(walletFile, ".db") {
      assert name == "wallet_" + walletFile + ".db";
      assert name[0] == 'w';
      assert !HasPrefix(name, "/");
    }
  }
}
