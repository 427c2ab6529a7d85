/**
 * The registry supervisor of src/lib/verdaccio.ts (`VerdaccioHelper`): the
 * server-path rewrite, the port taken from the discovered HTTP address, the
 * scraper that discovers the server's configuration from its stdout, and the
 * queue that serialises the callers of `run`.
 *
 * Processes, timers, `execSync` and the regular-expression engine are not
 * modelled: their results are parameters (oracles) of the members below.
 */
module Verdaccio {
  import opened Wrappers
  import opened Text

  // ---------------------------------------------------------------------
  // The path of the server executable (constructor)
  // ---------------------------------------------------------------------

  const VERDACCIO: string := "verdaccio"
  const BIN_SUFFIX: string := "verdaccio/bin/verdaccio"

  /**
   * `path.replace(/verdaccio.*\/, "verdaccio/bin/verdaccio")`: from the first
   * "verdaccio" to the end of its line, the path becomes the server's bin script.
   */
  function BinPath(path: string): string {
    match IndexOf(path, VERDACCIO)
    case None => path
    case Some(i) => path[..i] + BIN_SUFFIX + path[LineEnd(path, i)..]
  }

  /** A path without "verdaccio" is kept; on a one-line path everything from the first "verdaccio" on is replaced. */
  lemma BinPathRewrite(path: string)
    requires forall k :: 0 <= k < |path| ==> !IsLineTerminator(path[k])
    ensures IndexOf(path, VERDACCIO).None? ==> BinPath(path) == path
    ensures IndexOf(path, VERDACCIO).Some? ==>
      BinPath(path) == path[..IndexOf(path, VERDACCIO).value] + BIN_SUFFIX
  {
    if IndexOf(path, VERDACCIO).Some? {
      var i := IndexOf(path, VERDACCIO).value;
      assert LineEnd(path, i) == |path|;
    }
  }

  /** Whether `pat` occurs at `k` depends only on the first `k + |pat|` characters. */
  lemma OccursAtPrefix(s: string, t: string, pat: string, k: nat)
    requires k + |pat| <= |s| && k + |pat| <= |t| && s[..k + |pat|] == t[..k + |pat|]
    ensures OccursAt(s, pat, k) <==> OccursAt(t, pat, k)
  {
    assert s[k..k + |pat|] == s[..k + |pat|][k..];
    assert t[k..k + |pat|] == t[..k + |pat|][k..];
  }

  /** An occurrence with none before it is the one `indexOf` finds. */
  lemma IndexOfIsFirst(s: string, pat: string, i: nat)
    requires OccursAt(s, pat, i)
    requires forall k :: 0 <= k < i ==> !OccursAt(s, pat, k)
    ensures IndexOf(s, pat) == Some(i)
  {
  }

  /** The rewritten path has its first "verdaccio" where the original had it. */
  lemma BinPathKeepsFirstOccurrence(path: string, i: nat)
    requires IndexOf(path, VERDACCIO) == Some(i)
    ensures IndexOf(BinPath(path), VERDACCIO) == Some(i)
  {
    var r := BinPath(path);
    var n := i + |VERDACCIO|;
    assert BIN_SUFFIX[..|VERDACCIO|] == VERDACCIO;
    assert r[..n] == path[..n] by {
      assert r[..n] == path[..i] + VERDACCIO;
      assert path[i..n] == VERDACCIO;
      assert path[..n] == path[..i] + path[i..n];
    }
    SamePrefixSameIndex(r, path, VERDACCIO, i);
  }

  /** Strings that agree up to the end of the first occurrence in one of them have that first occurrence in common. */
  lemma SamePrefixSameIndex(s: string, t: string, pat: string, i: nat)
    requires IndexOf(t, pat) == Some(i)
    requires i + |pat| <= |s| && s[..i + |pat|] == t[..i + |pat|]
    ensures IndexOf(s, pat) == Some(i)
  {
    var n := i + |pat|;
    OccursAtPrefix(s, t, pat, i);
    forall k | 0 <= k < i ensures !OccursAt(s, pat, k) {
      var m := k + |pat|;
      assert s[..m] == s[..n][..m];
      assert t[..m] == t[..n][..m];
      OccursAtPrefix(s, t, pat, k);
    }
    IndexOfIsFirst(s, pat, i);
  }

  /** In the rewritten path the line of the first "verdaccio" ends right after the bin suffix. */
  lemma BinPathLineEnd(path: string, i: nat)
    requires IndexOf(path, VERDACCIO) == Some(i)
    ensures i + |BIN_SUFFIX| <= |BinPath(path)|
    ensures LineEnd(BinPath(path), i) == i + |BIN_SUFFIX|
  {
    var r := BinPath(path);
    var e := LineEnd(path, i);
    assert r == path[..i] + BIN_SUFFIX + path[e..];
    forall k | i <= k < i + |BIN_SUFFIX| ensures !IsLineTerminator(r[k]) {
      assert r[k] == BIN_SUFFIX[k - i];
    }
    if e < |path| {
      assert r[i + |BIN_SUFFIX|] == path[e];
    }
  }

  /** Rewriting the server path twice gives the same path as rewriting it once. */
  lemma BinPathIdempotent(path: string)
    ensures BinPath(BinPath(path)) == BinPath(path)
  {
    match IndexOf(path, VERDACCIO)
    case None =>
    case Some(i) =>
      var e := LineEnd(path, i);
      var r := BinPath(path);
      assert r == path[..i] + BIN_SUFFIX + path[e..];
      BinPathKeepsFirstOccurrence(path, i);
      BinPathLineEnd(path, i);
      assert r[i + |BIN_SUFFIX|..] == path[e..];
      assert r[..i] == path[..i];
  }

  // ---------------------------------------------------------------------
  // The port of the discovered HTTP address (checkVerdaccioStatus)
  // ---------------------------------------------------------------------

  /** The end of the run of digits that starts at `from`. */
  function DigitRunEnd(s: string, from: nat): (e: nat)
    requires from <= |s|
    ensures from <= e <= |s|
    ensures forall k :: from <= k < e ==> IsDigit(s[k])
    ensures e < |s| ==> !IsDigit(s[e])
    decreases |s| - from
  {
    if from == |s| || !IsDigit(s[from]) then from else DigitRunEnd(s, from + 1)
  }

  /** The first index at or after `from` that holds a digit. */
  function FirstDigitFrom(s: string, from: nat): (r: Option<nat>)
    requires from <= |s|
    ensures r.Some? ==> from <= r.value < |s| && IsDigit(s[r.value])
    ensures r.Some? ==> forall k :: from <= k < r.value ==> !IsDigit(s[k])
    ensures r.None? ==> forall k :: from <= k < |s| ==> !IsDigit(s[k])
    decreases |s| - from
  {
    if from == |s| then None
    else if IsDigit(s[from]) then Some(from)
    else FirstDigitFrom(s, from + 1)
  }

  /**
   * `address.match(/(\d+)/)?.[0]` as the source uses it: the first maximal
   * run of digits anywhere in the address.
   */
  function FirstDigitRun(address: string): Option<string> {
    match FirstDigitFrom(address, 0)
    case None => None
    case Some(i) => Some(address[i..DigitRunEnd(address, i)])
  }

  /** The first digit run is non-empty, all digits, and no digit comes before it. */
  lemma FirstDigitRunShape(address: string)
    ensures FirstDigitRun(address).None? <==> forall k :: 0 <= k < |address| ==> !IsDigit(address[k])
    ensures FirstDigitRun(address).Some? ==>
      var i := FirstDigitFrom(address, 0).value;
      var run := FirstDigitRun(address).value;
      run != [] && address[i..i + |run|] == run &&
      (forall k :: 0 <= k < |run| ==> IsDigit(run[k])) &&
      (forall k :: 0 <= k < i ==> !IsDigit(address[k])) &&
      (i + |run| < |address| ==> !IsDigit(address[i + |run|]))
  {
  }

  /** On the address "http://127.0.0.1:4873/" the first digit run is "127", not the port "4873". */
  lemma FirstDigitRunTakesHostOctet()
    ensures FirstDigitRun("http://127.0.0.1:4873/") == Some("127")
  {
    var a := "http://127.0.0.1:4873/";
    assert FirstDigitFrom(a, 0) == Some(7) by {
      assert forall k :: 0 <= k < 7 ==> !IsDigit(a[k]);
      assert IsDigit(a[7]);
    }
    assert DigitRunEnd(a, 7) == 10 by {
      assert IsDigit(a[7]) && IsDigit(a[8]) && IsDigit(a[9]) && !IsDigit(a[10]);
    }
    assert a[7..10] == "127";
  }

  /** The port of an HTTP address: the digits right after its last ':'. */
  function PortOfAddress(address: string): (r: Option<string>)
    ensures r.Some? ==> r.value != [] && forall k :: 0 <= k < |r.value| ==> IsDigit(r.value[k])
    ensures r.Some? ==> LastIndexOf(address, ':').Some? && var c := LastIndexOf(address, ':').value;
      c + 1 + |r.value| <= |address| && address[c + 1..c + 1 + |r.value|] == r.value &&
      (c + 1 + |r.value| == |address| || !IsDigit(address[c + 1 + |r.value|]))
  {
    match LastIndexOf(address, ':')
    case None => None
    case Some(c) =>
      var e := DigitRunEnd(address, c + 1);
      if e == c + 1 then None else Some(address[c + 1..e])
  }

  /** On "http://127.0.0.1:4873/" the port is "4873". */
  lemma PortOfAddressExample()
    ensures PortOfAddress("http://127.0.0.1:4873/") == Some("4873")
  {
    var a := "http://127.0.0.1:4873/";
    assert LastIndexOf(a, ':') == Some(16) by {
      assert a[16] == ':';
      assert forall k :: 16 < k < |a| ==> a[k] != ':';
    }
    assert DigitRunEnd(a, 17) == 21 by {
      assert IsDigit(a[17]) && IsDigit(a[18]) && IsDigit(a[19]) && IsDigit(a[20]) && !IsDigit(a[21]);
    }
    assert a[17..21] == "4873";
  }

  /**
   * For an address "host:port" followed by a rest without ':' that does not
   * continue the digits, the port is exactly the digits after the ':', and
   * the intended status probes that port.
   */
  lemma PortOfAddressOfJoin(host: string, port: string, rest: string, probe: nat -> Probe)
    requires port != [] && forall k :: 0 <= k < |port| ==> IsDigit(port[k])
    requires ':' !in rest && (rest == [] || !IsDigit(rest[0]))
    ensures PortOfAddress(host + ":" + port + rest) == Some(port)
    ensures CheckStatus(Some(host + ":" + port + rest), probe) == CheckStatusWith(Some(port), probe)
  {
    var a := host + ":" + port + rest;
    assert ':' !in port + rest by {
      forall k | 0 <= k < |port + rest| ensures (port + rest)[k] != ':' {
        if k >= |port| { assert (port + rest)[k] == rest[k - |port|]; }
      }
    }
    assert a == host + [':'] + (port + rest);
    LastIndexOfJoin(host, ':', port + rest);
    var from := |host| + 1;
    var e := DigitRunEnd(a, from);
    forall k | from <= k < from + |port| ensures a[k] == port[k - from] && IsDigit(a[k]) { }
    assert from + |port| < |a| ==> a[from + |port|] == rest[0];
    assert e == from + |port|;
    assert a[from..e] == port;
  }

  /** The result of `checkVerdaccioStatus`; `Crashed` means the returned promise rejects. */
  datatype Status = Running | NotRunning | Crashed

  /**
   * The outcome of the bind probe in `checkPortIsAvailable`: the port could
   * be listened on, the bind failed with EADDRINUSE, or it failed with any
   * other error (which rejects the probe's promise).
   */
  datatype Probe = Free | InUse | BindFailed

  /**
   * `checkVerdaccioStatus`: with a discovered, non-empty address, the server
   * is running when its port is in use; a port of 0 counts as free without
   * probing; an address without digits makes the non-null assertion throw,
   * and a bind error other than EADDRINUSE rejects the awaited probe.
   * `probe` stands for the TCP bind probe.
   */
  function CheckStatusWith(port: Option<string>, probe: nat -> Probe): (s: Status)
    ensures s == Crashed <==> port.None? || (DecimalValue(port.value) != 0 && probe(DecimalValue(port.value)) == BindFailed)
    ensures s == Running <==> port.Some? && DecimalValue(port.value) != 0 && probe(DecimalValue(port.value)) == InUse
  {
    match port
    case None => Crashed
    case Some(p) =>
      var n := DecimalValue(p);
      if n == 0 then NotRunning
      else match probe(n)
        case InUse => Running
        case Free => NotRunning
        case BindFailed => Crashed
  }

  /** `checkVerdaccioStatus` as written: the port is the first digit run of the address. */
  function CheckStatusAsWritten(httpAddress: Option<string>, probe: nat -> Probe): Status {
    if httpAddress.None? || httpAddress.value == [] then NotRunning
    else CheckStatusWith(FirstDigitRun(httpAddress.value), probe)
  }

  /** `checkVerdaccioStatus` as intended: the port follows the address's last ':'. */
  function CheckStatus(httpAddress: Option<string>, probe: nat -> Probe): Status {
    if httpAddress.None? || httpAddress.value == [] then NotRunning
    else CheckStatusWith(PortOfAddress(httpAddress.value), probe)
  }

  /**
   * For the server at 127.0.0.1:4873, with only port 4873 taken, the status
   * as written probes port 127 and reports the server stopped; the intended
   * status reports it running.
   */
  lemma CheckStatusDiscrepancy()
    ensures CheckStatusAsWritten(Some("http://127.0.0.1:4873/"), p => if p == 4873 then InUse else Free) == NotRunning
    ensures CheckStatus(Some("http://127.0.0.1:4873/"), p => if p == 4873 then InUse else Free) == Running
  {
    StoppedAsWritten();
    RunningAsIntended();
  }

  lemma StoppedAsWritten()
    ensures CheckStatusAsWritten(Some("http://127.0.0.1:4873/"), p => if p == 4873 then InUse else Free) == NotRunning
  {
    FirstDigitRunTakesHostOctet();
    Decimal127();
    assert CheckStatusWith(Some("127"), p => if p == 4873 then InUse else Free) == NotRunning;
  }

  lemma RunningAsIntended()
    ensures CheckStatus(Some("http://127.0.0.1:4873/"), p => if p == 4873 then InUse else Free) == Running
  {
    PortOfAddressExample();
    Decimal4873();
    assert CheckStatusWith(Some("4873"), p => if p == 4873 then InUse else Free) == Running;
  }

  lemma Decimal127()
    ensures DecimalValue("127") == 127
  {
    assert "127"[..2] == "12" && "12"[..1] == "1" && "1"[..0] == "";
  }

  lemma Decimal4873()
    ensures DecimalValue("4873") == 4873
  {
    assert "4873"[..3] == "487" && "487"[..2] == "48" && "48"[..1] == "4" && "4"[..0] == "";
  }

  // ---------------------------------------------------------------------
  // The configuration scraper (getVerdaccioConfig)
  // ---------------------------------------------------------------------

  /** The keys of `VerdaccioConfig`; the first three are scraped from stdout, `Username` comes from `npm whoami`. */
  datatype Field = ConfigFile | HttpAddress | HtpasswdFile | Username

  /** `Object.keys(stdoutReg)`, in declaration order. */
  const SCRAPED_KEYS: seq<Field> := [ConfigFile, HttpAddress, HtpasswdFile]

  /** A complete, cached server configuration. */
  datatype Config = Config(configFile: string, httpAddress: string, htpasswdFile: string, username: string)

  /** The regular expressions of `stdoutReg`: `Match(key, text)` is `text.match(stdoutReg[key])`, `None` for `null`. */
  type Matcher = (Field, string) -> Option<seq<string>>

  /** `npm whoami --registry=<address>` run synchronously: its stdout, or `None` when it throws. */
  type WhoAmI = string -> Option<string>

  const WHOAMI_PREFIX: string := "npm whoami --registry="

  /** A field counts as set when its value is truthy, that is present and non-empty. */
  predicate IsSet(cfg: map<Field, string>, key: Field) {
    key in cfg && cfg[key] != ""
  }

  /** `matches?.length > 1`: the match exists and has a first capture. */
  predicate HasCapture(m: Option<seq<string>>) {
    m.Some? && |m.value| > 1
  }

  /** One key of the `forEach`: an unset field takes the first capture of its pattern. */
  function AbsorbKey(cfg: map<Field, string>, key: Field, m: Option<seq<string>>): map<Field, string> {
    if IsSet(cfg, key) then cfg
    else if HasCapture(m) then cfg[key := m.value[1]]
    else cfg
  }

  /** The first `n` keys of `SCRAPED_KEYS` applied to one chunk. */
  function AbsorbKeys(cfg: map<Field, string>, chunk: string, matcher: Matcher, n: nat): map<Field, string>
    requires n <= |SCRAPED_KEYS|
  {
    if n == 0 then cfg
    else
      var key := SCRAPED_KEYS[n - 1];
      AbsorbKey(AbsorbKeys(cfg, chunk, matcher, n - 1), key, matcher(key, chunk))
  }

  /** All three patterns applied to one chunk, in key order. */
  function AbsorbChunk(cfg: map<Field, string>, chunk: string, matcher: Matcher): map<Field, string> {
    AbsorbKeys(cfg, chunk, matcher, |SCRAPED_KEYS|)
  }

  /**
   * One chunk changes a field only if the field was unset and its pattern
   * captured; then the field holds that first capture. A set field is never
   * overwritten, and no key other than the three scraped ones appears.
   */
  lemma AbsorbChunkEffect(cfg: map<Field, string>, chunk: string, matcher: Matcher, key: Field)
    ensures IsSet(cfg, key) ==> key in AbsorbChunk(cfg, chunk, matcher) && AbsorbChunk(cfg, chunk, matcher)[key] == cfg[key]
    ensures key in SCRAPED_KEYS && !IsSet(cfg, key) && HasCapture(matcher(key, chunk)) ==>
      key in AbsorbChunk(cfg, chunk, matcher) && AbsorbChunk(cfg, chunk, matcher)[key] == matcher(key, chunk).value[1]
    ensures key in SCRAPED_KEYS && !IsSet(cfg, key) && !HasCapture(matcher(key, chunk)) ==>
      (key in AbsorbChunk(cfg, chunk, matcher) <==> key in cfg) &&
      (key in cfg ==> AbsorbChunk(cfg, chunk, matcher)[key] == cfg[key])
    ensures key !in SCRAPED_KEYS ==>
      (key in AbsorbChunk(cfg, chunk, matcher) <==> key in cfg) &&
      (key in cfg ==> AbsorbChunk(cfg, chunk, matcher)[key] == cfg[key])
  {
    assert AbsorbKeys(cfg, chunk, matcher, 0) == cfg;
    var c1 := AbsorbKeys(cfg, chunk, matcher, 1);
    var c2 := AbsorbKeys(cfg, chunk, matcher, 2);
    assert AbsorbChunk(cfg, chunk, matcher) == AbsorbKey(c2, HtpasswdFile, matcher(HtpasswdFile, chunk));
    assert c2 == AbsorbKey(c1, HttpAddress, matcher(HttpAddress, chunk));
    assert c1 == AbsorbKey(cfg, ConfigFile, matcher(ConfigFile, chunk));
  }

  /** The fields after a sequence of chunks, each absorbed in turn. */
  function AbsorbChunks(cfg: map<Field, string>, chunks: seq<string>, matcher: Matcher): map<Field, string>
    decreases |chunks|
  {
    if chunks == [] then cfg
    else AbsorbChunks(AbsorbChunk(cfg, chunks[0], matcher), chunks[1..], matcher)
  }

  /** Some chunk of `chunks` gives `key`'s pattern a capture. */
  predicate EverCaptured(chunks: seq<string>, matcher: Matcher, key: Field) {
    exists i :: 0 <= i < |chunks| && HasCapture(matcher(key, chunks[i]))
  }

  /**
   * Starting from no fields, a scraped key is present after a sequence of
   * chunks exactly when some chunk captured it, whatever the order of
   * arrival; `Username` is never scraped.
   */
  lemma {:induction false} AbsorbChunksPresence(cfg: map<Field, string>, chunks: seq<string>, matcher: Matcher, key: Field)
    requires Username !in cfg
    requires key in SCRAPED_KEYS
    ensures Username !in AbsorbChunks(cfg, chunks, matcher)
    ensures key in AbsorbChunks(cfg, chunks, matcher) <==> key in cfg || EverCaptured(chunks, matcher, key)
    decreases |chunks|
  {
    if chunks != [] {
      var next := AbsorbChunk(cfg, chunks[0], matcher);
      AbsorbChunkEffect(cfg, chunks[0], matcher, key);
      AbsorbChunkEffect(cfg, chunks[0], matcher, Username);
      AbsorbChunksPresence(next, chunks[1..], matcher, key);
      if EverCaptured(chunks, matcher, key) && !HasCapture(matcher(key, chunks[0])) {
        var i :| 0 <= i < |chunks| && HasCapture(matcher(key, chunks[i]));
        assert HasCapture(matcher(key, chunks[1..][i - 1]));
      }
      if EverCaptured(chunks[1..], matcher, key) {
        var i :| 0 <= i < |chunks[1..]| && HasCapture(matcher(key, chunks[1..][i]));
        assert HasCapture(matcher(key, chunks[i + 1]));
      }
    }
  }

  /** A field that is set keeps its value through any later chunks. */
  lemma {:induction false} AbsorbChunksKeepsSet(cfg: map<Field, string>, chunks: seq<string>, matcher: Matcher, key: Field)
    requires IsSet(cfg, key)
    ensures key in AbsorbChunks(cfg, chunks, matcher) && AbsorbChunks(cfg, chunks, matcher)[key] == cfg[key]
    decreases |chunks|
  {
    if chunks != [] {
      AbsorbChunkEffect(cfg, chunks[0], matcher, key);
      AbsorbChunksKeepsSet(AbsorbChunk(cfg, chunks[0], matcher), chunks[1..], matcher, key);
    }
  }

  /** The completion test `Object.keys(verdaccioConfig).length === keys.length`. */
  predicate ReadyForWhoAmI(cfg: map<Field, string>) {
    |cfg.Keys| == |SCRAPED_KEYS|
  }

  /** Without a username, the completion test holds exactly when all three scraped keys are present. */
  lemma ReadyIffAllScraped(cfg: map<Field, string>)
    requires Username !in cfg
    ensures ReadyForWhoAmI(cfg) <==> ConfigFile in cfg && HttpAddress in cfg && HtpasswdFile in cfg
  {
    KeysWithoutUsername(cfg);
    if ConfigFile in cfg && HttpAddress in cfg && HtpasswdFile in cfg {
      assert cfg.Keys == {ConfigFile, HttpAddress, HtpasswdFile};
    } else {
      var missing :| missing in {ConfigFile, HttpAddress, HtpasswdFile} && missing !in cfg;
      assert cfg.Keys <= {ConfigFile, HttpAddress, HtpasswdFile} - {missing};
      SubsetCard(cfg.Keys, {ConfigFile, HttpAddress, HtpasswdFile} - {missing});
    }
  }

  /** Every key other than `Username` is one of the three scraped ones. */
  lemma KeysWithoutUsername(cfg: map<Field, string>)
    requires Username !in cfg
    ensures cfg.Keys <= {ConfigFile, HttpAddress, HtpasswdFile}
  {
    forall k | k in cfg.Keys ensures k in {ConfigFile, HttpAddress, HtpasswdFile} {
      assert k != Username;
    }
  }

  lemma SubsetCard<T>(a: set<T>, b: set<T>)
    requires a <= b
    ensures |a| <= |b|
  {
    assert b == a + (b - a);
  }

  /**
   * Whatever order the chunks arrive in, from no fields the completion test
   * holds after them exactly when each of the three patterns captured in
   * some chunk.
   */
  lemma ScrapeCompletesIffAllCaptured(chunks: seq<string>, matcher: Matcher)
    ensures ReadyForWhoAmI(AbsorbChunks(map[], chunks, matcher)) <==>
      EverCaptured(chunks, matcher, ConfigFile) &&
      EverCaptured(chunks, matcher, HttpAddress) &&
      EverCaptured(chunks, matcher, HtpasswdFile)
  {
    AbsorbChunksPresence(map[], chunks, matcher, ConfigFile);
    AbsorbChunksPresence(map[], chunks, matcher, HttpAddress);
    AbsorbChunksPresence(map[], chunks, matcher, HtpasswdFile);
    ReadyIffAllScraped(AbsorbChunks(map[], chunks, matcher));
  }

  /** The username is only ever added to a configuration that has all three scraped fields. */
  predicate UsernameLast(cfg: map<Field, string>) {
    Username in cfg ==> ConfigFile in cfg && HttpAddress in cfg && HtpasswdFile in cfg
  }

  /** Why a `getVerdaccioConfig` promise is rejected. */
  datatype ScrapeError = WhoAmIFailed | EmptyUsername

  /** What one stdout chunk leads to. */
  datatype ChunkOutcome = Pending | Resolved(config: Config) | Rejected(error: ScrapeError)

  /**
   * The per-call state of `getVerdaccioConfig`: the partially discovered
   * configuration object, and whether `verdaccioDone` has been called.
   */
  class ConfigScrape {
    var fields: map<Field, string>
    var done: bool

    ghost predicate Valid()
      reads this
    {
      UsernameLast(fields)
    }

    constructor ()
      ensures Valid() && fields == map[] && !done
    {
      fields := map[];
      done := false;
    }

    /**
     * The `run` callback on one `bufferchange` payload of the stdout buffer,
     * as a string: the buffer emits only when its capacity grows, and the
     * payload is the written chunk followed by zero padding up to the growth
     * size (see `StreamBuffer`). The callback runs the `forEach` over the
     * three keys; then, once the completion test holds, `npm whoami` against
     * the discovered address, the trimmed username, the cache, and
     * `verdaccioDone`. `verdaccioDone` unpipes the process's stdout from
     * the buffer, so no further chunk reaches this call.
     */
    method OnChunk(chunk: string, matcher: Matcher, whoami: WhoAmI, helper: VerdaccioHelper) returns (outcome: ChunkOutcome)
      requires Valid() && !done
      modifies this, helper`verdaccioConfig
      ensures Valid()
      ensures var scraped := AbsorbChunk(old(fields), chunk, matcher);
        if !ReadyForWhoAmI(scraped) then
          outcome == Pending && fields == scraped && done == old(done) &&
          helper.verdaccioConfig == old(helper.verdaccioConfig)
        else
          ConfigFile in scraped && HttpAddress in scraped && HtpasswdFile in scraped && done &&
          match whoami(WHOAMI_PREFIX + scraped[HttpAddress])
          case None =>
            outcome == Rejected(WhoAmIFailed) && fields == scraped &&
            helper.verdaccioConfig == old(helper.verdaccioConfig)
          case Some(out) =>
            var user := Trim(out);
            fields == scraped[Username := user] &&
            if user == "" then
              outcome == Rejected(EmptyUsername) && helper.verdaccioConfig == old(helper.verdaccioConfig)
            else
              var cfg := Config(scraped[ConfigFile], scraped[HttpAddress], scraped[HtpasswdFile], user);
              outcome == Resolved(cfg) && helper.verdaccioConfig == Some(cfg)
    {
      ghost var before := fields;
      AbsorbKeysOf(chunk, matcher);
      outcome := Pending;
      if |fields.Keys| == |SCRAPED_KEYS| {
        assert Username !in fields by {
          NoUsernameWhenReady(before, chunk, matcher);
        }
        ReadyIffAllScraped(fields);
        outcome := QueryUsername(whoami, helper);
      } else {
        assert UsernameLast(fields) by {
          AbsorbChunkEffect(before, chunk, matcher, Username);
          AbsorbChunkEffect(before, chunk, matcher, ConfigFile);
          AbsorbChunkEffect(before, chunk, matcher, HttpAddress);
          AbsorbChunkEffect(before, chunk, matcher, HtpasswdFile);
        }
      }
    }

    /** The `forEach` over the three keys: an unset field takes its pattern's first capture. */
    method AbsorbKeysOf(chunk: string, matcher: Matcher)
      modifies this`fields
      ensures fields == AbsorbChunk(old(fields), chunk, matcher)
    {
      for i := 0 to |SCRAPED_KEYS|
        invariant fields == AbsorbKeys(old(fields), chunk, matcher, i)
      {
        var key := SCRAPED_KEYS[i];
        if !IsSet(fields, key) {
          var matches := matcher(key, chunk);
          if HasCapture(matches) {
            fields := fields[key := matches.value[1]];
          }
        }
      }
    }

    /**
     * The completion branch: run `npm whoami` against the discovered address
     * and store its trimmed output as the username; an empty username or a
     * failing command rejects, and only a non-empty one is cached.
     * `verdaccioDone` is called either way.
     */
    method QueryUsername(whoami: WhoAmI, helper: VerdaccioHelper) returns (outcome: ChunkOutcome)
      requires ConfigFile in fields && HttpAddress in fields && HtpasswdFile in fields
      modifies this, helper`verdaccioConfig
      ensures Valid() && done
      ensures match whoami(WHOAMI_PREFIX + old(fields)[HttpAddress])
        case None =>
          outcome == Rejected(WhoAmIFailed) && fields == old(fields) &&
          helper.verdaccioConfig == old(helper.verdaccioConfig)
        case Some(out) =>
          var user := Trim(out);
          fields == old(fields)[Username := user] &&
          if user == "" then
            outcome == Rejected(EmptyUsername) && helper.verdaccioConfig == old(helper.verdaccioConfig)
          else
            var cfg := Config(old(fields)[ConfigFile], old(fields)[HttpAddress], old(fields)[HtpasswdFile], user);
            outcome == Resolved(cfg) && helper.verdaccioConfig == Some(cfg)
    {
      var result := whoami(WHOAMI_PREFIX + fields[HttpAddress]);
      if result.None? {
        outcome := Rejected(WhoAmIFailed);
      } else {
        var user := Trim(result.value);
        fields := fields[Username := user];
        if user == "" {
          outcome := Rejected(EmptyUsername);
        } else {
          var cfg := Config(fields[ConfigFile], fields[HttpAddress], fields[HtpasswdFile], user);
          helper.verdaccioConfig := Some(cfg);
          outcome := Resolved(cfg);
        }
      }
      done := true;
    }
  }

  /**
   * When a chunk makes the completion test hold, no username is present:
   * a stored username is a fourth key, so after a `whoami` answer has been
   * stored the test can never hold again.
   */
  lemma NoUsernameWhenReady(cfg: map<Field, string>, chunk: string, matcher: Matcher)
    requires UsernameLast(cfg)
    requires ReadyForWhoAmI(AbsorbChunk(cfg, chunk, matcher))
    ensures Username !in AbsorbChunk(cfg, chunk, matcher)
  {
    var r := AbsorbChunk(cfg, chunk, matcher);
    AbsorbChunkEffect(cfg, chunk, matcher, Username);
    if Username in cfg {
      AbsorbChunkEffect(cfg, chunk, matcher, ConfigFile);
      AbsorbChunkEffect(cfg, chunk, matcher, HttpAddress);
      AbsorbChunkEffect(cfg, chunk, matcher, HtpasswdFile);
      SubsetCard({ConfigFile, HttpAddress, HtpasswdFile, Username}, r.Keys);
    }
  }

  // ---------------------------------------------------------------------
  // The task queue (run, start, stop)
  // ---------------------------------------------------------------------

  /** A caller of `run`, identified by the model. */
  type TaskId = nat

  /** The side effects the supervisor performs, in order. */
  datatype Effect = Fork | Unblock(task: TaskId) | Kill

  /**
   * The queue part of `VerdaccioHelper`. `taskQueue` holds the callers
   * blocked in `run`; `log` records `fork`, `blockRes()` and `kill` calls.
   * The ghost `arrived` lists every task ever queued and `departed` those that
   * have left the queue (unblocked or dropped), both in order.
   */
  class VerdaccioHelper {
    var verdaccioConfig: Option<Config>
    var taskQueue: seq<TaskId>
    var hasProcess: bool
    /** The module-level `cmdExist`: set once `verdaccio --version` has succeeded (it is never set to false). */
    var cmdExist: bool
    var log: seq<Effect>
    ghost var arrived: seq<TaskId>
    ghost var departed: seq<TaskId>

    /** FIFO: what left the queue, followed by what is still in it, is everything that arrived, in arrival order; callers only queue behind a running server. */
    ghost predicate Valid()
      reads this
    {
      departed + taskQueue == arrived &&
      (hasProcess ==> cmdExist) &&
      (taskQueue != [] ==> cmdExist)
    }

    constructor ()
      ensures Valid()
      ensures verdaccioConfig == None && taskQueue == [] && !hasProcess && !cmdExist && log == []
      ensures arrived == [] && departed == []
    {
      verdaccioConfig := None;
      taskQueue := [];
      hasProcess := false;
      cmdExist := false;
      log := [];
      arrived := [];
      departed := [];
    }

    /**
     * The entry of `getVerdaccioConfig`: a cached configuration is returned
     * at once and nothing runs; without one the caller goes through `run`,
     * queueing behind a running server. The scrape itself is `ConfigScrape`.
     */
    method GetVerdaccioConfig(task: TaskId) returns (cached: Option<Config>, blocked: bool)
      requires Valid()
      modifies this
      ensures Valid()
      ensures cached == old(verdaccioConfig)
      ensures blocked <==> old(verdaccioConfig).None? && old(hasProcess)
      ensures taskQueue == if blocked then old(taskQueue) + [task] else old(taskQueue)
      ensures arrived == if blocked then old(arrived) + [task] else old(arrived)
      ensures departed == old(departed) && log == old(log)
      ensures hasProcess == old(hasProcess) && cmdExist == old(cmdExist) && verdaccioConfig == old(verdaccioConfig)
    {
      cached := verdaccioConfig;
      blocked := false;
      if cached.None? {
        blocked := Run(task);
      }
    }

    /** The start of `run`: while a server process exists the caller is appended to the queue and blocks. */
    method Run(task: TaskId) returns (blocked: bool)
      requires Valid()
      modifies this
      ensures Valid()
      ensures blocked == old(hasProcess)
      ensures taskQueue == if blocked then old(taskQueue) + [task] else old(taskQueue)
      ensures arrived == if blocked then old(arrived) + [task] else old(arrived)
      ensures departed == old(departed) && log == old(log)
      ensures hasProcess == old(hasProcess) && cmdExist == old(cmdExist) && verdaccioConfig == old(verdaccioConfig)
    {
      blocked := hasProcess;
      if blocked {
        taskQueue := taskQueue + [task];
        arrived := arrived + [task];
      }
    }

    /**
     * `start` when `verdaccio --version` fails on the first check: only the
     * head of the queue is unblocked, the queue is dropped and the process
     * handle cleared. The branch is taken only while `cmdExist` is unset, and
     * then the queue is always empty: callers queue only behind a process,
     * and a process exists only after the check passed.
     */
    method StartToolMissing()
      requires Valid()
      modifies this
      ensures Valid()
      ensures !old(cmdExist) ==> old(taskQueue) == []
      ensures log == old(log) + (if old(taskQueue) != [] then [Unblock(old(taskQueue)[0])] else [])
      ensures taskQueue == [] && !hasProcess
      ensures departed == old(departed) + old(taskQueue) && arrived == old(arrived)
      ensures cmdExist == old(cmdExist) && verdaccioConfig == old(verdaccioConfig)
    {
      if taskQueue != [] {
        log := log + [Unblock(taskQueue[0])];
      }
      departed := departed + taskQueue;
      taskQueue := [];
      hasProcess := false;
    }

    /**
     * `start` once the tool is known to exist: the flag is cached and a server
     * process is forked unless one is already running.
     */
    method StartWithTool()
      requires Valid()
      modifies this
      ensures Valid()
      ensures cmdExist && hasProcess
      ensures log == old(log) + (if old(hasProcess) then [] else [Fork])
      ensures taskQueue == old(taskQueue) && arrived == old(arrived) && departed == old(departed)
      ensures verdaccioConfig == old(verdaccioConfig)
    {
      cmdExist := true;
      if !hasProcess {
        hasProcess := true;
        log := log + [Fork];
      }
    }

    /** `stop`: kill the server process if there is one. */
    method Stop()
      modifies this
      ensures log == old(log) + (if hasProcess then [Kill] else [])
      ensures taskQueue == old(taskQueue) && hasProcess == old(hasProcess) && cmdExist == old(cmdExist)
      ensures arrived == old(arrived) && departed == old(departed) && verdaccioConfig == old(verdaccioConfig)
    {
      if hasProcess {
        log := log + [Kill];
      }
    }

    /**
     * The end of `run`, after `start` settled. When it resolved, the oldest
     * waiting caller is shifted off the queue and unblocked; with nobody
     * waiting, `stop` is called unless the caller asked to continue. When it
     * rejected, `run` throws and the queue is left as it is.
     */
    method Finish(resolved: bool, continued: bool)
      requires Valid()
      modifies this
      ensures Valid()
      ensures resolved && old(taskQueue) != [] ==>
        taskQueue == old(taskQueue)[1..] && departed == old(departed) + [old(taskQueue)[0]] &&
        log == old(log) + [Unblock(old(taskQueue)[0])]
      ensures resolved && old(taskQueue) == [] ==>
        taskQueue == [] && departed == old(departed) &&
        log == old(log) + (if !continued && hasProcess then [Kill] else [])
      ensures !resolved ==> taskQueue == old(taskQueue) && departed == old(departed) && log == old(log)
      ensures hasProcess == old(hasProcess) && cmdExist == old(cmdExist) && arrived == old(arrived)
      ensures verdaccioConfig == old(verdaccioConfig)
    {
      if resolved {
        if taskQueue != [] {
          var head := taskQueue[0];
          taskQueue := taskQueue[1..];
          departed := departed + [head];
          log := log + [Unblock(head)];
        } else if !continued {
          Stop();
        }
      }
    }

    /** The `close` handler: the process handle is cleared; queued callers stay queued. */
    method Closed()
      requires Valid()
      modifies this
      ensures Valid()
      ensures !hasProcess
      ensures taskQueue == old(taskQueue) && log == old(log) && cmdExist == old(cmdExist)
      ensures arrived == old(arrived) && departed == old(departed) && verdaccioConfig == old(verdaccioConfig)
    {
      hasProcess := false;
    }
  }

  /**
   * Three callers A, B, C arrive while no server runs: A forks the server,
   * B and C queue behind it, and each finished task unblocks the next in
   * arrival order; after C the server is stopped.
   */
  method ThreeCallersInOrder(a: TaskId, b: TaskId, c: TaskId) returns (h: VerdaccioHelper)
    ensures h.Valid()
    ensures h.log == [Fork, Unblock(b), Unblock(c), Kill]
    ensures h.taskQueue == [] && h.departed == [b, c]
  {
    h := ThreeArrive(a, b, c);
    h.Finish(true, false);
    assert h.taskQueue == [c] && h.departed == [b] && h.log == [Fork, Unblock(b)];
    h.StartWithTool();
    h.Finish(true, false);
    assert h.taskQueue == [] && h.departed == [b, c] && h.log == [Fork, Unblock(b), Unblock(c)];
    h.StartWithTool();
    h.Finish(true, false);
  }

  /**
   * A first `getVerdaccioConfig` finds no cache and starts the server; one
   * chunk is scraped. A second call returns the cached configuration exactly
   * when the scrape resolved, and nothing is forked or queued for it; when
   * the scrape is still pending, the second caller queues behind the server.
   */
  method SecondCallUsesCache(chunk: string, matcher: Matcher, whoami: WhoAmI, a: TaskId, b: TaskId)
    returns (outcome: ChunkOutcome, first: Option<Config>, second: Option<Config>, h: VerdaccioHelper)
    ensures h.Valid() && first == None && h.log == [Fork]
    ensures outcome.Resolved? <==> second.Some?
    ensures outcome.Resolved? ==> second == Some(outcome.config) && h.taskQueue == []
    ensures outcome.Pending? ==> h.taskQueue == [b]
  {
    h := new VerdaccioHelper();
    var blockedA;
    first, blockedA := h.GetVerdaccioConfig(a);
    h.StartWithTool();
    var scrape := new ConfigScrape();
    outcome := scrape.OnChunk(chunk, matcher, whoami, h);
    var blockedB;
    second, blockedB := h.GetVerdaccioConfig(b);
  }

  /** A forks the server while B and C queue behind it. */
  method ThreeArrive(a: TaskId, b: TaskId, c: TaskId) returns (h: VerdaccioHelper)
    ensures fresh(h) && h.Valid() && h.hasProcess && h.cmdExist
    ensures h.log == [Fork] && h.taskQueue == [b, c] && h.departed == []
  {
    h := new VerdaccioHelper();
    var blockedA := h.Run(a);
    h.StartWithTool();
    var blockedB := h.Run(b);
    var blockedC := h.Run(c);
  }
}
