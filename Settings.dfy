/**
 * The connection settings: the built-in endpoint list, the autocomplete options, the
 * WebSocket endpoint rule, the reconnect decision on submit, the endpoint chosen at
 * start-up, and the scan of local ports for JSON-RPC servers.
 */
module Settings {
  import opened Wrappers
  import opened Text

  // ---------------------------------------------------------------------------
  // The built-in endpoints

  function Wss(host: string): string { "wss://" + host }
  function Https(host: string): string { "https://" + host }

  function WssAll(hosts: seq<string>): (urls: seq<string>)
    ensures |urls| == |hosts| && forall i :: 0 <= i < |hosts| ==> urls[i] == Wss(hosts[i])
  {
    seq(|hosts|, i requires 0 <= i < |hosts| => Wss(hosts[i]))
  }

  function HttpsAll(hosts: seq<string>): (urls: seq<string>)
    ensures |urls| == |hosts| && forall i :: 0 <= i < |hosts| ==> urls[i] == Https(hosts[i])
  {
    seq(|hosts|, i requires 0 <= i < |hosts| => Https(hosts[i]))
  }

  function OriginalHosts(): seq<string> {
    ["rpc.polkadot.io",
     "polkadot-collectives-rpc.polkadot.io",
     "kusama-rpc.polkadot.io",
     "acala-rpc.aca-api.network",
     "karura-rpc.aca-api.network"]
  }

  /** The five endpoints listed in the source, all `wss://`. */
  function OriginalEndpoints(): seq<string> {
    WssAll(OriginalHosts())
  }

  function ParachainHosts(): seq<string> {
    ["stagebox.tanssi-dev.network",
     "fraa-flashbox-rpc.a.stagenet.tanssi.network",
     "dancebox.tanssi-api.network"]
  }

  function RelaychainHosts(): seq<string> {
    ["stagelight.tanssi-dev.network",
     "dancelight.tanssi-api.network",
     "moonlight.tanssi-dev.network",
     "tanssi.tanssi-mainnet.network"]
  }

  /** The parachain and relay-chain RPC URLs, all `https://`. */
  function ParachainUrls(): seq<string> { HttpsAll(ParachainHosts()) }
  function RelaychainUrls(): seq<string> { HttpsAll(RelaychainHosts()) }

  /** `url.replace(/^https?:\/\//, 'wss://')`. */
  function RewriteScheme(url: string): (r: string)
    ensures StartsWith(url, "https://") ==> r == "wss://" + url[8..]
    ensures StartsWith(url, "http://") ==> r == "wss://" + url[7..]
    ensures !StartsWith(url, "https://") && !StartsWith(url, "http://") ==> r == url
  {
    assert StartsWith(url, "https://") ==> url[4] == 's';
    assert StartsWith(url, "http://") ==> url[4] == ':';
    if StartsWith(url, "https://") then "wss://" + url[8..]
    else if StartsWith(url, "http://") then "wss://" + url[7..]
    else url
  }

  /** The endpoint rule `/^wss?:\/\//`. */
  predicate ValidEndpoint(s: string) {
    StartsWith(s, "ws://") || StartsWith(s, "wss://")
  }

  /** Rewriting twice is rewriting once, and a rewritten HTTP URL is a valid endpoint. */
  lemma RewriteIdempotent(url: string)
    ensures RewriteScheme(RewriteScheme(url)) == RewriteScheme(url)
    ensures StartsWith(url, "https://") || StartsWith(url, "http://") ==> ValidEndpoint(RewriteScheme(url))
  {
    var r := RewriteScheme(url);
    if StartsWith(url, "https://") || StartsWith(url, "http://") {
      assert r[..6] == "wss://";
      assert r[0] == 'w';
    }
  }

  function MapRewrite(urls: seq<string>): (r: seq<string>)
    ensures |r| == |urls| && forall i :: 0 <= i < |urls| ==> r[i] == RewriteScheme(urls[i])
  {
    seq(|urls|, i requires 0 <= i < |urls| => RewriteScheme(urls[i]))
  }

  /** The module's endpoint array, which `splice` extends in place once, at load. */
  class EndpointList {
    var items: seq<string>

    constructor (items: seq<string>)
      ensures this.items == items
    {
      this.items := items;
    }

    /** `items.splice(0, 0, ...xs)`. */
    method InsertAtFront(xs: seq<string>)
      modifies this
      ensures items == xs + old(items)
    {
      items := xs + items;
    }
  }

  /** The endpoint list once the module has loaded. */
  function BuiltIns(): seq<string> {
    MapRewrite(RelaychainUrls() + ParachainUrls()) + OriginalEndpoints()
  }

  /** Loading the module: the relay URLs, then the parachain URLs, rewritten to `wss://`,
      then the original five, each group in its own order. */
  method LoadEndpoints() returns (endpoints: seq<string>)
    ensures endpoints == BuiltIns()
    ensures |endpoints| == 12
    ensures forall i :: 0 <= i < 4 ==> endpoints[i] == RewriteScheme(RelaychainUrls()[i])
    ensures forall i :: 0 <= i < 3 ==> endpoints[4 + i] == RewriteScheme(ParachainUrls()[i])
    ensures endpoints[7..] == OriginalEndpoints()
  {
    var list := new EndpointList(OriginalEndpoints());
    list.InsertAtFront(MapRewrite(RelaychainUrls() + ParachainUrls()));
    endpoints := list.items;
  }

  /** An `https://` URL is rewritten to `wss://` on the same host. */
  lemma RewriteHttps(host: string)
    ensures RewriteScheme(Https(host)) == Wss(host)
    ensures ValidEndpoint(Wss(host))
  {
    assert Https(host)[..8] == "https://";
    assert Https(host)[8..] == host;
    assert Wss(host)[..6] == "wss://";
  }

  /** The relay and parachain URLs become `wss://` URLs on the same hosts, so every
      built-in endpoint passes the endpoint rule. */
  lemma BuiltInsValid()
    ensures MapRewrite(RelaychainUrls() + ParachainUrls()) == WssAll(RelaychainHosts() + ParachainHosts())
    ensures forall i :: 0 <= i < |BuiltIns()| ==> ValidEndpoint(BuiltIns()[i])
    ensures BuiltIns()[0] == Wss("stagelight.tanssi-dev.network")
  {
    var hosts := RelaychainHosts() + ParachainHosts();
    var urls := RelaychainUrls() + ParachainUrls();
    assert urls == HttpsAll(hosts);
    forall i | 0 <= i < |hosts| ensures MapRewrite(urls)[i] == WssAll(hosts)[i] {
      RewriteHttps(hosts[i]);
    }
    var all := hosts + OriginalHosts();
    assert BuiltIns() == WssAll(all);
    forall i | 0 <= i < |all| ensures ValidEndpoint(BuiltIns()[i]) {
      RewriteHttps(all[i]);
    }
  }

  // ---------------------------------------------------------------------------
  // Autocomplete options

  /** `Array.from(new Set(xs))`: each string once, at its first occurrence. */
  function Dedup(xs: seq<string>): seq<string> {
    if |xs| == 0 then []
    else
      var init := xs[..|xs| - 1];
      var last := xs[|xs| - 1];
      if last in init then Dedup(init) else Dedup(init) + [last]
  }

  predicate NoDuplicates(xs: seq<string>) {
    forall i, j :: 0 <= i < j < |xs| ==> xs[i] != xs[j]
  }

  /** The options hold each listed string exactly once and nothing else. */
  lemma {:induction false} DedupSound(xs: seq<string>)
    ensures NoDuplicates(Dedup(xs))
    ensures forall s :: s in Dedup(xs) <==> s in xs
  {
    if |xs| > 0 {
      var init := xs[..|xs| - 1];
      DedupSound(init);
      assert xs == init + [xs[|xs| - 1]];
    }
  }

  /** Adding strings at the end keeps the earlier options first, in their order. */
  lemma {:induction false} DedupPrefix(xs: seq<string>, ys: seq<string>)
    ensures Dedup(xs) <= Dedup(xs + ys)
    decreases |ys|
  {
    if |ys| == 0 {
      assert xs + ys == xs;
    } else {
      var init := ys[..|ys| - 1];
      assert (xs + ys)[..|xs + ys| - 1] == xs + init;
      DedupPrefix(xs, init);
    }
  }

  /** A list without duplicates is its own de-duplication. */
  lemma {:induction false} DedupDistinct(xs: seq<string>)
    requires NoDuplicates(xs)
    ensures Dedup(xs) == xs
  {
    if |xs| > 0 {
      var init := xs[..|xs| - 1];
      DedupDistinct(init);
      assert xs == init + [xs[|xs| - 1]];
    }
  }

  /** `endpointOptions`: the built-ins, the saved endpoint when it is non-empty, then the
      endpoints found by the scan, each once. */
  function EndpointOptions(saved: Option<string>, found: seq<string>): seq<string> {
    Dedup(BuiltIns() + (if saved.Some? && saved.value != "" then [saved.value] else []) + found)
  }

  /** Two strings that differ in length or in their first letter differ. */
  predicate Separated(a: string, b: string) {
    |a| != |b| || (|a| > 0 && |b| > 0 && a[0] != b[0])
  }

  /** The twelve hosts differ pairwise in length or in their first letter. */
  lemma HostsSeparated()
    ensures var all := RelaychainHosts() + ParachainHosts() + OriginalHosts();
      forall i, j :: 0 <= i < j < |all| ==> Separated(all[i], all[j])
  {
    var all := RelaychainHosts() + ParachainHosts() + OriginalHosts();
    assert |all| == 12;
    assert |all[0]| == 29 && all[0][0] == 's';
    assert |all[1]| == 29 && all[1][0] == 'd';
    assert |all[2]| == 28;
    assert |all[3]| == 29 && all[3][0] == 't';
    assert |all[4]| == 27 && all[4][0] == 's';
    assert |all[5]| == 43;
    assert |all[6]| == 27 && all[6][0] == 'd';
    assert |all[7]| == 15;
    assert |all[8]| == 36;
    assert |all[9]| == 22;
    assert |all[10]| == 25;
    assert |all[11]| == 26;
  }

  /** The twelve built-in endpoints are pairwise different. */
  lemma BuiltInsDistinct()
    ensures NoDuplicates(BuiltIns())
  {
    BuiltInsValid();
    HostsSeparated();
    var all := RelaychainHosts() + ParachainHosts() + OriginalHosts();
    assert BuiltIns() == WssAll(all);
    forall i, j | 0 <= i < j < |all| ensures BuiltIns()[i] != BuiltIns()[j] {
      assert Separated(all[i], all[j]);
      assert Wss(all[i])[6..] == all[i] && Wss(all[j])[6..] == all[j];
    }
  }

  /** The options start with the built-ins, contain the saved endpoint and every found one,
      and repeat nothing. */
  lemma EndpointOptionsProps(saved: Option<string>, found: seq<string>)
    ensures BuiltIns() <= EndpointOptions(saved, found)
    ensures forall s :: s in BuiltIns() ==> s in EndpointOptions(saved, found)
    ensures NoDuplicates(EndpointOptions(saved, found))
    ensures saved.Some? && saved.value != "" ==> saved.value in EndpointOptions(saved, found)
    ensures forall s :: s in found ==> s in EndpointOptions(saved, found)
  {
    var extra := (if saved.Some? && saved.value != "" then [saved.value] else []) + found;
    var all := BuiltIns() + (if saved.Some? && saved.value != "" then [saved.value] else []) + found;
    assert all == BuiltIns() + extra;
    DedupPrefix(BuiltIns(), extra);
    BuiltInsDistinct();
    DedupDistinct(BuiltIns());
    DedupSound(all);
  }

  // ---------------------------------------------------------------------------
  // Start-up and submit

  /** The endpoint connected at start-up: the URL parameter, else the saved endpoint, else
      the first built-in. */
  function InitialEndpoint(param: Option<string>, saved: Option<string>): (e: string)
    ensures param.Some? ==> e == param.value
    ensures param.None? && saved.Some? ==> e == saved.value
    ensures param.None? && saved.None? ==> e == Wss("stagelight.tanssi-dev.network") && ValidEndpoint(e)
  {
    if param.Some? then param.value
    else if saved.Some? then saved.value
    else
      BuiltInsValid();
      BuiltIns()[0]
  }

  /** The connection state `onFinish` reads and updates: the current api (a handle), the
      saved endpoint, and the apis it has disconnected so far. */
  class Connection {
    var api: Option<nat>
    var endpoint: Option<string>
    ghost var disconnected: seq<nat>

    constructor (endpoint: Option<string>)
      ensures api.None? && this.endpoint == endpoint && disconnected == []
    {
      api := None;
      this.endpoint := endpoint;
      disconnected := [];
    }

    /**
     * `onFinish({ endpoint: newEndpoint })`, with `newApi` the api that connecting
     * creates. It reconnects exactly when there is no api yet or the endpoint changed;
     * then the old api, if any, is disconnected, the endpoint saved and the new api
     * installed. Otherwise nothing changes.
     */
    method OnFinish(newEndpoint: string, newApi: nat) returns (reconnect: bool)
      modifies this
      ensures reconnect <==> old(api).None? || old(endpoint) != Some(newEndpoint)
      ensures !reconnect ==> api == old(api) && endpoint == old(endpoint) && disconnected == old(disconnected)
      ensures reconnect ==> endpoint == Some(newEndpoint) && api == Some(newApi)
      ensures reconnect ==> disconnected == old(disconnected) + (if old(api).Some? then [old(api).value] else [])
    {
      reconnect := api.None? || endpoint != Some(newEndpoint);
      if !reconnect {
        return;
      }
      endpoint := Some(newEndpoint);
      if api.Some? {
        disconnected := disconnected + [api.value];
        api := None;
      }
      api := Some(newApi);
    }
  }

  // ---------------------------------------------------------------------------
  // Local port scan

  const FirstPort: nat := 9900
  const PortCount: nat := 100
  const Concurrency: nat := 100

  function PortUrl(port: nat): string {
    "ws://127.0.0.1:" + NatToString(port)
  }

  /** The ports answering as JSON-RPC servers among `ports`, in order. */
  function Responding(ports: seq<nat>, isRpc: nat -> bool): (r: seq<nat>)
    ensures forall p :: p in r <==> p in ports && isRpc(p)
  {
    if |ports| == 0 then []
    else
      var init := Responding(ports[..|ports| - 1], isRpc);
      var last := ports[|ports| - 1];
      assert ports == ports[..|ports| - 1] + [last];
      if isRpc(last) then init + [last] else init
  }

  function Urls(ports: seq<nat>): (urls: seq<string>)
    ensures |urls| == |ports| && forall i :: 0 <= i < |ports| ==> urls[i] == PortUrl(ports[i])
  {
    seq(|ports|, i requires 0 <= i < |ports| => PortUrl(ports[i]))
  }

  function PortRange(from: nat, count: nat): (ports: seq<nat>)
    ensures |ports| == count && forall i :: 0 <= i < count ==> ports[i] == from + i
  {
    seq(count, i requires 0 <= i < count => from + i)
  }

  predicate Ascending(ports: seq<nat>) {
    forall i, j :: 0 <= i < j < |ports| ==> ports[i] < ports[j]
  }

  /** The responding ports are listed in ascending order. */
  lemma {:induction false} RespondingAscending(ports: seq<nat>, isRpc: nat -> bool)
    requires Ascending(ports)
    ensures Ascending(Responding(ports, isRpc))
  {
    if |ports| > 0 {
      var init := ports[..|ports| - 1];
      RespondingAscending(init, isRpc);
      var last := ports[|ports| - 1];
      var r0 := Responding(init, isRpc);
      forall p | p in r0 ensures p < last {
        var k :| 0 <= k < |init| && init[k] == p;
      }
      if isRpc(last) {
        var r := Responding(ports, isRpc);
        assert r == r0 + [last];
        forall i, j | 0 <= i < j < |r| ensures r[i] < r[j] {
          if j == |r0| {
            assert r[j] == last;
            assert r[i] == r0[i];
            assert r[i] in r0;
          } else {
            assert r[i] == r0[i] && r[j] == r0[j];
          }
        }
      }
    }
  }

  /** Probing one more port adds its URL exactly when it responds. */
  lemma ProbeOne(probed: seq<nat>, p: nat, isRpc: nat -> bool)
    ensures Urls(Responding(probed + [p], isRpc))
      == Urls(Responding(probed, isRpc)) + (if isRpc(p) then [PortUrl(p)] else [])
  {
    var all := probed + [p];
    assert all[..|all| - 1] == probed;
  }

  /**
   * `scanLocalPorts`, with `isRpc(p)` the outcome of probing port `p`: ports 9900 to 9999
   * in batches of `Concurrency`. The found endpoints are the responding ports' URLs in
   * ascending port order, and the scanned count is the number of ports probed.
   */
  method ScanPorts(isRpc: nat -> bool) returns (found: seq<string>, scanned: nat)
    ensures found == Urls(Responding(PortRange(FirstPort, PortCount), isRpc))
    ensures scanned == PortCount
  {
    var ports := PortRange(FirstPort, PortCount);
    found := [];
    scanned := 0;
    var i := 0;
    while i < |ports|
      invariant 0 <= i <= |ports|
      invariant found == Urls(Responding(ports[..i], isRpc))
      invariant scanned == i
    {
      var end := if i + Concurrency <= |ports| then i + Concurrency else |ports|;
      var slice := ports[i..end];
      var idx := 0;
      assert ports[..i] + slice[..0] == ports[..i];
      while idx < |slice|
        invariant 0 <= idx <= |slice|
        invariant found == Urls(Responding(ports[..i] + slice[..idx], isRpc))
      {
        assert (ports[..i] + slice[..idx + 1]) == (ports[..i] + slice[..idx]) + [slice[idx]];
        ProbeOne(ports[..i] + slice[..idx], slice[idx], isRpc);
        if isRpc(slice[idx]) {
          found := found + [PortUrl(slice[idx])];
        }
        idx := idx + 1;
      }
      assert ports[..i] + slice[..idx] == ports[..end];
      scanned := scanned + |slice|;
      i := end;
    }
    assert ports[..i] == ports;
  }

  /** Only responding ports are reported, each once and in ascending order. */
  lemma ScanFindsResponders(isRpc: nat -> bool)
    ensures var r := Responding(PortRange(FirstPort, PortCount), isRpc);
      && (forall p :: p in r <==> FirstPort <= p < FirstPort + PortCount && isRpc(p))
      && Ascending(r)
  {
    var ports := PortRange(FirstPort, PortCount);
    forall p ensures p in ports <==> FirstPort <= p < FirstPort + PortCount {
      if FirstPort <= p < FirstPort + PortCount {
        assert ports[p - FirstPort] == p;
      }
    }
    RespondingAscending(ports, isRpc);
  }
}
