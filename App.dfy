/**
 * The dashboard shell: which collapsible panels exist for the connected chain, which of
 * them are open, and how sending a preimage to the dry-run panel changes the open set.
 */
module App {
  import opened Wrappers

  const SettingsKey := "settings"
  const DryRunPreimageKey := "dryrun-preimage"

  /** The panels kept open when a preimage is sent to the dry-run panel. */
  predicate KeptOnDryRun(key: string) {
    key == SettingsKey || key == DryRunPreimageKey
  }

  /** `keys.filter(key => key === 'settings' || key === 'dryrun-preimage')`. */
  function KeepPanels(keys: seq<string>): (r: seq<string>)
    ensures forall k :: k in r <==> k in keys && KeptOnDryRun(k)
    ensures |r| <= |keys|
  {
    if |keys| == 0 then []
    else if KeptOnDryRun(keys[0]) then [keys[0]] + KeepPanels(keys[1..])
    else KeepPanels(keys[1..])
  }

  /** Filtering distributes over concatenation, so kept keys keep their relative order. */
  lemma {:induction false} KeepPanelsAppend(a: seq<string>, b: seq<string>)
    ensures KeepPanels(a + b) == KeepPanels(a) + KeepPanels(b)
  {
    if |a| > 0 {
      assert (a + b)[1..] == a[1..] + b;
      KeepPanelsAppend(a[1..], b);
    } else {
      assert a + b == b;
    }
  }

  /** Filtering twice is filtering once. */
  lemma {:induction false} KeepPanelsIdempotent(keys: seq<string>)
    ensures KeepPanels(KeepPanels(keys)) == KeepPanels(keys)
  {
    if |keys| > 0 {
      KeepPanelsIdempotent(keys[1..]);
    }
  }

  /** The open panels after `onDryRunPreimage`: the kept ones, in their order, and the
      dry-run panel appended when it was not already open. */
  function DryRunKeys(keys: seq<string>): (r: seq<string>)
    ensures DryRunPreimageKey in r
    ensures forall k :: k in r ==> KeptOnDryRun(k)
    ensures SettingsKey in r <==> SettingsKey in keys
    ensures KeepPanels(keys) <= r && |r| <= |KeepPanels(keys)| + 1
    ensures DryRunPreimageKey in keys ==> r == KeepPanels(keys)
    ensures DryRunPreimageKey !in keys ==> r == KeepPanels(keys) + [DryRunPreimageKey]
  {
    var kept := KeepPanels(keys);
    if DryRunPreimageKey in kept then kept else kept + [DryRunPreimageKey]
  }

  /** Sending a second preimage leaves the open panels as the first one left them. */
  lemma DryRunKeysIdempotent(keys: seq<string>)
    ensures DryRunKeys(DryRunKeys(keys)) == DryRunKeys(keys)
  {
    var kept := KeepPanels(keys);
    KeepPanelsIdempotent(keys);
    if DryRunPreimageKey !in kept {
      KeepPanelsAppend(kept, [DryRunPreimageKey]);
      assert KeepPanels([DryRunPreimageKey]) == [DryRunPreimageKey];
    }
  }

  /** The argument antd hands `onChange`: one key or a list of keys. */
  datatype ActiveKeyArg = Single(key: string) | Many(keys: seq<string>)

  /** `Array.isArray(k) ? k : [k]`. */
  function NormalizeKeys(arg: ActiveKeyArg): (r: seq<string>)
    ensures arg.Single? ==> r == [arg.key]
    ensures arg.Many? ==> r == arg.keys
  {
    match arg
    case Single(key) => [key]
    case Many(keys) => keys
  }

  /** Handing back the normalised list changes nothing: the list form is a fixed point. */
  lemma NormalizeStable(arg: ActiveKeyArg)
    ensures NormalizeKeys(Many(NormalizeKeys(arg))) == NormalizeKeys(arg)
  {
  }

  /** A pending preimage for the dry-run panel; the origin is carried through as given. */
  datatype Preimage = Preimage(hex: string, origin: Option<string>)

  /** The shell's state: the open panels and the preimage last sent to the dry-run panel. */
  class Dashboard {
    var activeKey: seq<string>
    var preimage: Option<Preimage>

    constructor ()
      ensures activeKey == [SettingsKey] && preimage.None?
    {
      activeKey := [SettingsKey];
      preimage := None;
    }

    /** `onDryRunPreimage(hex, origin)`: filter a copy of the open keys, push the dry-run
        panel when missing, and store the preimage. */
    method OnDryRunPreimage(hex: string, origin: Option<string>)
      modifies this
      ensures activeKey == DryRunKeys(old(activeKey))
      ensures preimage == Some(Preimage(hex, origin))
    {
      var newKeys := KeepPanels(activeKey);
      if DryRunPreimageKey !in newKeys {
        newKeys := newKeys + [DryRunPreimageKey];
      }
      activeKey := newKeys;
      preimage := Some(Preimage(hex, origin));
    }

    /** `onChangeActiveKey(k)`. */
    method OnChangeActiveKey(arg: ActiveKeyArg)
      modifies this
      ensures activeKey == NormalizeKeys(arg) && preimage == old(preimage)
    {
      activeKey := NormalizeKeys(arg);
    }
  }

  // ---------------------------------------------------------------------------
  // The panel list

  /** What the connected api offers: the names of its storage pallets (`api.query.*`). */
  datatype ApiView = ApiView(pallets: set<string>)

  /** A panel: its key, its title, and whether it shows its content rather than a spinner. */
  datatype Panel = Panel(key: string, title: string, loaded: bool)

  /** A panel that exists only when the api has its pallet. */
  datatype PalletPanel = PalletPanel(pallet: string, key: string, title: string)

  function PalletPanels(): seq<PalletPanel> {
    [PalletPanel("referenda", "referenda", "Referenda"),
     PalletPanel("fellowshipReferenda", "fellowship-referenda", "Fellowship Referenda"),
     PalletPanel("democracy", "democracy", "Democracy"),
     PalletPanel("generalCouncil", "general-council", "Council"),
     PalletPanel("council", "council", "Council"),
     PalletPanel("technicalCommittee", "technical-committee", "TechnicalCommittee")]
  }

  predicate HasPallet(api: Option<ApiView>, pallet: string) {
    api.Some? && pallet in api.value.pallets
  }

  /** The spread `...(api?.query.p ? [panel] : [])`, for each optional panel in turn. */
  function OptionalPanels(table: seq<PalletPanel>, api: Option<ApiView>): (r: seq<Panel>)
    ensures |r| <= |table|
    ensures forall p :: p in r ==> p.loaded
  {
    if |table| == 0 then []
    else
      var rest := OptionalPanels(table[1..], api);
      if HasPallet(api, table[0].pallet) then [Panel(table[0].key, table[0].title, true)] + rest
      else rest
  }

  /** The panel for entry `i` is listed exactly when the api has its pallet, provided no
      other entry uses the same key. */
  lemma {:induction false} OptionalPanelPresence(table: seq<PalletPanel>, api: Option<ApiView>, i: nat)
    requires i < |table|
    requires forall j :: 0 <= j < |table| && j != i ==> table[j].key != table[i].key
    ensures (exists p :: p in OptionalPanels(table, api) && p.key == table[i].key) <==> HasPallet(api, table[i].pallet)
  {
    var r := OptionalPanels(table, api);
    if i == 0 {
      if !HasPallet(api, table[0].pallet) {
        forall p | p in r ensures p.key != table[0].key {
          KeyFromTable(table[1..], api, p);
        }
      } else {
        assert r[0] in r;
      }
    } else {
      OptionalPanelPresence(table[1..], api, i - 1);
      var rest := OptionalPanels(table[1..], api);
      if HasPallet(api, table[0].pallet) {
        assert r == [Panel(table[0].key, table[0].title, true)] + rest;
        forall p | p in r && p.key == table[i].key ensures p in rest {
          assert table[0].key != table[i].key;
        }
        if HasPallet(api, table[i].pallet) {
          var p :| p in rest && p.key == table[i].key;
          assert p in r;
        }
      }
    }
  }

  /** Every listed optional panel comes from a table entry whose pallet the api has. */
  lemma {:induction false} KeyFromTable(table: seq<PalletPanel>, api: Option<ApiView>, p: Panel)
    requires p in OptionalPanels(table, api)
    ensures exists j :: 0 <= j < |table| && table[j].key == p.key && HasPallet(api, table[j].pallet)
  {
    if |table| > 0 {
      var rest := OptionalPanels(table[1..], api);
      if p in rest {
        KeyFromTable(table[1..], api, p);
        var j :| 0 <= j < |table[1..]| && table[1..][j].key == p.key && HasPallet(api, table[1..][j].pallet);
        assert table[j + 1] == table[1..][j];
      }
    }
  }

  /** `items`: settings, wasm override and preimages first, then the optional pallet panels
      in table order, then the dry-run, state-call and console panels. Preimages needs an
      api; the dry-run and state-call panels need an api and a non-empty endpoint. */
  function Items(api: Option<ApiView>, endpoint: Option<string>): (r: seq<Panel>)
    ensures |r| == 8 + |OptionalPanels(PalletPanels(), api)|
    ensures r[..3] == [Panel("settings", "Settings", true),
                       Panel("wasm-override", "WasmOptions", true),
                       Panel("preimages", "Preimages", api.Some?)]
    ensures r[3..|r| - 5] == OptionalPanels(PalletPanels(), api)
    ensures var ready := api.Some? && endpoint.Some? && endpoint.value != "";
      r[|r| - 5..] == [Panel(DryRunPreimageKey, "Dry Run Preimage", ready),
                       Panel("dryrun-extrinsic", "Dry Run Extrinsic", ready),
                       Panel("dryrun-block", "Dry Run Block", ready),
                       Panel("state-call", "State Call", ready),
                       Panel("console", "Console", true)]
  {
    var ready := api.Some? && endpoint.Some? && endpoint.value != "";
    var head := [Panel("settings", "Settings", true),
                 Panel("wasm-override", "WasmOptions", true),
                 Panel("preimages", "Preimages", api.Some?)];
    var tail := [Panel(DryRunPreimageKey, "Dry Run Preimage", ready),
                 Panel("dryrun-extrinsic", "Dry Run Extrinsic", ready),
                 Panel("dryrun-block", "Dry Run Block", ready),
                 Panel("state-call", "State Call", ready),
                 Panel("console", "Console", true)];
    var r := head + OptionalPanels(PalletPanels(), api) + tail;
    assert r[|r| - 5..] == tail;
    r
  }

  /** Every panel `onDryRunPreimage` leaves open is a panel of the list, whatever the api
      and endpoint: the settings panel and the dry-run panel are always listed. */
  lemma DryRunKeysListed(keys: seq<string>, api: Option<ApiView>, endpoint: Option<string>)
    ensures forall k :: k in DryRunKeys(keys) ==> exists p :: p in Items(api, endpoint) && p.key == k
  {
    var r := Items(api, endpoint);
    assert r[0].key == SettingsKey && r[0] in r;
    assert r[|r| - 5..][0].key == DryRunPreimageKey && r[|r| - 5] in r;
  }

  /** Each referenda, democracy, council and committee panel is listed exactly when the
      api has its pallet; without an api none of them is. */
  lemma PalletPanelsPresence(api: Option<ApiView>, endpoint: Option<string>, i: nat)
    requires i < |PalletPanels()|
    ensures (exists p :: p in Items(api, endpoint)[3..|Items(api, endpoint)| - 5] && p.key == PalletPanels()[i].key)
      <==> HasPallet(api, PalletPanels()[i].pallet)
    ensures api.None? ==> |Items(api, endpoint)| == 8
  {
    var t := PalletPanels();
    assert |t[0].key| == 9 && |t[1].key| == 20 && |t[2].key| == 9;
    assert |t[3].key| == 15 && |t[4].key| == 7 && |t[5].key| == 19;
    assert t[0].key[0] == 'r' && t[2].key[0] == 'd';
    OptionalPanelPresence(t, api, i);
    if api.None? {
      NoApiNoPanels(t);
    }
  }

  lemma {:induction false} NoApiNoPanels(table: seq<PalletPanel>)
    ensures OptionalPanels(table, None) == []
  {
    if |table| > 0 {
      NoApiNoPanels(table[1..]);
    }
  }
}
