# chopsticks-web dashboard: the search, table and settings logic in Dafny

This project models the logic of the chopsticks-web dashboard, a React front end
for inspecting and dry-running Substrate chains, and proves properties about it.
It covers the algorithms and data shaping behind the panels. Rendering, RPC traffic and the
foreign decoders are not modelled. The modelled parts are:

- **Storage-key change finder.** Two binary searches over block heights: the block where a storage key
  took its current value, and the block whose little-endian value is nearest a
  target number (`StorageKeyChangeFinder`).
- **Find block by date.** A binary search for the first block at or after a
  timestamp, plus the days/hours/minutes warning (`FindBlockByDate`).
- **Snowbridge inbound search.** Recursive bisection that collects the change points of
  an inbound-queue nonce that it reaches within a block window, or within a nonce window.
  An interval whose ends hold the same nonce is not searched further, so a change that is
  reverted inside such an interval is not reported. Results are pushed
  into a shared list that is re-sorted after each push (`SnowbridgeInboundSubmit`).
- **Metadata explorer.** Type naming that threads one shared `seen` set
  through sibling calls, and type resolution that copies the set per branch
  (`ViewMetadata`).
- **Collator and validator tables.** How their rows are built (`CollatorTable`, `ValidatorTable`).
- **Block replay.** The runtime-call list and the wasm override dump (`ReplayBlock`).
- **Settings.** The built-in endpoints, autocomplete options, the endpoint rule, the
  reconnect decision, the start-up endpoint and the local port scan (`Settings`).
- **Shell.** The panel list and the open-panel bookkeeping (`App`).

Shared modules:
- `Wrappers` is `Option`.
- `Text` covers prefixes, `join` and decimal printing.
- `Hex` covers the lower-case hex dump, its decoding, little-endian numbers and the nonce decode.
- `Chain` covers storage read as a fixed function of the height.

Where the source changes state step by step, the model is imperative:
- `while` loops with invariants for the bisections, the collator row loops and the port scan;
- classes with `modifies` clauses for the Snowbridge result list (`ChangeSearch`), the
  metadata namer's shared set (`TypeNamer`), the endpoint array (`EndpointList`), the
  connection (`Connection`) and the dashboard's open panels (`Dashboard`).

Each method is proved against a specification function. That function's properties
are lemmas.

## Model

| member | source | states |
|---|---|---|
| Text.NatToString | src/CollatorTable.tsx:43 | `paraId.toString()` is a non-empty string of decimal digits, one digit exactly for numbers below ten |
| Text.NatToStringInjective | src/CollatorTable.tsx:43 | different numbers print differently |
| Hex.ByteHex | src/ReplayBlock.tsx:189 | `b.toString(16).padStart(2,'0')` is the high nibble digit then the low nibble digit |
| Hex.HexBody | src/ReplayBlock.tsx:188-190 | the dump of n bytes has 2n hex digits |
| Hex.ToHex | src/ReplayBlock.tsx:186-190 | `'0x' + ...join('')` is well-formed hex of length 2 + 2n |
| Hex.DecodeToHex | src/ReplayBlock.tsx:186-190 | decoding the hex dump gives back the bytes (round trip) |
| Hex.ToHexInjective | src/ReplayBlock.tsx:186-190 | two byte strings with the same dump are equal |
| Hex.HeadNonceAgrees | src/SnowbridgeInboundSubmit.tsx:143 | the current-nonce decode `hex.slice(0, 18)` reads the same number as the per-block decode of line 174 |
| Hex.NonceBound | src/SnowbridgeInboundSubmit.tsx:174 | a nonce read from the first 16 hex digits is below 2^64 |
| Hex.NonceOfToHex | src/SnowbridgeInboundSubmit.tsx:172-174 | the nonce of a stored value is the little-endian number in its first eight bytes |
| Hex.HexKeyOfToHex | src/StorageKeyChangeFinder.tsx:49 | the key rule accepts a hex dump exactly when it has at least one byte ("0x" alone is refused) |
| Chain.ReadHex | src/StorageKeyChangeFinder.tsx:66 | a storage read is well-formed hex, "0x" when the key is unset |
| Chain.ReadNumberOfStorage | src/StorageKeyChangeFinder.tsx:133-134 | the number read at a height is the little-endian value of the stored bytes, 0 when unset |
| Chain.BisectionStep | src/StorageKeyChangeFinder.tsx:88-89 | halving at `(low + high) >> 1` keeps the logarithmic read budget whichever half is kept |
| StorageKeyChangeFinder.FindChange | src/StorageKeyChangeFinder.tsx:48-117 | invalid key is an error; equal genesis and head values give block 0 and no previous block; otherwise the found block holds the head value and its predecessor does not; with a value that settles once it is the first such block; log2(head) probes |
| StorageKeyChangeFinder.FindNumber | src/StorageKeyChangeFinder.tsx:119-188 | invalid key is an error; targets at or above the head value give the head, at or below genesis give block 0; otherwise the final pair brackets the target and the nearer block is shown (ties to the lower, shown without a previous block); the value shown is the chosen block's own, the corrected `Pick` of the Findings row, not line 182 as written; with non-decreasing values `high` is the first block reaching the target |
| StorageKeyChangeFinder.PickAsWritten | src/StorageKeyChangeFinder.tsx:172-182 | the final pick as written: the nearer block is chosen, but the value shown is always `high`'s |
| StorageKeyChangeFinder.Pick | src/StorageKeyChangeFinder.tsx:172-182 | the corrected final pick: the nearer of `low` and `high` (ties to `low`), shown with its own value, with `low` as previous block exactly when `high` is chosen |
| StorageKeyChangeFinder.PickIsNearest | src/StorageKeyChangeFinder.tsx:172-182 | when the loop stops with adjacent blocks bracketing the target, the pick is the nearer block, with the previous block and the values as the panel shows them |
| StorageKeyChangeFinder.BelowTarget | src/StorageKeyChangeFinder.tsx:156-170 | with non-decreasing values every block below `high` holds less than the target |
| StorageKeyChangeFinder.ShownValueMismatch | src/StorageKeyChangeFinder.tsx:182 | values 1 and 3 at blocks 0 and 1 with target 2: block 0 is chosen but block 1's value is shown; the corrected pick shows block 0's |
| FindBlockByDate.ToMillis | src/FindBlockByDate.tsx:60 | numbers below 1e11 are seconds and are multiplied by 1000; larger ones are already milliseconds |
| FindBlockByDate.FindBlock | src/FindBlockByDate.tsx:69-121 | no target is an error; targets at or above the head timestamp give the head, at or below genesis give block 0; otherwise the found block is the one just after the last block before the target, with its own timestamp, within log2(head) + 4 reads; with non-decreasing timestamps it is the first block reaching the target |
| FindBlockByDate.SplitDuration | src/FindBlockByDate.tsx:129-131 | hours < 24, minutes < 60, and days, hours and minutes add up to the difference truncated to whole minutes |
| FindBlockByDate.WarningBreakdown | src/FindBlockByDate.tsx:125-137 | a warning appears exactly when the gap exceeds a minute; "after" exactly when the block is later; its parts are 1 to 3 non-zero amounts in days-hours-minutes order and sum to within a minute of the gap |
| FindBlockByDate.DropZeroParts | src/FindBlockByDate.tsx:133-135 | dropping zero parts does not change the total the parts stand for |
| SnowbridgeInboundSubmit.InsertByBlock | src/SnowbridgeInboundSubmit.tsx:237-238 | pushing then sorting keeps exactly the old items plus the new one (as multisets) |
| SnowbridgeInboundSubmit.SortByBlock | src/SnowbridgeInboundSubmit.tsx:249 | `sort((a, b) => b.block - a.block)` is a permutation |
| SnowbridgeInboundSubmit.InsertKeepsDescending | src/SnowbridgeInboundSubmit.tsx:237-238 | inserting into a list sorted by descending block keeps it sorted |
| SnowbridgeInboundSubmit.SortDescending | src/SnowbridgeInboundSubmit.tsx:249 | the sort leaves blocks in descending order |
| SnowbridgeInboundSubmit.InsertSmallest | src/SnowbridgeInboundSubmit.tsx:237-238 | an item below every listed block lands at the end |
| SnowbridgeInboundSubmit.SortSorted | src/SnowbridgeInboundSubmit.tsx:302 | sorting an already descending list changes nothing |
| SnowbridgeInboundSubmit.ChangesOrdered | src/SnowbridgeInboundSubmit.tsx:233-246 | the changes `walk` finds in (low, high] are in strictly descending block order and lie inside the window |
| SnowbridgeInboundSubmit.ChangesSound | src/SnowbridgeInboundSubmit.tsx:233-246 | every reported block is a change point, reported with the nonce stored there |
| SnowbridgeInboundSubmit.ChangesNonEmpty | src/SnowbridgeInboundSubmit.tsx:234-241 | when the two ends differ at least one change is reported |
| SnowbridgeInboundSubmit.SingleChangeFound | src/SnowbridgeInboundSubmit.tsx:233-246 | when exactly one block in the window changes the value, that block alone is reported |
| SnowbridgeInboundSubmit.SameValueBetween | src/SnowbridgeInboundSubmit.tsx:234 | without change points in between, the two ends hold the same value |
| SnowbridgeInboundSubmit.RevertMissed | src/SnowbridgeInboundSubmit.tsx:234 | a value that changes and changes back inside a window is not reported (equal ends prune it) |
| SnowbridgeInboundSubmit.NonceChangesOrdered | src/SnowbridgeInboundSubmit.tsx:262-297 | the nonce-mode changes are in strictly descending block order inside the window |
| SnowbridgeInboundSubmit.NonceChangesSound | src/SnowbridgeInboundSubmit.tsx:262-297 | every nonce-mode report is a change point whose nonce lies above the lower bound and whose ends passed both prunes |
| SnowbridgeInboundSubmit.ChangeSearch.constructor | src/SnowbridgeInboundSubmit.tsx:229 | the shared result list starts empty |
| SnowbridgeInboundSubmit.ChangeSearch.Push | src/SnowbridgeInboundSubmit.tsx:237-238 | push then re-sort appends an item below every listed block at the end and keeps the list strictly descending |
| SnowbridgeInboundSubmit.ChangeSearch.Walk | src/SnowbridgeInboundSubmit.tsx:233-246 | `walk(low, high)` appends exactly the window's changes to the shared list and keeps it strictly descending |
| SnowbridgeInboundSubmit.ChangeSearch.WalkNonce | src/SnowbridgeInboundSubmit.tsx:262-297 | `walkNonce(low, high)` appends exactly the window's nonce-mode changes and keeps the list strictly descending |
| SnowbridgeInboundSubmit.FindAllChanges | src/SnowbridgeInboundSubmit.tsx:211-304 | no channel is an error; number mode without a loaded nonce is an error; change mode reports the change points the bisection reaches in the last 10000 blocks, number mode those with nonces in the window `[current - 5, current]`; every result is strictly descending |
| SnowbridgeInboundSubmit.CurrentNonce | src/SnowbridgeInboundSubmit.tsx:138-144 | the current nonce is the head value's first eight bytes, little-endian, below 2^64 |
| ViewMetadata.TypeName | src/ViewMetadata.tsx:97-112 | a seen id prints as `Recursive#id` and leaves the set alone; an unseen unregistered id fails; otherwise the id joins the set and a non-empty registry name wins over the joined path; the set only grows within the registry's ids |
| ViewMetadata.AnonymousTypeName | src/ViewMetadata.tsx:109-111 | with neither a registry name nor a path, the name is the anonymous rendering of the definition, started with the id already in the set |
| ViewMetadata.AnonName | src/ViewMetadata.tsx:62-94 | the anonymous rendering only grows the shared set within the registry's ids |
| ViewMetadata.AnonNameForms | src/ViewMetadata.tsx:62-93 | a composite renders as `{ a: T; _: U }`, a variant type as `enum { … }` with its entries separated by a vertical bar, then `Vec<T>`, `[ T; n ]`, `(T, U)` and `Compact<T>` around the children's names, a non-empty primitive as itself, anything else as its JSON text; a child that fails fails the rendering |
| ViewMetadata.FieldLabel | src/ViewMetadata.tsx:65 | a missing or empty field name shows as `_`, any other as itself |
| ViewMetadata.FieldEntries | src/ViewMetadata.tsx:65 | each field shows as its label, `: ` and its type's name |
| ViewMetadata.UnnamedFieldExample | src/ViewMetadata.tsx:64-66 | a composite with one unnamed `u8` field renders as `{ _: u8 }` |
| ViewMetadata.EnumExample | src/ViewMetadata.tsx:68-72 | `A(u8)` and a field-less `B` render as the entries `A(u8)` and `B`, joined by a vertical bar between `enum { ` and ` }` |
| ViewMetadata.ArrayExample | src/ViewMetadata.tsx:78-80 | an array of four `u8` renders as `[ u8; 4 ]` |
| ViewMetadata.TypeNames | src/ViewMetadata.tsx:83 | naming a list gives one name per id, and every listed id ends up in the shared set |
| ViewMetadata.VariantNames | src/ViewMetadata.tsx:69-71 | one entry per variant; the shared set only grows within the registry |
| ViewMetadata.EntryOf | src/ViewMetadata.tsx:70 | a variant without fields shows its bare name, one with fields its name followed by a parenthesised list |
| ViewMetadata.VariantEntries | src/ViewMetadata.tsx:69-71 | every entry of an enum has the form `EntryOf` states for its own variant |
| ViewMetadata.RepeatIsMarker | src/ViewMetadata.tsx:98-99 | an id already seen, or repeated earlier in the same list, prints as `Recursive#id` |
| ViewMetadata.TupleRepeatShowsMarker | src/ViewMetadata.tsx:83 | the tuple `(u8, u8)` prints as `(u8, Recursive#1)` because siblings share the set |
| ViewMetadata.TypeNameTotal | src/ViewMetadata.tsx:97-112 | on a closed registry naming succeeds exactly for seen or registered ids |
| ViewMetadata.AnonNameTotal | src/ViewMetadata.tsx:62-94 | on a closed registry every definition can be rendered |
| ViewMetadata.TypeNamesTotal | src/ViewMetadata.tsx:83 | on a closed registry a list of registered ids can be named |
| ViewMetadata.VariantNamesTotal | src/ViewMetadata.tsx:69-71 | on a closed registry every enum can be rendered |
| ViewMetadata.Resolve | src/ViewMetadata.tsx:114-173 | resolution keeps the id; a node is cut to `Recursive#id` with empty path exactly when its id is an ancestor, and its children follow the same rule with the node added |
| ViewMetadata.ResolveDef | src/ViewMetadata.tsx:126-165 | a resolved definition keeps the shape of the registry's definition and obeys the cut rule |
| ViewMetadata.ResolveAll | src/ViewMetadata.tsx:159 | each element resolves independently from the same set (`new Set(seen)` per branch) |
| ViewMetadata.ResolveFields | src/ViewMetadata.tsx:130-133 | each field keeps its name and resolves its type from the same set |
| ViewMetadata.ResolveVariants | src/ViewMetadata.tsx:140-143 | each variant keeps its name and resolves its fields from the same set |
| ViewMetadata.TupleRepeatResolvesBoth | src/ViewMetadata.tsx:159 | the tuple `(u8, u8)` resolves both elements to `u8`, unlike the name |
| ViewMetadata.ResolveTotal | src/ViewMetadata.tsx:114-173 | on a closed registry resolution succeeds exactly for seen or registered ids |
| ViewMetadata.ResolveDefTotal | src/ViewMetadata.tsx:126-165 | on a closed registry every definition resolves |
| ViewMetadata.ResolveAllTotal | src/ViewMetadata.tsx:159 | on a closed registry a list of registered ids resolves |
| ViewMetadata.ResolveFieldsTotal | src/ViewMetadata.tsx:130-133 | on a closed registry fields with registered types resolve |
| ViewMetadata.ResolveVariantsTotal | src/ViewMetadata.tsx:140-143 | on a closed registry variants with registered field types resolve |
| ViewMetadata.LoadType | src/ViewMetadata.tsx:175-196 | a shown type is registered and carries its id, registry entry and `siName` (the registry's name); its name is the joined path, else `#anon ` and `deriveTypeName(id)`; its definition is `resolveType(id).def`, never cut at the top and of the registry's shape; failures name the id |
| ViewMetadata.AnonymousRegisteredName | src/ViewMetadata.tsx:179-181 | a type with a registry name but no path is shown as `#anon ` followed by that name |
| ViewMetadata.LoadTypeTotal | src/ViewMetadata.tsx:175-196 | on a closed registry a type loads exactly when it is registered |
| ViewMetadata.TypeNamer.constructor | src/ViewMetadata.tsx:97 | a fresh naming starts from the empty set |
| ViewMetadata.TypeNamer.DeriveTypeName | src/ViewMetadata.tsx:97-112 | the in-place naming gives the name of `TypeName` and leaves the set it computes |
| ViewMetadata.TypeNamer.DeriveAnonTypeName | src/ViewMetadata.tsx:62-94 | the in-place rendering agrees with `AnonName` on name and set |
| ViewMetadata.TypeNamer.DeriveWrapped | src/ViewMetadata.tsx:74-88 | naming one child in place and wrapping it agrees with the specified wrapped name and set |
| ViewMetadata.TypeNamer.DeriveAll | src/ViewMetadata.tsx:83 | the left-to-right loop over a list agrees with `TypeNames` on names and set |
| ViewMetadata.TypeNamer.DeriveVariants | src/ViewMetadata.tsx:69-71 | the loop over variants agrees with `VariantNames` |
| ViewMetadata.RenderTypeName | src/ViewMetadata.tsx:181 | `deriveTypeName(id)` with a fresh set yields the specified name, failing exactly when the specification does |
| CollatorTable.MakeRow | src/CollatorTable.tsx:46-52 | a row carries its paraId, address and `paraId-address` key; invulnerable exactly when listed, staking exactly when the candidate set holds the address itself |
| CollatorTable.BuildRows | src/CollatorTable.tsx:41-54 | the nested loops build exactly the specified rows |
| CollatorTable.RowsMembership | src/CollatorTable.tsx:42-53 | a row is listed exactly when it is the row of some registered paraId and one of its addresses |
| CollatorTable.RowsAppend | src/CollatorTable.tsx:42 | the rows of two paraId lists are the rows of each, in order |
| CollatorTable.UnassignedChainNoRows | src/CollatorTable.tsx:44 | a paraId without an entry in the container chains gives no rows |
| CollatorTable.ObjectCandidatesNeverStaking | src/CollatorTable.tsx:38 | when every candidate is a JSON object no row is marked staking |
| CollatorTable.FirstDash | src/CollatorTable.tsx:47 | the first `-` of a key follows the decimal paraId |
| CollatorTable.RowKeyInjective | src/CollatorTable.tsx:47 | different (paraId, address) pairs get different keys |
| CollatorTable.ParaIdOrder | src/CollatorTable.tsx:72 | the column sorter is negative, zero or positive as the paraIds compare |
| ValidatorTable.Rows | src/ValidatorTable.tsx:40-46 | one row per session validator, in order, with the address as key, the two membership flags and the points (0 when absent) |
| ValidatorTable.NoIndividualAllZero | src/ValidatorTable.tsx:37 | without an `individual` map every row has 0 points |
| ValidatorTable.KeysDistinct | src/ValidatorTable.tsx:41 | row keys are distinct exactly when the validators are |
| ValidatorTable.RewardOrder | src/ValidatorTable.tsx:93 | the column sorter compares reward points |
| ReplayBlock.Infos | src/ReplayBlock.tsx:164-167 | one entry per extrinsic with its hex and its id |
| ReplayBlock.Calls | src/ReplayBlock.tsx:195-202 | initialise with the header first, one apply per extrinsic in order, finalise last |
| ReplayBlock.CallsMatchInfos | src/ReplayBlock.tsx:195-202 | the apply calls carry the same hex as the listed extrinsics |
| ReplayBlock.WasmHex | src/ReplayBlock.tsx:186-190 | the override dump is lower-case hex of length 2 + 2n that decodes to the file's bytes |
| ReplayBlock.LowercaseBody | src/ReplayBlock.tsx:189 | the dump has no upper-case letters |
| ReplayBlock.EffectiveWasm | src/ReplayBlock.tsx:184-194 | without an override the parent's wasm runs; with one, its dump |
| ReplayBlock.OverrideInjective | src/ReplayBlock.tsx:184-191 | different override files give different wasm |
| Settings.RewriteScheme | src/Settings.tsx:34 | a leading `https://` or `http://` becomes `wss://`; any other string is unchanged |
| Settings.RewriteIdempotent | src/Settings.tsx:34 | rewriting twice equals rewriting once, and a rewritten HTTP URL passes the endpoint rule |
| Settings.EndpointList.constructor | src/Settings.tsx:8-14 | the module array starts as the five listed endpoints |
| Settings.EndpointList.InsertAtFront | src/Settings.tsx:34 | `splice(0, 0, ...xs)` puts `xs` before the old items |
| Settings.LoadEndpoints | src/Settings.tsx:8-34 | after loading: the four relay URLs, then the three parachain URLs, rewritten, then the original five, each group in order |
| Settings.RewriteHttps | src/Settings.tsx:34 | an `https://` URL becomes the `wss://` URL of the same host, which passes the endpoint rule |
| Settings.BuiltInsValid | src/Settings.tsx:185 | the rewritten URLs are the `wss://` URLs of the same hosts, and every built-in passes `/^wss?:\/\//` |
| Settings.DedupSound | src/Settings.tsx:51-54 | the options repeat nothing and hold exactly the listed strings |
| Settings.DedupPrefix | src/Settings.tsx:51-54 | appending strings keeps the earlier options first, in their order |
| Settings.DedupDistinct | src/Settings.tsx:51-54 | a list without duplicates is unchanged by the `Set` round trip |
| Settings.HostsSeparated | src/Settings.tsx:8-29 | the twelve built-in hosts differ pairwise in length or first letter |
| Settings.BuiltInsDistinct | src/Settings.tsx:8-34 | the twelve built-in endpoints are pairwise different |
| Settings.EndpointOptionsProps | src/Settings.tsx:51-54 | the options start with the built-ins themselves, in their order, include the saved endpoint when non-empty and every found endpoint, and repeat nothing |
| Settings.InitialEndpoint | src/Settings.tsx:158-161 | the URL parameter wins, else the saved endpoint, else the first built-in, which is a valid `wss://` endpoint |
| Settings.Connection.constructor | src/Settings.tsx:42-44 | no api yet, and the saved endpoint as stored |
| Settings.Connection.OnFinish | src/Settings.tsx:111-134 | reconnects exactly when there is no api or the endpoint changed; then it saves the endpoint, disconnects the old api if any and installs the new one; otherwise nothing changes |
| Settings.Responding | src/Settings.tsx:97-99 | the responding ports are exactly the listed ports whose probe succeeds, in order |
| Settings.RespondingAscending | src/Settings.tsx:94-101 | the found ports come out in ascending order |
| Settings.ProbeOne | src/Settings.tsx:97-99 | probing one more port appends its URL exactly when it responds |
| Settings.ScanPorts | src/Settings.tsx:92-101 | the batched loop finds exactly the responding ports' URLs in port order, and the scanned count is the number of ports |
| Settings.ScanFindsResponders | src/Settings.tsx:92-101 | a port is found exactly when it lies in 9900..9999 and responds, and the list is ascending |
| App.KeepPanels | src/App.tsx:65 | the filter keeps exactly the `settings` and `dryrun-preimage` keys |
| App.KeepPanelsAppend | src/App.tsx:65 | the filter distributes over concatenation, so kept keys keep their relative order |
| App.KeepPanelsIdempotent | src/App.tsx:65 | filtering twice is filtering once |
| App.DryRunKeys | src/App.tsx:65-68 | afterwards `dryrun-preimage` is open, only kept panels are open, `settings` is open exactly when it was, and the kept keys come first in order; `dryrun-preimage` is appended only when it was not already open, so it is never open twice from this call |
| App.DryRunKeysIdempotent | src/App.tsx:64-74 | sending a second preimage leaves the open panels as the first did |
| App.Dashboard.constructor | src/App.tsx:21 | only the settings panel is open at first |
| App.Dashboard.OnDryRunPreimage | src/App.tsx:63-75 | the open panels become `DryRunKeys` of the old ones and the preimage is stored |
| App.NormalizeKeys | src/App.tsx:79-81 | a single key becomes a one-element list; a list passes through unchanged |
| App.NormalizeStable | src/App.tsx:79-81 | handing the normalised list back changes nothing |
| App.Dashboard.OnChangeActiveKey | src/App.tsx:79-81 | the open panels become the normalised argument; the preimage is unchanged |
| App.OptionalPanels | src/App.tsx:99-172 | at most one panel per table entry, each showing its content |
| App.OptionalPanelPresence | src/App.tsx:99-172 | with distinct keys, an entry's panel is listed exactly when the api has its pallet |
| App.KeyFromTable | src/App.tsx:99-172 | every listed optional panel comes from an entry whose pallet the api has |
| App.Items | src/App.tsx:83-198 | settings, wasm override and preimages first; then the optional panels; then `dryrun-preimage`, `dryrun-extrinsic`, `dryrun-block`, `state-call` and `console` with their titles; preimages needs an api, the dry-run and state-call panels need an api and a non-empty endpoint |
| App.DryRunKeysListed | src/App.tsx:63-75 | every panel left open by sending a preimage is a listed panel, for any api and endpoint |
| App.PalletPanelsPresence | src/App.tsx:99-172 | for any endpoint, each referenda, fellowship, democracy, council and committee panel is present exactly when the api has its pallet; with no api none is |
| App.NoApiNoPanels | src/App.tsx:99-172 | without an api no optional panel is listed |

## Left out

- RPC and chain access: block hashes, `api.at`, storage reads and the head number are
  modelled as a fixed function of the height and a head read once. The chain growing
  during a search, RPC failures (the `catch` branches) and React state updates
  (progress ranges, loading flags) are not modelled.
- Integer precision: heights, timestamps and nonces are unbounded naturals. The source
  holds nonces as JavaScript numbers (`Number(...)`), which lose precision above 2^53.
- `(low + high) >> 1` is modelled as `(low + high) / 2`. They agree for the heights involved, which are below 2^30.
- The target number and timestamp are taken as already parsed. `Number(raw)`, NaN and floating-point
  timestamps are not modelled, and neither are date picking with moment (`onDateChange`) or `BlockDate`.
- The Snowbridge message decoding in `decodeAt` (ethers event logs, extrinsic search)
  is a foreign decoder. A change item is modelled as its block and nonce. Loading the channel list
  is not modelled.
- Storage decoding with the chopsticks `decodeKey`, `createType`, `decodeExtrinsic` and `runTask` is not modelled.
  The block replay is modelled only up to the list of calls it hands to the runtime and the
  wasm it uses. The "No parent block" error is not modelled.
- The metadata registry's own `getName` naming is modelled as the `name` field of a
  registry entry. A definition the explorer does not recognise is carried with its JSON text as given
  (`JSON.stringify` is not modelled).
- The registry is assumed closed (every referenced id is registered) wherever totality is
  claimed. Without that, a lookup can fail, and the model reports a failure.
- The staking candidates come from the chain as JSON of unknown shape. The model lets each be a
  string or an object. Set membership by reference means an object never matches an address
  (`ObjectCandidatesNeverStaking`).
- The collator authority mapping is fetched but never used for the rows, so it is not an input.
- `nanoid` randomness is modelled as a given function from position to id.
- Port probing: the WebSocket connections, their timeouts and the `Promise.all`
  concurrency are replaced by a fixed probe outcome per port. The progress percentage is not modelled.
- Settings.Connection.OnFinish: the api is modelled as a handle supplied by the caller.
  The interval between disconnecting the old api and the asynchronous `ApiPromise.create`
  finishing is not modelled. Writing the endpoint into the URL parameters, and into local storage at
  start-up, is not modelled.
- App.Items: the panels' children are modelled only as whether each shows its content
  or a spinner. The child components (Preimages, Referenda, Democracy, Collectives,
  DryRun, StateCall, Console) are not part of this model.
- `onConnect` and `onFileSelect` in `App` only store their argument, so they are not modelled.

## Findings

| source | as written | input that shows it | evidently intended | confidence | as-written member | corrected member |
|---|---|---|---|---|---|---|
| src/StorageKeyChangeFinder.tsx:182 | `(chosen === low ? highData2 : highData2).hex`: both branches show `high`'s value | values 1 at block 0 and 3 at block 1, target 2: block 0 is chosen (tie), but the value shown is block 1's | show the chosen block's own value (`lowData` when `low` is chosen) | not executed | StorageKeyChangeFinder.PickAsWritten | StorageKeyChangeFinder.Pick |
