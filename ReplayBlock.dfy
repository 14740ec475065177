/**
 * The block replay panel: the hex list of a block's extrinsics, the runtime calls that
 * re-execute the block on its parent, and the hex dump of an uploaded wasm that
 * overrides the parent's runtime.
 */
module ReplayBlock {
  import opened Wrappers
  import opened Hex

  /** An extrinsic as the block gives it: already a hex string, or an object whose
      `toHex()` is `hex`. */
  datatype Ext = Str(s: string) | Obj(hex: string)

  /** `typeof ext === 'string' ? ext : ext.toHex()`. */
  function ExtHex(e: Ext): string {
    match e
    case Str(s) => s
    case Obj(hex) => hex
  }

  datatype ExtrinsicInfo = ExtrinsicInfo(id: string, hex: string)

  /** `rawExts.map(ext => ({ id: nanoid(), hex }))`; `ids(i)` is the id drawn for the
      i-th extrinsic. */
  function Infos(exts: seq<Ext>, ids: nat -> string): (infos: seq<ExtrinsicInfo>)
    ensures |infos| == |exts|
    ensures forall i :: 0 <= i < |exts| ==> infos[i].hex == ExtHex(exts[i]) && infos[i].id == ids(i)
  {
    seq(|exts|, i requires 0 <= i < |exts| => ExtrinsicInfo(ids(i), ExtHex(exts[i])))
  }

  datatype Call = Call(name: string, args: seq<string>)

  /** The dry run's calls: initialise with the header, apply each extrinsic in block order,
      finalise with no arguments. */
  function Calls(headerHex: string, exts: seq<Ext>): (calls: seq<Call>)
    ensures |calls| == |exts| + 2
    ensures calls[0] == Call("Core_initialize_block", [headerHex])
    ensures calls[|calls| - 1] == Call("BlockBuilder_finalize_block", [])
    ensures forall i :: 0 <= i < |exts| ==> calls[i + 1] == Call("BlockBuilder_apply_extrinsic", [ExtHex(exts[i])])
  {
    [Call("Core_initialize_block", [headerHex])]
      + seq(|exts|, i requires 0 <= i < |exts| => Call("BlockBuilder_apply_extrinsic", [ExtHex(exts[i])]))
      + [Call("BlockBuilder_finalize_block", [])]
  }

  /** The applied extrinsics are exactly the ones listed in the panel, in the same order. */
  lemma CallsMatchInfos(headerHex: string, exts: seq<Ext>, ids: nat -> string)
    ensures var calls, infos := Calls(headerHex, exts), Infos(exts, ids);
      forall i :: 0 <= i < |infos| ==> calls[i + 1].args == [infos[i].hex]
  {
  }

  /** The uploaded wasm's hex dump: "0x" and two lowercase digits per byte; decoding it
      gives back the file's bytes. */
  function WasmHex(wasm: seq<byte>): (s: string)
    ensures IsHex(s) && |s| == 2 + 2 * |wasm|
    ensures forall i :: 2 <= i < |s| ==> !('A' <= s[i] <= 'Z')
    ensures DecodeHex(s) == wasm
  {
    DecodeToHex(wasm);
    LowercaseBody(wasm);
    ToHex(wasm)
  }

  lemma {:induction false} LowercaseBody(bytes: seq<byte>)
    ensures forall i :: 0 <= i < |HexBody(bytes)| ==> !('A' <= HexBody(bytes)[i] <= 'Z')
  {
    if |bytes| > 0 {
      LowercaseBody(bytes[1..]);
      var s := HexBody(bytes);
      assert s == ByteHex(bytes[0]) + HexBody(bytes[1..]);
    }
  }

  /** The runtime the dry run uses: the override's dump when a file is given, the parent's
      own code otherwise. */
  function EffectiveWasm(parentWasm: string, wasmOverride: Option<seq<byte>>): (wasm: string)
    ensures wasmOverride.None? ==> wasm == parentWasm
    ensures wasmOverride.Some? ==> IsHex(wasm) && DecodeHex(wasm) == wasmOverride.value
  {
    if wasmOverride.Some? then WasmHex(wasmOverride.value) else parentWasm
  }

  /** Different files give different overrides. */
  lemma OverrideInjective(parentWasm: string, a: seq<byte>, b: seq<byte>)
    requires EffectiveWasm(parentWasm, Some(a)) == EffectiveWasm(parentWasm, Some(b))
    ensures a == b
  {
    var s := EffectiveWasm(parentWasm, Some(a));
    assert DecodeHex(s) == a;
  }
}
