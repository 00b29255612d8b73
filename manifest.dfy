/** `createManifest` of src/Minify.js and the `_.assign` that merges its result
    into `staticAssets`. */
module Manifest {
  import opened AssetModel

  /** A value of the `manifests` dictionary while it is being built. The fixed
      properties (`type`, `mimeType`, ...) are added by `ToAsset`. */
  datatype Manifest = Manifest(
    content: string,
    serviceName: Option<string>,
    buildNumber: Option<string>,
    assetType: Option<string>,
    tag: Option<string>,
    files: seq<FileRecord>)

  /** The `manifests` object: keys in insertion order and their values. */
  datatype Table = Table(order: seq<string>, byKey: map<string, Manifest>)

  /** `createKey(serviceName, buildNumber, tag, type, 'manifest', 'txt')`. */
  function ManifestKey(o: Externals, a: Asset): string {
    o.createKey(a.serviceName, a.buildNumber, a.tag, a.kind, Some("manifest"), Some("txt"))
  }

  /** `path.join(repo || '', basePath || '', asset || '')`: the property read is
      `asset`, not `assetPath`. */
  function RelativePath(o: Externals, a: Asset): string {
    o.join(OrEmpty(a.repo), OrEmpty(a.basePath), OrEmpty(a.asset))
  }

  /** The provenance text one asset adds; no separator follows it. */
  function Line(o: Externals, a: Asset): string
    requires a.content.Some?
  {
    RelativePath(o, a) + ", Hash: " + CreateHash(o, a.content.value) + ", Last commit: " + Str(a.commit)
  }

  /** The element one asset pushes onto `files`. */
  function Record(o: Externals, a: Asset): FileRecord {
    var rel := RelativePath(o, a);
    FileRecord(o.createKey(a.serviceName, a.buildNumber, Some(rel), Some(""), Some("src"), Some("")),
               rel, a.content, a.path, a.kind)
  }

  /** The record created for a key not seen before, from the asset that introduces it. */
  function Fresh(a: Asset): Manifest {
    Manifest("", a.serviceName, a.buildNumber, a.kind, a.tag, [])
  }

  /** One iteration of the `_.forOwn` callback: the asset's manifest gains
      one line and one record at the end, a new manifest key goes last in
      the order, and every other manifest is unchanged. */
  function Step(o: Externals, t: Table, a: Asset): (r: Table)
    requires a.content.Some?
    ensures TableWellFormed(t) ==> TableWellFormed(r)
    ensures var mk := ManifestKey(o, a);
      && mk in r.byKey
      && r.order == (if mk in t.byKey then t.order else t.order + [mk])
      && r.byKey[mk].files == (if mk in t.byKey then t.byKey[mk].files else []) + [Record(o, a)]
      && (forall mk' | mk' != mk :: (mk' in r.byKey <==> mk' in t.byKey))
      && (forall mk' | mk' != mk && mk' in t.byKey :: r.byKey[mk'] == t.byKey[mk'])
  {
    var mk := ManifestKey(o, a);
    var m := if mk in t.byKey then t.byKey[mk] else Fresh(a);
    var m' := m.(content := m.content + Line(o, a), files := m.files + [Record(o, a)]);
    Table(if mk in t.byKey then t.order else t.order + [mk], t.byKey[mk := m'])
  }

  /** `createHash(value.content)` needs every asset to carry content. */
  predicate HasContent(keys: seq<string>, entries: map<string, Asset>) {
    forall k | k in keys :: k in entries && entries[k].content.Some?
  }

  predicate TableWellFormed(t: Table) {
    && Distinct(t.order)
    && (forall mk | mk in t.order :: mk in t.byKey)
    && (forall mk | mk in t.byKey :: mk in t.order)
  }

  /** The `manifests` object after the loop over `keys`. */
  function Manifests(o: Externals, keys: seq<string>, entries: map<string, Asset>): (t: Table)
    requires HasContent(keys, entries)
    ensures TableWellFormed(t)
  {
    if keys == [] then Table([], map[])
    else
      var last := keys[|keys| - 1];
      Step(o, Manifests(o, keys[..|keys| - 1], entries), entries[last])
  }

  /** One more iteration of the `_.forOwn` callback. */
  lemma ManifestsStep(o: Externals, keys: seq<string>, entries: map<string, Asset>, i: nat)
    requires HasContent(keys, entries) && i < |keys|
    ensures HasContent(keys[..i], entries) && HasContent(keys[..i + 1], entries)
    ensures Manifests(o, keys[..i + 1], entries) == Step(o, Manifests(o, keys[..i], entries), entries[keys[i]])
  {
    assert keys[..i + 1][..i] == keys[..i];
    assert keys[..i + 1][i] == keys[i];
  }

  /** The assets of `keys`, in order, whose manifest key is `mk`. */
  function Matching(o: Externals, keys: seq<string>, entries: map<string, Asset>, mk: string): (ks: seq<string>)
    requires forall k | k in keys :: k in entries
    ensures forall k | k in ks :: k in keys && ManifestKey(o, entries[k]) == mk
  {
    if keys == [] then []
    else
      var last := keys[|keys| - 1];
      var pre := Matching(o, keys[..|keys| - 1], entries, mk);
      if ManifestKey(o, entries[last]) == mk then pre + [last] else pre
  }

  /** The file records of the assets `ks`, in order. */
  function Records(o: Externals, ks: seq<string>, entries: map<string, Asset>): (r: seq<FileRecord>)
    requires forall k | k in ks :: k in entries
    ensures |r| == |ks|
    ensures forall i | 0 <= i < |ks| :: r[i] == Record(o, entries[ks[i]])
  {
    if ks == [] then []
    else Records(o, ks[..|ks| - 1], entries) + [Record(o, entries[ks[|ks| - 1]])]
  }

  /** The provenance lines of the assets `ks`, concatenated in order. */
  function Text(o: Externals, ks: seq<string>, entries: map<string, Asset>): string
    requires HasContent(ks, entries)
  {
    if ks == [] then ""
    else Text(o, ks[..|ks| - 1], entries) + Line(o, entries[ks[|ks| - 1]])
  }

  /** There is one manifest per distinct manifest key among the assets. Its
      `files` hold one record per asset with that key and its `content` one line
      per such asset, both in iteration order; its other properties come from
      the first such asset. */
  lemma {:induction false} ManifestsSpec(o: Externals, keys: seq<string>, entries: map<string, Asset>, mk: string)
    requires HasContent(keys, entries)
    ensures var t, ks := Manifests(o, keys, entries), Matching(o, keys, entries, mk);
      && (mk in t.byKey <==> |ks| > 0)
      && (mk in t.byKey ==>
            var first := entries[ks[0]];
            t.byKey[mk] == Manifest(Text(o, ks, entries), first.serviceName, first.buildNumber,
                                    first.kind, first.tag, Records(o, ks, entries)))
  {
    if keys != [] {
      var pre, last := keys[..|keys| - 1], keys[|keys| - 1];
      assert HasContent(pre, entries);
      ManifestsSpec(o, pre, entries, mk);
      var ks0 := Matching(o, pre, entries, mk);
      if ManifestKey(o, entries[last]) == mk && |ks0| > 0 {
        var ks := ks0 + [last];
        assert ks[..|ks| - 1] == ks0;
        assert ks[0] == ks0[0];
      } else if ManifestKey(o, entries[last]) == mk {
        var ks := ks0 + [last];
        assert ks[..|ks| - 1] == [];
      }
    }
  }

  /** The asset a manifest becomes when merged into `staticAssets`. */
  function ToAsset(m: Manifest): Asset {
    Blank.(content := Some(m.content), serviceName := m.serviceName, buildNumber := m.buildNumber,
           kind := Some("plain"), mimeType := Some("text/plain"), assetType := m.assetType, tag := m.tag,
           isMinifiedFragment := Some(true), extname := Some(".manifest"), files := Some(m.files))
  }

  /** `_.assign(staticAssets, manifests)` over the manifest keys `order`. Each
      manifest key then holds its manifest and every other key is unchanged. */
  function Merge(st: Store, order: seq<string>, byKey: map<string, Manifest>): (r: Store)
    requires forall mk | mk in order :: mk in byKey
    ensures WellFormed(st) ==> WellFormed(r)
    ensures forall mk | mk in order :: mk in r.entries && r.entries[mk] == ToAsset(byKey[mk])
    ensures forall k | k !in order :: (k in r.entries <==> k in st.entries)
    ensures forall k | k !in order && k in st.entries :: r.entries[k] == st.entries[k]
  {
    if order == [] then st
    else
      var last := order[|order| - 1];
      Put(Merge(st, order[..|order| - 1], byKey), last, ToAsset(byKey[last]))
  }
}
