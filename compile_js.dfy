/** `compileJs` of src/Minify.js: per JS bundle, delete the sources from
    `staticAssets`, minify them, and write a source-map entry and a
    content-hashed minified entry. */
module ScriptStage {
  import opened AssetModel
  import opened Classify

  /** The state after the `for (var key in files)` loop of one bundle. */
  datatype Collected = Collected(store: Store, meta: Meta)

  /** The loop over a bundle's files: while `serviceName` is falsy the
      metadata is taken from the current file; each file's entry is deleted. */
  function Collect(st: Store, files: seq<FileRef>): (r: Collected)
    requires WellFormed(st) && DistinctFiles(files)
    requires forall j | 0 <= j < |files| :: files[j].key in st.entries
    ensures WellFormed(r.store)
    ensures r.store.entries == st.entries - FileKeys(files)
  {
    if files == [] then Collected(st, NoMeta)
    else
      var pre, k := files[..|files| - 1], files[|files| - 1].key;
      LastFile(files);
      var c := Collect(st, pre);
      var m := if Truthy(c.meta.serviceName) then c.meta else MetaOf(c.store.entries[k]);
      Collected(Delete(c.store, k), m)
  }

  /** One more iteration of the loop: the next file is still present, and the
      state is its deletion with the metadata taken as the loop takes it. */
  lemma CollectStep(st: Store, files: seq<FileRef>, j: nat)
    requires WellFormed(st) && DistinctFiles(files) && j < |files|
    requires forall i | 0 <= i < |files| :: files[i].key in st.entries
    ensures DistinctFiles(files[..j]) && DistinctFiles(files[..j + 1])
    ensures var c, k := Collect(st, files[..j]), files[j].key;
      && k in c.store.entries
      && Collect(st, files[..j + 1]) ==
         Collected(Delete(c.store, k), if Truthy(c.meta.serviceName) then c.meta else MetaOf(c.store.entries[k]))
  {
    assert forall i | 0 <= i < j + 1 :: files[..j + 1][i] == files[i];
    assert files[..j + 1][..j] == files[..j];
    LastFile(files[..j + 1]);
  }

  /** The position of the first file whose `serviceName` is truthy, or of the
      last file when no file has one. */
  function ServiceIndex(entries: map<string, Asset>, files: seq<FileRef>): (i: nat)
    requires |files| > 0 && forall j | 0 <= j < |files| :: files[j].key in entries
    ensures i < |files|
    ensures forall j | 0 <= j < i :: !Truthy(entries[files[j].key].serviceName)
    ensures i == |files| - 1 || Truthy(entries[files[i].key].serviceName)
  {
    if |files| == 1 || Truthy(entries[files[0].key].serviceName) then 0
    else 1 + ServiceIndex(entries, files[1..])
  }

  /** The `serviceName`/`buildNumber`/`tag` a JS bundle is compiled under. */
  function BundleMeta(entries: map<string, Asset>, files: seq<FileRef>): Meta
    requires forall j | 0 <= j < |files| :: files[j].key in entries
  {
    if files == [] then NoMeta else MetaOf(entries[files[ServiceIndex(entries, files)].key])
  }

  /** The index `ServiceIndex` returns is the only one with its two properties. */
  lemma ServiceIndexIs(entries: map<string, Asset>, files: seq<FileRef>, i: nat)
    requires i < |files| && forall j | 0 <= j < |files| :: files[j].key in entries
    requires forall j | 0 <= j < i :: !Truthy(entries[files[j].key].serviceName)
    requires i == |files| - 1 || Truthy(entries[files[i].key].serviceName)
    ensures ServiceIndex(entries, files) == i
  {
  }

  /** The metadata picked up by the loop is that of the first file with a
      truthy `serviceName`; when there is none, every file overwrote it and the
      last file's remains. */
  lemma CollectMeta(st: Store, files: seq<FileRef>)
    requires WellFormed(st) && DistinctFiles(files)
    requires forall j | 0 <= j < |files| :: files[j].key in st.entries
    ensures Collect(st, files).meta == BundleMeta(st.entries, files)
  {
    CollectIsLoopMeta(st, files);
    LoopMetaIsBundleMeta(st.entries, files);
  }

  /** The metadata part of the loop, read from the entries before the loop. */
  function LoopMeta(entries: map<string, Asset>, files: seq<FileRef>): Meta
    requires forall j | 0 <= j < |files| :: files[j].key in entries
  {
    if files == [] then NoMeta
    else
      var m := LoopMeta(entries, files[..|files| - 1]);
      if Truthy(m.serviceName) then m else MetaOf(entries[files[|files| - 1].key])
  }

  lemma {:induction false} CollectIsLoopMeta(st: Store, files: seq<FileRef>)
    requires WellFormed(st) && DistinctFiles(files)
    requires forall j | 0 <= j < |files| :: files[j].key in st.entries
    ensures Collect(st, files).meta == LoopMeta(st.entries, files)
  {
    if files != [] {
      var n := |files| - 1;
      LastFile(files);
      CollectIsLoopMeta(st, files[..n]);
      assert Collect(st, files[..n]).store.entries[files[n].key] == st.entries[files[n].key];
    }
  }

  lemma {:induction false} LoopMetaIsBundleMeta(entries: map<string, Asset>, files: seq<FileRef>)
    requires forall j | 0 <= j < |files| :: files[j].key in entries
    ensures LoopMeta(entries, files) == BundleMeta(entries, files)
  {
    if |files| == 1 {
      ServiceIndexIs(entries, files, 0);
    } else if files != [] {
      var n := |files| - 1;
      var pre := files[..n];
      LoopMetaIsBundleMeta(entries, pre);
      var p := ServiceIndex(entries, pre);
      assert forall j | 0 <= j < n :: pre[j] == files[j];
      if Truthy(entries[files[p].key].serviceName) {
        ServiceIndexIs(entries, files, p);
      } else {
        ServiceIndexIs(entries, files, n);
      }
    }
  }

  /** `_.values(files)`: the paths handed to the minifier, in order. */
  function Paths(files: seq<FileRef>): (ps: seq<Option<string>>)
    ensures |ps| == |files| && forall j | 0 <= j < |files| :: ps[j] == files[j].path
  {
    seq(|files|, j requires 0 <= j < |files| => files[j].path)
  }

  /** `compiled`: the minifier's result, or `{code: ''}` when it throws, in
      which case the map is undefined. */
  datatype Compiled = Compiled(code: string, sourceMap: Option<string>)

  function Compile(o: Externals, files: seq<FileRef>, m: Meta): (c: Compiled)
    ensures c.sourceMap.None? <==> o.uglify(Paths(files), Str(m.tag) + ".js.map") == MinifyThrew
    ensures c.sourceMap.None? ==> c.code == ""
  {
    match o.uglify(Paths(files), Str(m.tag) + ".js.map")
    case Minified(code, sourceMap) => Compiled(code, Some(sourceMap))
    case MinifyThrew => Compiled("", None)
  }

  /** `createKey(serviceName, buildNumber, tag, 'js', 'js', 'map')`. */
  function MapKey(o: Externals, m: Meta): string {
    o.createKey(m.serviceName, m.buildNumber, m.tag, Some("js"), Some("js"), Some("map"))
  }

  /** `createKey(serviceName, buildNumber, tag, createHash(code), 'js', 'js')`. */
  function MinKey(o: Externals, m: Meta, code: string): string {
    o.createKey(m.serviceName, m.buildNumber, m.tag, Some(CreateHash(o, code)), Some("js"), Some("js"))
  }

  /** The properties written on `staticAssets[mapKey]`; others of `base` stay. */
  function MapEntry(base: Asset, m: Meta, c: Compiled): (r: Asset)
    ensures KeepsUnassigned(base, r) && r.hash == base.hash
    ensures MetaOf(r) == m && KindOf(r) == Script
  {
    base.(serviceName := m.serviceName, buildNumber := m.buildNumber, path := Some(""),
          extname := Some(".map"), tag := m.tag, kind := Some("js"),
          mimeType := Some("application/javascript"), content := c.sourceMap)
  }

  /** The properties written on `staticAssets[minKey]`; others of `base` stay. */
  function MinEntry(o: Externals, base: Asset, m: Meta, c: Compiled): (r: Asset)
    ensures KeepsUnassigned(base, r)
    ensures MetaOf(r) == m && KindOf(r) == Script
    ensures r.content == Some(c.code) && r.hash == Some(CreateHash(o, c.code))
  {
    base.(serviceName := m.serviceName, buildNumber := m.buildNumber, path := Some(""),
          extname := Some(".js"), tag := m.tag, kind := Some("js"), hash := Some(CreateHash(o, c.code)),
          mimeType := Some("application/javascript"), content := Some(c.code))
  }

  /** A stage's store and the keys it wrote derived entries at. */
  datatype Emitted = Emitted(store: Store, written: set<string>)

  /** One JS bundle: the sources are gone unless a derived entry took their
      key, every other key that was not written is unchanged, and nothing but
      the two derived keys is added. */
  function CompileBundle(o: Externals, st: Store, b: Bundle): (e: Emitted)
    requires WellFormed(st) && DistinctFiles(b.files)
    requires forall j | 0 <= j < |b.files| :: b.files[j].key in st.entries
    ensures WellFormed(e.store)
    ensures forall k | k in FileKeys(b.files) && k !in e.written :: k !in e.store.entries
    ensures forall k | k !in FileKeys(b.files) && k !in e.written ::
      (k in e.store.entries <==> k in st.entries) && (k in st.entries ==> e.store.entries[k] == st.entries[k])
  {
    var c := Collect(st, b.files);
    var compiled := Compile(o, b.files, c.meta);
    var mapKey := MapKey(o, c.meta);
    var s1 := Put(c.store, mapKey, MapEntry(Existing(c.store, mapKey), c.meta, compiled));
    var minKey := MinKey(o, c.meta, compiled.code);
    var s2 := Put(s1, minKey, MinEntry(o, Existing(s1, minKey), c.meta, compiled));
    Emitted(s2, {mapKey, minKey})
  }

  /** The entries one JS bundle writes: the minified entry sits at a key
      derived from the hash of its own content, and its `hash` is that
      content's hash; the map entry, unless the minified entry took its key,
      holds the source map (nothing when minifying threw); both carry the
      bundle's metadata. */
  lemma CompileBundleSpec(o: Externals, st: Store, b: Bundle)
    requires WellFormed(st) && DistinctFiles(b.files)
    requires forall j | 0 <= j < |b.files| :: b.files[j].key in st.entries
    ensures var e, m := CompileBundle(o, st, b), BundleMeta(st.entries, b.files);
      var c := Compile(o, b.files, m);
      var mapKey, minKey := MapKey(o, m), MinKey(o, m, c.code);
      && e.written == {mapKey, minKey}
      && minKey in e.store.entries
      && e.store.entries[minKey].content == Some(c.code)
      && e.store.entries[minKey].hash == Some(CreateHash(o, e.store.entries[minKey].content.value))
      && e.store.entries[minKey].kind == Some("js")
      && e.store.entries[minKey].extname == Some(".js")
      && e.store.entries[minKey].mimeType == Some("application/javascript")
      && MetaOf(e.store.entries[minKey]) == m
      && mapKey in e.store.entries
      && (mapKey != minKey ==>
            && e.store.entries[mapKey].content == c.sourceMap
            && e.store.entries[mapKey].kind == Some("js")
            && e.store.entries[mapKey].extname == Some(".map")
            && e.store.entries[mapKey].mimeType == Some("application/javascript")
            && MetaOf(e.store.entries[mapKey]) == m)
  {
    CollectMeta(st, b.files);
  }

  /** When the minifier throws, the bundle still gets both entries: the
      minified one holds the empty string under the hash of the empty string,
      the map one holds nothing. */
  lemma MinifyFailureFallback(o: Externals, st: Store, b: Bundle)
    requires WellFormed(st) && DistinctFiles(b.files)
    requires forall j | 0 <= j < |b.files| :: b.files[j].key in st.entries
    requires o.uglify(Paths(b.files), Str(BundleMeta(st.entries, b.files).tag) + ".js.map") == MinifyThrew
    ensures var m, e := BundleMeta(st.entries, b.files), CompileBundle(o, st, b);
      && MinKey(o, m, "") in e.store.entries
      && e.store.entries[MinKey(o, m, "")].content == Some("")
      && e.store.entries[MinKey(o, m, "")].hash == Some(CreateHash(o, ""))
      && (MapKey(o, m) != MinKey(o, m, "") ==>
            MapKey(o, m) in e.store.entries && e.store.entries[MapKey(o, m)].content == None)
  {
    assert Compile(o, b.files, BundleMeta(st.entries, b.files)) == Compiled("", None);
    CompileBundleSpec(o, st, b);
  }

  /** `compileJs` over the bundles `g`, in order. Only the sources of `g` are
      removed; a key that is neither a source nor written keeps its entry; a
      source key is gone unless some bundle wrote a derived entry there; a key
      present afterwards was present before or was written. */
  function Stage(o: Externals, st: Store, g: Groups): (e: Emitted)
    requires WellFormed(st) && AllPresent(g, st.entries) && Unique(g)
    ensures WellFormed(e.store)
    ensures forall k | k in st.entries && k !in KeySet(g) :: k in e.store.entries
    ensures forall k | k in st.entries && k !in KeySet(g) && k !in e.written :: e.store.entries[k] == st.entries[k]
    ensures forall k | k in KeySet(g) && k !in e.written :: k !in e.store.entries
    ensures forall k | k in e.store.entries :: k in st.entries || k in e.written
  {
    if g == [] then Emitted(st, {})
    else
      var n := |g| - 1;
      LastBundle(g);
      var e0 := Stage(o, st, g[..n]);
      assert forall j | 0 <= j < |g[n].files| :: g[n].files[j].key in FileKeys(g[n].files);
      var e1 := CompileBundle(o, e0.store, g[n]);
      Emitted(e1.store, e0.written + e1.written)
  }

  /** Before bundle `i`, the groups so far are well formed and its sources are still present. */
  lemma StagePresent(o: Externals, st: Store, g: Groups, i: nat)
    requires WellFormed(st) && AllPresent(g, st.entries) && Unique(g) && i < |g|
    ensures AllPresent(g[..i], st.entries) && Unique(g[..i]) && DistinctFiles(g[i].files)
    ensures forall j | 0 <= j < |g[i].files| :: g[i].files[j].key in Stage(o, st, g[..i]).store.entries
  {
    var h := g[..i + 1];
    assert forall n | 0 <= n < i + 1 :: h[n] == g[n];
    assert h[..i] == g[..i];
    LastBundle(h);
    var e0 := Stage(o, st, g[..i]);
    forall j | 0 <= j < |g[i].files| ensures g[i].files[j].key in e0.store.entries {
      assert g[i].files[j].key in FileKeys(h[i].files);
    }
  }

  /** One more bundle: its sources are still present. */
  lemma StageStep(o: Externals, st: Store, g: Groups, i: nat)
    requires WellFormed(st) && AllPresent(g, st.entries) && Unique(g) && i < |g|
    ensures AllPresent(g[..i], st.entries) && Unique(g[..i]) && DistinctFiles(g[i].files)
    ensures var e0 := Stage(o, st, g[..i]);
      && (forall j | 0 <= j < |g[i].files| :: g[i].files[j].key in e0.store.entries)
      && Stage(o, st, g[..i + 1]) ==
         Emitted(CompileBundle(o, e0.store, g[i]).store, e0.written + CompileBundle(o, e0.store, g[i]).written)
  {
    StagePresent(o, st, g, i);
    var h := g[..i + 1];
    assert h[..i] == g[..i];
    assert h[i] == g[i];
    PrefixGroups(g, i + 1, st.entries);
  }

  /** One bundle writes at most two keys, each holding a JS entry. */
  lemma BundleWritten(o: Externals, st: Store, b: Bundle)
    requires WellFormed(st) && DistinctFiles(b.files)
    requires forall j | 0 <= j < |b.files| :: b.files[j].key in st.entries
    ensures var e := CompileBundle(o, st, b);
      && |e.written| <= 2
      && forall k | k in e.written ::
           && k in e.store.entries
           && e.store.entries[k].kind == Some("js")
           && e.store.entries[k].mimeType == Some("application/javascript")
  {
    var c := Collect(st, b.files);
    var compiled := Compile(o, b.files, c.meta);
    var mapKey := MapKey(o, c.meta);
    var s1 := Put(c.store, mapKey, MapEntry(Existing(c.store, mapKey), c.meta, compiled));
    var minKey := MinKey(o, c.meta, compiled.code);
    assert CompileBundle(o, st, b) ==
      Emitted(Put(s1, minKey, MinEntry(o, Existing(s1, minKey), c.meta, compiled)), {mapKey, minKey});
  }

  /** `compileJs` writes at most two keys per bundle. */
  lemma {:induction false} StageWrittenCount(o: Externals, st: Store, g: Groups)
    requires WellFormed(st) && AllPresent(g, st.entries) && Unique(g)
    ensures |Stage(o, st, g).written| <= 2 * |g|
  {
    if g != [] {
      var n := |g| - 1;
      StageStep(o, st, g, n);
      assert g[..n + 1] == g;
      StageWrittenCount(o, st, g[..n]);
      var e0 := Stage(o, st, g[..n]);
      BundleWritten(o, e0.store, g[n]);
      var w1 := CompileBundle(o, e0.store, g[n]).written;
      assert |e0.written + w1| <= |e0.written| + |w1|;
    }
  }

  /** Every key `compileJs` wrote that a later bundle did not consume holds a JS entry. */
  lemma {:induction false} StageWrittenKind(o: Externals, st: Store, g: Groups)
    requires WellFormed(st) && AllPresent(g, st.entries) && Unique(g)
    ensures var e := Stage(o, st, g);
      forall k | k in e.written && k in e.store.entries ::
        e.store.entries[k].kind == Some("js") && e.store.entries[k].mimeType == Some("application/javascript")
  {
    if g != [] {
      var n := |g| - 1;
      StageStep(o, st, g, n);
      assert g[..n + 1] == g;
      StageWrittenKind(o, st, g[..n]);
      var e0 := Stage(o, st, g[..n]);
      BundleWritten(o, e0.store, g[n]);
    }
  }
}
