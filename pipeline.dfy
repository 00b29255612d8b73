/** `minify` of src/Minify.js: classify, build and merge the manifests, then run
    the JS, CSS and "other" stages in sequence over the shared `staticAssets`. */
module Pipeline {
  import opened AssetModel
  import opened Classify
  import opened Manifest
  import ScriptStage
  import StyleStage

  /** What the source needs of its input to run without throwing: the
      dictionary is well formed, every asset has content (hashed by the
      manifest pass) and every CSS asset has a path (read by the CSS stage). */
  predicate Admissible(st: Store) {
    && WellFormed(st)
    && HasContent(st.keys, st.entries)
    && forall k | k in st.entries && KindOf(st.entries[k]) == Style :: st.entries[k].path.Some?
  }

  /** The groups made by the classification pass over the pristine assets. */
  function Groups0(st: Store): (c: Classified)
    requires Admissible(st)
    ensures Describes(c.js, st.keys, st.entries, Script)
    ensures Describes(c.css, st.keys, st.entries, Style)
    ensures Describes(c.other, st.keys, st.entries, Other)
    ensures InOrder(c.js, st.keys, st.entries, Script)
    ensures InOrder(c.css, st.keys, st.entries, Style)
    ensures InOrder(c.other, st.keys, st.entries, Other)
  {
    PartitionDescribes(st.keys, st.entries);
    PartitionOrder(st.keys, st.entries, Script);
    PartitionOrder(st.keys, st.entries, Style);
    PartitionOrder(st.keys, st.entries, Other);
    Partition(st.keys, st.entries)
  }

  /** `staticAssets` after `_.assign(staticAssets, createManifest(staticAssets))`. */
  function AfterManifests(o: Externals, st: Store): Store
    requires Admissible(st)
  {
    var t := Manifests(o, st.keys, st.entries);
    Merge(st, t.order, t.byKey)
  }

  /** A group whose files are all among `keys` has every file present in any
      store that still holds those keys. */
  lemma GroupPresent(g: Groups, keys: seq<string>, entries: map<string, Asset>, kind: Kind, es: map<string, Asset>)
    requires Sound(g, keys, entries, kind) && forall k | k in keys :: k in es
    ensures AllPresent(g, es)
  {
  }

  /** Membership in a group's key set means being listed with the group's kind. */
  lemma KeySetKind(g: Groups, keys: seq<string>, entries: map<string, Asset>, kind: Kind, k: string)
    requires Sound(g, keys, entries, kind) && k in KeySet(g)
    ensures k in keys && KindOf(entries[k]) == kind
  {
    var i, j :| 0 <= i < |g| && 0 <= j < |g[i].files| && g[i].files[j].key == k;
    assert Listed(g[i], g[i].files[j], entries, kind);
  }

  /** A listed key is in the group's key set. */
  lemma InGroupsKeySet(g: Groups, k: string)
    requires InGroups(g, k)
    ensures k in KeySet(g)
  {
  }

  /** `AfterManifests` keeps every original key. */
  lemma ManifestsKeep(o: Externals, st: Store)
    requires Admissible(st)
    ensures forall k | k in st.entries :: k in AfterManifests(o, st).entries
  {
    var t := Manifests(o, st.keys, st.entries);
    forall k | k in st.entries ensures k in AfterManifests(o, st).entries {
      if k in t.order { } else { }
    }
  }

  /** The JS stage over the merged store. */
  function AfterJs(o: Externals, st: Store): ScriptStage.Emitted
    requires Admissible(st)
  {
    var c := Groups0(st);
    var s1 := AfterManifests(o, st);
    ManifestsKeep(o, st);
    GroupPresent(c.js, st.keys, st.entries, Script, s1.entries);
    ScriptStage.Stage(o, s1, c.js)
  }

  /** The CSS sources survive the JS stage, so the CSS stage can read them. */
  lemma StyleInputs(o: Externals, st: Store)
    requires Admissible(st)
    ensures StyleStage.Gatherable(AfterJs(o, st).store, Groups0(st).css)
  {
    var c := Groups0(st);
    var s1 := AfterManifests(o, st);
    var js := AfterJs(o, st);
    ManifestsKeep(o, st);
    forall k | k in KeySet(c.css) ensures k in js.store.entries {
      KeySetKind(c.css, st.keys, st.entries, Style, k);
      if k in KeySet(c.js) {
        KeySetKind(c.js, st.keys, st.entries, Script, k);
      }
    }
    forall i, j | 0 <= i < |c.css| && 0 <= j < |c.css[i].files|
      ensures c.css[i].files[j].key in js.store.entries && c.css[i].files[j].path.Some?
    {
      assert c.css[i].files[j].key in KeySet(c.css);
      assert Listed(c.css[i], c.css[i].files[j], st.entries, Style);
    }
  }

  /** The accumulators of the CSS bundles. */
  function StyleBundles(o: Externals, st: Store): seq<StyleStage.Accumulated>
    requires Admissible(st)
  {
    StyleInputs(o, st);
    StyleStage.GatherAll(o, AfterJs(o, st).store, Groups0(st).css).accs
  }

  /** `bosco.log(... + css.tag.blue + ...)` (src/Minify.js:196) throws unless
      every CSS bundle's tag, which is the tag of its last file, is defined. */
  predicate TagsDefined(o: Externals, st: Store)
    requires Admissible(st)
  {
    forall i | 0 <= i < |StyleBundles(o, st)| :: StyleBundles(o, st)[i].meta.tag.Some?
  }

  /** The result of a run: the final `staticAssets`, whether the completion
      callback `next(err, staticAssets)` is reached, and the keys at which the
      JS and the CSS stage wrote derived entries. */
  datatype Run = Run(store: Store, completed: bool, scriptWritten: set<string>, styleWritten: set<string>)
  {
    function Written(): set<string> {
      scriptWritten + styleWritten
    }
  }

  /** The whole of `minify`. The "other" stage does nothing. */
  function Outcome(o: Externals, st: Store): (r: Run)
    requires Admissible(st) && TagsDefined(o, st)
    ensures WellFormed(r.store)
  {
    var js := AfterJs(o, st);
    StyleInputs(o, st);
    var css := StyleStage.Stage(o, js.store, Groups0(st).css);
    Run(css.store, css.error.None?, js.written, css.written)
  }

  /** Every JS and CSS source is gone unless a derived entry took its key. */
  lemma SourcesGone(o: Externals, st: Store)
    requires Admissible(st) && TagsDefined(o, st)
    ensures var r := Outcome(o, st);
      forall k | k in st.entries && KindOf(st.entries[k]) != Other && k !in r.Written() :: k !in r.store.entries
  {
    var c := Groups0(st);
    var js := AfterJs(o, st);
    StyleInputs(o, st);
    var r := Outcome(o, st);
    assert r.store == StyleStage.Stage(o, js.store, c.css).store;
    forall k | k in st.entries && KindOf(st.entries[k]) != Other && k !in r.Written()
      ensures k !in r.store.entries
    {
      assert k in st.keys;
      if KindOf(st.entries[k]) == Script {
        InGroupsKeySet(c.js, k);
        if k in KeySet(c.css) { KeySetKind(c.css, st.keys, st.entries, Style, k); }
      } else {
        InGroupsKeySet(c.css, k);
        if k in KeySet(c.js) { KeySetKind(c.js, st.keys, st.entries, Script, k); }
      }
    }
  }

  /** Every "other" asset is unchanged unless a manifest or a derived entry took its key. */
  lemma OthersKept(o: Externals, st: Store)
    requires Admissible(st) && TagsDefined(o, st)
    ensures var r, t := Outcome(o, st), Manifests(o, st.keys, st.entries);
      forall k | k in st.entries && KindOf(st.entries[k]) == Other && k !in t.byKey && k !in r.Written() ::
        k in r.store.entries && r.store.entries[k] == st.entries[k]
  {
    var c := Groups0(st);
    var t := Manifests(o, st.keys, st.entries);
    var js := AfterJs(o, st);
    StyleInputs(o, st);
    var r := Outcome(o, st);
    assert r.store == StyleStage.Stage(o, js.store, c.css).store;
    forall k | k in st.entries && KindOf(st.entries[k]) == Other && k !in t.byKey && k !in r.Written()
      ensures k in r.store.entries && r.store.entries[k] == st.entries[k]
    {
      assert k !in t.order;
      if k in KeySet(c.js) { KeySetKind(c.js, st.keys, st.entries, Script, k); }
      if k in KeySet(c.css) { KeySetKind(c.css, st.keys, st.entries, Style, k); }
    }
  }

  /** Every manifest whose key is new or held an "other" asset is in place,
      unless a derived entry took its key. */
  lemma ManifestsPlaced(o: Externals, st: Store)
    requires Admissible(st) && TagsDefined(o, st)
    ensures var r, t := Outcome(o, st), Manifests(o, st.keys, st.entries);
      forall mk | mk in t.byKey && (mk !in st.entries || KindOf(st.entries[mk]) == Other) && mk !in r.Written() ::
        mk in r.store.entries && r.store.entries[mk] == ToAsset(t.byKey[mk])
  {
    var c := Groups0(st);
    var t := Manifests(o, st.keys, st.entries);
    var js := AfterJs(o, st);
    StyleInputs(o, st);
    var r := Outcome(o, st);
    assert r.store == StyleStage.Stage(o, js.store, c.css).store;
    forall mk | mk in t.byKey && (mk !in st.entries || KindOf(st.entries[mk]) == Other) && mk !in r.Written()
      ensures mk in r.store.entries && r.store.entries[mk] == ToAsset(t.byKey[mk])
    {
      assert mk in t.order;
      if mk in KeySet(c.js) { KeySetKind(c.js, st.keys, st.entries, Script, mk); }
      if mk in KeySet(c.css) { KeySetKind(c.css, st.keys, st.entries, Style, mk); }
    }
  }

  /** Nothing appears but original keys, manifests and derived entries. */
  lemma NothingElse(o: Externals, st: Store)
    requires Admissible(st) && TagsDefined(o, st)
    ensures var r, t := Outcome(o, st), Manifests(o, st.keys, st.entries);
      forall k | k in r.store.entries :: k in st.entries || k in t.byKey || k in r.Written()
  {
    var c := Groups0(st);
    var t := Manifests(o, st.keys, st.entries);
    var s1 := AfterManifests(o, st);
    var js := AfterJs(o, st);
    StyleInputs(o, st);
    var r := Outcome(o, st);
    assert r.store == StyleStage.Stage(o, js.store, c.css).store;
    forall k | k in r.store.entries ensures k in st.entries || k in t.byKey || k in r.Written() {
      if k in s1.entries && k !in st.entries {
        assert k in t.order;
      }
    }
  }

  /** What a run does to `staticAssets`. Every JS and CSS source is gone unless
      a derived entry took its key. Every other asset is unchanged unless a
      manifest or a derived entry took its key. Every manifest whose key is new
      or held an "other" asset is in place, unless a derived entry took its
      key. Nothing else appears. The completion callback is reached exactly
      when every CSS bundle has content: a CSS error stalls the pipeline. */
  lemma MinifyOutcome(o: Externals, st: Store)
    requires Admissible(st) && TagsDefined(o, st)
    ensures var r, t := Outcome(o, st), Manifests(o, st.keys, st.entries);
      && (forall k | k in st.entries && KindOf(st.entries[k]) != Other && k !in r.Written() :: k !in r.store.entries)
      && (forall k | k in st.entries && KindOf(st.entries[k]) == Other && k !in t.byKey && k !in r.Written() ::
            k in r.store.entries && r.store.entries[k] == st.entries[k])
      && (forall mk | mk in t.byKey && (mk !in st.entries || KindOf(st.entries[mk]) == Other) && mk !in r.Written() ::
            mk in r.store.entries && r.store.entries[mk] == ToAsset(t.byKey[mk]))
      && (forall k | k in r.store.entries :: k in st.entries || k in t.byKey || k in r.Written())
      && (r.completed <==> StyleStage.AllEmit(o, StyleBundles(o, st)))
  {
    SourcesGone(o, st);
    OthersKept(o, st);
    ManifestsPlaced(o, st);
    NothingElse(o, st);
    StyleInputs(o, st);
    StyleStage.StageReportsError(o, AfterJs(o, st).store, Groups0(st).css);
  }

  /** What the stages write. The JS stage writes at most two keys per bundle,
      and each of them still present at the end, unless the CSS stage wrote
      it, holds a JS entry. The CSS stage writes at most one key per bundle:
      exactly the keys derived from the content of the bundles that have
      content, each holding a CSS entry. */
  lemma MinifyWrites(o: Externals, st: Store)
    requires Admissible(st) && TagsDefined(o, st)
    ensures var r := Outcome(o, st);
      && |r.scriptWritten| <= 2 * |Groups0(st).js|
      && (forall k | k in r.scriptWritten && k !in r.styleWritten && k in r.store.entries ::
            r.store.entries[k].kind == Some("js") && r.store.entries[k].mimeType == Some("application/javascript"))
      && |r.styleWritten| <= |Groups0(st).css|
      && StyleStage.HoldsCss(r.store, r.styleWritten)
      && (forall k :: k in r.styleWritten <==> StyleStage.EmittedBy(o, StyleBundles(o, st), k))
  {
    var c := Groups0(st);
    var s1 := AfterManifests(o, st);
    ManifestsKeep(o, st);
    GroupPresent(c.js, st.keys, st.entries, Script, s1.entries);
    ScriptStage.StageWrittenCount(o, s1, c.js);
    ScriptStage.StageWrittenKind(o, s1, c.js);
    var js := AfterJs(o, st);
    StyleInputs(o, st);
    StyleStage.StageWritten(o, js.store, c.css);
    var css := StyleStage.Stage(o, js.store, c.css);
    forall k | k in js.written && k !in css.written && k in css.store.entries
      ensures css.store.entries[k].kind == Some("js") && css.store.entries[k].mimeType == Some("application/javascript")
    {
      assert k !in KeySet(c.css);
    }
  }

  /** The `staticAssets` object, updated in place by every stage. */
  class AssetStore {
    var keys: seq<string>
    var entries: map<string, Asset>

    function Snapshot(): Store
      reads this
    {
      Store(keys, entries)
    }

    ghost predicate Valid()
      reads this
    {
      WellFormed(Snapshot())
    }

    constructor (st: Store)
      requires WellFormed(st)
      ensures Valid() && Snapshot() == st
    {
      keys := st.keys;
      entries := st.entries;
    }

    /** `staticAssets[k] = a`. */
    method SetEntry(k: string, a: Asset)
      requires Valid()
      modifies this
      ensures Valid() && Snapshot() == Put(old(Snapshot()), k, a)
    {
      if k !in entries {
        keys := keys + [k];
      }
      entries := entries[k := a];
    }

    /** `delete staticAssets[k]`. */
    method DeleteEntry(k: string)
      requires Valid()
      modifies this
      ensures Valid() && Snapshot() == Delete(old(Snapshot()), k)
    {
      keys := Remove(keys, k);
      entries := entries - {k};
    }

    /** The classification pass: reads `staticAssets`, fills the three groups. */
    method Classify() returns (c: Classified)
      requires Valid()
      ensures c == Partition(keys, entries)
      ensures Describes(c.js, keys, entries, Script)
      ensures Describes(c.css, keys, entries, Style)
      ensures Describes(c.other, keys, entries, Other)
      ensures InOrder(c.js, keys, entries, Script)
      ensures InOrder(c.css, keys, entries, Style)
      ensures InOrder(c.other, keys, entries, Other)
    {
      var js, css, other: Groups := [], [], [];
      var i := 0;
      while i < |keys|
        invariant 0 <= i <= |keys|
        invariant Classified(js, css, other) == Partition(keys[..i], entries)
      {
        assert keys[..i + 1][..i] == keys[..i];
        var key := keys[i];
        var asset := entries[key];
        var f := FileRef(key, asset.path);
        var bk := BundleName(asset.bundleKey);
        if asset.kind == Some("js") {
          js := AddToGroup(js, bk, f);
        } else if asset.kind == Some("css") {
          css := AddToGroup(css, bk, f);
        } else {
          other := AddToGroup(other, bk, f);
        }
        i := i + 1;
      }
      assert keys[..|keys|] == keys;
      c := Classified(js, css, other);
      PartitionDescribes(keys, entries);
      PartitionOrder(keys, entries, Script);
      PartitionOrder(keys, entries, Style);
      PartitionOrder(keys, entries, Other);
    }

    /** `createManifest`: reads `staticAssets`, returns the `manifests` object. */
    method CreateManifest(o: Externals) returns (t: Table)
      requires Valid() && HasContent(keys, entries)
      ensures t == Manifests(o, keys, entries)
      ensures TableWellFormed(t)
      ensures forall mk :: mk in t.byKey <==> |Matching(o, keys, entries, mk)| > 0
    {
      var order: seq<string> := [];
      var byKey: map<string, Manifest> := map[];
      var i := 0;
      while i < |keys|
        invariant 0 <= i <= |keys|
        invariant HasContent(keys[..i], entries)
        invariant Table(order, byKey) == Manifests(o, keys[..i], entries)
      {
        ManifestsStep(o, keys, entries, i);
        var value := entries[keys[i]];
        var mk := ManifestKey(o, value);
        var m := if mk in byKey then byKey[mk] else Fresh(value);
        m := m.(content := m.content + Line(o, value), files := m.files + [Record(o, value)]);
        if mk !in byKey {
          order := order + [mk];
        }
        byKey := byKey[mk := m];
        i := i + 1;
      }
      assert keys[..|keys|] == keys;
      t := Table(order, byKey);
      forall mk ensures mk in t.byKey <==> |Matching(o, keys, entries, mk)| > 0 {
        ManifestsSpec(o, keys, entries, mk);
      }
    }

    /** `_.assign(staticAssets, manifests)`. */
    method MergeManifests(t: Table)
      requires Valid() && forall mk | mk in t.order :: mk in t.byKey
      modifies this
      ensures Valid() && Snapshot() == Merge(old(Snapshot()), t.order, t.byKey)
    {
      var i := 0;
      while i < |t.order|
        invariant 0 <= i <= |t.order|
        invariant Valid() && Snapshot() == Merge(old(Snapshot()), t.order[..i], t.byKey)
      {
        assert t.order[..i + 1][..i] == t.order[..i];
        SetEntry(t.order[i], ToAsset(t.byKey[t.order[i]]));
        i := i + 1;
      }
      assert t.order[..|t.order|] == t.order;
    }

    /** The `for (var key in files)` loop of one JS bundle. */
    method CollectJs(files: seq<FileRef>) returns (meta: Meta)
      requires Valid() && DistinctFiles(files)
      requires forall j | 0 <= j < |files| :: files[j].key in entries
      modifies this
      ensures Valid() && ScriptStage.Collected(Snapshot(), meta) == ScriptStage.Collect(old(Snapshot()), files)
    {
      ghost var sb := Snapshot();
      meta := NoMeta;
      var j := 0;
      while j < |files|
        invariant 0 <= j <= |files|
        invariant Valid()
        invariant ScriptStage.Collected(Snapshot(), meta) == ScriptStage.Collect(sb, files[..j])
      {
        ScriptStage.CollectStep(sb, files, j);
        var key := files[j].key;
        if !Truthy(meta.serviceName) {
          meta := MetaOf(entries[key]);
        }
        DeleteEntry(key);
        j := j + 1;
      }
      assert files[..|files|] == files;
    }

    /** One JS bundle of `compileJs`. */
    method CompileJsBundle(o: Externals, b: Bundle)
      requires Valid() && DistinctFiles(b.files)
      requires forall j | 0 <= j < |b.files| :: b.files[j].key in entries
      modifies this
      ensures Valid() && Snapshot() == ScriptStage.CompileBundle(o, old(Snapshot()), b).store
    {
      var meta := CollectJs(b.files);
      var compiled := ScriptStage.Compile(o, b.files, meta);
      var mapKey := ScriptStage.MapKey(o, meta);
      SetEntry(mapKey, ScriptStage.MapEntry(Existing(Snapshot(), mapKey), meta, compiled));
      var minKey := ScriptStage.MinKey(o, meta, compiled.code);
      SetEntry(minKey, ScriptStage.MinEntry(o, Existing(Snapshot(), minKey), meta, compiled));
    }

    /** `compileJs`: every bundle, in order; there is no error path. */
    method CompileJs(o: Externals, g: Groups)
      requires Valid() && AllPresent(g, entries) && Unique(g)
      modifies this
      ensures Valid() && Snapshot() == ScriptStage.Stage(o, old(Snapshot()), g).store
    {
      ghost var st0 := Snapshot();
      var i := 0;
      PrefixGroups(g, 0, st0.entries);
      while i < |g|
        invariant 0 <= i <= |g|
        invariant AllPresent(g[..i], st0.entries) && Unique(g[..i])
        invariant Valid() && Snapshot() == ScriptStage.Stage(o, st0, g[..i]).store
      {
        ScriptStage.StageStep(o, st0, g, i);
        CompileJsBundle(o, g[i]);
        PrefixGroups(g, i + 1, st0.entries);
        i := i + 1;
      }
      assert g[..|g|] == g;
    }

    /** The `_.forOwn(files, ...)` loop of one CSS bundle. */
    method GatherCss(o: Externals, files: seq<FileRef>) returns (acc: StyleStage.Accumulated)
      requires Valid() && DistinctFiles(files) && StyleStage.PathsDefined(files)
      requires forall j | 0 <= j < |files| :: files[j].key in entries
      modifies this
      ensures Valid() && StyleStage.Gathered(Snapshot(), acc) == StyleStage.Gather(o, old(Snapshot()), files)
    {
      ghost var sb := Snapshot();
      acc := StyleStage.Accumulated("", "", 0, NoMeta);
      var j := 0;
      while j < |files|
        invariant 0 <= j <= |files|
        invariant Valid()
        invariant StyleStage.Gathered(Snapshot(), acc) == StyleStage.Gather(o, sb, files[..j])
      {
        StyleStage.GatherStep(o, sb, files, j);
        var key := files[j].key;
        var file := files[j].path.value;
        acc := acc.(meta := MetaOf(entries[key]));
        DeleteEntry(key);
        if o.extname(file) == ".css" {
          acc := acc.(css := acc.css + o.readFile(file));
        } else if o.extname(file) == ".scss" {
          acc := acc.(scss := acc.scss + o.readFile(file));
        }
        acc := acc.(count := acc.count + 1);
        j := j + 1;
      }
      assert files[..|files|] == files;
    }

    /** The first `_.forOwn(cssAssets, ...)` of `compileCss`. */
    method GatherCssAll(o: Externals, g: Groups) returns (accs: seq<StyleStage.Accumulated>)
      requires Valid() && StyleStage.Gatherable(Snapshot(), g)
      modifies this
      ensures Valid() && StyleStage.Prepared(Snapshot(), accs) == StyleStage.GatherAll(o, old(Snapshot()), g)
    {
      ghost var st0 := Snapshot();
      accs := [];
      var i := 0;
      while i < |g|
        invariant 0 <= i <= |g|
        invariant Valid()
        invariant StyleStage.Prepared(Snapshot(), accs) == StyleStage.GatherAll(o, st0, g[..i])
      {
        StyleStage.GatherAllStep(o, st0, g, i);
        var acc := GatherCss(o, g[i].files);
        accs := accs + [acc];
        i := i + 1;
      }
      assert g[..|g|] == g;
    }

    /** The render callback of one CSS bundle; returns the error it reports. */
    method EmitCssOne(o: Externals, css: StyleStage.Accumulated) returns (err: Option<string>)
      requires Valid()
      modifies this
      ensures Valid()
      ensures Snapshot() == StyleStage.EmitOne(o, old(Snapshot()), css).store
      ensures err == StyleStage.EmitOne(o, old(Snapshot()), css).error
    {
      var cssContent := StyleStage.Content(o, css);
      if cssContent.None? || |cssContent.value| == 0 {
        err := Some(StyleStage.NoCssMessage(css));
      } else {
        err := None;
        var assetKey := StyleStage.CssKey(o, css, cssContent.value);
        SetEntry(assetKey, StyleStage.CssEntry(o, Existing(Snapshot(), assetKey), css, cssContent.value));
      }
    }

    /** The render loop of `compileCss`; returns the error the final callback sees. */
    method EmitCss(o: Externals, accs: seq<StyleStage.Accumulated>) returns (err: Option<string>)
      requires Valid()
      modifies this
      ensures Valid()
      ensures Snapshot() == StyleStage.EmitAll(o, old(Snapshot()), accs).store
      ensures err == StyleStage.EmitAll(o, old(Snapshot()), accs).error
    {
      ghost var sp := Snapshot();
      err := None;
      var k := 0;
      while k < |accs|
        invariant 0 <= k <= |accs|
        invariant Valid()
        invariant Snapshot() == StyleStage.EmitAll(o, sp, accs[..k]).store
        invariant err == StyleStage.EmitAll(o, sp, accs[..k]).error
      {
        StyleStage.EmitStep(o, sp, accs, k);
        var e := EmitCssOne(o, accs[k]);
        if err.None? {
          err := e;
        }
        k := k + 1;
      }
      assert accs[..|accs|] == accs;
    }

    /** `compileCss`: gather and delete every bundle's sources, then emit each
        bundle; returns whether the final callback calls `next`. */
    method CompileCss(o: Externals, g: Groups) returns (completed: bool)
      requires Valid() && StyleStage.Gatherable(Snapshot(), g)
      modifies this
      ensures Valid()
      ensures Snapshot() == StyleStage.Stage(o, old(Snapshot()), g).store
      ensures completed == StyleStage.Stage(o, old(Snapshot()), g).error.None?
    {
      var accs := GatherCssAll(o, g);
      var err := EmitCss(o, accs);
      completed := err.None?;
    }

    /** `compileOthers`: does nothing. */
    method CompileOthers(g: Groups)
      ensures Snapshot() == old(Snapshot())
    {
    }

    /** `minify`: returns whether the completion callback is reached. */
    method Minify(o: Externals) returns (completed: bool)
      requires Valid() && Admissible(Snapshot()) && TagsDefined(o, Snapshot())
      modifies this
      ensures Valid()
      ensures Snapshot() == Outcome(o, old(Snapshot())).store
      ensures completed == Outcome(o, old(Snapshot())).completed
    {
      ghost var st0 := Snapshot();
      var c := Classify();
      assert c == Groups0(st0);
      var manifests := CreateManifest(o);
      MergeManifests(manifests);
      assert Snapshot() == AfterManifests(o, st0);
      ManifestsKeep(o, st0);
      GroupPresent(c.js, st0.keys, st0.entries, Script, entries);
      CompileJs(o, c.js);
      assert Snapshot() == AfterJs(o, st0).store;
      StyleInputs(o, st0);
      completed := CompileCss(o, c.css);
      if completed {
        CompileOthers(c.other);
      }
    }
  }
}
