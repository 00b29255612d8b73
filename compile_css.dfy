/** `compileCss` of src/Minify.js: first every CSS bundle's files are read into
    a `.css` and a `.scss` accumulator and their entries deleted; then each
    bundle is rendered and either emits one content-hashed entry or reports
    'No css for tag ...'. */
module StyleStage {
  import opened AssetModel
  import opened Classify

  /** The `compiled` object one bundle pushes onto `compiledCss`. */
  datatype Accumulated = Accumulated(css: string, scss: string, count: nat, meta: Meta)

  /** `path.extname` and `fs.readFileSync` need a path on every file. */
  predicate PathsDefined(files: seq<FileRef>) {
    forall j | 0 <= j < |files| :: files[j].path.Some?
  }

  datatype Gathered = Gathered(store: Store, acc: Accumulated)

  /** The accumulator after one more file `p` with metadata `m`: the text
      only grows at the end, at most one of `css` and `scss` grows, and the
      file is counted whatever its extension. */
  function AddFile(o: Externals, a: Accumulated, p: string, m: Meta): (r: Accumulated)
    ensures a.css <= r.css && a.scss <= r.scss
    ensures r.css == a.css || r.scss == a.scss
    ensures r.count == a.count + 1 && r.meta == m
  {
    Accumulated(
      if o.extname(p) == ".css" then a.css + o.readFile(p) else a.css,
      if o.extname(p) != ".css" && o.extname(p) == ".scss" then a.scss + o.readFile(p) else a.scss,
      a.count + 1,
      m)
  }

  /** The `_.forOwn(files, ...)` loop of one bundle. */
  function Gather(o: Externals, st: Store, files: seq<FileRef>): (r: Gathered)
    requires WellFormed(st) && DistinctFiles(files) && PathsDefined(files)
    requires forall j | 0 <= j < |files| :: files[j].key in st.entries
    ensures WellFormed(r.store)
    ensures r.store.entries == st.entries - FileKeys(files)
  {
    if files == [] then Gathered(st, Accumulated("", "", 0, NoMeta))
    else
      var pre, f := files[..|files| - 1], files[|files| - 1];
      LastFile(files);
      var g := Gather(o, st, pre);
      assert (st.entries - FileKeys(pre)) - {f.key} == st.entries - FileKeys(files);
      Gathered(Delete(g.store, f.key), AddFile(o, g.acc, f.path.value, MetaOf(g.store.entries[f.key])))
  }

  /** `Gather` over a non-empty list is one more iteration after its prefix. */
  lemma GatherUnfold(o: Externals, st: Store, files: seq<FileRef>)
    requires WellFormed(st) && DistinctFiles(files) && PathsDefined(files) && |files| > 0
    requires forall i | 0 <= i < |files| :: files[i].key in st.entries
    ensures DistinctFiles(files[..|files| - 1]) && PathsDefined(files[..|files| - 1])
    ensures var g, f := Gather(o, st, files[..|files| - 1]), files[|files| - 1];
      && f.key in g.store.entries
      && Gather(o, st, files) ==
         Gathered(Delete(g.store, f.key), AddFile(o, g.acc, f.path.value, MetaOf(g.store.entries[f.key])))
  {
    LastFile(files);
  }

  /** One more iteration of the loop: the next file is still present, and the
      state is its deletion with the accumulator extended by that file. */
  lemma GatherStep(o: Externals, st: Store, files: seq<FileRef>, j: nat)
    requires WellFormed(st) && DistinctFiles(files) && PathsDefined(files) && j < |files|
    requires forall i | 0 <= i < |files| :: files[i].key in st.entries
    ensures DistinctFiles(files[..j]) && PathsDefined(files[..j])
    ensures DistinctFiles(files[..j + 1]) && PathsDefined(files[..j + 1])
    ensures var g, f := Gather(o, st, files[..j]), files[j];
      && f.key in g.store.entries
      && Gather(o, st, files[..j + 1]) ==
         Gathered(Delete(g.store, f.key), AddFile(o, g.acc, f.path.value, MetaOf(g.store.entries[f.key])))
  {
    var h := files[..j + 1];
    assert forall i | 0 <= i < j + 1 :: h[i] == files[i];
    assert h[..j] == files[..j];
    GatherUnfold(o, st, h);
  }

  /** The contents of the files with extension `ext`, in order. */
  function Contents(o: Externals, files: seq<FileRef>, ext: string): seq<string>
    requires PathsDefined(files)
  {
    if files == [] then []
    else
      var p := files[0].path.value;
      (if o.extname(p) == ext then [o.readFile(p)] else []) + Contents(o, files[1..], ext)
  }

  function Concat(ss: seq<string>): string {
    if ss == [] then "" else ss[0] + Concat(ss[1..])
  }

  lemma {:induction false} ConcatSnoc(ss: seq<string>, s: string)
    ensures Concat(ss + [s]) == Concat(ss) + s
  {
    if ss != [] {
      assert (ss + [s])[1..] == ss[1..] + [s];
      ConcatSnoc(ss[1..], s);
    }
  }

  lemma {:induction false} ContentsSnoc(o: Externals, files: seq<FileRef>, f: FileRef, ext: string)
    requires PathsDefined(files) && f.path.Some?
    ensures PathsDefined(files + [f])
    ensures Contents(o, files + [f], ext) ==
      Contents(o, files, ext) + (if o.extname(f.path.value) == ext then [o.readFile(f.path.value)] else [])
  {
    assert PathsDefined(files + [f]);
    if files != [] {
      assert (files + [f])[1..] == files[1..] + [f];
      ContentsSnoc(o, files[1..], f, ext);
    }
  }

  /** `acc` is what the loop over `files` accumulates: `css` is the `.css`
      files' contents and `scss` the `.scss` files' contents, each concatenated
      in order; a file with any other extension adds nothing but is still
      counted; the metadata is the last file's. */
  predicate AccumulatedFrom(o: Externals, entries: map<string, Asset>, files: seq<FileRef>, acc: Accumulated)
    requires PathsDefined(files)
    requires forall j | 0 <= j < |files| :: files[j].key in entries
  {
    && acc.css == Concat(Contents(o, files, ".css"))
    && acc.scss == Concat(Contents(o, files, ".scss"))
    && acc.count == |files|
    && acc.meta == if files == [] then NoMeta else MetaOf(entries[files[|files| - 1].key])
  }

  /** The loop over one bundle's files accumulates as `AccumulatedFrom` says. */
  lemma {:induction false} GatherSpec(o: Externals, st: Store, files: seq<FileRef>)
    requires WellFormed(st) && DistinctFiles(files) && PathsDefined(files)
    requires forall j | 0 <= j < |files| :: files[j].key in st.entries
    ensures AccumulatedFrom(o, st.entries, files, Gather(o, st, files).acc)
  {
    if files != [] {
      var pre, f := files[..|files| - 1], files[|files| - 1];
      LastFile(files);
      assert files == pre + [f];
      GatherSpec(o, st, pre);
      var p := f.path.value;
      var c0, s0 := Contents(o, pre, ".css"), Contents(o, pre, ".scss");
      ContentsSnoc(o, pre, f, ".css");
      ContentsSnoc(o, pre, f, ".scss");
      ConcatSnoc(c0, o.readFile(p));
      ConcatSnoc(s0, o.readFile(p));
      if o.extname(p) == ".css" {
        assert Contents(o, files, ".scss") == s0;
      } else if o.extname(p) == ".scss" {
        assert Contents(o, files, ".css") == c0;
      } else {
        assert Contents(o, files, ".css") == c0;
        assert Contents(o, files, ".scss") == s0;
      }
    }
  }

  /** The final `cssContent`: the plain CSS followed by the rendered SCSS, run
      through CleanCSS when it is enabled; nothing when rendering failed. */
  function Content(o: Externals, acc: Accumulated): (c: Option<string>)
    ensures c.None? <==> o.sassRender(acc.scss).RenderFailed?
    ensures c.Some? && o.cleanCss.None? ==> acc.css <= c.value
  {
    match o.sassRender(acc.scss)
    case RenderFailed => None
    case Rendered(rendered) =>
      var c := acc.css + rendered;
      Some(if o.cleanCss.Some? then o.cleanCss.value(c) else c)
  }

  /** The bundle produces an entry: rendering succeeded and the content is not empty. */
  predicate Emits(o: Externals, acc: Accumulated) {
    Content(o, acc).Some? && |Content(o, acc).value| > 0
  }

  /** Every bundle produces an entry. */
  predicate AllEmit(o: Externals, accs: seq<Accumulated>) {
    forall i | 0 <= i < |accs| :: Emits(o, accs[i])
  }

  function NoCssMessage(acc: Accumulated): string {
    "No css for tag " + Str(acc.meta.tag)
  }

  /** `createKey(serviceName, buildNumber, tag, createHash(content), 'css', 'css')`. */
  function CssKey(o: Externals, acc: Accumulated, content: string): string {
    o.createKey(acc.meta.serviceName, acc.meta.buildNumber, acc.meta.tag,
                Some(CreateHash(o, content)), Some("css"), Some("css"))
  }

  /** The properties written on `staticAssets[assetKey]`; others of `base` stay. */
  function CssEntry(o: Externals, base: Asset, acc: Accumulated, content: string): (r: Asset)
    ensures KeepsUnassigned(base, r)
    ensures MetaOf(r) == acc.meta && KindOf(r) == Style
  {
    base.(serviceName := acc.meta.serviceName, buildNumber := acc.meta.buildNumber, path := Some(""),
          extname := Some(".css"), tag := acc.meta.tag, kind := Some("css"),
          hash := Some(CreateHash(o, content) + "." + Str(acc.meta.buildNumber)),
          mimeType := Some("text/css"), content := Some(content))
  }

  /** A store, the keys written into it, and the error reported to the final callback, if any. */
  datatype Reported = Reported(store: Store, written: set<string>, error: Option<string>)

  /** The render callback of one bundle. With content, one entry is written at
      the key derived from the content's hash, its `hash` being that hash, a
      dot and the build number; without, nothing changes and the error names
      the tag. */
  function EmitOne(o: Externals, st: Store, acc: Accumulated): (r: Reported)
    ensures WellFormed(st) ==> WellFormed(r.store)
    ensures Emits(o, acc) ==>
      var content := Content(o, acc).value;
      var key := CssKey(o, acc, content);
      && r.error == None && r.written == {key}
      && key in r.store.entries
      && r.store.entries[key].content == Some(content)
      && r.store.entries[key].hash == Some(CreateHash(o, content) + "." + Str(acc.meta.buildNumber))
      && r.store.entries[key].kind == Some("css")
      && r.store.entries[key].mimeType == Some("text/css")
      && MetaOf(r.store.entries[key]) == acc.meta
      && (forall k | k != key :: (k in r.store.entries <==> k in st.entries))
      && (forall k | k != key && k in st.entries :: r.store.entries[k] == st.entries[k])
    ensures !Emits(o, acc) ==> r == Reported(st, {}, Some(NoCssMessage(acc)))
  {
    var content := Content(o, acc);
    if content.None? || |content.value| == 0 then Reported(st, {}, Some(NoCssMessage(acc)))
    else
      var key := CssKey(o, acc, content.value);
      Reported(Put(st, key, CssEntry(o, Existing(st, key), acc, content.value)), {key}, None)
  }

  /** All render callbacks, in bundle order; every bundle runs, and only
      the keys written change. */
  function EmitAll(o: Externals, st: Store, accs: seq<Accumulated>): (r: Reported)
    ensures WellFormed(st) ==> WellFormed(r.store)
    ensures forall k | k !in r.written :: (k in r.store.entries <==> k in st.entries)
    ensures forall k | k !in r.written && k in st.entries :: r.store.entries[k] == st.entries[k]
  {
    if accs == [] then Reported(st, {}, None)
    else
      var n := |accs| - 1;
      var e0 := EmitAll(o, st, accs[..n]);
      var e1 := EmitOne(o, e0.store, accs[n]);
      Reported(e1.store, e0.written + e1.written, if e0.error.Some? then e0.error else e1.error)
  }

  /** One render callback writes at most its own key, holding a CSS entry,
      and leaves every other key as it was. */
  lemma EmitOneWritten(o: Externals, st: Store, acc: Accumulated)
    ensures var r := EmitOne(o, st, acc);
      && |r.written| <= 1
      && (forall k | k in r.written ::
            && k in r.store.entries
            && r.store.entries[k].kind == Some("css")
            && r.store.entries[k].mimeType == Some("text/css")
            && Emits(o, acc) && k == CssKey(o, acc, Content(o, acc).value))
      && (forall k | k !in r.written && k in st.entries :: k in r.store.entries && r.store.entries[k] == st.entries[k])
  {
  }

  /** The key a bundle with content writes its entry at. */
  function EmittedKey(o: Externals, acc: Accumulated): string
    requires Emits(o, acc)
  {
    CssKey(o, acc, Content(o, acc).value)
  }

  /** The keys the render callbacks write, computed from the accumulators alone. */
  function EmittedKeys(o: Externals, accs: seq<Accumulated>): set<string> {
    if accs == [] then {}
    else
      var last := accs[|accs| - 1];
      EmittedKeys(o, accs[..|accs| - 1]) + if Emits(o, last) then {EmittedKey(o, last)} else {}
  }

  lemma {:induction false} EmitAllIsEmittedKeys(o: Externals, st: Store, accs: seq<Accumulated>)
    ensures EmitAll(o, st, accs).written == EmittedKeys(o, accs)
  {
    if accs != [] {
      EmitAllIsEmittedKeys(o, st, accs[..|accs| - 1]);
    }
  }

  /** `k` is the key derived from the content of some bundle of `accs` that emits. */
  predicate EmittedBy(o: Externals, accs: seq<Accumulated>, k: string) {
    exists i | 0 <= i < |accs| :: Emits(o, accs[i]) && k == EmittedKey(o, accs[i])
  }

  /** A key comes from `accs` iff it comes from all but the last or from the last. */
  lemma EmittedBySnoc(o: Externals, accs: seq<Accumulated>, k: string)
    requires |accs| > 0
    ensures var n := |accs| - 1;
      EmittedBy(o, accs, k) <==> EmittedBy(o, accs[..n], k) || (Emits(o, accs[n]) && k == EmittedKey(o, accs[n]))
  {
    var n := |accs| - 1;
    if EmittedBy(o, accs, k) {
      var i :| 0 <= i < |accs| && Emits(o, accs[i]) && k == EmittedKey(o, accs[i]);
      if i < n {
        assert accs[..n][i] == accs[i];
      }
    }
    if EmittedBy(o, accs[..n], k) {
      var i :| 0 <= i < n && Emits(o, accs[..n][i]) && k == EmittedKey(o, accs[..n][i]);
      assert accs[..n][i] == accs[i];
    }
  }

  /** The written keys are exactly the keys derived from the content of the
      bundles that emit, at most one per bundle. */
  lemma {:induction false} EmittedKeysSpec(o: Externals, accs: seq<Accumulated>)
    ensures |EmittedKeys(o, accs)| <= |accs|
    ensures forall k :: k in EmittedKeys(o, accs) <==> EmittedBy(o, accs, k)
  {
    if accs != [] {
      var n := |accs| - 1;
      var pre := accs[..n];
      EmittedKeysSpec(o, pre);
      var w := if Emits(o, accs[n]) then {EmittedKey(o, accs[n])} else {};
      assert EmittedKeys(o, accs) == EmittedKeys(o, pre) + w;
      assert |EmittedKeys(o, pre) + w| <= |EmittedKeys(o, pre)| + |w|;
      forall k ensures k in EmittedKeys(o, accs) <==> EmittedBy(o, accs, k) {
        EmittedBySnoc(o, accs, k);
      }
    }
  }

  /** Every key of `written` holds a CSS entry of `st`. */
  predicate HoldsCss(st: Store, written: set<string>) {
    forall k | k in written ::
      && k in st.entries
      && st.entries[k].kind == Some("css")
      && st.entries[k].mimeType == Some("text/css")
  }

  /** A render callback keeps the CSS entries written before it and adds its own. */
  lemma EmitOneHoldsCss(o: Externals, st: Store, acc: Accumulated, w: set<string>)
    requires HoldsCss(st, w)
    ensures HoldsCss(EmitOne(o, st, acc).store, w + EmitOne(o, st, acc).written)
  {
    EmitOneWritten(o, st, acc);
  }

  /** Every key the render callbacks write holds a CSS entry. */
  lemma {:induction false} EmitAllWrittenKind(o: Externals, st: Store, accs: seq<Accumulated>)
    ensures HoldsCss(EmitAll(o, st, accs).store, EmitAll(o, st, accs).written)
  {
    if accs != [] {
      var n := |accs| - 1;
      EmitAllWrittenKind(o, st, accs[..n]);
      var e0 := EmitAll(o, st, accs[..n]);
      EmitOneHoldsCss(o, e0.store, accs[n], e0.written);
    }
  }

  /** The final callback sees an error exactly when some bundle has no
      content, and it is the message of the first such bundle. */
  lemma EmitAllError(o: Externals, st: Store, accs: seq<Accumulated>)
    ensures var r := EmitAll(o, st, accs);
      && (r.error.None? <==> AllEmit(o, accs))
      && (r.error.Some? ==> exists i | 0 <= i < |accs| ::
            && !Emits(o, accs[i])
            && (forall j | 0 <= j < i :: Emits(o, accs[j]))
            && r.error.value == NoCssMessage(accs[i]))
  {
    EmitAllIsFirstError(o, st, accs);
    FirstErrorSpec(o, accs);
  }

  /** The error the render callbacks report, computed from the accumulators alone. */
  function FirstError(o: Externals, accs: seq<Accumulated>): Option<string> {
    if accs == [] then None
    else
      var e := FirstError(o, accs[..|accs| - 1]);
      if e.Some? then e
      else if Emits(o, accs[|accs| - 1]) then None
      else Some(NoCssMessage(accs[|accs| - 1]))
  }

  lemma {:induction false} EmitAllIsFirstError(o: Externals, st: Store, accs: seq<Accumulated>)
    ensures EmitAll(o, st, accs).error == FirstError(o, accs)
  {
    if accs != [] {
      EmitAllIsFirstError(o, st, accs[..|accs| - 1]);
    }
  }

  lemma {:induction false} FirstErrorSpec(o: Externals, accs: seq<Accumulated>)
    ensures FirstError(o, accs).None? <==> AllEmit(o, accs)
    ensures FirstError(o, accs).Some? ==> exists i | 0 <= i < |accs| ::
      && !Emits(o, accs[i])
      && (forall j | 0 <= j < i :: Emits(o, accs[j]))
      && FirstError(o, accs).value == NoCssMessage(accs[i])
  {
    if accs != [] {
      var n := |accs| - 1;
      var pre := accs[..n];
      FirstErrorSpec(o, pre);
      assert forall i | 0 <= i < n :: pre[i] == accs[i];
      assert AllEmit(o, accs) <==> AllEmit(o, pre) && Emits(o, accs[n]);
      if FirstError(o, pre).Some? {
        var i :| 0 <= i < n && !Emits(o, pre[i]) && (forall j | 0 <= j < i :: Emits(o, pre[j]))
          && FirstError(o, pre).value == NoCssMessage(pre[i]);
        assert !Emits(o, accs[i]) && (forall j | 0 <= j < i :: Emits(o, accs[j]));
      } else if !Emits(o, accs[n]) {
        assert forall j | 0 <= j < n :: Emits(o, accs[j]);
      }
    }
  }

  /** One more render callback. */
  lemma EmitStep(o: Externals, st: Store, accs: seq<Accumulated>, k: nat)
    requires k < |accs|
    ensures var e0 := EmitAll(o, st, accs[..k]);
      var e1 := EmitOne(o, e0.store, accs[k]);
      EmitAll(o, st, accs[..k + 1]) ==
        Reported(e1.store, e0.written + e1.written, if e0.error.Some? then e0.error else e1.error)
  {
    assert accs[..k + 1][..k] == accs[..k];
  }

  /** Source keys of a style group may be read: present, listed once, with a path. */
  predicate Gatherable(st: Store, g: Groups) {
    && WellFormed(st) && AllPresent(g, st.entries) && Unique(g)
    && forall i | 0 <= i < |g| :: PathsDefined(g[i].files)
  }

  datatype Prepared = Prepared(store: Store, accs: seq<Accumulated>)

  /** The first `_.forOwn(cssAssets, ...)`: every source is deleted and one
      accumulator per bundle is pushed, each as `GatherSpec` describes. */
  function GatherAll(o: Externals, st: Store, g: Groups): (r: Prepared)
    requires Gatherable(st, g)
    ensures WellFormed(r.store)
    ensures forall k | k in KeySet(g) :: k !in r.store.entries
    ensures forall k | k !in KeySet(g) ::
      (k in r.store.entries <==> k in st.entries) && (k in st.entries ==> r.store.entries[k] == st.entries[k])
    ensures |r.accs| == |g|
  {
    if g == [] then Prepared(st, [])
    else
      var n := |g| - 1;
      LastBundle(g);
      assert Gatherable(st, g[..n]);
      var p := GatherAll(o, st, g[..n]);
      var last := g[n].files;
      forall j | 0 <= j < |last| ensures last[j].key in p.store.entries {
        assert last[j].key in FileKeys(last);
        assert last[j].key !in KeySet(g[..n]);
      }
      var b := Gather(o, p.store, g[n].files);
      Prepared(b.store, p.accs + [b.acc])
  }

  /** One more bundle of the first loop: its sources are still present. */
  lemma GatherAllStep(o: Externals, st: Store, g: Groups, i: nat)
    requires Gatherable(st, g) && i < |g|
    ensures Gatherable(st, g[..i]) && DistinctFiles(g[i].files) && PathsDefined(g[i].files)
    ensures var p := GatherAll(o, st, g[..i]);
      && (forall j | 0 <= j < |g[i].files| ::
            g[i].files[j].key in p.store.entries && p.store.entries[g[i].files[j].key] == st.entries[g[i].files[j].key])
      && GatherAll(o, st, g[..i + 1]) ==
         Prepared(Gather(o, p.store, g[i].files).store, p.accs + [Gather(o, p.store, g[i].files).acc])
  {
    var h := g[..i + 1];
    assert forall n | 0 <= n < i + 1 :: h[n] == g[n];
    assert Gatherable(st, h);
    assert h[..i] == g[..i];
    LastBundle(h);
    var p := GatherAll(o, st, g[..i]);
    forall j | 0 <= j < |g[i].files|
      ensures g[i].files[j].key in p.store.entries && p.store.entries[g[i].files[j].key] == st.entries[g[i].files[j].key]
    {
      assert g[i].files[j].key in FileKeys(h[i].files);
    }
  }

  /** The accumulator pushed for bundle `i` is the one `GatherSpec` describes,
      read from the entries as they were before the stage. */
  lemma {:induction false} GatherAllAt(o: Externals, st: Store, g: Groups, i: nat)
    requires Gatherable(st, g) && i < |g|
    ensures AccumulatedFrom(o, st.entries, g[i].files, GatherAll(o, st, g).accs[i])
  {
    var n := |g| - 1;
    GatherAllStep(o, st, g, n);
    assert g[..n + 1] == g;
    var p := GatherAll(o, st, g[..n]);
    if i == n {
      GatherSpec(o, p.store, g[n].files);
    } else {
      GatherAllAt(o, st, g[..n], i);
      assert g[..n][i] == g[i];
    }
  }

  /** Each pushed accumulator is the one `GatherSpec` describes for its bundle,
      read from the entries as they were before the stage. */
  lemma GatherAllSpec(o: Externals, st: Store, g: Groups)
    requires Gatherable(st, g)
    ensures forall i | 0 <= i < |g| :: AccumulatedFrom(o, st.entries, g[i].files, GatherAll(o, st, g).accs[i])
  {
    forall i | 0 <= i < |g| ensures AccumulatedFrom(o, st.entries, g[i].files, GatherAll(o, st, g).accs[i]) {
      GatherAllAt(o, st, g, i);
    }
  }

  /** `compileCss`: the sources of `g` are gone unless a derived entry took their
      key; any other key that was not written is unchanged; and an error
      reaches the final callback exactly when some bundle has no content. */
  function Stage(o: Externals, st: Store, g: Groups): (r: Reported)
    requires Gatherable(st, g)
    ensures WellFormed(r.store)
    ensures forall k | k in KeySet(g) && k !in r.written :: k !in r.store.entries
    ensures forall k | k !in KeySet(g) && k !in r.written ::
      (k in r.store.entries <==> k in st.entries) && (k in st.entries ==> r.store.entries[k] == st.entries[k])
    ensures forall k | k in r.store.entries :: k in st.entries || k in r.written
  {
    var p := GatherAll(o, st, g);
    EmitAll(o, p.store, p.accs)
  }

  /** What `compileCss` writes: at most one key per bundle, each holding a
      CSS entry at the key derived from the content of a bundle that emits. */
  lemma StageWritten(o: Externals, st: Store, g: Groups)
    requires Gatherable(st, g)
    ensures var r, accs := Stage(o, st, g), GatherAll(o, st, g).accs;
      && |r.written| <= |g|
      && HoldsCss(r.store, r.written)
      && forall k :: k in r.written <==> EmittedBy(o, accs, k)
  {
    var p := GatherAll(o, st, g);
    assert Stage(o, st, g) == EmitAll(o, p.store, p.accs);
    EmitAllIsEmittedKeys(o, p.store, p.accs);
    EmittedKeysSpec(o, p.accs);
    EmitAllWrittenKind(o, p.store, p.accs);
  }

  /** The final callback of `compileCss` sees an error exactly when some bundle
      has no content, and then it is the message of the first such bundle. */
  lemma StageReportsError(o: Externals, st: Store, g: Groups)
    requires Gatherable(st, g)
    ensures Stage(o, st, g).error.None? <==> AllEmit(o, GatherAll(o, st, g).accs)
    ensures Stage(o, st, g).error.Some? ==>
      var accs := GatherAll(o, st, g).accs;
      exists i | 0 <= i < |accs| ::
        && !Emits(o, accs[i])
        && (forall j | 0 <= j < i :: Emits(o, accs[j]))
        && Stage(o, st, g).error.value == NoCssMessage(accs[i])
  {
    var p := GatherAll(o, st, g);
    EmitAllError(o, p.store, p.accs);
  }
}
