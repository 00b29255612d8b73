/** The classification pass of `minify` (src/Minify.js): every asset goes,
    by its `type`, into `jsAssets`, `cssAssets` or `otherAssets`, each a
    dictionary `bundleKey -> assetKey -> path`. */
module Classify {
  import opened AssetModel

  /** One `assetKey -> path` property of a bundle's inner dictionary. */
  datatype FileRef = FileRef(key: string, path: Option<string>)

  /** `group[bundleKey]`: the files of one bundle, in insertion order. */
  datatype Bundle = Bundle(bundleKey: string, files: seq<FileRef>)

  /** `jsAssets`, `cssAssets` or `otherAssets`: bundles in insertion order. */
  type Groups = seq<Bundle>

  datatype Kind = Script | Style | Other

  /** `asset.type === 'js'`, `asset.type === 'css'`, anything else. */
  function KindOf(a: Asset): Kind {
    if a.kind == Some("js") then Script
    else if a.kind == Some("css") then Style
    else Other
  }

  /** The property name `asset.bundleKey` becomes; `undefined` turns into "undefined". */
  function BundleName(bk: Option<string>): string {
    Str(bk)
  }

  datatype Classified = Classified(js: Groups, css: Groups, other: Groups)

  function Select(c: Classified, kind: Kind): Groups {
    match kind
    case Script => c.js
    case Style => c.css
    case Other => c.other
  }

  /** `bk in group`: the position of the bundle named `bk`, or `|g|` when there is none. */
  function BundleIndex(g: Groups, bk: string): (i: nat)
    ensures i <= |g|
    ensures i < |g| ==> g[i].bundleKey == bk
    ensures forall j | 0 <= j < i :: g[j].bundleKey != bk
  {
    if g == [] then 0
    else if g[0].bundleKey == bk then 0
    else 1 + BundleIndex(g[1..], bk)
  }

  /** `if (!(bk in group)) group[bk] = {}; group[bk][f.key] = f.path;`
      The keys of one object are distinct, so the inner assignment always adds
      a new property at the end. */
  function AddToGroup(g: Groups, bk: string, f: FileRef): (r: Groups)
    ensures |r| == if BundleIndex(g, bk) < |g| then |g| else |g| + 1
    ensures forall i | 0 <= i < |r| :: r[i].bundleKey == if i < |g| then g[i].bundleKey else bk
    ensures forall i | 0 <= i < |r| ::
      r[i].files == (if i < |g| then g[i].files else []) + (if i == BundleIndex(g, bk) then [f] else [])
  {
    var i := BundleIndex(g, bk);
    if i < |g| then g[i := Bundle(bk, g[i].files + [f])]
    else g + [Bundle(bk, [f])]
  }

  /** One iteration of the `_.map` callback: only the group of the asset's
      kind changes, and it gains the asset under its bundle name. */
  function Place(c: Classified, key: string, a: Asset): (r: Classified)
    ensures forall kind | kind != KindOf(a) :: Select(r, kind) == Select(c, kind)
    ensures Select(r, KindOf(a)) == AddToGroup(Select(c, KindOf(a)), BundleName(a.bundleKey), FileRef(key, a.path))
  {
    var f := FileRef(key, a.path);
    var bk := BundleName(a.bundleKey);
    match KindOf(a)
    case Script => c.(js := AddToGroup(c.js, bk, f))
    case Style => c.(css := AddToGroup(c.css, bk, f))
    case Other => c.(other := AddToGroup(c.other, bk, f))
  }

  /** The three groups after the pass over `keys`, in iteration order. A
      bundle exists only because a file was put in it, so none is empty. */
  function Partition(keys: seq<string>, entries: map<string, Asset>): (c: Classified)
    requires forall k | k in keys :: k in entries
    ensures forall kind: Kind, i | 0 <= i < |Select(c, kind)| :: |Select(c, kind)[i].files| > 0
  {
    if keys == [] then Classified([], [], [])
    else
      var last := keys[|keys| - 1];
      Place(Partition(keys[..|keys| - 1], entries), last, entries[last])
  }

  /** The file `f` of bundle `b` is the asset `f.key` of the given kind, under
      that asset's bundle name and with that asset's path. */
  predicate Listed(b: Bundle, f: FileRef, entries: map<string, Asset>, kind: Kind) {
    && f.key in entries
    && KindOf(entries[f.key]) == kind
    && f.path == entries[f.key].path
    && b.bundleKey == BundleName(entries[f.key].bundleKey)
  }

  /** Every file listed in `g` is one of `keys`, listed as it should be. */
  predicate Sound(g: Groups, keys: seq<string>, entries: map<string, Asset>, kind: Kind) {
    forall i, j | 0 <= i < |g| && 0 <= j < |g[i].files| ::
      g[i].files[j].key in keys && Listed(g[i], g[i].files[j], entries, kind)
  }

  /** The asset key `k` is listed somewhere in `g`. */
  ghost predicate InGroups(g: Groups, k: string) {
    exists i, j | 0 <= i < |g| && 0 <= j < |g[i].files| :: g[i].files[j].key == k
  }

  /** Every asset of `keys` of the given kind is listed in `g`. */
  ghost predicate Complete(g: Groups, keys: seq<string>, entries: map<string, Asset>, kind: Kind) {
    forall k | k in keys && k in entries && KindOf(entries[k]) == kind :: InGroups(g, k)
  }

  /** No asset key is listed twice. */
  predicate Unique(g: Groups) {
    forall i1, j1, i2, j2 |
      && 0 <= i1 < |g| && 0 <= j1 < |g[i1].files|
      && 0 <= i2 < |g| && 0 <= j2 < |g[i2].files|
      && g[i1].files[j1].key == g[i2].files[j2].key
      :: i1 == i2 && j1 == j2
  }

  /** No bundle name occurs twice. */
  predicate DistinctBundles(g: Groups) {
    forall i1, i2 | 0 <= i1 < i2 < |g| :: g[i1].bundleKey != g[i2].bundleKey
  }

  /** `g` is exactly the group of the given kind for the assets `keys`. */
  ghost predicate Describes(g: Groups, keys: seq<string>, entries: map<string, Asset>, kind: Kind) {
    Sound(g, keys, entries, kind) && Complete(g, keys, entries, kind) && Unique(g) && DistinctBundles(g)
  }

  /** Every position of a grown group holds an old file or the added one. */
  lemma AddPositions(g: Groups, bk: string, f: FileRef)
    ensures var r, idx := AddToGroup(g, bk, f), BundleIndex(g, bk);
      forall i, j | 0 <= i < |r| && 0 <= j < |r[i].files| ::
        || (i == idx && j == |r[i].files| - 1 && r[i].files[j] == f)
        || (i < |g| && j < |g[i].files| && r[i].files[j] == g[i].files[j])
  {
  }

  lemma AddSound(g: Groups, pre: seq<string>, entries: map<string, Asset>, kind: Kind, k: string)
    requires Sound(g, pre, entries, kind)
    requires k in entries && KindOf(entries[k]) == kind
    ensures Sound(AddToGroup(g, BundleName(entries[k].bundleKey), FileRef(k, entries[k].path)), pre + [k], entries, kind)
  {
    var bk := BundleName(entries[k].bundleKey);
    var r := AddToGroup(g, bk, FileRef(k, entries[k].path));
    AddPositions(g, bk, FileRef(k, entries[k].path));
    forall i, j | 0 <= i < |r| && 0 <= j < |r[i].files|
      ensures r[i].files[j].key in pre + [k] && Listed(r[i], r[i].files[j], entries, kind)
    {
      if !(i < |g| && j < |g[i].files| && r[i].files[j] == g[i].files[j]) {
        assert r[i].bundleKey == bk;
      }
    }
  }

  lemma AddComplete(g: Groups, pre: seq<string>, entries: map<string, Asset>, kind: Kind, k: string)
    requires Complete(g, pre, entries, kind)
    requires k in entries && KindOf(entries[k]) == kind
    ensures Complete(AddToGroup(g, BundleName(entries[k].bundleKey), FileRef(k, entries[k].path)), pre + [k], entries, kind)
  {
    var bk := BundleName(entries[k].bundleKey);
    var r := AddToGroup(g, bk, FileRef(k, entries[k].path));
    var idx := BundleIndex(g, bk);
    forall k' | k' in pre + [k] && k' in entries && KindOf(entries[k']) == kind
      ensures InGroups(r, k')
    {
      if k' == k {
        assert r[idx].files[|r[idx].files| - 1].key == k;
      } else {
        assert k' in pre;
        var i, j :| 0 <= i < |g| && 0 <= j < |g[i].files| && g[i].files[j].key == k';
        assert r[i].files[j] == g[i].files[j];
      }
    }
  }

  lemma AddUnique(g: Groups, pre: seq<string>, entries: map<string, Asset>, kind: Kind, k: string, bk: string, p: Option<string>)
    requires Sound(g, pre, entries, kind) && Unique(g) && k !in pre
    ensures Unique(AddToGroup(g, bk, FileRef(k, p)))
  {
    var r := AddToGroup(g, bk, FileRef(k, p));
    AddPositions(g, bk, FileRef(k, p));
    forall i1, j1, i2, j2 |
      && 0 <= i1 < |r| && 0 <= j1 < |r[i1].files|
      && 0 <= i2 < |r| && 0 <= j2 < |r[i2].files|
      && r[i1].files[j1].key == r[i2].files[j2].key
      ensures i1 == i2 && j1 == j2
    {
      var new1 := !(i1 < |g| && j1 < |g[i1].files| && r[i1].files[j1] == g[i1].files[j1]);
      var new2 := !(i2 < |g| && j2 < |g[i2].files| && r[i2].files[j2] == g[i2].files[j2]);
      if new1 && !new2 {
        assert g[i2].files[j2].key in pre;
      } else if new2 && !new1 {
        assert g[i1].files[j1].key in pre;
      }
    }
  }

  lemma AddDistinctBundles(g: Groups, bk: string, f: FileRef)
    requires DistinctBundles(g)
    ensures DistinctBundles(AddToGroup(g, bk, f))
  {
  }

  /** Adding the asset `k` to the group of its own kind keeps the group exact. */
  lemma AddToGroupDescribes(g: Groups, pre: seq<string>, entries: map<string, Asset>, kind: Kind, k: string)
    requires Describes(g, pre, entries, kind)
    requires k !in pre && k in entries && KindOf(entries[k]) == kind
    ensures Describes(AddToGroup(g, BundleName(entries[k].bundleKey), FileRef(k, entries[k].path)), pre + [k], entries, kind)
  {
    AddSound(g, pre, entries, kind, k);
    AddComplete(g, pre, entries, kind, k);
    AddUnique(g, pre, entries, kind, k, BundleName(entries[k].bundleKey), entries[k].path);
    AddDistinctBundles(g, BundleName(entries[k].bundleKey), FileRef(k, entries[k].path));
  }

  /** The pass leaves the groups of the other kinds as they were, and they stay exact. */
  lemma OtherGroupDescribes(g: Groups, pre: seq<string>, entries: map<string, Asset>, kind: Kind, k: string)
    requires Describes(g, pre, entries, kind)
    requires k in entries && KindOf(entries[k]) != kind
    ensures Describes(g, pre + [k], entries, kind)
  {
  }

  /** Each of the three groups lists exactly the assets of its kind, each once,
      under its own `bundleKey` and mapped to its own `path`. */
  lemma {:induction false} PartitionDescribes(keys: seq<string>, entries: map<string, Asset>)
    requires Distinct(keys) && forall k | k in keys :: k in entries
    ensures Describes(Partition(keys, entries).js, keys, entries, Script)
    ensures Describes(Partition(keys, entries).css, keys, entries, Style)
    ensures Describes(Partition(keys, entries).other, keys, entries, Other)
  {
    GroupDescribes(keys, entries, Script);
    GroupDescribes(keys, entries, Style);
    GroupDescribes(keys, entries, Other);
  }

  /** The group of one kind lists exactly the assets of that kind. */
  lemma {:induction false} GroupDescribes(keys: seq<string>, entries: map<string, Asset>, kind: Kind)
    requires Distinct(keys) && forall k | k in keys :: k in entries
    ensures Describes(Select(Partition(keys, entries), kind), keys, entries, kind)
  {
    if keys != [] {
      var pre, k := keys[..|keys| - 1], keys[|keys| - 1];
      assert keys == pre + [k];
      assert Distinct(pre);
      assert k !in pre;
      GroupDescribes(pre, entries, kind);
      var g := Select(Partition(pre, entries), kind);
      if KindOf(entries[k]) == kind {
        AddToGroupDescribes(g, pre, entries, kind, k);
      } else {
        OtherGroupDescribes(g, pre, entries, kind, k);
      }
    }
  }

  /** The assets among `keys`, in order, of the given kind and under the
      bundle name `bk`, as the files of that bundle list them. */
  function Members(keys: seq<string>, entries: map<string, Asset>, kind: Kind, bk: string): seq<FileRef>
    requires forall k | k in keys :: k in entries
  {
    if keys == [] then []
    else
      var k := keys[|keys| - 1];
      var a := entries[k];
      Members(keys[..|keys| - 1], entries, kind, bk) +
        if KindOf(a) == kind && BundleName(a.bundleKey) == bk then [FileRef(k, a.path)] else []
  }

  /** Each bundle of `g` lists the members of its name among `keys`, no
      name is used twice, and a name without a bundle has no members. */
  ghost predicate InOrder(g: Groups, keys: seq<string>, entries: map<string, Asset>, kind: Kind)
    requires forall k | k in keys :: k in entries
  {
    && DistinctBundles(g)
    && (forall i | 0 <= i < |g| :: g[i].files == Members(keys, entries, kind, g[i].bundleKey))
    && (forall bk | BundleIndex(g, bk) == |g| :: Members(keys, entries, kind, bk) == [])
  }

  /** Adding the next asset of the group's kind keeps the group in order. */
  lemma AddInOrder(g0: Groups, keys: seq<string>, entries: map<string, Asset>, kind: Kind)
    requires |keys| > 0 && forall k | k in keys :: k in entries
    requires var k := keys[|keys| - 1]; KindOf(entries[k]) == kind
    requires InOrder(g0, keys[..|keys| - 1], entries, kind)
    ensures var k := keys[|keys| - 1];
      InOrder(AddToGroup(g0, BundleName(entries[k].bundleKey), FileRef(k, entries[k].path)), keys, entries, kind)
  {
    var k := keys[|keys| - 1];
    var bk0 := BundleName(entries[k].bundleKey);
    var f := FileRef(k, entries[k].path);
    var g := AddToGroup(g0, bk0, f);
    var idx := BundleIndex(g0, bk0);
    AddDistinctBundles(g0, bk0, f);
    forall i | 0 <= i < |g| ensures g[i].files == Members(keys, entries, kind, g[i].bundleKey) {
      if i < |g0| {
        assert i == idx <==> g0[i].bundleKey == bk0;
      }
    }
    forall bk | BundleIndex(g, bk) == |g| ensures Members(keys, entries, kind, bk) == [] {
      if bk == bk0 || BundleIndex(g0, bk) < |g0| {
        assert false;
      }
    }
  }

  /** An asset of another kind leaves the group in order. */
  lemma OtherInOrder(g: Groups, keys: seq<string>, entries: map<string, Asset>, kind: Kind)
    requires |keys| > 0 && forall k | k in keys :: k in entries
    requires KindOf(entries[keys[|keys| - 1]]) != kind
    requires InOrder(g, keys[..|keys| - 1], entries, kind)
    ensures InOrder(g, keys, entries, kind)
  {
  }

  /** Each bundle lists its members in iteration order, and a bundle name
      that has no bundle has no members. */
  lemma {:induction false} PartitionOrder(keys: seq<string>, entries: map<string, Asset>, kind: Kind)
    requires forall k | k in keys :: k in entries
    ensures InOrder(Select(Partition(keys, entries), kind), keys, entries, kind)
  {
    if keys != [] {
      var pre, k := keys[..|keys| - 1], keys[|keys| - 1];
      PartitionOrder(pre, entries, kind);
      var g0 := Select(Partition(pre, entries), kind);
      if KindOf(entries[k]) == kind {
        AddInOrder(g0, keys, entries, kind);
        assert Select(Partition(keys, entries), kind) ==
          AddToGroup(g0, BundleName(entries[k].bundleKey), FileRef(k, entries[k].path));
      } else {
        OtherInOrder(g0, keys, entries, kind);
        assert Select(Partition(keys, entries), kind) == g0;
      }
    }
  }

  /** A file found in an exact group has that group's kind. */
  lemma ListedKind(g: Groups, keys: seq<string>, entries: map<string, Asset>, kind: Kind, k: string)
    requires Sound(g, keys, entries, kind) && InGroups(g, k)
    ensures k in entries && KindOf(entries[k]) == kind
  {
    var i, j :| 0 <= i < |g| && 0 <= j < |g[i].files| && g[i].files[j].key == k;
    assert Listed(g[i], g[i].files[j], entries, kind);
  }

  /** Every asset lands in exactly one group, the one its `type` selects. */
  lemma ClassifiedOnce(keys: seq<string>, entries: map<string, Asset>, k: string)
    requires Distinct(keys) && (forall k | k in keys :: k in entries) && k in keys
    ensures InGroups(Partition(keys, entries).js, k) <==> KindOf(entries[k]) == Script
    ensures InGroups(Partition(keys, entries).css, k) <==> KindOf(entries[k]) == Style
    ensures InGroups(Partition(keys, entries).other, k) <==> KindOf(entries[k]) == Other
  {
    PartitionDescribes(keys, entries);
    var c := Partition(keys, entries);
    if InGroups(c.js, k) { ListedKind(c.js, keys, entries, Script, k); }
    if InGroups(c.css, k) { ListedKind(c.css, keys, entries, Style, k); }
    if InGroups(c.other, k) { ListedKind(c.other, keys, entries, Other, k); }
  }

  /** The asset keys of one bundle's files. */
  function FileKeys(files: seq<FileRef>): set<string> {
    set j | 0 <= j < |files| :: files[j].key
  }

  /** The asset keys listed anywhere in `g`. */
  function KeySet(g: Groups): set<string> {
    set i, j | 0 <= i < |g| && 0 <= j < |g[i].files| :: g[i].files[j].key
  }

  /** Every listed asset key has an entry. */
  predicate AllPresent(g: Groups, entries: map<string, Asset>) {
    forall i, j | 0 <= i < |g| && 0 <= j < |g[i].files| :: g[i].files[j].key in entries
  }

  predicate DistinctFiles(files: seq<FileRef>) {
    forall j1, j2 | 0 <= j1 < j2 < |files| :: files[j1].key != files[j2].key
  }

  /** A prefix of well-formed groups is well-formed. */
  lemma PrefixGroups(g: Groups, n: nat, entries: map<string, Asset>)
    requires n <= |g|
    ensures Unique(g) ==> Unique(g[..n])
    ensures AllPresent(g, entries) ==> AllPresent(g[..n], entries)
  {
    assert forall i | 0 <= i < n :: g[..n][i] == g[i];
  }

  /** The keys of the last bundle are its own and occur in no earlier bundle. */
  lemma LastBundle(g: Groups)
    requires |g| > 0 && Unique(g)
    ensures Unique(g[..|g| - 1])
    ensures DistinctFiles(g[|g| - 1].files)
    ensures KeySet(g) == KeySet(g[..|g| - 1]) + FileKeys(g[|g| - 1].files)
    ensures KeySet(g[..|g| - 1]) !! FileKeys(g[|g| - 1].files)
  {
    var n := |g| - 1;
    var pre := g[..n];
    forall k | k in KeySet(g) ensures k in KeySet(pre) + FileKeys(g[n].files) {
      var i, j :| 0 <= i < |g| && 0 <= j < |g[i].files| && g[i].files[j].key == k;
      if i < n { assert pre[i].files[j].key == k; }
    }
    forall k | k in KeySet(pre) ensures k in KeySet(g) && k !in FileKeys(g[n].files) {
      var i, j :| 0 <= i < |pre| && 0 <= j < |pre[i].files| && pre[i].files[j].key == k;
      assert g[i].files[j].key == k;
    }
    forall k | k in FileKeys(g[n].files) ensures k in KeySet(g) {
      var j :| 0 <= j < |g[n].files| && g[n].files[j].key == k;
      assert g[n].files[j].key == k;
    }
  }

  /** The keys of the last file are its own and occur in no earlier file. */
  lemma LastFile(files: seq<FileRef>)
    requires |files| > 0 && DistinctFiles(files)
    ensures DistinctFiles(files[..|files| - 1])
    ensures FileKeys(files) == FileKeys(files[..|files| - 1]) + {files[|files| - 1].key}
    ensures files[|files| - 1].key !in FileKeys(files[..|files| - 1])
  {
    var n := |files| - 1;
    forall k | k in FileKeys(files) ensures k in FileKeys(files[..n]) + {files[n].key} {
      var j :| 0 <= j < |files| && files[j].key == k;
      if j < n { assert files[..n][j].key == k; }
    }
  }
}
