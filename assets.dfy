/** The data the pipeline of src/Minify.js works on: asset records, the ordered
    `staticAssets` dictionary, and the foreign functions the code calls. */
module AssetModel {
  import opened Hash

  datatype Option<T> = None | Some(value: T)

  /** `'' + v` in a string concatenation: an absent property reads "undefined". */
  function Str(v: Option<string>): string {
    if v.Some? then v.value else "undefined"
  }

  /** `v || ''`. */
  function OrEmpty(v: Option<string>): string {
    if v.Some? then v.value else ""
  }

  /** JavaScript truthiness of a property holding a string or nothing. */
  predicate Truthy(v: Option<string>) {
    v.Some? && v.value != ""
  }

  /** One element of a manifest's `files` list. */
  datatype FileRecord = FileRecord(
    key: string,
    relativePath: string,
    content: Option<string>,
    path: Option<string>,
    kind: Option<string>)

  /** An entry of `staticAssets`. Every property may be absent (`None`).
      `kind` is the property the source calls `type`. */
  datatype Asset = Asset(
    kind: Option<string>,
    bundleKey: Option<string>,
    serviceName: Option<string>,
    buildNumber: Option<string>,
    tag: Option<string>,
    path: Option<string>,
    content: Option<string>,
    commit: Option<string>,
    repo: Option<string>,
    basePath: Option<string>,
    asset: Option<string>,
    assetPath: Option<string>,
    extname: Option<string>,
    mimeType: Option<string>,
    hash: Option<string>,
    assetType: Option<string>,
    isMinifiedFragment: Option<bool>,
    files: Option<seq<FileRecord>>)

  /** The empty object literal `{}`. */
  const Blank: Asset := Asset(None, None, None, None, None, None, None, None, None,
                             None, None, None, None, None, None, None, None, None)

  /** `b` agrees with `a` on every property the JS and CSS stages never assign. */
  predicate KeepsUnassigned(a: Asset, b: Asset) {
    && b.bundleKey == a.bundleKey && b.commit == a.commit && b.repo == a.repo
    && b.basePath == a.basePath && b.asset == a.asset && b.assetPath == a.assetPath
    && b.assetType == a.assetType && b.isMinifiedFragment == a.isMinifiedFragment && b.files == a.files
  }

  /** The `serviceName`/`buildNumber`/`tag` triple a bundle is keyed by. */
  datatype Meta = Meta(serviceName: Option<string>, buildNumber: Option<string>, tag: Option<string>)

  const NoMeta: Meta := Meta(None, None, None)

  function MetaOf(a: Asset): Meta {
    Meta(a.serviceName, a.buildNumber, a.tag)
  }

  /** What `UglifyJS.minify` does: return code and a source map, or throw. */
  datatype MinifyOutcome = Minified(code: string, sourceMap: string) | MinifyThrew

  /** What `sass.render` reports to its callback: rendered text or an error. */
  datatype RenderOutcome = Rendered(css: string) | RenderFailed

  /** `createKey` of ./AssetHelper, applied to six possibly absent values. */
  type KeyFn = (Option<string>, Option<string>, Option<string>, Option<string>, Option<string>, Option<string>) -> string

  /** The code outside the core, as deterministic functions. `uglify` and
      `cleanCss` have the configuration (`js:uglify`, `css:clean`) built in;
      `cleanCss` is `None` when `css:clean` is not enabled. */
  datatype Externals = Externals(
    sha1: string -> HexDigest,
    createKey: KeyFn,
    join: (string, string, string) -> string,
    extname: string -> string,
    readFile: string -> string,
    uglify: (seq<Option<string>>, string) -> MinifyOutcome,
    sassRender: string -> RenderOutcome,
    cleanCss: Option<string -> string>)

  /** `createHash(code)` with the digest supplied by `o.sha1`. */
  function CreateHash(o: Externals, code: string): (h: string)
    ensures |h| == 7 && forall i | 0 <= i < 7 :: InHashAlphabet(h[i]) && !IsVowel(h[i])
  {
    ContentHash(o.sha1(code))
  }

  predicate Distinct(s: seq<string>) {
    forall i, j | 0 <= i < j < |s| :: s[i] != s[j]
  }

  /** The `staticAssets` object: its keys in iteration order and its entries. */
  datatype Store = Store(keys: seq<string>, entries: map<string, Asset>)

  /** Each key once, and exactly the keys that have entries. */
  predicate WellFormed(st: Store) {
    && Distinct(st.keys)
    && (forall k | k in st.keys :: k in st.entries)
    && (forall k | k in st.entries :: k in st.keys)
  }

  /** `keys` without `x`, in the same order. */
  function Remove(s: seq<string>, x: string): (r: seq<string>)
    ensures forall y :: y in r <==> y in s && y != x
    ensures Distinct(s) ==> Distinct(r)
    ensures x !in s ==> r == s
  {
    if s == [] then []
    else if s[0] == x then Remove(s[1..], x)
    else
      var rest := Remove(s[1..], x);
      assert Distinct(s) ==> s[0] !in s[1..];
      [s[0]] + rest
  }

  /** Removing a key of a duplicate-free sequence splices it out where it stands. */
  lemma {:induction false} RemoveAt(s: seq<string>, x: string, i: int)
    requires Distinct(s) && 0 <= i < |s| && s[i] == x
    ensures Remove(s, x) == s[..i] + s[i+1..]
  {
    if i == 0 {
      assert x !in s[1..];
    } else {
      assert s[0] != x;
      RemoveAt(s[1..], x, i - 1);
      assert s[1..][..i-1] == s[1..i] && s[1..][i..] == s[i+1..];
      assert [s[0]] + s[1..i] == s[..i];
    }
  }

  /** `staticAssets[k] = a`: an existing key keeps its place, a new one goes last. */
  function Put(st: Store, k: string, a: Asset): (r: Store)
    ensures WellFormed(st) ==> WellFormed(r)
    ensures r.entries == st.entries[k := a]
    ensures k in st.entries ==> r.keys == st.keys
    ensures k !in st.entries ==> r.keys == st.keys + [k]
  {
    if k in st.entries then Store(st.keys, st.entries[k := a])
    else Store(st.keys + [k], st.entries[k := a])
  }

  /** `delete staticAssets[k]`; deleting an absent key changes nothing. */
  function Delete(st: Store, k: string): (r: Store)
    ensures WellFormed(st) ==> WellFormed(r)
    ensures r.entries == st.entries - {k}
  {
    Store(Remove(st.keys, k), st.entries - {k})
  }

  /** `staticAssets[k] || {}`: an existing entry is an object, hence truthy. */
  function Existing(st: Store, k: string): Asset {
    if k in st.entries then st.entries[k] else Blank
  }
}
