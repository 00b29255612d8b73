# Asset minification in bosco

A Dafny model of `src/Minify.js` from bosco, the step that turns a service's
static assets into deployable bundles. `minify(staticAssets, next)` runs over
one mutable dictionary of assets:

1. It classifies every asset by `type` into `jsAssets`, `cssAssets` and
   `otherAssets`. Each of these is a dictionary `bundleKey -> assetKey -> path`.
2. It builds one provenance manifest per `createKey(serviceName,
   buildNumber, tag, type, 'manifest', 'txt')` and merges the manifests into
   `staticAssets`.
3. It runs three stages in series:
   - **JS:** each bundle's sources are deleted. A source-map entry and a
     minified entry are then written, the minified one keyed by its content
     hash.
   - **CSS:** every bundle's `.css` and `.scss` files are read into two
     accumulators and deleted. Each bundle is then rendered and either
     emits one content-hashed entry or reports `No css for tag …`.
   - **Others:** does nothing.

The content hash (`createHash`) is the first seven hex digits of a SHA-1
digest, with a→b, e→f, i→j, o→p and u→v.

## Layout

| file | module | what |
|---|---|---|
| `hash.dfy` | `Hash` | `createHash` on a 40-digit hex digest |
| `assets.dfy` | `AssetModel` | the asset record, the ordered dictionary `Store`, its `Put`/`Delete`, and the external functions |
| `classify.dfy` | `Classify` | the classification pass and what its groups are |
| `manifest.dfy` | `Manifest` | `createManifest` and `_.assign` |
| `compile_js.dfy` | `ScriptStage` | `compileJs` |
| `compile_css.dfy` | `StyleStage` | `compileCss` |
| `pipeline.dfy` | `Pipeline` | `minify` as a whole; `class AssetStore`, holding `staticAssets`, with one method per loop of the source |

Each loop of the source is a method of `Pipeline.AssetStore` that mutates
the fields `keys` and `entries`. Each such method is proved equal to a fold
over the same data, written as a function. `Minify` is proved to compute
`Outcome`. The properties of the source are proved as lemmas about those
functions.

### Modelling choices

- **Iteration order.** `for … in`, `_.forOwn` and `_.map` visit properties
  in insertion order. A `Store` therefore keeps its keys in a `seq` next to
  the `map`:
  - assigning a new key appends it;
  - assigning an existing key keeps its place;
  - `delete` removes it.
- **Undefined values.** A property that may be `undefined` is an
  `Option<string>`. `Str` is string conversion, where `undefined` becomes
  `"undefined"`. `OrEmpty` is `x || ''` and `Truthy` is JavaScript
  truthiness.
- **External functions.** These are fields of `Externals`: the SHA-1 hex
  digest, `createKey`, `path.join`, `path.extname`, `fs.readFileSync`,
  `UglifyJS.minify` (which either returns code and a map or throws),
  `sass.render` (which either returns CSS or fails) and the CleanCSS
  minifier (present only when `css:clean.enabled` is set).
- **Preconditions.** `Admissible` states what the source needs from its
  input to run without throwing:
  - every asset has `content`, because `createHash` hashes it;
  - every CSS asset has a `path`, because `path.extname` and
    `readFileSync` read it.

  `TagsDefined` adds what the log line of the render loop needs
  (src/Minify.js:196): `css.tag.blue` throws unless every CSS bundle's tag is
  defined. That tag is the tag of the bundle's last file, as the CSS stage
  finds it. `Outcome`, `MinifyOutcome` and `AssetStore.Minify` require both.

### Behaviour of the code the model makes explicit

- **Empty bundles are not skipped.** The guard `files.length === 0`
  (src/Minify.js:99) was evidently meant to skip empty bundles. `files` is an
  object, so `length` is undefined and the guard never fires. No bundle is
  empty anyway (`Classify.Partition`), so every bundle is compiled.
- **Relative paths use `asset`.** A manifest's relative path joins `repo`,
  `basePath` and `asset` (src/Minify.js:77-80), not `assetPath`.
- **Manifest lines have no separator.** They are concatenated with nothing
  between them (src/Minify.js:82).
- **Manifest type.** Manifests get `type: 'plain'` (src/Minify.js:68). The
  type of the first asset mapped to the manifest goes into `assetType`.
- **JS bundle metadata.** A JS bundle takes its metadata from the first
  file whose `serviceName` is truthy (src/Minify.js:108-112). When no file
  has one, it comes from the last file.
- **A CSS bundle without content stalls the pipeline.** An empty render is
  passed to the callback of `async.map` as an error (src/Minify.js:208-210).
  The final callback then warns and returns without calling `next`
  (src/Minify.js:229), so `minify`'s completion callback is never reached.
  A failed render never gets that far: `code.content` (src/Minify.js:200)
  throws, because `code` is undefined. The model treats a failed render like
  an empty one (see "Left out").
- **CSS sources are consumed first.** All CSS bundles are gathered, and
  their sources deleted, before any bundle is rendered.

## Model

| member | source | states |
|---|---|---|
| Hash.ContentHash | src/Minify.js:242-250 | The hash has exactly 7 characters, the first seven digits of the digest with the vowel shift applied. Every character is one of 0-9, b, c, d and f, and none is a vowel. |
| Hash.ReplaceAll | src/Minify.js:244-248 | A global one-character replacement keeps the length and replaces exactly the matching positions. |
| Hash.ShiftCollides | src/Minify.js:243-249 | Digests whose first seven digits agree after the vowel shift give the same hash. |
| AssetModel.CreateHash | src/Minify.js:242-250 | `createHash` of any code is 7 characters from 0-9, b, c, d and f, with no vowel. |
| AssetModel.Put | src/Minify.js:135 | A property assignment keeps the dictionary well formed and sets the entry. An existing key keeps its place in the iteration order. A new key is appended at the end. |
| AssetModel.Delete | src/Minify.js:113 | `delete` keeps the dictionary well formed and removes exactly that key. |
| AssetModel.Remove | src/Minify.js:181 | The remaining keys are exactly the old ones minus the deleted one, still each once. Deleting a key that is not there changes nothing. |
| AssetModel.RemoveAt | src/Minify.js:181 | In a duplicate-free key order, `delete` splices the key out where it stands. Every other key keeps its relative order. |
| Classify.BundleIndex | src/Minify.js:23 | `bundleKey in group` finds the first bundle with that name, or reports that there is none. |
| Classify.AddToGroup | src/Minify.js:23-24 | A missing bundle is created at the end. The file is appended to its bundle. Nothing else changes. |
| Classify.Place | src/Minify.js:22-31 | One callback changes only the group its asset's `type` selects. That group gains the asset under its `bundleKey`. |
| Classify.Partition | src/Minify.js:21-32 | Every bundle of every group has at least one file. |
| Classify.GroupDescribes | src/Minify.js:21-32 | The group of one kind lists exactly the assets of that kind, once each, under their `bundleKey` and with their `path`. |
| Classify.PartitionDescribes | src/Minify.js:21-32 | Each group lists exactly the assets of its type. Each entry is under the asset's `bundleKey`, with the asset's `path`. No asset is listed twice and no bundle name occurs twice. |
| Classify.AddInOrder | src/Minify.js:23-31 | Adding the next asset of a group's kind keeps every bundle equal to its members in iteration order. |
| Classify.PartitionOrder | src/Minify.js:21-32 | Each bundle's files are exactly the assets with that kind and bundle name, in iteration order. A bundle name with no bundle has no such asset. |
| Classify.ClassifiedOnce | src/Minify.js:21-32 | An asset is in `jsAssets` iff its type is 'js', in `cssAssets` iff it is 'css', and in `otherAssets` iff it is neither. So every asset is in exactly one group. |
| Classify.ListedKind | src/Minify.js:22-31 | A listed asset has the kind of the group that lists it. |
| Manifest.Step | src/Minify.js:60-90 | One asset adds one record at the end of its manifest's `files`. A manifest key seen for the first time goes last in the order. Every other manifest is unchanged. |
| Manifest.Manifests | src/Minify.js:57-92 | The `manifests` object lists each of its keys once in its iteration order, and lists exactly the keys that hold a manifest. |
| Manifest.ManifestsSpec | src/Minify.js:57-92 | A manifest exists for a key iff some asset maps to that key. Its `files` hold one record per such asset, in iteration order. Its `content` holds one line per such asset, with no separator. Its other properties come from the first such asset. |
| Manifest.Records | src/Minify.js:83-89 | One file record per asset, in order, each as `files.push` builds it. |
| Manifest.Matching | src/Minify.js:62 | Every asset selected for a manifest is one of the listed assets and maps to that manifest's key. |
| Manifest.Merge | src/Minify.js:34 | `_.assign` puts each manifest at its key, with `type` 'plain', `mimeType` 'text/plain', `isMinifiedFragment` true and `extname` '.manifest'. Every other key is unchanged. |
| ScriptStage.Collect | src/Minify.js:107-114 | After a JS bundle's file loop, exactly the bundle's sources are gone. |
| ScriptStage.CollectMeta | src/Minify.js:107-112 | Metadata comes from the first file with a truthy `serviceName`, or from the last file when there is none. |
| ScriptStage.ServiceIndex | src/Minify.js:108 | Finds the first file with a truthy `serviceName`, or the last file. |
| ScriptStage.Compile | src/Minify.js:124-132 | There is a source map exactly when the minifier does not throw. When it throws, the code is the empty string. |
| ScriptStage.MapEntry | src/Minify.js:134-144 | The map entry carries the bundle's metadata and type 'js'. Properties the code does not assign keep the values of the entry already at that key. |
| ScriptStage.MinEntry | src/Minify.js:146-157 | The minified entry carries the bundle's metadata, type 'js', the code as content and the code's hash as `hash`. Unassigned properties keep the values of the entry already at that key. |
| ScriptStage.CompileBundle | src/Minify.js:97-158 | A bundle's sources are gone unless a derived entry took their key. Every other key that was not written is unchanged. |
| ScriptStage.CompileBundleSpec | src/Minify.js:134-157 | Exactly the map key and the minified key are written. The map entry holds the source map and the minified entry holds the code. Both are typed 'js' with `application/javascript` and carry the bundle's metadata. The minified entry's key contains `createHash(code)`, and its `hash` is the hash of its content. |
| ScriptStage.MinifyFailureFallback | src/Minify.js:124-132 | When the minifier throws, the minified entry holds '' with the hash of '', and the map entry holds nothing. |
| ScriptStage.BundleWritten | src/Minify.js:134-157 | One bundle writes at most two keys, and each holds an entry typed 'js' with `application/javascript`. |
| ScriptStage.Stage | src/Minify.js:95-163 | Over all JS bundles: only sources disappear, non-sources that were not written are unchanged, and every key present afterwards was present before or was written. |
| ScriptStage.StageWrittenCount | src/Minify.js:97-158 | `compileJs` writes at most two keys per bundle. |
| ScriptStage.StageWrittenKind | src/Minify.js:97-158 | Every key `compileJs` wrote that a later bundle did not consume holds a JS entry. |
| StyleStage.AddFile | src/Minify.js:177-187 | One file only appends to the accumulated text, adds to at most one of `css` and `scss`, is counted whatever its extension, and sets the metadata. |
| StyleStage.Gather | src/Minify.js:177-188 | After a CSS bundle's file loop, exactly the bundle's sources are gone. |
| StyleStage.GatherSpec | src/Minify.js:177-188 | `css` concatenates the `.css` files and `scss` the `.scss` files, in order. A file with another extension adds nothing but is still counted. The metadata is the last file's. |
| StyleStage.GatherAll | src/Minify.js:169-192 | The first loop deletes every CSS source, leaves every other key alone, and pushes one accumulator per bundle. |
| StyleStage.GatherAllAt | src/Minify.js:169-192 | The accumulator pushed for one bundle is the one `GatherSpec` describes, read from the entries before the stage. |
| StyleStage.GatherAllSpec | src/Minify.js:169-192 | Each pushed accumulator is the one `GatherSpec` describes, read from the entries before the stage. |
| StyleStage.Content | src/Minify.js:198-206 | There is content exactly when rendering succeeds. Without CleanCSS, the plain CSS comes first. |
| StyleStage.CssEntry | src/Minify.js:214-223 | The entry carries the bundle's metadata and type 'css'. Unassigned properties keep the values of the entry already at that key. |
| StyleStage.EmitOne | src/Minify.js:198-225 | With content, one entry is written at the key derived from the content hash, with `hash` = hash + '.' + buildNumber, type 'css' and `text/css`. Without content, nothing changes and the error names the tag. |
| StyleStage.EmitOneWritten | src/Minify.js:208-225 | One callback writes at most its own key. That key holds a CSS entry, and every other key is unchanged. |
| StyleStage.EmitOneHoldsCss | src/Minify.js:212-223 | A callback keeps the CSS entries written before it and adds its own. |
| StyleStage.EmitAll | src/Minify.js:194-227 | Every render callback runs, and only the keys written change. |
| StyleStage.EmitAllWrittenKind | src/Minify.js:194-227 | Every key the render callbacks write still holds a CSS entry at the end. |
| StyleStage.EmitAllIsEmittedKeys | src/Minify.js:194-227 | The keys the callbacks write depend on the accumulators alone: one key per bundle with content. |
| StyleStage.EmittedKeysSpec | src/Minify.js:208-213 | A key is written iff it is the key derived from the content of a bundle that has content. At most one key is written per bundle. |
| StyleStage.EmittedBySnoc | src/Minify.js:194 | A key comes from the bundles iff it comes from all but the last, or from the last. |
| StyleStage.EmitAllError | src/Minify.js:208-210 | The aggregate sees an error iff some bundle has no content, and then it is the message of the first such bundle. |
| StyleStage.FirstErrorSpec | src/Minify.js:208-210 | There is no error iff every bundle emits an entry. Otherwise the error is the message of the first bundle without content. |
| StyleStage.Stage | src/Minify.js:165-233 | CSS sources are gone unless a derived entry took their key. Other unwritten keys are unchanged, and nothing appears besides written keys. |
| StyleStage.StageWritten | src/Minify.js:165-233 | `compileCss` writes at most one key per bundle. It writes exactly the keys derived from the content of the bundles that have content, and each holds a CSS entry at the end. |
| StyleStage.StageReportsError | src/Minify.js:228-231 | The final callback of `compileCss` gets an error iff some bundle has no content, and then the error is the first such bundle's message. |
| Pipeline.Groups0 | src/Minify.js:21-32 | The groups of the pristine assets describe them exactly. Each bundle lists its files in iteration order. |
| Pipeline.StyleInputs | src/Minify.js:36-42 | The CSS sources survive the JS stage, so the CSS stage can read them. |
| Pipeline.Outcome | src/Minify.js:14-49 | `staticAssets` stays a well-formed dictionary through the whole run. |
| Pipeline.SourcesGone | src/Minify.js:95-192 | Every JS and CSS source is gone unless a derived entry took its key. |
| Pipeline.OthersKept | src/Minify.js:28-49 | An "other" asset is unchanged unless a manifest or a derived entry took its key. |
| Pipeline.ManifestsPlaced | src/Minify.js:34 | A manifest whose key is new, or held an "other" asset, is in place unless a derived entry took its key. |
| Pipeline.NothingElse | src/Minify.js:14-49 | Every key present at the end was an original asset, a manifest or a derived entry. |
| Pipeline.MinifyOutcome | src/Minify.js:14-49 | All of the above for one run: JS and CSS sources are gone unless a derived entry took their key. Other assets are unchanged unless a manifest or a derived entry took their key. New manifests are in place, and so are manifests over "other" assets. Nothing else appears. `next` is reached iff every CSS bundle has content. |
| Pipeline.MinifyWrites | src/Minify.js:95-233 | The JS stage writes at most two keys per bundle, and each JS-written key that survives holds a JS entry. The CSS stage writes at most one key per bundle: exactly the keys derived from the content of the bundles that have content, each holding a CSS entry. |
| Pipeline.AssetStore.SetEntry | src/Minify.js:214 | Property assignment on `staticAssets` is `Put`. |
| Pipeline.AssetStore.DeleteEntry | src/Minify.js:181 | `delete staticAssets[key]` is `Delete`. |
| Pipeline.AssetStore.Classify | src/Minify.js:21-32 | The loop builds exactly `Partition`'s groups without modifying `staticAssets`. The groups describe the assets and list each bundle's files in iteration order. |
| Pipeline.AssetStore.CreateManifest | src/Minify.js:57-93 | The loop builds exactly `Manifests`. A manifest exists iff some asset maps to its key. |
| Pipeline.AssetStore.MergeManifests | src/Minify.js:34 | `_.assign` leaves `staticAssets` equal to `Merge`. |
| Pipeline.AssetStore.CollectJs | src/Minify.js:107-114 | The file loop of a JS bundle deletes as `Collect` does and picks the same metadata. |
| Pipeline.AssetStore.CompileJsBundle | src/Minify.js:97-158 | One JS bundle leaves `staticAssets` equal to `CompileBundle`. |
| Pipeline.AssetStore.CompileJs | src/Minify.js:95-163 | `compileJs` leaves `staticAssets` equal to `ScriptStage.Stage`. |
| Pipeline.AssetStore.GatherCss | src/Minify.js:171-188 | The file loop of a CSS bundle builds `Gather`'s accumulator and deletions. |
| Pipeline.AssetStore.GatherCssAll | src/Minify.js:167-192 | The first loop of `compileCss` equals `GatherAll`. |
| Pipeline.AssetStore.EmitCssOne | src/Minify.js:198-226 | One render callback equals `EmitOne`. |
| Pipeline.AssetStore.EmitCss | src/Minify.js:194-231 | The render loop equals `EmitAll`, state and error. |
| Pipeline.AssetStore.CompileCss | src/Minify.js:165-233 | `compileCss` equals `StyleStage.Stage`, and it calls `next` iff there was no error. |
| Pipeline.AssetStore.CompileOthers | src/Minify.js:235-240 | `compileOthers` leaves `staticAssets` unchanged. |
| Pipeline.AssetStore.Minify | src/Minify.js:14-49 | `minify` leaves `staticAssets` equal to `Outcome` and reaches its completion callback iff `Outcome` says so. |

## Left out

- The SHA-1 digest, `createKey` (from `./AssetHelper`, which is not part of this model), `path.join`, `path.extname`, `fs.readFileSync`, UglifyJS, node-sass and CleanCSS are external libraries. Each is an uninterpreted function in `Externals`.
- `fs.readFileSync` failing on a missing or unreadable file is not modelled. `readFile` is total. In the source the exception escapes `minify` after the sources read so far have been deleted.
- The uglify options from `bosco.config.get('js:uglify')` are not modelled. Only the source-map name `tag + '.js.map'` is passed to the minifier.
- CleanCSS's options are not modelled. Only whether it is enabled is.
- Logging (`bosco.log`, `bosco.error`, `bosco.warn`, `console.log`) is not modelled, because it has no effect on the result. The one place where logging can throw, `css.tag.blue`, is excluded by `Pipeline.TagsDefined`.
- The concurrency of `async.map` and `async.series` is not modelled. Bundles are processed in sequence, in bundle order. The reported error is the first one in that order. The real callback sees whichever error arrives first.
- The crash on a sass error is not modelled. `code.content` is then read from `undefined` and throws. The model treats a failed render as "no content", which reports `No css for tag …`.
- Undefined `content` and undefined CSS paths are not modelled. Either would throw (from `createHash` or from `path.extname`), and `Pipeline.Admissible` excludes them.
- `bundleKey.blue` cannot throw: `bundleKey` is always a string property name.
- JavaScript's rule that integer-like property names iterate first, in numeric order, is not modelled. Keys iterate in insertion order.
- `in` on `jsAssets`/`cssAssets`/`otherAssets` sees inherited properties such as `constructor`. The model looks at own properties only.
- Aliasing between asset objects is not modelled. Entries are values, so two keys never share one object.
- `commands/ps.js` is not modelled. It is process listing and table printing, with no logic of this component.
