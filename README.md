# html-webpack-externals-plugin, modelled in Dafny

This project models the core of `HtmlWebpackExternalsPlugin`, a webpack
plugin. It lets a project declare vendor libraries as *externals*. Such a
library is not bundled. It is copied out of `node_modules` and injected into
the generated HTML page with a script or link tag. The model covers four parts:

- **Validation** (`validation.dfy`): the plugin checks its configuration
  against a JSON schema with Ajv. The schema is kept as data and read by a
  small interpreter of the keywords it uses. A hand-written predicate,
  `ValidConfig`, states the same constraints, and `SchemaAgreement` proves
  that the two agree on every value.
- **Entry resolution** (`resolution.dfy`): the `URL_ENTRY` test
  `/^(http:|https:)?\/\//`, and the rewrite of every other entry to
  `<module>/<entry>`.
- **Accumulation** (`ordering.dfy`, and the constructor in `plugin.dfy`):
  the constructor walks the declarations in order. It builds the externals
  table (module → global), the prepend group, the append group and the copy
  list. The functions `Table`, `Group` and `CopyList` define these over the
  declarations. The constructor's loop is proved to build exactly them.
- **Integration** (`integration.dfy`, and `Apply` in `plugin.dfy`):
  - how the table is merged into the compiler's `options.externals`;
  - the public path;
  - the argument lists handed to the copy delegate and the include-assets
    delegates.

JavaScript values are the datatype `Js.Value`. A missing property reads as
`Undefined`, as in JavaScript. Ajv's `required` and `properties` keywords
treat an undefined property as absent, and so do the destructuring defaults
in the constructor. The model does the same.

`scenarios.dfy` replays concrete configurations through the model:
- jQuery from `node_modules`;
- a library loaded from a CDN;
- two declarations in order;
- a module declared twice;
- a local entry under the empty module name;
- a declaration without `module`.

Where the intended design and the code differ, the model follows the code:
- `module` may be any string, including the empty one. The schema does not
  require it to be non-empty.
- A host `externals` value that is a non-empty string, a function, `true` or a
  non-zero number is left as it is.
- Ajv stops at the first violated constraint, since `allErrors` is not set.
  The error is modelled as the single abstract value `TypeError`.

`apply` runs `URL_ENTRY` a second time, on entries the constructor has
already resolved. `LocalizedIsNotUrl` and `InjectionPathOfEntry` prove that
both tests give the same answer whenever the module name is non-empty, does
not start with `/` and has no `:`. `EmptyModuleMakesUrl` and
`EmptyModuleInjectedAsUrl` show that they can disagree otherwise. With module
`""`, the local entry `/lib.js` is rewritten to `//lib.js`, and that string
enters both the copy list and its group. The copy delegate copies it from
`node_modules///lib.js` to `<outputPath>///lib.js`. The include-assets
delegate, however, sees a URL and injects the bare protocol-relative `//lib.js`,
without the public path or the output path, so the tag does not point at the
copied file (`Scenarios.EmptyModuleLibrary`).

## Model

| member | source | states |
|---|---|---|
| Validation.Conforms | src/HtmlWebpackExternalsPlugin.js:6-36 | Defines acceptance by the schema keywords used: `type` (where `object` excludes null and arrays), `properties` and `required` (an undefined property counts as absent), and `items` and `minItems`, which apply only to arrays. |
| Validation.ConfigSchema | src/HtmlWebpackExternalsPlugin.js:6-36 | The schema passed to `ajv.compile`, written out as data, keyword by keyword. |
| Validation.ValidConfig | src/HtmlWebpackExternalsPlugin.js:6-36 | The same constraints stated directly. The config is an object with a non-empty array `externals` of objects. Each has a string `module`, and an `entry` that is a string or a non-empty array of strings. `global` is a string or null, `supplements` is an array of strings, and `append` is a boolean. `hash` is a boolean, `outputPath` is a string, and `publicPath` is a string or null. |
| Validation.SchemaAgreement | src/HtmlWebpackExternalsPlugin.js:6-36 | A value satisfies the Ajv schema exactly when it satisfies the hand-written `ValidConfig`. `externals` must be a non-empty array of objects, each with a string `module` and an `entry` that is a string or a non-empty array of strings. `global` must be a string or null, `supplements` an array of strings, and `append`, `hash` booleans. `outputPath` must be a string, and `publicPath` a string or null. |
| Validation.ValidateArguments | src/HtmlWebpackExternalsPlugin.js:39-43 | Passes exactly the configurations the schema accepts. Every other configuration gets a TypeError. |
| Validation.Rejections | src/HtmlWebpackExternalsPlugin.js:7-35 | Lines 7-10 and 29-35, top level: a config is refused when it is not an object, or when `externals` is missing or `[]`. It is also refused when `hash` is present but not a boolean, `outputPath` is present but not a string, or `publicPath` is present but neither a string nor null. |
| Validation.ItemRejections | src/HtmlWebpackExternalsPlugin.js:11-28 | A config is refused when any item lacks `module` or `entry`, has a non-string `module`, or has `entry` equal to `[]`. It is also refused when `global` is neither a string nor null, `supplements` is not an array of strings, or `append` is not a boolean. |
| Resolution.IsUrl | src/HtmlWebpackExternalsPlugin.js:45 | `URL_ENTRY`: the string starts with `//`, `http://` or `https://`. |
| Resolution.Localize | src/HtmlWebpackExternalsPlugin.js:75 | The template `${module}/${path}`, used for local entries here and for supplements at line 89. |
| Resolution.ResolveEntry | src/HtmlWebpackExternalsPlugin.js:72-77 | A URL entry stays as it is. Any other entry becomes `module + "/" + entry`. |
| Resolution.Resolved | src/HtmlWebpackExternalsPlugin.js:71-78 | Resolving keeps the number and order of entries. A URL entry stays as it is. Every other entry becomes `module + "/" + entry`. |
| Resolution.Locals | src/HtmlWebpackExternalsPlugin.js:72-76 | The entries collected as local are no more than the entries, and none of them is a URL. |
| Resolution.LocalsMembership | src/HtmlWebpackExternalsPlugin.js:72-76 | A string is among the local entries exactly when it is an entry and not a URL. |
| Resolution.Prefixed | src/HtmlWebpackExternalsPlugin.js:89 | Rewriting supplements keeps their number and order, and each becomes `module + "/" + supplement`. |
| Resolution.LocalEntries | src/HtmlWebpackExternalsPlugin.js:69-76 | `localEntries`: the non-URL entries, in order, each rewritten to `module + "/" + entry`. |
| Resolution.EntriesPartition | src/HtmlWebpackExternalsPlugin.js:72-77 | Every entry is classified as exactly one of URL and local. The URL part and the local part together are the entries, as a multiset. |
| Resolution.LocalEntriesAreResolvedLocals | src/HtmlWebpackExternalsPlugin.js:69-78 | Each resolved non-URL entry is in `localEntries`. Each member of `localEntries` is the resolution of some non-URL entry. |
| Resolution.LocalizedIsNotUrl | src/HtmlWebpackExternalsPlugin.js:45 | Take a module name that is non-empty, does not start with `/` and has no `:`. Then `module + "/" + path` never passes the URL test. |
| Resolution.EmptyModuleMakesUrl | src/HtmlWebpackExternalsPlugin.js:75 | With module `""`, the local entry `/lib.js` is rewritten to `//lib.js`, which passes the URL test. |
| Ordering.EntryList | src/HtmlWebpackExternalsPlugin.js:71 | A string entry becomes a one-element list. An array entry gives its strings in order. The list is never empty. |
| Ordering.DeclarationOf | src/HtmlWebpackExternalsPlugin.js:66 | Destructuring with defaults. `entry` becomes its entry list, and `supplements` its strings when present and `[]` when missing. A missing `global` gives null and a missing `append` gives false. |
| Ordering.HashOf | src/HtmlWebpackExternalsPlugin.js:57 | `hash` defaults to false when absent. |
| Ordering.OutputPathOf | src/HtmlWebpackExternalsPlugin.js:58 | `outputPath` defaults to `"vendor"` when absent. |
| Ordering.PublicPathOf | src/HtmlWebpackExternalsPlugin.js:59 | `publicPath` defaults to null when absent; null and absent both give None. |
| Ordering.Declarations | src/HtmlWebpackExternalsPlugin.js:65 | The declarations come in configuration order, one per item, and there is at least one. |
| Ordering.Injected | src/HtmlWebpackExternalsPlugin.js:71-78 | One declaration's `entries`: its entry list, resolved in order. |
| Ordering.Copied | src/HtmlWebpackExternalsPlugin.js:86-90 | Per declaration, the copy list grows by the number of local entries plus the number of supplements. |
| Ordering.Group | src/HtmlWebpackExternalsPlugin.js:65-91 | `assetsToPrepend` (append false) or `assetsToAppend` (append true): the resolved entries of the declarations whose `append` flag matches, in declaration order. |
| Ordering.CopyList | src/HtmlWebpackExternalsPlugin.js:65-91 | `assetsToCopy`: each declaration's rewritten local entries and then its rewritten supplements, in declaration order. |
| Ordering.Table | src/HtmlWebpackExternalsPlugin.js:65-91 | `this.externals`: each declaration writes `module -> global`, and a later declaration overwrites an earlier one. |
| Ordering.Single | src/HtmlWebpackExternalsPlugin.js:65-91 | A single declaration puts its resolved entries in the group its `append` flag selects, and nothing in the other group. It puts its local entries and then its supplements in the copy list, and one row in the table. |
| Ordering.PrefixStep | src/HtmlWebpackExternalsPlugin.js:65-91 | Handling the declaration at index i appends its resolved entries to the selected group only, and leaves the other group unchanged. It appends its copies to the copy list and writes `module -> global` into the table. |
| Ordering.GroupConcat | src/HtmlWebpackExternalsPlugin.js:80-84 | Each group of a run of declarations is the group of its first part followed by the group of its second part. Declaration order is preserved. |
| Ordering.CopyListConcat | src/HtmlWebpackExternalsPlugin.js:86-90 | The copy list of a run of declarations is the copy list of its first part followed by that of its second part. |
| Ordering.GroupContiguous | src/HtmlWebpackExternalsPlugin.js:80-84 | The resolved entries of declaration i sit contiguously and in entry order in the group its `append` flag selects. Earlier declarations come before them and later ones after. The other group does not get them. |
| Ordering.CopyListContiguous | src/HtmlWebpackExternalsPlugin.js:86-90 | A declaration's copies (`Copied`: its rewritten local entries, then its rewritten supplements) sit contiguously in the copy list, after those of earlier declarations and before those of later ones. |
| Ordering.LocalEntryIsCopied | src/HtmlWebpackExternalsPlugin.js:72-90 | Every non-URL entry of every declaration is in the copy list, as `module + "/" + entry`. |
| Ordering.GroupsPartition | src/HtmlWebpackExternalsPlugin.js:80-84 | Every resolved entry lands in exactly one of the prepend and append groups, counted with multiplicity. |
| Ordering.CopiedOrigins | src/HtmlWebpackExternalsPlugin.js:86-90 | Each copy a declaration adds is `module + "/" + p`, where p is one of its non-URL entries or one of its supplements. |
| Ordering.CopyListOrigins | src/HtmlWebpackExternalsPlugin.js:69-90 | Every element of the copy list is `module + "/" + p` for some declaration, where p is one of its non-URL entries or supplements. No URL entry is copied. |
| Ordering.CopyListHasNoUrl | src/HtmlWebpackExternalsPlugin.js:72-90 | If every module name is plain, no element of the copy list looks like a URL. |
| Ordering.TableKeys | src/HtmlWebpackExternalsPlugin.js:53-67 | The externals table has a key for every declared module and no other key. |
| Ordering.TableLastWins | src/HtmlWebpackExternalsPlugin.js:67 | A module's value in the table is the `global` of its last declaration. |
| Integration.ShapeOf | src/HtmlWebpackExternalsPlugin.js:96-100 | Host externals are classified by shape. A falsy value is Absent, an array is Sequence, and an object is Mapping. A non-empty string, `true`, a non-zero number or a function is Other. |
| Integration.MergeExternals | src/HtmlWebpackExternalsPlugin.js:96-105 | An Absent value is replaced by the table. An array gets the table pushed as one last element, and its existing elements stay unchanged. An object gets the union of the keys, and the table wins on a collision. Any other value is left unchanged. |
| Integration.MergeKeepsHostResolvers | src/HtmlWebpackExternalsPlugin.js:98-104 | The merge keeps every existing array element and every existing object key. |
| Integration.MergeTwiceIntoArray | src/HtmlWebpackExternalsPlugin.js:98-99 | Applying the merge twice to an array pushes the table twice, so the merge is not idempotent there. |
| Integration.MergeTwiceIntoObject | src/HtmlWebpackExternalsPlugin.js:100-104 | Applying the merge twice to an object gives the same result as applying it once. |
| Integration.EffectivePublicPath | src/HtmlWebpackExternalsPlugin.js:107-110 | The public path is the plugin's `publicPath` when it is set. When it is null, the compiler's `output.publicPath` is used. |
| Integration.InjectionPath | src/HtmlWebpackExternalsPlugin.js:128-131 | A URL asset stays as it is. Any other asset becomes `publicPath + outputPath + "/" + asset`. |
| Integration.InjectionAssets | src/HtmlWebpackExternalsPlugin.js:127-132 | The injected assets keep the number and order of the group. A URL stays as it is. A local asset becomes `publicPath + outputPath + "/" + asset`. |
| Integration.InjectionAssetsRecoverable | src/HtmlWebpackExternalsPlugin.js:131 | Each injected local asset starts with `publicPath + outputPath + "/"`, and removing that prefix gives back the asset. |
| Integration.InjectionPathOfEntry | src/HtmlWebpackExternalsPlugin.js:127-132 | If the module name is plain, the URL test in `apply` agrees with the one in the constructor. A URL entry is injected as declared. A local entry is injected as `publicPath + outputPath + "/" + module + "/" + entry`. |
| Integration.EmptyModuleInjectedAsUrl | src/HtmlWebpackExternalsPlugin.js:116-131 | With module `""`, the local entry `/lib.js` becomes `//lib.js`. Its copy pattern is `node_modules///lib.js` to `<outputPath>///lib.js`, but it is injected as `//lib.js`, without the public path or the output path. |
| Integration.CopyPatterns | src/HtmlWebpackExternalsPlugin.js:116-119 | There is one copy pattern per copy-list entry, in order, from `node_modules/<a>` to `<outputPath>/<a>`. |
| Integration.CopyPatternsSameAsset | src/HtmlWebpackExternalsPlugin.js:117-118 | The source and destination of each pattern name the same asset. |
| Integration.Delegates | src/HtmlWebpackExternalsPlugin.js:112-142 | `pluginsToApply`: the copy delegate, then the delegates `createAssetsPlugin` makes for the prepend group and then for the append group. |
| Integration.AssetsDelegate | src/HtmlWebpackExternalsPlugin.js:123-139 | `createAssetsPlugin`: an include-assets delegate with the injected assets, `append`, `hash` and `publicPath: ""` for a non-empty group, and nothing for an empty one. |
| Integration.DelegatesLayout | src/HtmlWebpackExternalsPlugin.js:112-142 | The copy delegate always comes first. Next come an include-assets delegate for the prepend group (append false), if that group is non-empty, then one for the append group (append true), if that group is non-empty. Each include-assets delegate has the plugin's `hash`, `publicPath: ""` and a non-empty asset list. |
| HtmlWebpackExternalsPlugin.Compiler.constructor | src/HtmlWebpackExternalsPlugin.js:96-110 | The compiler as `apply` sees it: `options.externals` and `options.output.publicPath`, set to the given values. |
| HtmlWebpackExternalsPlugin.ExternalsPlugin.ResolveEntries | src/HtmlWebpackExternalsPlugin.js:69-78 | The loop over the entries returns the resolved entries and, on the side, `localEntries`. |
| HtmlWebpackExternalsPlugin.ExternalsPlugin.AddDeclaration | src/HtmlWebpackExternalsPlugin.js:66-90 | One declaration writes its row into the table. Its resolved entries go to the end of the append group if `append` is set, and to the end of the prepend group otherwise. Its local entries and then its supplements go to the end of the copy list. The settings are unchanged. |
| HtmlWebpackExternalsPlugin.ExternalsPlugin.AddDeclarations | src/HtmlWebpackExternalsPlugin.js:65-91 | Starting from empty collections, the loop over the items leaves the table, both groups and the copy list equal to what the declarations accumulate in configuration order. The settings are unchanged. |
| HtmlWebpackExternalsPlugin.ExternalsPlugin.constructor | src/HtmlWebpackExternalsPlugin.js:50-93 | For a valid configuration, the fields equal `Table`, `Group(false)`, `Group(true)` and `CopyList` of the declarations. Each setting takes its configured value when present, and its default only when absent: `hash` false, `outputPath` `"vendor"`, `publicPath` null. |
| HtmlWebpackExternalsPlugin.ExternalsPlugin.Create | src/HtmlWebpackExternalsPlugin.js:47-48 | Construction fails with a TypeError exactly when the schema rejects the configuration. Otherwise it returns a new plugin whose fields are as above. |
| HtmlWebpackExternalsPlugin.ExternalsPlugin.Apply | src/HtmlWebpackExternalsPlugin.js:95-145 | The compiler's externals become the merge of the old value with the table, and nothing else in the compiler changes. The delegates returned are the copy delegate and the non-empty include-assets delegates, under the effective public path. |
| Scenarios.JqueryDecoded | src/HtmlWebpackExternalsPlugin.js:55-66 | `{module: "jquery", entry: "dist/jquery.min.js", global: "$"}` is valid. It decodes with the defaults `append` false, `outputPath` `"vendor"`, `hash` false and `publicPath` null. |
| Scenarios.JqueryAggregates | src/HtmlWebpackExternalsPlugin.js:65-91 | That declaration yields the table `{jquery: "$"}`. The prepend group and the copy list are both `["jquery/dist/jquery.min.js"]`, and the append group is empty. |
| Scenarios.JqueryDelegates | src/HtmlWebpackExternalsPlugin.js:112-142 | With public path `/`, there is one copy pattern `node_modules/jquery/dist/jquery.min.js → vendor/jquery/dist/jquery.min.js` and one prepend delegate for `/vendor/jquery/dist/jquery.min.js`. |
| Scenarios.JqueryMerge | src/HtmlWebpackExternalsPlugin.js:100-104 | Existing externals `{foo: "Foo"}` merged with the table `{jquery: "$"}` give both keys. |
| Scenarios.JqueryFromNodeModules | src/HtmlWebpackExternalsPlugin.js:47-145 | End to end: constructing the plugin from the jQuery configuration and applying it to a compiler with externals `{foo: "Foo"}` and public path `/` leaves externals `{foo: "Foo", jquery: "$"}`. It returns the copy delegate `node_modules/jquery/dist/jquery.min.js → vendor/jquery/dist/jquery.min.js` and one prepend delegate for `/vendor/jquery/dist/jquery.min.js`. |
| Scenarios.RemoteLibrary | src/HtmlWebpackExternalsPlugin.js:72-90 | A CDN entry with `append: true` goes to the append group as it is, and is not copied. |
| Scenarios.TwoDeclarationsInOrder | src/HtmlWebpackExternalsPlugin.js:80-84 | Declarations x (`a.js`) and y (`b.js`) give the prepend group `["x/a.js", "y/b.js"]`. |
| Scenarios.DuplicateModule | src/HtmlWebpackExternalsPlugin.js:65-91 | A module declared twice with the same entries keeps only the second `global` in the table. Its entries are still prepended twice and copied twice; nothing is deduplicated. |
| Scenarios.EmptyModuleLibrary | src/HtmlWebpackExternalsPlugin.js:72-90 | With module `""` and entry `/lib.js`, the copy list and the prepend group hold `//lib.js`. It is copied from `node_modules///lib.js` to `<outputPath>///lib.js` but injected as the bare URL `//lib.js`. |
| Scenarios.MissingModuleRejected | src/HtmlWebpackExternalsPlugin.js:27 | An item without `module` is refused. |

## Left out

- The Ajv library itself and `ajv.errorsText` (lines 3, 5 and 41). Only the schema keywords the configuration uses are interpreted, and the error carries no message.
- The constructors of `CopyWebpackPlugin` and `HtmlWebpackIncludeAssetsPlugin`, and the final `plugin.apply(compiler)` calls (lines 1-2, 115, 126 and 144). `Apply` returns the argument lists it would hand them, in the order they would be applied. Copying files and writing tags are foreign code.
- The webpack compiler beyond `options.externals` and `options.output.publicPath`. Webpack fills in `output.publicPath` (as `""` when unset), so it is modelled as a string. An undefined value would be spliced in as the text `undefined`, and the model does not capture that.
- HtmlWebpackExternalsPlugin.ExternalsPlugin.Apply: the array case is modelled as a new array value, although the source pushes onto the host's array in place. After the Absent case the host's options and the plugin share one table object, and after the Mapping case the host gets a fresh object. The model captures neither sharing.
- HtmlWebpackExternalsPlugin.ExternalsPlugin.constructor: it requires a valid configuration. The throwing path of the source constructor (lines 47-48) is modelled by `Create`, which validates first and fails with a TypeError.
- JavaScript numbers are integers here, so `NaN` (falsy) is not modelled. Object key order, prototype keys such as `__proto__`, and the values of functions and regular expressions are not modelled either. A regular expression in `options.externals` (typeof `'object'`) is outside the closed value type.
