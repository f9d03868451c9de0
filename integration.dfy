/**
 * What `apply` computes: how the externals table is merged into the host's
 * `options.externals`, the public path that prefixes injected local assets,
 * and the argument lists handed to the copy and include-assets delegates.
 */
module Integration {
  import opened Wrappers
  import opened Js
  import opened Resolution

  /** The shape of the host's `options.externals`, as the if-chain of `apply` tells them apart. */
  datatype Shape = Absent | Sequence | Mapping | Other

  function ShapeOf(host: Value): (r: Shape)
    ensures r == Absent <==> !Truthy(host)
    ensures r == Sequence <==> host.Arr?
    ensures r == Mapping <==> host.Obj?
    ensures r == Other <==> (host.Str? && host.s != "") || (host.Bool? && host.b) || (host.Num? && host.n != 0) || host.Func?
  {
    if !Truthy(host) then Absent
    else if host.Arr? then Sequence
    else if TypeofObject(host) then Mapping
    else Other
  }

  /** `options.externals` after the merge, by shape. */
  function MergeExternals(host: Value, table: map<string, Value>): (r: Value)
    ensures ShapeOf(host) == Absent ==> r == Obj(table)
    ensures ShapeOf(host) == Sequence ==>
      r.Arr? && |r.items| == |host.items| + 1
      && r.items[..|host.items|] == host.items && r.items[|host.items|] == Obj(table)
    ensures ShapeOf(host) == Mapping ==>
      r.Obj? && r.fields.Keys == host.fields.Keys + table.Keys
      && (forall k :: k in table ==> r.fields[k] == table[k])
      && (forall k :: k in host.fields && k !in table ==> r.fields[k] == host.fields[k])
    ensures ShapeOf(host) == Other ==> r == host
  {
    match ShapeOf(host)
    case Absent => Obj(table)
    case Sequence => Arr(host.items + [Obj(table)])
    case Mapping => Obj(host.fields + table)
    case Other => host
  }

  /** Merging never loses what the host already had under a key the table does not set. */
  lemma MergeKeepsHostResolvers(host: Value, table: map<string, Value>)
    ensures host.Arr? ==> forall i :: 0 <= i < |host.items| ==> host.items[i] in MergeExternals(host, table).items
    ensures host.Obj? ==> forall k :: k in host.fields ==> k in MergeExternals(host, table).fields
  {
    if host.Arr? {
      var r := MergeExternals(host, table);
      forall i | 0 <= i < |host.items| ensures host.items[i] in r.items {
        assert r.items[i] == r.items[..|host.items|][i];
      }
    }
  }

  /** A second merge of the same table into an array pushes it a second time: `apply` is not idempotent on arrays. */
  lemma MergeTwiceIntoArray(host: Value, table: map<string, Value>)
    requires host.Arr?
    ensures MergeExternals(MergeExternals(host, table), table) == Arr(host.items + [Obj(table), Obj(table)])
  {
    assert host.items + [Obj(table)] + [Obj(table)] == host.items + [Obj(table), Obj(table)];
  }

  /** On a mapping the merge is idempotent: the table's keys already hold the table's values. */
  lemma MergeTwiceIntoObject(host: Value, table: map<string, Value>)
    requires host.Obj?
    ensures MergeExternals(MergeExternals(host, table), table) == MergeExternals(host, table)
  {
    var once := host.fields + table;
    assert once + table == once;
  }

  /** The plugin's `publicPath` unless it is null, else the host's `output.publicPath`. */
  function EffectivePublicPath(option: Option<string>, outputPublicPath: string): (r: string)
    ensures option.Some? ==> r == option.value
    ensures option.None? ==> r == outputPublicPath
  {
    match option
    case Some(p) => p
    case None => outputPublicPath
  }

  /** One asset as injected: a URL unchanged, anything else under `<publicPath><outputPath>/`. */
  function InjectionPath(publicPath: string, outputPath: string, asset: string): string
  {
    if IsUrl(asset) then asset else publicPath + outputPath + "/" + asset
  }

  /** The `assets` option of an include-assets delegate: same length and order as its group. */
  function InjectionAssets(publicPath: string, outputPath: string, assets: seq<string>): (r: seq<string>)
    ensures |r| == |assets|
    ensures forall i {:trigger r[i]} :: 0 <= i < |assets| && IsUrl(assets[i]) ==> r[i] == assets[i]
    ensures forall i {:trigger r[i]} :: 0 <= i < |assets| && !IsUrl(assets[i]) ==> r[i] == publicPath + outputPath + "/" + assets[i]
  {
    if assets == [] then []
    else InjectionAssets(publicPath, outputPath, assets[..|assets| - 1])
         + [InjectionPath(publicPath, outputPath, assets[|assets| - 1])]
  }

  /** One asset on its own is injected as one path. */
  lemma InjectionAssetsSingle(publicPath: string, outputPath: string, a: string)
    ensures InjectionAssets(publicPath, outputPath, [a]) == [InjectionPath(publicPath, outputPath, a)]
  {
    assert [a][..0] == [];
  }

  /** The common prefix of every injected local asset is removable: the asset is recoverable. */
  lemma InjectionAssetsRecoverable(publicPath: string, outputPath: string, assets: seq<string>, i: nat)
    requires i < |assets| && !IsUrl(assets[i])
    ensures var prefix := publicPath + outputPath + "/";
      var r := InjectionAssets(publicPath, outputPath, assets)[i];
      |prefix| <= |r| && r[..|prefix|] == prefix && r[|prefix|..] == assets[i]
  {
    var prefix := publicPath + outputPath + "/";
    var r := InjectionAssets(publicPath, outputPath, assets)[i];
    assert r == prefix + assets[i];
  }

  /**
   * `apply` tests `URL_ENTRY` again on already resolved entries. Under a plain
   * module name it reaches the constructor's verdict: a URL entry is injected
   * as declared and a local one under `<publicPath><outputPath>/<module>/`.
   */
  lemma InjectionPathOfEntry(publicPath: string, outputPath: string, moduleName: string, entry: string)
    requires PlainModule(moduleName)
    ensures InjectionPath(publicPath, outputPath, ResolveEntry(moduleName, entry))
         == if IsUrl(entry) then entry else publicPath + outputPath + "/" + Localize(moduleName, entry)
  {
    if !IsUrl(entry) {
      LocalizedIsNotUrl(moduleName, entry);
    }
  }

  /**
   * Without a plain module name the two tests disagree: with module "" the
   * local entry "/lib.js" is rewritten to "//lib.js", which is copied from
   * `node_modules///lib.js` to `<outputPath>///lib.js` but injected as the
   * protocol-relative URL "//lib.js", without the public path and output
   * path, so the tag does not point at the copied file.
   */
  lemma EmptyModuleInjectedAsUrl(publicPath: string, outputPath: string)
    ensures !IsUrl("/lib.js")
    ensures CopyPatterns(outputPath, [Localize("", "/lib.js")])
         == [CopyPattern("node_modules///lib.js", outputPath + "///lib.js")]
    ensures InjectionPath(publicPath, outputPath, ResolveEntry("", "/lib.js")) == "//lib.js"
  {
    EmptyModuleMakesUrl();
    EmptyModulePath();
    CopyPatternsSingle(outputPath, "//lib.js");
    EmptyModuleCopyPaths(outputPath);
  }

  lemma EmptyModulePath()
    ensures Localize("", "/lib.js") == "//lib.js"
  {
  }

  lemma EmptyModuleCopyPaths(outputPath: string)
    ensures "node_modules/" + "//lib.js" == "node_modules///lib.js"
    ensures outputPath + "/" + "//lib.js" == outputPath + "///lib.js"
  {
  }

  /** `{ from, to }` for the copy delegate. */
  datatype CopyPattern = CopyPattern(from: string, to: string)

  /** The copy delegate's patterns: one per asset, `node_modules/<a>` to `<outputPath>/<a>`, in order. */
  function CopyPatterns(outputPath: string, assets: seq<string>): (r: seq<CopyPattern>)
    ensures |r| == |assets|
    ensures forall i {:trigger r[i]} :: 0 <= i < |assets| ==>
      r[i].from == "node_modules/" + assets[i] && r[i].to == outputPath + "/" + assets[i]
  {
    if assets == [] then []
    else CopyPatterns(outputPath, assets[..|assets| - 1])
         + [CopyPattern("node_modules/" + assets[|assets| - 1], outputPath + "/" + assets[|assets| - 1])]
  }

  /** One asset on its own gives one copy pattern. */
  lemma CopyPatternsSingle(outputPath: string, a: string)
    ensures CopyPatterns(outputPath, [a]) == [CopyPattern("node_modules/" + a, outputPath + "/" + a)]
  {
    assert [a][..0] == [];
  }

  /** Source and destination of each copy pattern name the same asset. */
  lemma CopyPatternsSameAsset(outputPath: string, assets: seq<string>, i: nat)
    requires i < |assets|
    ensures var p := CopyPatterns(outputPath, assets)[i];
      |p.from| >= 13 && |p.to| >= |outputPath| + 1
      && p.from[13..] == p.to[|outputPath| + 1..] == assets[i]
  {
    var p := CopyPatterns(outputPath, assets)[i];
    assert |"node_modules/"| == 13;
    assert p.from == "node_modules/" + assets[i];
    assert p.to == (outputPath + "/") + assets[i];
  }

  /** The delegates `apply` creates, as the argument lists they are given. */
  datatype Delegate =
    | CopyFiles(patterns: seq<CopyPattern>)
    | IncludeAssets(assets: seq<string>, append: bool, hash: bool, publicPath: string)

  /**
   * `pluginsToApply`: the copy delegate, then an include-assets delegate for
   * the prepend group, then one for the append group, each only when its
   * group is non-empty.
   */
  function Delegates(prepend: seq<string>, append: seq<string>, copy: seq<string>,
                     hash: bool, publicPath: string, outputPath: string): seq<Delegate>
  {
    [CopyFiles(CopyPatterns(outputPath, copy))]
    + AssetsDelegate(prepend, false, hash, publicPath, outputPath)
    + AssetsDelegate(append, true, hash, publicPath, outputPath)
  }

  /** What the delegate list holds, position by position. */
  lemma DelegatesLayout(prepend: seq<string>, append: seq<string>, copy: seq<string>,
                        hash: bool, publicPath: string, outputPath: string)
    ensures var ds := Delegates(prepend, append, copy, hash, publicPath, outputPath);
      var np := if |prepend| > 0 then 1 else 0;
      && |ds| == 1 + np + (if |append| > 0 then 1 else 0)
      && ds[0] == CopyFiles(CopyPatterns(outputPath, copy))
      && (|prepend| > 0 ==> ds[1] == IncludeAssets(InjectionAssets(publicPath, outputPath, prepend), false, hash, ""))
      && (|append| > 0 ==> ds[1 + np] == IncludeAssets(InjectionAssets(publicPath, outputPath, append), true, hash, ""))
      && (forall i :: 1 <= i < |ds| ==> ds[i].IncludeAssets? && ds[i].publicPath == "" && ds[i].hash == hash
                                        && |ds[i].assets| > 0)
  {
  }

  /** `createAssetsPlugin`: one include-assets delegate for a non-empty group, none for an empty one. */
  function AssetsDelegate(assets: seq<string>, append: bool, hash: bool, publicPath: string, outputPath: string)
    : seq<Delegate>
  {
    if |assets| > 0 then [IncludeAssets(InjectionAssets(publicPath, outputPath, assets), append, hash, "")] else []
  }
}
