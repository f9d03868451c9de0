/**
 * The plugin object: the constructor validates the configuration and fills
 * the externals table, the prepend and append groups and the copy list one
 * declaration at a time; `Apply` merges the table into the host compiler's
 * options and returns the delegates it configures.
 */
module HtmlWebpackExternalsPlugin {
  import opened Wrappers
  import opened Js
  import opened Validation
  import opened Resolution
  import opened Ordering
  import opened Integration

  /** The parts of webpack's compiler the plugin touches. */
  class Compiler {
    /** `compiler.options.externals` */
    var externals: Value
    /** `compiler.options.output.publicPath` (webpack supplies "" when unset) */
    var outputPublicPath: string

    constructor (externals: Value, outputPublicPath: string)
      ensures this.externals == externals && this.outputPublicPath == outputPublicPath
    {
      this.externals := externals;
      this.outputPublicPath := outputPublicPath;
    }
  }

  class ExternalsPlugin {
    var assetsToPrepend: seq<string>
    var assetsToAppend: seq<string>
    var assetsToCopy: seq<string>
    var externals: map<string, Value>
    var hash: bool
    var outputPath: string
    var publicPath: Option<string>

    /**
     * Resolves one declaration's entries in order, collecting the rewritten
     * local ones on the side (the `map` over entries and its `localEntries`).
     */
    static method ResolveEntries(moduleName: string, entry: seq<string>)
      returns (entries: seq<string>, localEntries: seq<string>)
      ensures entries == Resolved(moduleName, entry)
      ensures localEntries == LocalEntries(moduleName, entry)
    {
      entries, localEntries := [], [];
      var i := 0;
      while i < |entry|
        invariant 0 <= i <= |entry|
        invariant entries == Resolved(moduleName, entry[..i])
        invariant localEntries == LocalEntries(moduleName, entry[..i])
      {
        var e := entry[i];
        assert entry[..i + 1][..i] == entry[..i];
        if IsUrl(e) {
          entries := entries + [e];
        } else {
          var localEntry := Localize(moduleName, e);
          localEntries := localEntries + [localEntry];
          entries := entries + [localEntry];
          assert Locals(entry[..i + 1]) == Locals(entry[..i]) + [e];
          assert (Locals(entry[..i]) + [e])[..|Locals(entry[..i])|] == Locals(entry[..i]);
        }
        i := i + 1;
      }
      assert entry[..i] == entry;
    }

    /** The four collections are what the declarations `ds` accumulate. */
    ghost predicate Accumulated(ds: seq<Declaration>)
      reads this
    {
      && externals == Table(ds)
      && assetsToPrepend == Group(ds, false)
      && assetsToAppend == Group(ds, true)
      && assetsToCopy == CopyList(ds)
    }

    /** One turn of the constructor's `forEach` over the declarations. */
    method AddDeclaration(d: Declaration)
      modifies this
      ensures externals == old(externals)[d.moduleName := d.global]
      ensures assetsToPrepend == old(assetsToPrepend) + (if d.append then [] else Injected(d))
      ensures assetsToAppend == old(assetsToAppend) + (if d.append then Injected(d) else [])
      ensures assetsToCopy == old(assetsToCopy) + Copied(d)
      ensures hash == old(hash) && outputPath == old(outputPath) && publicPath == old(publicPath)
    {
      externals := externals[d.moduleName := d.global];
      var entries, localEntries := ResolveEntries(d.moduleName, d.entry);
      if d.append {
        assetsToAppend := assetsToAppend + entries;
      } else {
        assetsToPrepend := assetsToPrepend + entries;
      }
      assetsToCopy := assetsToCopy + localEntries + Prefixed(d.moduleName, d.supplements);
    }

    /**
     * The constructor's `externals.forEach(...)`: one `AddDeclaration` per
     * item, in configuration order, starting from empty collections.
     */
    method AddDeclarations(items: seq<Value>, ghost ds: seq<Declaration>)
      modifies this
      requires |ds| == |items|
      requires forall k :: 0 <= k < |items| ==> ValidDeclaration(items[k]) && DeclarationOf(items[k]) == ds[k]
      requires Accumulated([])
      ensures Accumulated(ds)
      ensures hash == old(hash) && outputPath == old(outputPath) && publicPath == old(publicPath)
    {
      var i := 0;
      while i < |items|
        invariant 0 <= i <= |items|
        invariant Accumulated(ds[..i])
        invariant hash == old(hash) && outputPath == old(outputPath) && publicPath == old(publicPath)
      {
        AddDeclaration(DeclarationOf(items[i]));
        PrefixStep(ds, i);
        i := i + 1;
      }
      assert ds[..i] == ds;
    }

    /** Construction from a configuration the schema accepts. */
    constructor (config: Value)
      requires ValidConfig(config)
      ensures Accumulated(Declarations(config))
      ensures hash == HashOf(config) && outputPath == OutputPathOf(config) && publicPath == PublicPathOf(config)
    {
      assetsToPrepend := [];
      assetsToAppend := [];
      assetsToCopy := [];
      externals := map[];
      hash := HashOf(config);
      outputPath := OutputPathOf(config);
      publicPath := PublicPathOf(config);
      new;
      AddDeclarations(Get(config, "externals").items, Declarations(config));
    }

    /**
     * `new HtmlWebpackExternalsPlugin(config)`: throws a TypeError exactly when
     * the schema rejects the configuration, and otherwise builds the plugin.
     */
    static method Create(config: Value) returns (r: Result<ExternalsPlugin, SchemaError>)
      ensures r.Failure? <==> !Conforms(config, ConfigSchema)
      ensures r.Success? ==>
        && ValidConfig(config) && fresh(r.value)
        && r.value.externals == Table(Declarations(config))
        && r.value.assetsToPrepend == Group(Declarations(config), false)
        && r.value.assetsToAppend == Group(Declarations(config), true)
        && r.value.assetsToCopy == CopyList(Declarations(config))
        && r.value.hash == HashOf(config) && r.value.outputPath == OutputPathOf(config)
        && r.value.publicPath == PublicPathOf(config)
    {
      var validation := ValidateArguments(config);
      if validation.Failure? {
        return Failure(validation.error);
      }
      SchemaAgreement(config);
      var plugin := new ExternalsPlugin(config);
      return Success(plugin);
    }

    /**
     * `apply(compiler)`: merges the externals table into the compiler's
     * options by their shape and returns the delegates, in the order they
     * are applied.
     */
    method Apply(compiler: Compiler) returns (pluginsToApply: seq<Delegate>)
      modifies compiler`externals
      ensures compiler.externals == MergeExternals(old(compiler.externals), externals)
      ensures pluginsToApply == Delegates(assetsToPrepend, assetsToAppend, assetsToCopy, hash,
                                          EffectivePublicPath(publicPath, compiler.outputPublicPath), outputPath)
    {
      if !Truthy(compiler.externals) {
        compiler.externals := Obj(externals);
      } else if compiler.externals.Arr? {
        compiler.externals := Arr(compiler.externals.items + [Obj(externals)]);
      } else if TypeofObject(compiler.externals) {
        compiler.externals := Obj(compiler.externals.fields + externals);
      }

      var publicPath := if this.publicPath.None? then compiler.outputPublicPath else this.publicPath.value;

      pluginsToApply := [];
      pluginsToApply := pluginsToApply + [CopyFiles(CopyPatterns(outputPath, assetsToCopy))];
      if |assetsToPrepend| > 0 {
        pluginsToApply := pluginsToApply
          + [IncludeAssets(InjectionAssets(publicPath, outputPath, assetsToPrepend), false, hash, "")];
      }
      if |assetsToAppend| > 0 {
        pluginsToApply := pluginsToApply
          + [IncludeAssets(InjectionAssets(publicPath, outputPath, assetsToAppend), true, hash, "")];
      }
    }
  }
}
