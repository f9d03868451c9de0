/** Worked scenarios: configurations built as values, run through the plugin. */
module Scenarios {
  import opened Js
  import opened Validation
  import opened Resolution
  import opened Ordering
  import opened Integration
  import opened HtmlWebpackExternalsPlugin

  const JqueryItem: Value :=
    Obj(map["module" := Str("jquery"), "entry" := Str("dist/jquery.min.js"), "global" := Str("$")])
  const JqueryConfig: Value := Obj(map["externals" := Arr([JqueryItem])])
  const Jquery: Declaration := Declaration("jquery", ["dist/jquery.min.js"], Str("$"), [], false)

  lemma JqueryDecoded()
    ensures ValidConfig(JqueryConfig) && Declarations(JqueryConfig) == [Jquery]
    ensures OutputPathOf(JqueryConfig) == "vendor" && !HashOf(JqueryConfig) && PublicPathOf(JqueryConfig).None?
  {
    assert ValidDeclaration(JqueryItem);
    assert DeclarationOf(JqueryItem) == Jquery;
  }

  /** A string whose first character is neither '/' nor 'h' is not a URL. */
  lemma NotUrlByFirstChar(s: string)
    requires |s| > 0 && s[0] != '/' && s[0] != 'h'
    ensures !IsUrl(s)
  {
    StartsWithAt(s, "//", 0);
    StartsWithAt(s, "http://", 0);
    StartsWithAt(s, "https://", 0);
  }

  /** A declaration's single entry that is not a URL is both injected and copied as `<module>/<entry>`. */
  lemma PlainSingleEntry(m: string, e: string)
    requires !IsUrl(e)
    ensures Resolved(m, [e]) == [Localize(m, e)]
    ensures LocalEntries(m, [e]) + Prefixed(m, []) == [Localize(m, e)]
  {
    ResolvedSingle(m, e);
    LocalsSingle(e);
    PrefixedSingle(m, e);
  }

  // The jQuery paths spelled out, each on its own so that the string
  // literals stay out of the larger proofs.

  lemma JqueryPath()
    ensures Localize("jquery", "dist/jquery.min.js") == "jquery/dist/jquery.min.js"
  {
  }

  lemma JqueryCopySource()
    ensures "node_modules/" + "jquery/dist/jquery.min.js" == "node_modules/jquery/dist/jquery.min.js"
  {
  }

  lemma JqueryCopyTarget()
    ensures "vendor" + "/" + "jquery/dist/jquery.min.js" == "vendor/jquery/dist/jquery.min.js"
  {
  }

  lemma JqueryPublicPath()
    ensures "/" + "vendor" + "/" + "jquery/dist/jquery.min.js" == "/vendor/jquery/dist/jquery.min.js"
  {
  }

  lemma JqueryEntry()
    ensures Injected(Jquery) == [Localize("jquery", "dist/jquery.min.js")]
    ensures Copied(Jquery) == [Localize("jquery", "dist/jquery.min.js")]
  {
    NotUrlByFirstChar("dist/jquery.min.js");
    PlainSingleEntry("jquery", "dist/jquery.min.js");
  }

  lemma JqueryAggregates()
    ensures Table([Jquery]) == map["jquery" := Str("$")]
    ensures Group([Jquery], false) == ["jquery/dist/jquery.min.js"] && Group([Jquery], true) == []
    ensures CopyList([Jquery]) == ["jquery/dist/jquery.min.js"]
  {
    JqueryEntry();
    Single(Jquery);
    JqueryPath();
  }

  lemma JqueryCopyPatterns()
    ensures CopyPatterns("vendor", ["jquery/dist/jquery.min.js"])
         == [CopyPattern("node_modules/jquery/dist/jquery.min.js", "vendor/jquery/dist/jquery.min.js")]
  {
    CopyPatternsSingle("vendor", "jquery/dist/jquery.min.js");
    JqueryCopySource();
    JqueryCopyTarget();
  }

  lemma JqueryInjectionAssets()
    ensures InjectionAssets("/", "vendor", ["jquery/dist/jquery.min.js"]) == ["/vendor/jquery/dist/jquery.min.js"]
  {
    NotUrlByFirstChar("jquery/dist/jquery.min.js");
    InjectionAssetsSingle("/", "vendor", "jquery/dist/jquery.min.js");
    JqueryPublicPath();
  }

  lemma JqueryDelegates()
    ensures Delegates(["jquery/dist/jquery.min.js"], [], ["jquery/dist/jquery.min.js"], false, "/", "vendor") == [
      CopyFiles([CopyPattern("node_modules/jquery/dist/jquery.min.js", "vendor/jquery/dist/jquery.min.js")]),
      IncludeAssets(["/vendor/jquery/dist/jquery.min.js"], false, false, "")]
  {
    JqueryCopyPatterns();
    JqueryInjectionAssets();
  }

  /** Existing externals `{foo: "Foo"}` merged with `{jquery: "$"}`. */
  lemma JqueryMerge()
    ensures MergeExternals(Obj(map["foo" := Str("Foo")]), map["jquery" := Str("$")])
         == Obj(map["foo" := Str("Foo"), "jquery" := Str("$")])
  {
    assert "foo" != "jquery" by { assert "foo"[0] != "jquery"[0]; }
    assert map["foo" := Str("Foo")] + map["jquery" := Str("$")] == map["foo" := Str("Foo"), "jquery" := Str("$")];
  }

  /**
   * jQuery from node_modules, injected before the bundle under the default
   * output path; the host already had an externals object.
   */
  method JqueryFromNodeModules()
  {
    JqueryDecoded();
    JqueryAggregates();
    var plugin := new ExternalsPlugin(JqueryConfig);
    var compiler := new Compiler(Obj(map["foo" := Str("Foo")]), "/");
    var delegates := plugin.Apply(compiler);
    JqueryMerge();
    JqueryDelegates();
    assert compiler.externals == Obj(map["foo" := Str("Foo"), "jquery" := Str("$")]);
    assert delegates == [
      CopyFiles([CopyPattern("node_modules/jquery/dist/jquery.min.js", "vendor/jquery/dist/jquery.min.js")]),
      IncludeAssets(["/vendor/jquery/dist/jquery.min.js"], false, false, "")];
  }

  /** A CDN URL with `append: true` goes to the append group as it is and is never copied. */
  lemma RemoteLibrary()
    ensures var lib := Declaration("lib", ["https://cdn.example.com/lib.js"], Null, [], true);
      && Group([lib], true) == ["https://cdn.example.com/lib.js"]
      && Group([lib], false) == []
      && CopyList([lib]) == []
  {
    var e := "https://cdn.example.com/lib.js";
    var lib := Declaration("lib", [e], Null, [], true);
    assert e[..8] == "https://";
    var none: seq<string> := [];
    assert [e][..0] == none;
    assert Init([lib]) == [];
    assert Locals([e]) == [];
  }

  /** Two declarations on their own: each aggregate is the first's followed by the second's. */
  lemma Pair(x: Declaration, y: Declaration)
    ensures Group([x, y], false) == Group([x], false) + Group([y], false)
    ensures CopyList([x, y]) == CopyList([x]) + CopyList([y])
  {
    GroupConcat([x], [y], false);
    CopyListConcat([x], [y]);
    assert [x] + [y] == [x, y];
  }

  /** Two prepended declarations: each aggregate is the first's contribution followed by the second's. */
  lemma PrependedPair(x: Declaration, y: Declaration)
    requires !x.append && !y.append
    ensures Group([x, y], false) == Injected(x) + Injected(y)
    ensures CopyList([x, y]) == Copied(x) + Copied(y)
  {
    Single(x);
    Single(y);
    Pair(x, y);
  }

  lemma OrderPaths()
    ensures Localize("x", "a.js") == "x/a.js" && Localize("y", "b.js") == "y/b.js"
  {
  }

  /** Two prepended declarations keep declaration order: `x/a.js` before `y/b.js`. */
  lemma TwoDeclarationsInOrder()
    ensures var x := Declaration("x", ["a.js"], Null, [], false);
      var y := Declaration("y", ["b.js"], Null, [], false);
      Group([x, y], false) == ["x/a.js", "y/b.js"]
  {
    var x := Declaration("x", ["a.js"], Null, [], false);
    var y := Declaration("y", ["b.js"], Null, [], false);
    NotUrlByFirstChar("a.js");
    NotUrlByFirstChar("b.js");
    PlainSingleEntry("x", "a.js");
    PlainSingleEntry("y", "b.js");
    PrependedPair(x, y);
    OrderPaths();
  }

  /**
   * The same module declared twice with the same entries and supplements:
   * the table keeps the second declaration's global, while the entries are
   * injected and copied once per declaration.
   */
  lemma DuplicateModule(x: Declaration, y: Declaration)
    requires x.moduleName == y.moduleName && x.entry == y.entry && x.supplements == y.supplements
    requires !x.append && !y.append
    ensures Table([x, y]) == map[y.moduleName := y.global]
    ensures Group([x, y], false) == Injected(x) + Injected(x)
    ensures CopyList([x, y]) == Copied(x) + Copied(x)
  {
    PrependedPair(x, y);
    assert Init([x, y]) == [x];
    Single(x);
  }

  /**
   * Module "" with the local entry "/lib.js": the copy list and the prepend
   * group both hold "//lib.js". The copy delegate copies it to
   * `<outputPath>///lib.js`, while the include-assets delegate injects the
   * protocol-relative URL "//lib.js" as it is.
   */
  lemma EmptyModuleLibrary(publicPath: string, outputPath: string)
    ensures var d := Declaration("", ["/lib.js"], Null, [], false);
      && CopyList([d]) == ["//lib.js"]
      && Group([d], false) == ["//lib.js"]
      && CopyPatterns(outputPath, CopyList([d])) == [CopyPattern("node_modules///lib.js", outputPath + "///lib.js")]
      && InjectionAssets(publicPath, outputPath, Group([d], false)) == ["//lib.js"]
  {
    var d := Declaration("", ["/lib.js"], Null, [], false);
    EmptyModuleInjectedAsUrl(publicPath, outputPath);
    EmptyModuleMakesUrl();
    EmptyModulePath();
    PlainSingleEntry("", "/lib.js");
    Single(d);
    InjectionAssetsSingle(publicPath, outputPath, "//lib.js");
  }

  /** An item without `module` is refused. */
  lemma MissingModuleRejected()
    ensures !Conforms(Obj(map["externals" := Arr([Obj(map["entry" := Str("a.js")])])]), ConfigSchema)
  {
    var c := Obj(map["externals" := Arr([Obj(map["entry" := Str("a.js")])])]);
    ItemRejections(c, 0);
  }
}
