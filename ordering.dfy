/**
 * What the constructor accumulates, stated as functions of the declarations:
 * the externals table, the two injection groups (prepend and append) and the
 * copy list. Each is defined on a prefix of the declarations plus the last
 * one, the way the constructor's loop builds it.
 */
module Ordering {
  import opened Wrappers
  import opened Js
  import opened Validation
  import opened Resolution

  /** One item of `externals` after destructuring, with its defaults applied. */
  datatype Declaration = Declaration(
    moduleName: string,
    entry: seq<string>,
    global: Value,
    supplements: seq<string>,
    append: bool)

  /** `Array.isArray(entry) ? entry : [entry]` */
  function EntryList(e: Value): (r: seq<string>)
    requires ValidEntry(e)
    ensures |r| >= 1
    ensures e.Str? ==> r == [e.s]
    ensures e.Arr? ==> |r| == |e.items| && forall i :: 0 <= i < |r| ==> e.items[i] == Str(r[i])
  {
    if e.Str? then [e.s] else Strings(e)
  }

  /** `({ module, entry, global = null, supplements = [], append = false })` */
  function DeclarationOf(v: Value): (d: Declaration)
    requires ValidDeclaration(v)
    ensures d.moduleName == Get(v, "module").s
    ensures d.entry == EntryList(Get(v, "entry")) && |d.entry| >= 1
    ensures d.global == (if Present(v, "global") then Get(v, "global") else Null)
    ensures d.global.Null? || d.global.Str?
    ensures !Present(v, "supplements") ==> d.supplements == []
    ensures Present(v, "supplements") ==> d.supplements == Strings(Get(v, "supplements"))
    ensures d.append == (Present(v, "append") && Get(v, "append").b)
  {
    Declaration(
      Get(v, "module").s,
      EntryList(Get(v, "entry")),
      if Present(v, "global") then Get(v, "global") else Null,
      if Present(v, "supplements") then Strings(Get(v, "supplements")) else [],
      Present(v, "append") && Get(v, "append").b)
  }

  /** The declarations of a valid configuration, in configuration order. */
  function Declarations(config: Value): (ds: seq<Declaration>)
    requires ValidConfig(config)
    ensures |ds| == |Get(config, "externals").items| >= 1
    ensures forall i :: 0 <= i < |ds| ==> ds[i] == DeclarationOf(Get(config, "externals").items[i])
  {
    var items := Get(config, "externals").items;
    seq(|items|, i requires 0 <= i < |items| => DeclarationOf(items[i]))
  }

  /** `hash = false` */
  function HashOf(config: Value): bool
    requires ValidConfig(config)
  {
    Present(config, "hash") && Get(config, "hash").b
  }

  /** `outputPath = 'vendor'` */
  function OutputPathOf(config: Value): string
    requires ValidConfig(config)
  {
    if Present(config, "outputPath") then Get(config, "outputPath").s else "vendor"
  }

  /** `publicPath = null` */
  function PublicPathOf(config: Value): Option<string>
    requires ValidConfig(config)
  {
    if Present(config, "publicPath") && Get(config, "publicPath").Str? then Some(Get(config, "publicPath").s) else None
  }

  /** The resolved entries of one declaration: what it injects. */
  function Injected(d: Declaration): seq<string>
  {
    Resolved(d.moduleName, d.entry)
  }

  /** What one declaration adds to the copy list: its local entries, then its supplements. */
  function Copied(d: Declaration): (r: seq<string>)
    ensures |r| == |Locals(d.entry)| + |d.supplements|
  {
    LocalEntries(d.moduleName, d.entry) + Prefixed(d.moduleName, d.supplements)
  }

  function Last(ds: seq<Declaration>): Declaration
    requires ds != []
  {
    ds[|ds| - 1]
  }

  function Init(ds: seq<Declaration>): seq<Declaration>
    requires ds != []
  {
    ds[..|ds| - 1]
  }

  /**
   * The injection group selected by `append`: `assetsToPrepend` for false,
   * `assetsToAppend` for true.
   */
  function Group(ds: seq<Declaration>, append: bool): seq<string>
  {
    if ds == [] then []
    else Group(Init(ds), append) + (if Last(ds).append == append then Injected(Last(ds)) else [])
  }

  /** `assetsToCopy` */
  function CopyList(ds: seq<Declaration>): seq<string>
  {
    if ds == [] then [] else CopyList(Init(ds)) + Copied(Last(ds))
  }

  /** The `externals` table: each declaration writes `module -> global`, later ones overwrite. */
  function Table(ds: seq<Declaration>): map<string, Value>
  {
    if ds == [] then map[] else Table(Init(ds))[Last(ds).moduleName := Last(ds).global]
  }

  /** Every resolved entry of every declaration, in declaration order. */
  function AllInjected(ds: seq<Declaration>): seq<string>
  {
    if ds == [] then [] else AllInjected(Init(ds)) + Injected(Last(ds))
  }

  // ---------------------------------------------------------------------
  // Properties

  lemma InitOfConcat(xs: seq<Declaration>, ys: seq<Declaration>)
    requires ys != []
    ensures xs + ys != [] && Init(xs + ys) == xs + Init(ys) && Last(xs + ys) == Last(ys)
  {
    assert (xs + ys)[..|xs + ys| - 1] == xs + ys[..|ys| - 1];
  }

  /** A single declaration on its own. */
  lemma Single(d: Declaration)
    ensures Group([d], d.append) == Injected(d) && Group([d], !d.append) == []
    ensures CopyList([d]) == Copied(d)
    ensures Table([d]) == map[d.moduleName := d.global]
  {
    assert Init([d]) == [];
  }

  /** What the constructor's loop adds for the declaration at index `i`. */
  lemma PrefixStep(ds: seq<Declaration>, i: nat)
    requires i < |ds|
    ensures Group(ds[..i + 1], false) == Group(ds[..i], false) + (if ds[i].append then [] else Injected(ds[i]))
    ensures Group(ds[..i + 1], true) == Group(ds[..i], true) + (if ds[i].append then Injected(ds[i]) else [])
    ensures CopyList(ds[..i + 1]) == CopyList(ds[..i]) + Copied(ds[i])
    ensures Table(ds[..i + 1]) == Table(ds[..i])[ds[i].moduleName := ds[i].global]
  {
    assert Init(ds[..i + 1]) == ds[..i];
  }

  /** Each group is the concatenation of the groups of consecutive runs of declarations. */
  lemma {:induction false} GroupConcat(xs: seq<Declaration>, ys: seq<Declaration>, append: bool)
    ensures Group(xs + ys, append) == Group(xs, append) + Group(ys, append)
    decreases |ys|
  {
    if ys == [] {
      assert xs + ys == xs;
    } else {
      var tail := if Last(ys).append == append then Injected(Last(ys)) else [];
      InitOfConcat(xs, ys);
      calc {
        Group(xs + ys, append);
        Group(xs + Init(ys), append) + tail;
        { GroupConcat(xs, Init(ys), append); }
        (Group(xs, append) + Group(Init(ys), append)) + tail;
        Group(xs, append) + (Group(Init(ys), append) + tail);
      }
    }
  }

  lemma {:induction false} CopyListConcat(xs: seq<Declaration>, ys: seq<Declaration>)
    ensures CopyList(xs + ys) == CopyList(xs) + CopyList(ys)
    decreases |ys|
  {
    if ys == [] {
      assert xs + ys == xs;
    } else {
      InitOfConcat(xs, ys);
      calc {
        CopyList(xs + ys);
        CopyList(xs + Init(ys)) + Copied(Last(ys));
        { CopyListConcat(xs, Init(ys)); }
        (CopyList(xs) + CopyList(Init(ys))) + Copied(Last(ys));
        CopyList(xs) + (CopyList(Init(ys)) + Copied(Last(ys)));
      }
    }
  }

  /**
   * Declaration order and entry order: a declaration's resolved entries sit
   * contiguously in its group, after those of every earlier declaration of
   * the group and before those of every later one; the other group does not
   * hold them.
   */
  lemma GroupContiguous(ds: seq<Declaration>, i: nat, append: bool)
    requires i < |ds|
    ensures Group(ds, append) ==
      Group(ds[..i], append)
      + (if ds[i].append == append then Injected(ds[i]) else [])
      + Group(ds[i + 1..], append)
  {
    assert ds == ds[..i] + [ds[i]] + ds[i + 1..];
    GroupConcat(ds[..i] + [ds[i]], ds[i + 1..], append);
    GroupConcat(ds[..i], [ds[i]], append);
    assert Init([ds[i]]) == [];
  }

  /**
   * The same for the copy list: a declaration contributes its local entries,
   * then its supplements, after everything earlier declarations contribute
   * and before everything later ones do.
   */
  lemma CopyListContiguous(pre: seq<Declaration>, d: Declaration, post: seq<Declaration>)
    ensures CopyList(pre + [d] + post) == CopyList(pre) + Copied(d) + CopyList(post)
  {
    Single(d);
    CopyListConcat(pre + [d], post);
    CopyListConcat(pre, [d]);
  }

  /** A declaration's local entry is among its copies, rewritten under its module. */
  lemma LocalEntryInCopied(d: Declaration, e: string)
    requires e in d.entry && !IsUrl(e)
    ensures Localize(d.moduleName, e) in Copied(d)
  {
    var locals := Locals(d.entry);
    LocalsMembership(d.entry);
    var k :| 0 <= k < |locals| && locals[k] == e;
    assert LocalEntries(d.moduleName, d.entry)[k] == Localize(d.moduleName, e);
  }

  /** Every local entry of every declaration is copied, rewritten under its module. */
  lemma {:induction false} LocalEntryIsCopied(ds: seq<Declaration>, i: nat, e: string)
    requires i < |ds| && e in ds[i].entry && !IsUrl(e)
    ensures Localize(ds[i].moduleName, e) in CopyList(ds)
  {
    if i == |ds| - 1 {
      LocalEntryInCopied(Last(ds), e);
    } else {
      assert Init(ds)[i] == ds[i];
      LocalEntryIsCopied(Init(ds), i, e);
    }
  }

  /** Every resolved entry lands in exactly one of the two groups. */
  lemma {:induction false} GroupsPartition(ds: seq<Declaration>)
    ensures multiset(Group(ds, false)) + multiset(Group(ds, true)) == multiset(AllInjected(ds))
    ensures |Group(ds, false)| + |Group(ds, true)| == |AllInjected(ds)|
  {
    if ds != [] {
      GroupsPartition(Init(ds));
    }
  }

  /** `c` is `<module>/<p>` for one of `d`'s non-URL entries or supplements `p`. */
  ghost predicate CopiedFrom(d: Declaration, c: string)
  {
    exists p :: c == Localize(d.moduleName, p) && ((p in d.entry && !IsUrl(p)) || p in d.supplements)
  }

  lemma CopiedOrigins(d: Declaration)
    ensures forall c :: c in Copied(d) ==> CopiedFrom(d, c)
  {
    var locals := Locals(d.entry);
    var les := LocalEntries(d.moduleName, d.entry);
    var sups := Prefixed(d.moduleName, d.supplements);
    LocalsMembership(d.entry);
    forall c | c in Copied(d) ensures CopiedFrom(d, c) {
      if c in les {
        var k :| 0 <= k < |les| && les[k] == c;
        assert locals[k] in locals;
        assert c == Localize(d.moduleName, locals[k]);
      } else {
        assert c in sups;
        var k :| 0 <= k < |sups| && sups[k] == c;
        assert d.supplements[k] in d.supplements;
      }
    }
  }

  /**
   * Nothing reaches the copy list but rewritten local entries and rewritten
   * supplements: each element is `<module>/<p>` for a declaration's module and
   * a `p` that is one of its non-URL entries or one of its supplements.
   */
  lemma {:induction false} CopyListOrigins(ds: seq<Declaration>)
    ensures forall c :: c in CopyList(ds) ==> exists i :: 0 <= i < |ds| && CopiedFrom(ds[i], c)
  {
    if ds != [] {
      var init, d := Init(ds), Last(ds);
      CopyListOrigins(init);
      CopiedOrigins(d);
      forall c | c in CopyList(ds) ensures exists i :: 0 <= i < |ds| && CopiedFrom(ds[i], c) {
        if c in CopyList(init) {
          var i :| 0 <= i < |init| && CopiedFrom(init[i], c);
          assert ds[i] == init[i];
        } else {
          assert CopiedFrom(ds[|ds| - 1], c);
        }
      }
    }
  }

  /** With plain module names, no element of the copy list looks like a URL. */
  lemma CopyListHasNoUrl(ds: seq<Declaration>)
    requires forall i :: 0 <= i < |ds| ==> PlainModule(ds[i].moduleName)
    ensures forall c :: c in CopyList(ds) ==> !IsUrl(c)
  {
    CopyListOrigins(ds);
    forall c | c in CopyList(ds) ensures !IsUrl(c) {
      var i :| 0 <= i < |ds| && CopiedFrom(ds[i], c);
      var p :| c == Localize(ds[i].moduleName, p) && ((p in ds[i].entry && !IsUrl(p)) || p in ds[i].supplements);
      LocalizedIsNotUrl(ds[i].moduleName, p);
    }
  }

  /** The table has a key for each declared module and no other. */
  lemma {:induction false} TableKeys(ds: seq<Declaration>)
    ensures Table(ds).Keys == set i | 0 <= i < |ds| :: ds[i].moduleName
  {
    if ds != [] {
      var init := Init(ds);
      TableKeys(init);
      var n := |ds| - 1;
      assert forall i :: 0 <= i < n ==> ds[i] == init[i];
      assert (set i | 0 <= i < |ds| :: ds[i].moduleName)
          == (set i | 0 <= i < n :: init[i].moduleName) + {ds[n].moduleName};
    }
  }

  /** A module's value is the global of its last declaration. */
  lemma {:induction false} TableLastWins(ds: seq<Declaration>, i: nat)
    requires i < |ds|
    requires forall j :: i < j < |ds| ==> ds[j].moduleName != ds[i].moduleName
    ensures ds[i].moduleName in Table(ds) && Table(ds)[ds[i].moduleName] == ds[i].global
  {
    if i < |ds| - 1 {
      TableLastWins(Init(ds), i);
    }
  }
}
