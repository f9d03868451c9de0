/**
 * Entry resolution: the `URL_ENTRY` test and the rewrite of a local entry to
 * `<module>/<entry>`. An entry that is a URL is injected as it is and never
 * copied; any other entry is rewritten, injected and copied. Supplements are
 * always rewritten and never tested.
 */
module Resolution {

  predicate StartsWith(s: string, prefix: string)
  {
    |prefix| <= |s| && s[..|prefix|] == prefix
  }

  /** `/^(http:|https:)?\/\//`: an optional `http:` or `https:` scheme, then `//`. */
  predicate IsUrl(s: string)
  {
    StartsWith(s, "//") || StartsWith(s, "http://") || StartsWith(s, "https://")
  }

  /** The template `${module}/${path}`. */
  function Localize(moduleName: string, path: string): string
  {
    moduleName + "/" + path
  }

  /** What one entry resolves to (the callback of the `map` over entries). */
  function ResolveEntry(moduleName: string, entry: string): string
  {
    if IsUrl(entry) then entry else Localize(moduleName, entry)
  }

  /** The entries of one declaration, resolved in order. */
  function Resolved(moduleName: string, entries: seq<string>): (r: seq<string>)
    ensures |r| == |entries|
    ensures forall i {:trigger r[i]} :: 0 <= i < |entries| && IsUrl(entries[i]) ==> r[i] == entries[i]
    ensures forall i {:trigger r[i]} :: 0 <= i < |entries| && !IsUrl(entries[i]) ==> r[i] == Localize(moduleName, entries[i])
  {
    if entries == [] then []
    else Resolved(moduleName, entries[..|entries| - 1]) + [ResolveEntry(moduleName, entries[|entries| - 1])]
  }

  /** The entries that are not URLs, in order. */
  function Locals(entries: seq<string>): (r: seq<string>)
    ensures |r| <= |entries|
    ensures forall i :: 0 <= i < |r| ==> !IsUrl(r[i])
  {
    if entries == [] then []
    else
      var last := entries[|entries| - 1];
      Locals(entries[..|entries| - 1]) + (if IsUrl(last) then [] else [last])
  }

  /** The local entries are exactly the entries that are not URLs. */
  lemma {:induction false} LocalsMembership(entries: seq<string>)
    ensures forall x :: x in Locals(entries) <==> x in entries && !IsUrl(x)
  {
    if entries != [] {
      var init, last := entries[..|entries| - 1], entries[|entries| - 1];
      LocalsMembership(init);
      assert entries == init + [last];
    }
  }

  /** Every path rewritten under the module (`paths.map(p => `${module}/${p}`)`). */
  function Prefixed(moduleName: string, paths: seq<string>): (r: seq<string>)
    ensures |r| == |paths|
    ensures forall i {:trigger r[i]} :: 0 <= i < |paths| ==> r[i] == Localize(moduleName, paths[i])
  {
    if paths == [] then []
    else Prefixed(moduleName, paths[..|paths| - 1]) + [Localize(moduleName, paths[|paths| - 1])]
  }

  // One entry or one path on its own.

  lemma ResolvedSingle(moduleName: string, e: string)
    ensures Resolved(moduleName, [e]) == [ResolveEntry(moduleName, e)]
  {
    assert [e][..0] == [];
  }

  lemma LocalsSingle(e: string)
    ensures Locals([e]) == if IsUrl(e) then [] else [e]
  {
    assert [e][..0] == [];
  }

  lemma PrefixedSingle(moduleName: string, p: string)
    ensures Prefixed(moduleName, [p]) == [Localize(moduleName, p)]
  {
    assert [p][..0] == [];
  }

  /** `localEntries`: the rewritten local entries, in entry order. */
  function LocalEntries(moduleName: string, entries: seq<string>): seq<string>
  {
    Prefixed(moduleName, Locals(entries))
  }

  /** The URL entries, in order; together with `Locals` they account for every entry. */
  function Urls(entries: seq<string>): seq<string>
  {
    if entries == [] then []
    else
      var last := entries[|entries| - 1];
      Urls(entries[..|entries| - 1]) + (if IsUrl(last) then [last] else [])
  }

  /** Each entry is either a URL or local, never both: the two parts partition the entries. */
  lemma {:induction false} EntriesPartition(entries: seq<string>)
    ensures multiset(Urls(entries)) + multiset(Locals(entries)) == multiset(entries)
  {
    if entries != [] {
      var init, last := entries[..|entries| - 1], entries[|entries| - 1];
      EntriesPartition(init);
      assert entries == init + [last];
      assert multiset(entries) == multiset(init) + multiset{last};
    }
  }

  /**
   * Every local entry, once resolved, is among the declaration's local entries,
   * and every local entry is a resolved entry: local entries are exactly the
   * resolved entries at non-URL positions.
   */
  lemma {:induction false} LocalEntriesAreResolvedLocals(moduleName: string, entries: seq<string>)
    ensures forall i :: 0 <= i < |entries| && !IsUrl(entries[i]) ==>
              Resolved(moduleName, entries)[i] in LocalEntries(moduleName, entries)
    ensures forall x :: x in LocalEntries(moduleName, entries) ==>
              exists i :: 0 <= i < |entries| && !IsUrl(entries[i]) && x == Resolved(moduleName, entries)[i]
  {
    var locals := Locals(entries);
    var les := LocalEntries(moduleName, entries);
    LocalsMembership(entries);
    forall i | 0 <= i < |entries| && !IsUrl(entries[i])
      ensures Resolved(moduleName, entries)[i] in les
    {
      assert entries[i] in locals;
      var k :| 0 <= k < |locals| && locals[k] == entries[i];
      assert les[k] == Localize(moduleName, entries[i]);
    }
    forall x | x in les
      ensures exists i :: 0 <= i < |entries| && !IsUrl(entries[i]) && x == Resolved(moduleName, entries)[i]
    {
      var k :| 0 <= k < |les| && les[k] == x;
      assert locals[k] in entries;
      var i :| 0 <= i < |entries| && entries[i] == locals[k];
      assert x == Resolved(moduleName, entries)[i];
    }
  }

  /**
   * A module name that cannot turn a rewritten path into something that looks
   * like a URL: not empty, not starting with `/`, and without `:`.
   */
  predicate PlainModule(moduleName: string)
  {
    moduleName != "" && moduleName[0] != '/' && ':' !in moduleName
  }

  /** Under a plain module name a rewritten path is never mistaken for a URL. */
  lemma LocalizedIsNotUrl(moduleName: string, path: string)
    requires PlainModule(moduleName)
    ensures !IsUrl(Localize(moduleName, path))
  {
    var r := Localize(moduleName, path);
    var n := |moduleName|;
    // "//" needs a leading '/'. The scheme's ':' sits at index 4 of "http://"
    // and 5 of "https://": a longer module name supplies that character (and
    // has no ':'), a shorter one puts its '/' where a scheme letter belongs.
    var k4, k5 := if n > 4 then 4 else n, if n > 5 then 5 else n;
    assert r[0] == moduleName[0];
    assert n > 4 ==> r[4] == moduleName[4] && moduleName[4] in moduleName;
    assert n > 5 ==> r[5] == moduleName[5] && moduleName[5] in moduleName;
    StartsWithAt(r, "//", 0);
    StartsWithAt(r, "http://", k4);
    StartsWithAt(r, "https://", k5);
  }

  lemma StartsWithAt(s: string, prefix: string, i: nat)
    requires i < |prefix|
    ensures StartsWith(s, prefix) ==> s[i] == prefix[i]
  {
    if StartsWith(s, prefix) {
      assert s[..|prefix|][i] == s[i];
    }
  }

  /**
   * Without that condition the test can change its answer after the rewrite:
   * with moduleName "" the local entry "/lib.js" becomes "//lib.js", a URL.
   */
  lemma EmptyModuleMakesUrl()
    ensures !IsUrl("/lib.js") && IsUrl(Localize("", "/lib.js"))
  {
    assert "/lib.js"[..2] == "/l";
    assert Localize("", "/lib.js")[..2] == "//";
  }
}
