/** Which bundles each asset depends on (ABEditor.CalculateDependencies), as
    functions the dependency method is proved against.

    `AssetDatabase.GetDependencies` is an oracle: a total function from an
    asset path to the asset paths it reports, in the order it reports them. */
module DependencySpec {
  import opened Util
  import opened ScanSpec

  /** Script dependencies are not shipped and never become bundle dependencies. */
  const ScriptSuffix: string := ".cs"

  /** Every bundle name the table maps some asset to. */
  ghost function Bundles(table: seq<Entry>): set<string> {
    set e | e in table :: e.bundle
  }

  /** `asset2bundle.TryGetValue`: the bundle recorded for `asset`, if any. */
  function Lookup(table: seq<Entry>, asset: string): (r: Option<string>)
    ensures r.Some? <==> asset in Keys(table)
    ensures r.Some? ==> Entry(asset, r.value) in table
    decreases |table|
  {
    if table == [] then None
    else
      var last := table[|table| - 1];
      assert Keys(table) == Keys(table[..|table| - 1]) + [last.asset];
      if last.asset == asset then Some(last.bundle)
      else Lookup(table[..|table| - 1], asset)
  }

  /** The oracle's answer without the asset itself and without scripts, order
      and repetitions kept. */
  function Filtered(asset: string, deps: seq<string>): (r: seq<string>)
    ensures forall d :: d in r <==> d in deps && d != asset && !EndsWith(d, ScriptSuffix)
    decreases |deps|
  {
    if deps == [] then []
    else
      var d := deps[|deps| - 1];
      Filtered(asset, deps[..|deps| - 1]) + (if d == asset || EndsWith(d, ScriptSuffix) then [] else [d])
  }

  /** The bundles of the filtered dependencies: one name per dependency that
      lies in a bundle other than `own`, duplicates kept, dependencies outside
      every bundle skipped. */
  function Resolve(table: seq<Entry>, own: string, deps: seq<string>): (r: seq<string>)
    ensures |r| <= |deps|
    ensures forall n :: n in r ==> n != own && n in Bundles(table)
    ensures forall d :: d in deps && Lookup(table, d).Some? && Lookup(table, d).value != own ==>
                        Lookup(table, d).value in r
    decreases |deps|
  {
    if deps == [] then []
    else
      var d := deps[|deps| - 1];
      var init := Resolve(table, own, deps[..|deps| - 1]);
      match Lookup(table, d)
      case Some(b) => if b != own then init + [b] else init
      case None => init
  }

  /** The asset2Dependencies table built while walking the entries of `prefix`
      in order, looking bundles up in the whole `table`. */
  function DepTable(prefix: seq<Entry>, table: seq<Entry>, oracle: string -> seq<string>): (r: map<string, seq<string>>)
    ensures forall a :: a in r ==> Filtered(a, oracle(a)) != []
    decreases |prefix|
  {
    if prefix == [] then map[]
    else
      var e := prefix[|prefix| - 1];
      var deps := Filtered(e.asset, oracle(e.asset));
      var m := DepTable(prefix[..|prefix| - 1], table, oracle);
      if |deps| > 0 then m[e.asset := Resolve(table, e.bundle, deps)] else m
  }

  /** One more entry of the table walked: it adds its dependency list when
      that list is non-empty. */
  lemma DepTableStep(table: seq<Entry>, i: nat, oracle: string -> seq<string>)
    requires i < |table|
    ensures DepTable(table[..i + 1], table, oracle)
         == var deps := Filtered(table[i].asset, oracle(table[i].asset));
            var m := DepTable(table[..i], table, oracle);
            if |deps| > 0 then m[table[i].asset := Resolve(table, table[i].bundle, deps)] else m
  {
    assert table[..i + 1][..i] == table[..i];
  }

  /** An asset has a dependency entry exactly when its filtered dependency list
      is non-empty, even if none of those dependencies lies in another bundle. */
  lemma {:induction false} DepTableKeys(prefix: seq<Entry>, table: seq<Entry>, oracle: string -> seq<string>, a: string)
    ensures a in DepTable(prefix, table, oracle) <==> a in Keys(prefix) && Filtered(a, oracle(a)) != []
    decreases |prefix|
  {
    if prefix != [] {
      var init := prefix[..|prefix| - 1];
      DepTableKeys(init, table, oracle, a);
      assert Keys(prefix) == Keys(init) + [prefix[|prefix| - 1].asset];
    }
  }

  /** The entry of an asset is the resolution of its filtered dependencies
      against the asset's own bundle. */
  lemma {:induction false} DepTableValue(prefix: seq<Entry>, table: seq<Entry>, oracle: string -> seq<string>, a: string)
    requires a in DepTable(prefix, table, oracle)
    ensures Lookup(prefix, a).Some?
    ensures DepTable(prefix, table, oracle)[a] == Resolve(table, Lookup(prefix, a).value, Filtered(a, oracle(a)))
    decreases |prefix|
  {
    var init := prefix[..|prefix| - 1];
    var e := prefix[|prefix| - 1];
    if e.asset != a || Filtered(a, oracle(a)) == [] {
      DepTableValue(init, table, oracle, a);
    }
  }

  /** No asset lists its own bundle among its dependencies. */
  lemma NoSelfDependency(table: seq<Entry>, oracle: string -> seq<string>, a: string)
    requires a in DepTable(table, table, oracle)
    ensures Lookup(table, a).Some?
    ensures Lookup(table, a).value !in DepTable(table, table, oracle)[a]
  {
    DepTableValue(table, table, oracle, a);
  }

  /** Every listed dependency names a bundle some asset of the table belongs to. */
  lemma {:induction false} DependencyIntegrity(prefix: seq<Entry>, table: seq<Entry>, oracle: string -> seq<string>, a: string)
    requires a in DepTable(prefix, table, oracle)
    ensures forall n :: n in DepTable(prefix, table, oracle)[a] ==> n in Bundles(table)
  {
    DepTableValue(prefix, table, oracle, a);
  }

  /** Walking a table with distinct keys, the asset at position `i` has no
      dependency entry yet when it is reached, so `asset2Dependencies.Add`
      does not throw. */
  lemma DepTableFresh(table: seq<Entry>, i: nat, oracle: string -> seq<string>)
    requires Distinct(Keys(table)) && i < |table|
    ensures table[i].asset !in DepTable(table[..i], table, oracle)
  {
    KeysPrefix(table, i);
    DistinctNotBefore(Keys(table), i);
    DepTableKeys(table[..i], table, oracle, table[i].asset);
  }
}
