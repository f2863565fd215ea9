/**
 * `EnvironmentAliasesConfigurationProvider`: holds the mapping from
 * environment variable names to configuration paths (`keyMapping`) and the
 * resolved configuration table (`data`, the `Data` table it inherits from
 * `ConfigurationProvider`), both ignore-case dictionaries.
 */
module AliasesProvider {
  import opened Wrappers
  import opened Folding
  import opened IgnoreCaseDictionary
  import opened Resolution

  /** No two names of the items are the same key, ignoring case. */
  predicate NoCaseDuplicates(items: seq<(string, string)>)
  {
    forall i, j :: 0 <= i < j < |items| ==> !SameKey(items[i].0, items[j].0)
  }

  /**
   * The copy loop of the mapping constructor: `Add` each item, in the
   * caller's enumeration order, to a fresh ignore-case dictionary. It fails
   * on the first item whose name is already present ignoring case; otherwise
   * the dictionary holds exactly the items.
   */
  method CopyMapping(items: seq<(string, string)>) returns (r: Result<Dictionary>)
    ensures r.Err? <==> !NoCaseDuplicates(items)
    ensures r.Err? ==> exists i :: 0 <= i < |items| && FirstCollision(items, i) && r.error == DuplicateKey(items[i].0)
    ensures r.Ok? ==> r.value.Valid() && r.value.Count() == |items|
    ensures r.Ok? ==> r.value.Keys() == Names(items)
    ensures r.Ok? ==> forall i :: 0 <= i < |items| ==> r.value.TryGet(items[i].0) == Some(items[i].1)
    ensures r.Ok? ==> forall k :: r.value.ContainsKey(k) ==> exists i :: 0 <= i < |items| && SameKey(items[i].0, k)
  {
    var d := Empty();
    var i := 0;
    assert items[..0] == [];
    while i < |items|
      invariant 0 <= i <= |items|
      invariant CopyInvariant(items, i, d)
    {
      var (name, value) := items[i];
      var added := d.Add(name, value);
      if added.Err? {
        NamesStep(items, i);
        var j :| 0 <= j < i && Fold(items[j].0) == Fold(name);
        assert SameKey(items[j].0, items[i].0);
        assert FirstCollision(items, i);
        return Err(added.error);
      }
      CopyStep(items, i, d);
      d := added.value;
      i := i + 1;
    }
    assert items[..i] == items;
    forall k | d.ContainsKey(k)
      ensures exists j :: 0 <= j < |items| && SameKey(items[j].0, k)
    {
      var j :| 0 <= j < |items| && Fold(k) == Fold(items[j].0);
    }
    return Ok(d);
  }

  /**
   * Item `i` is the first whose name is already present, ignoring case: the
   * items before it are free of such duplicates, and one of them has its name.
   */
  ghost predicate FirstCollision(items: seq<(string, string)>, i: int)
  {
    && 0 <= i < |items|
    && NoCaseDuplicates(items[..i])
    && exists j :: 0 <= j < i && SameKey(items[j].0, items[i].0)
  }

  /**
   * Every prefix that reaches past a collision holds a duplicate, so no later
   * item is a first collision either: the error `CopyMapping` reports is
   * determined by the items.
   */
  lemma CollisionPersists(items: seq<(string, string)>, i: int, k: int)
    requires FirstCollision(items, i) && i < k <= |items|
    ensures !NoCaseDuplicates(items[..k])
  {
    var j :| 0 <= j < i && SameKey(items[j].0, items[i].0);
    assert items[..k][j] == items[j] && items[..k][i] == items[i];
  }

  /** What the copy loop knows once the first `i` items have been added to `d`. */
  ghost predicate CopyInvariant(items: seq<(string, string)>, i: int, d: Dictionary)
    requires 0 <= i <= |items|
  {
    && NoCaseDuplicates(items[..i])
    && d.Valid() && d.Count() == i
    && d.Keys() == Names(items[..i])
    && d.entries.Keys == FoldedNames(items[..i])
    && forall j :: 0 <= j < i ==> d.TryGet(items[j].0) == Some(items[j].1)
  }

  /** Adding an item whose name is not yet present keeps the copy loop's invariant. */
  lemma CopyStep(items: seq<(string, string)>, i: int, d: Dictionary)
    requires 0 <= i < |items|
    requires CopyInvariant(items, i, d)
    requires !d.ContainsKey(items[i].0)
    ensures d.Add(items[i].0, items[i].1).Ok?
    ensures CopyInvariant(items, i + 1, d.Add(items[i].0, items[i].1).value)
  {
    NamesStep(items, i);
    DuplicatesStep(items, i);
    CopyLookupStep(items, i, d);
  }

  /** Adding an item whose name is not yet present keeps the earlier items retrievable. */
  lemma CopyLookupStep(items: seq<(string, string)>, i: int, d: Dictionary)
    requires 0 <= i < |items|
    requires d.Valid() && d.entries.Keys == FoldedNames(items[..i])
    requires forall j :: 0 <= j < i ==> d.TryGet(items[j].0) == Some(items[j].1)
    requires !d.ContainsKey(items[i].0)
    ensures d.Add(items[i].0, items[i].1).Ok?
    ensures forall j :: 0 <= j <= i ==> d.Add(items[i].0, items[i].1).value.TryGet(items[j].0) == Some(items[j].1)
  {
    var (name, value) := items[i];
    var next := d.Add(name, value).value;
    forall j | 0 <= j <= i
      ensures next.TryGet(items[j].0) == Some(items[j].1)
    {
      if j < i {
        assert Fold(items[..i][j].0) in FoldedNames(items[..i]);
        assert !SameKey(items[j].0, name);
      }
    }
  }

  /** The names of the items, as spelled. */
  ghost function Names(items: seq<(string, string)>): set<string>
  {
    set i | 0 <= i < |items| :: items[i].0
  }

  /** The folded names of the items. */
  ghost function FoldedNames(items: seq<(string, string)>): set<string>
  {
    set i | 0 <= i < |items| :: Fold(items[i].0)
  }

  lemma NamesStep(items: seq<(string, string)>, i: int)
    requires 0 <= i < |items|
    ensures Names(items[..i + 1]) == Names(items[..i]) + {items[i].0}
    ensures FoldedNames(items[..i + 1]) == FoldedNames(items[..i]) + {Fold(items[i].0)}
    ensures Fold(items[i].0) in FoldedNames(items[..i]) ==> exists j :: 0 <= j < i && Fold(items[j].0) == Fold(items[i].0)
  {
    var p, q := items[..i], items[..i + 1];
    assert forall j :: 0 <= j < i ==> p[j] == items[j] && q[j] == items[j];
    assert q[i] == items[i];
  }

  lemma DuplicatesStep(items: seq<(string, string)>, i: int)
    requires 0 <= i < |items|
    requires NoCaseDuplicates(items[..i])
    requires Fold(items[i].0) !in FoldedNames(items[..i])
    ensures NoCaseDuplicates(items[..i + 1])
  {
    var p, q := items[..i], items[..i + 1];
    assert forall j :: 0 <= j < i ==> p[j] == items[j] && q[j] == items[j];
    forall j | 0 <= j < i
      ensures !SameKey(q[j].0, q[i].0)
    {
      assert Fold(p[j].0) in FoldedNames(p);
    }
  }

  /** The provider object; `Valid` says both of its tables are well formed. */
  class Provider {
    /** Environment variable name to configuration path, ignoring case on the name. */
    var keyMapping: Dictionary
    /** The resolved configuration table, ignoring case on the path. */
    var data: Dictionary

    ghost predicate Valid()
      reads this
    {
      keyMapping.Valid() && data.Valid()
    }

    /** The parameterless constructor: an empty mapping and an empty table. */
    constructor ()
      ensures Valid()
      ensures keyMapping.Count() == 0 && data.Count() == 0
    {
      keyMapping := Empty();
      data := Empty();
    }

    /**
     * The constructor taking a mapping (`None` for `null`): the mapping is
     * copied with `Add`, so names that are the same key ignoring case make it
     * throw; that case is excluded here and modelled by `CopyMapping`.
     */
    constructor FromMapping(mapping: Option<seq<(string, string)>>)
      requires mapping.Some? ==> NoCaseDuplicates(mapping.value)
      ensures Valid()
      ensures data.Count() == 0
      ensures mapping.None? ==> keyMapping.Count() == 0
      ensures mapping.Some? ==> keyMapping.Count() == |mapping.value|
      ensures mapping.Some? ==> keyMapping.Keys() == Names(mapping.value)
      ensures mapping.Some? ==> forall i :: 0 <= i < |mapping.value| ==>
        keyMapping.TryGet(mapping.value[i].0) == Some(mapping.value[i].1)
      ensures mapping.Some? ==> forall k :: keyMapping.ContainsKey(k) ==>
        exists i :: 0 <= i < |mapping.value| && SameKey(mapping.value[i].0, k)
    {
      data := Empty();
      if mapping.Some? {
        var copied := CopyMapping(mapping.value);
        keyMapping := copied.value;
      } else {
        keyMapping := Empty();
      }
    }

    /**
     * `Load(IDictionary)`: replace `data` by a fresh empty table, then for
     * each snapshot entry whose name is in the mapping, store its value under
     * the mapped path. The new table depends on the mapping and the snapshot
     * only, never on the table it replaces.
     */
    method Load(environmentVariables: Snapshot)
      requires Valid()
      modifies this`data
      ensures Valid()
      ensures data == Resolve(keyMapping, environmentVariables)
    {
      data := Empty();
      for i := 0 to |environmentVariables|
        invariant data == Resolve(keyMapping, environmentVariables[..i])
      {
        var (name, value) := environmentVariables[i];
        assert environmentVariables[..i + 1][..i] == environmentVariables[..i];
        if keyMapping.ContainsKey(name) {
          data := data.Set(keyMapping.Get(name), value);
        }
      }
      assert environmentVariables[..|environmentVariables|] == environmentVariables;
    }

    /** `TryGet`: the value held under `key` in the resolved table, ignoring case. */
    function TryGet(key: string): Option<string>
      reads this
    {
      data.TryGet(key)
    }

    /** The number of entries in the resolved table. */
    function Count(): nat
      reads this
    {
      data.Count()
    }
  }
}
