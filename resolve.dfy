/**
 * What `Load(IDictionary)` computes, as a function of the mapping and the
 * snapshot, and the properties of that table.
 *
 * A snapshot is the sequence of `(name, value)` entries in the order the
 * enumeration of the environment dictionary yields them.
 */
module Resolution {
  import opened Wrappers
  import opened Folding
  import opened IgnoreCaseDictionary

  type Snapshot = seq<(string, string)>

  /** Snapshot entry `e` is mapped, and its mapped path is the same key as `path`. */
  predicate Hits(mapping: Dictionary, e: (string, string), path: string)
  {
    mapping.ContainsKey(e.0) && SameKey(mapping.Get(e.0), path)
  }

  /** Entry `i` is the last entry of `env` that lands on `path`. */
  ghost predicate LastHit(mapping: Dictionary, env: Snapshot, path: string, i: int)
  {
    && 0 <= i < |env|
    && Hits(mapping, env[i], path)
    && forall j :: i < j < |env| ==> !Hits(mapping, env[j], path)
  }

  /** The folded paths that some mapped snapshot entry lands on. */
  ghost function HitPaths(mapping: Dictionary, env: Snapshot): set<string>
  {
    set i | 0 <= i < |env| && mapping.ContainsKey(env[i].0) :: Fold(mapping.Get(env[i].0))
  }

  /** The mapping targets, as spelled in the mapping, that some snapshot entry selects. */
  ghost function HitTargets(mapping: Dictionary, env: Snapshot): set<string>
  {
    set i | 0 <= i < |env| && mapping.ContainsKey(env[i].0) :: mapping.Get(env[i].0)
  }

  /** The folded forms of all mapping targets. */
  ghost function TargetPaths(entries: map<string, Entry>): set<string>
  {
    set f | f in entries :: Fold(entries[f].value)
  }

  /**
   * The table `Load` builds: start from an empty ignore-case table and, for
   * each snapshot entry in turn whose name is mapped, store its value under
   * the mapped path.
   */
  function Resolve(mapping: Dictionary, env: Snapshot): (d: Dictionary)
    ensures d.Valid()
    decreases |env|
  {
    if env == [] then Empty()
    else
      var rest := Resolve(mapping, env[..|env| - 1]);
      var (name, value) := env[|env| - 1];
      if mapping.ContainsKey(name) then rest.Set(mapping.Get(name), value) else rest
  }

  /** One snapshot entry more: it decides `path` when it lands there, and leaves it alone otherwise. */
  lemma ResolveStep(mapping: Dictionary, env: Snapshot, path: string)
    requires env != []
    ensures Resolve(mapping, env).TryGet(path) ==
      if Hits(mapping, env[|env| - 1], path) then Some(env[|env| - 1].1)
      else Resolve(mapping, env[..|env| - 1]).TryGet(path)
  {
  }

  /** When the last entry lands on `path`, it is the only last hit. */
  lemma LastHitAtEnd(mapping: Dictionary, env: Snapshot, path: string)
    requires env != [] && Hits(mapping, env[|env| - 1], path)
    ensures LastHit(mapping, env, path, |env| - 1)
    ensures forall i :: LastHit(mapping, env, path, i) ==> i == |env| - 1
  {
  }

  /** When the last entry misses `path`, the last hit is the prefix's last hit. */
  lemma LastHitInPrefix(mapping: Dictionary, env: Snapshot, path: string)
    requires env != [] && !Hits(mapping, env[|env| - 1], path)
    ensures forall i :: LastHit(mapping, env, path, i) <==> 0 <= i < |env| - 1 && LastHit(mapping, env[..|env| - 1], path, i)
  {
    var prefix := env[..|env| - 1];
    assert forall i :: 0 <= i < |prefix| ==> prefix[i] == env[i];
  }

  /**
   * Lookup in the resolved table: `path` holds `v` exactly when the last
   * snapshot entry landing on `path` carries `v`; it holds nothing when no
   * entry lands on it.
   */
  lemma {:induction false} ResolveLookup(mapping: Dictionary, env: Snapshot, path: string, v: string)
    ensures Resolve(mapping, env).TryGet(path) == Some(v) <==> exists i :: LastHit(mapping, env, path, i) && env[i].1 == v
    ensures Resolve(mapping, env).TryGet(path) == None <==> forall i :: 0 <= i < |env| ==> !Hits(mapping, env[i], path)
    decreases |env|
  {
    if env != [] {
      var n := |env| - 1;
      ResolveStep(mapping, env, path);
      if Hits(mapping, env[n], path) {
        LastHitAtEnd(mapping, env, path);
      } else {
        var prefix := env[..n];
        ResolveLookup(mapping, prefix, path, v);
        LastHitInPrefix(mapping, env, path);
        assert forall i :: 0 <= i < n ==> prefix[i] == env[i];
      }
    }
  }

  /** Mapping fidelity: the last mapped entry that lands on a path supplies that path's value. */
  lemma ResolveLastWins(mapping: Dictionary, env: Snapshot, i: int)
    requires 0 <= i < |env| && mapping.ContainsKey(env[i].0)
    requires forall j :: i < j < |env| ==> !Hits(mapping, env[j], mapping.Get(env[i].0))
    ensures Resolve(mapping, env).TryGet(mapping.Get(env[i].0)) == Some(env[i].1)
  {
    var path := mapping.Get(env[i].0);
    assert LastHit(mapping, env, path, i);
    ResolveLookup(mapping, env, path, env[i].1);
  }

  /** Filtering: a key that no mapped entry lands on, a raw environment name in particular, is not retrievable. */
  lemma ResolveMiss(mapping: Dictionary, env: Snapshot, key: string)
    requires forall i :: 0 <= i < |env| && mapping.ContainsKey(env[i].0) ==> !SameKey(mapping.Get(env[i].0), key)
    ensures Resolve(mapping, env).TryGet(key) == None
  {
    ResolveLookup(mapping, env, key, "");
  }

  /**
   * The keys of the resolved table: its folded keys are exactly the paths
   * hit, so its size is the number of distinct paths hit.
   */
  lemma {:induction false} ResolveKeys(mapping: Dictionary, env: Snapshot)
    ensures Resolve(mapping, env).entries.Keys == HitPaths(mapping, env)
    ensures Resolve(mapping, env).Count() == |HitPaths(mapping, env)|
    decreases |env|
  {
    if env != [] {
      ResolveKeys(mapping, env[..|env| - 1]);
      HitStep(mapping, env);
    }
  }

  /** Every key stored in the resolved table is spelled as some selected mapping target. */
  lemma {:induction false} ResolveStoredKeys(mapping: Dictionary, env: Snapshot)
    ensures Resolve(mapping, env).Keys() <= HitTargets(mapping, env)
    decreases |env|
  {
    if env != [] {
      ResolveStoredKeys(mapping, env[..|env| - 1]);
      HitStep(mapping, env);
    }
  }

  /** How the paths and targets hit grow by one snapshot entry. */
  lemma HitStep(mapping: Dictionary, env: Snapshot)
    requires env != []
    ensures var n := |env| - 1;
      HitPaths(mapping, env) ==
        HitPaths(mapping, env[..n]) + if mapping.ContainsKey(env[n].0) then {Fold(mapping.Get(env[n].0))} else {}
    ensures var n := |env| - 1;
      HitTargets(mapping, env) ==
        HitTargets(mapping, env[..n]) + if mapping.ContainsKey(env[n].0) then {mapping.Get(env[n].0)} else {}
  {
    var n := |env| - 1;
    var prefix := env[..n];
    assert forall i :: 0 <= i < n ==> prefix[i] == env[i];
  }

  /** Emptiness: no mapping entries, or no snapshot entries, give an empty table. */
  lemma ResolveEmpty(mapping: Dictionary, env: Snapshot)
    ensures mapping.Count() == 0 ==> Resolve(mapping, env).Count() == 0
    ensures env == [] ==> Resolve(mapping, env).Count() == 0
  {
    ResolveKeys(mapping, env);
    if mapping.Count() == 0 {
      assert HitPaths(mapping, env) == {};
    }
  }

  /** There are no more distinct folded targets than mapping entries. */
  lemma {:induction false} TargetPathsBound(entries: map<string, Entry>)
    ensures |TargetPaths(entries)| <= |entries|
    decreases |entries|
  {
    if entries != map[] {
      var f :| f in entries;
      var rest := entries - {f};
      assert rest.Keys == entries.Keys - {f};
      assert |rest| == |entries| - 1;
      TargetPathsBound(rest);
      var x := Fold(entries[f].value);
      forall p | p in TargetPaths(entries)
        ensures p in TargetPaths(rest) + {x}
      {
        var g :| g in entries && p == Fold(entries[g].value);
        if g != f {
          assert g in rest && rest[g] == entries[g];
        }
      }
      assert TargetPaths(entries) <= TargetPaths(rest) + {x};
      SubsetCard(TargetPaths(entries), TargetPaths(rest) + {x});
    }
  }

  lemma SubsetCard(a: set<string>, b: set<string>)
    requires a <= b
    ensures |a| <= |b|
  {
    assert b == a + (b - a);
  }

  /** Size bound: the resolved table has no more entries than the mapping. */
  lemma ResolveCountBound(mapping: Dictionary, env: Snapshot)
    ensures Resolve(mapping, env).Count() <= mapping.Count()
  {
    ResolveKeys(mapping, env);
    forall p | p in HitPaths(mapping, env)
      ensures p in TargetPaths(mapping.entries)
    {
      var i :| 0 <= i < |env| && mapping.ContainsKey(env[i].0) && p == Fold(mapping.Get(env[i].0));
      assert Fold(env[i].0) in mapping.entries;
    }
    TargetPathsBound(mapping.entries);
    SubsetCard(HitPaths(mapping, env), TargetPaths(mapping.entries));
  }

  /**
   * Case collision: snapshot names that are all the same key as a mapped
   * name collapse to one entry, at that name's path, holding the value of
   * the last of them.
   */
  lemma ResolveCaseCollision(mapping: Dictionary, env: Snapshot, name: string)
    requires mapping.ContainsKey(name)
    requires env != []
    requires forall i :: 0 <= i < |env| ==> SameKey(env[i].0, name)
    ensures Resolve(mapping, env).Count() == 1
    ensures Resolve(mapping, env).entries.Keys == {Fold(mapping.Get(name))}
    ensures Resolve(mapping, env).TryGet(mapping.Get(name)) == Some(env[|env| - 1].1)
  {
    var path := mapping.Get(name);
    ResolveKeys(mapping, env);
    assert forall i :: 0 <= i < |env| ==> mapping.ContainsKey(env[i].0) && mapping.Get(env[i].0) == path;
    assert HitPaths(mapping, env) == {Fold(path)} by {
      assert Fold(mapping.Get(env[|env| - 1].0)) in HitPaths(mapping, env);
    }
    ResolveLastWins(mapping, env, |env| - 1);
  }

  /** The snapshot entries whose names are mapped, in their original order. */
  function Mapped(mapping: Dictionary, env: Snapshot): (r: Snapshot)
    ensures forall e :: e in r <==> e in env && mapping.ContainsKey(e.0)
    ensures |r| <= |env|
    decreases |env|
  {
    if env == [] then []
    else
      var rest := Mapped(mapping, env[..|env| - 1]);
      if mapping.ContainsKey(env[|env| - 1].0) then rest + [env[|env| - 1]] else rest
  }

  /** Unmapped snapshot entries play no part: dropping them leaves the table unchanged. */
  lemma {:induction false} ResolveIgnoresUnmapped(mapping: Dictionary, env: Snapshot)
    ensures Resolve(mapping, Mapped(mapping, env)) == Resolve(mapping, env)
    decreases |env|
  {
    if env != [] {
      var n := |env| - 1;
      ResolveIgnoresUnmapped(mapping, env[..n]);
      var rest := Mapped(mapping, env[..n]);
      if mapping.ContainsKey(env[n].0) {
        assert (rest + [env[n]])[..|rest|] == rest;
      }
    }
  }
}
