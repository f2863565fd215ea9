/**
 * The provider unit tests (ProviderTests.cs), replayed on the model. Each
 * method builds a provider from the test's mapping, loads the test's
 * snapshot, and asserts what the test asserts; the lemmas before them state
 * the shape of the table for abstract entries, so that the concrete strings
 * only have to be told apart. "The number of root keys" of a test is the
 * number of entries of the resolved table: the host's `GetChildKeys`, asked
 * for the root, yields one first segment per table entry and does not remove
 * repeated segments.
 */
module Scenarios {
  import opened Wrappers
  import opened Folding
  import opened IgnoreCaseDictionary
  import opened Resolution
  import opened AliasesProvider

  /** Three mapped entries landing on three different paths: each path holds its entry's value, and nothing else is present. */
  lemma ThreeDistinct(m: Dictionary, e1: (string, string), e2: (string, string), e3: (string, string), p1: string, p2: string, p3: string)
    requires m.TryGet(e1.0) == Some(p1) && m.TryGet(e2.0) == Some(p2) && m.TryGet(e3.0) == Some(p3)
    requires !SameKey(p1, p2) && !SameKey(p1, p3) && !SameKey(p2, p3)
    ensures Resolve(m, [e1, e2, e3]).TryGet(p1) == Some(e1.1)
    ensures Resolve(m, [e1, e2, e3]).TryGet(p2) == Some(e2.1)
    ensures Resolve(m, [e1, e2, e3]).TryGet(p3) == Some(e3.1)
    ensures forall k :: !SameKey(k, p1) && !SameKey(k, p2) && !SameKey(k, p3) ==> Resolve(m, [e1, e2, e3]).TryGet(k) == None
  {
    var env := [e1, e2, e3];
    assert env[0] == e1 && env[1] == e2 && env[2] == e3;
    ResolveLastWins(m, env, 0);
    ResolveLastWins(m, env, 1);
    ResolveLastWins(m, env, 2);
    forall k | !SameKey(k, p1) && !SameKey(k, p2) && !SameKey(k, p3)
      ensures Resolve(m, env).TryGet(k) == None
    {
      ResolveMiss(m, env, k);
    }
  }

  /** Two mapped entries on different paths, each after an unmapped one: each path holds its entry's value. */
  lemma TwoOfFour(m: Dictionary, e1: (string, string), e2: (string, string), e3: (string, string), e4: (string, string), p2: string, p4: string)
    requires m.TryGet(e1.0) == None && m.TryGet(e2.0) == Some(p2) && m.TryGet(e3.0) == None && m.TryGet(e4.0) == Some(p4)
    requires !SameKey(p2, p4)
    ensures Resolve(m, [e1, e2, e3, e4]).TryGet(p2) == Some(e2.1)
    ensures Resolve(m, [e1, e2, e3, e4]).TryGet(p4) == Some(e4.1)
  {
    var env := [e1, e2, e3, e4];
    assert env[1] == e2 && env[2] == e3 && env[3] == e4;
    ResolveLastWins(m, env, 1);
    ResolveLastWins(m, env, 3);
  }

  /** A snapshot of four entries whose second and fourth only are mapped, to different paths, has exactly two entries in its table. */
  lemma TwoOfFourCount(m: Dictionary, env: Snapshot, p2: string, p4: string)
    requires |env| == 4
    requires m.TryGet(env[0].0) == None && m.TryGet(env[1].0) == Some(p2)
    requires m.TryGet(env[2].0) == None && m.TryGet(env[3].0) == Some(p4)
    requires !SameKey(p2, p4)
    ensures Resolve(m, env).Count() == 2
  {
    var s1, s2, s3 := env[..1], env[..2], env[..3];
    assert s1[..0] == [] && s2[..1] == s1 && s3[..2] == s2 && env[..3] == s3;
    assert Resolve(m, s1).entries.Keys == {} by {
      assert s1[0] == env[0];
    }
    assert Resolve(m, s2).entries.Keys == {Fold(p2)} by {
      assert s2[1] == env[1];
    }
    assert Resolve(m, s3).entries.Keys == {Fold(p2)} by {
      assert s3[2] == env[2];
    }
    assert Resolve(m, env).entries.Keys == {Fold(p2), Fold(p4)};
    assert Fold(p2) != Fold(p4);
  }

  /** Three casings of a mapped name collapse to one entry holding the last value (the test `DuplicateKeysWithDifferentCasing`). */
  lemma CasingsCollapse(m: Dictionary, path: string)
    requires m.TryGet("key1") == Some(path)
    ensures Resolve(m, [("key1", "Foo value 1"), ("Key1", "Foo value 2"), ("kEY1", "Foo value 3")]).Count() == 1
    ensures Resolve(m, [("key1", "Foo value 1"), ("Key1", "Foo value 2"), ("kEY1", "Foo value 3")]).TryGet(path) == Some("Foo value 3")
  {
    var env := [("key1", "Foo value 1"), ("Key1", "Foo value 2"), ("kEY1", "Foo value 3")];
    SameKeyIff("Key1", "key1");
    SameKeyIff("kEY1", "key1");
    assert env[0].0 == "key1" && env[1].0 == "Key1" && env[2].0 == "kEY1";
    ResolveCaseCollision(m, env, "key1");
  }

  /** A name that is the same key as neither of two mapped names is not in the mapping. */
  lemma AbsentFromTwo(d: Dictionary, items: seq<(string, string)>, k: string)
    requires |items| == 2
    requires forall x :: d.ContainsKey(x) ==> exists i :: 0 <= i < |items| && SameKey(items[i].0, x)
    requires !SameKey(items[0].0, k) && !SameKey(items[1].0, k)
    ensures d.TryGet(k) == None
  {
  }

  /** A mapped last entry decides its path (the first load of `OverwritesPreviousData`). */
  lemma LastOfThree(m: Dictionary, e1: (string, string), e2: (string, string), e3: (string, string), p3: string)
    requires m.TryGet(e3.0) == Some(p3)
    ensures Resolve(m, [e1, e2, e3]).TryGet(p3) == Some(e3.1)
  {
    ResolveLastWins(m, [e1, e2, e3], 2);
  }

  /** A single mapped entry gives a table of one entry (the second load of `OverwritesPreviousData`). */
  lemma SingleEntry(m: Dictionary, e: (string, string), p: string)
    requires m.TryGet(e.0) == Some(p)
    ensures Resolve(m, [e]).Count() == 1
    ensures Resolve(m, [e]).TryGet(p) == Some(e.1)
  {
    ResolveCaseCollision(m, [e], e.0);
  }

  method MappingIsApplied()
  {
    var mapping := [("key1", "Foo:Bar:Baz"), ("key2", "Foo:Bar:Qux"), ("key3", "ConnectionStrings:Default")];
    DiffersAt("key1", "key2", 3);
    DiffersAt("key1", "key3", 3);
    DiffersAt("key2", "key3", 3);
    var p := new Provider.FromMapping(Some(mapping));
    assert mapping[0].0 == "key1" && mapping[1].0 == "key2" && mapping[2].0 == "key3";

    var e1, e2, e3 := ("key1", "Foo value"), ("key2", "Bar value"), ("key3", "Baz value");
    LengthsDiffer("Foo:Bar:Baz", "ConnectionStrings:Default");
    LengthsDiffer("Foo:Bar:Qux", "ConnectionStrings:Default");
    DiffersAt("Foo:Bar:Baz", "Foo:Bar:Qux", 8);
    ThreeDistinct(p.keyMapping, e1, e2, e3, "Foo:Bar:Baz", "Foo:Bar:Qux", "ConnectionStrings:Default");
    p.Load([e1, e2, e3]);

    assert p.TryGet("Foo:Bar:Baz") == Some("Foo value");
    assert p.TryGet("Foo:Bar:Qux") == Some("Bar value");
    assert p.TryGet("ConnectionStrings:Default") == Some("Baz value");
    forall k | k in {"key1", "key2", "key3"}
      ensures p.TryGet(k) == None
    {
      LengthsDiffer(k, "Foo:Bar:Baz");
      LengthsDiffer(k, "Foo:Bar:Qux");
      LengthsDiffer(k, "ConnectionStrings:Default");
    }
  }

  method UnconfiguredKeysAreIgnored()
  {
    var mapping := [("key2", "Foo:Bar"), ("key4", "Foo:Baz")];
    DiffersAt("key2", "key4", 3);
    var p := new Provider.FromMapping(Some(mapping));
    assert mapping[0].0 == "key2" && mapping[1].0 == "key4";
    DiffersAt("key2", "key1", 3);
    DiffersAt("key4", "key1", 3);
    AbsentFromTwo(p.keyMapping, mapping, "key1");
    DiffersAt("key2", "key3", 3);
    DiffersAt("key4", "key3", 3);
    AbsentFromTwo(p.keyMapping, mapping, "key3");

    var env := [("key1", "Foo"), ("key2", "Bar"), ("key3", "Baz"), ("key4", "Baz")];
    DiffersAt("Foo:Bar", "Foo:Baz", 6);
    TwoOfFour(p.keyMapping, env[0], env[1], env[2], env[3], "Foo:Bar", "Foo:Baz");
    TwoOfFourCount(p.keyMapping, env, "Foo:Bar", "Foo:Baz");
    p.Load(env);

    assert p.Count() == 2;
    assert p.TryGet("Foo:Bar").Some? && p.TryGet("Foo:Baz").Some?;
  }

  method MissingEnvironmentVariablesAreIgnored()
  {
    var mapping := [("key1", "Foo:Bar:Baz"), ("key2", "Foo:Bar:Qux"), ("key3", "ConnectionStrings:Default")];
    DiffersAt("key1", "key2", 3);
    DiffersAt("key1", "key3", 3);
    DiffersAt("key2", "key3", 3);
    var p := new Provider.FromMapping(Some(mapping));
    assert mapping[1].0 == "key2";

    var env := [("key2", "Bar")];
    ResolveCaseCollision(p.keyMapping, env, "key2");
    p.Load(env);

    assert p.Count() == 1;
    assert p.TryGet("Foo:Bar:Qux") == Some("Bar");
  }

  method EmptyMappingReturnsEmptyConfiguration()
  {
    var p := new Provider.FromMapping(Some([]));
    var env := [("key1", "Foo"), ("key2", "Bar"), ("key3", "Baz"), ("key4", "Baz")];
    ResolveEmpty(p.keyMapping, env);
    p.Load(env);
    assert p.Count() == 0;
  }

  method EmptyEnvironmentVariablesReturnsEmptyConfiguration()
  {
    var mapping := [("key2", "Foo:Bar"), ("key4", "Foo:Baz")];
    DiffersAt("key2", "key4", 3);
    var p := new Provider.FromMapping(Some(mapping));
    ResolveEmpty(p.keyMapping, []);
    p.Load([]);
    assert p.Count() == 0;
  }

  method OverwritesPreviousData()
  {
    var mapping := [("key1", "Foo:Bar:Baz"), ("key2", "Foo:Bar:Qux"), ("key3", "ConnectionStrings:Default")];
    DiffersAt("key1", "key2", 3);
    DiffersAt("key1", "key3", 3);
    DiffersAt("key2", "key3", 3);
    var p := new Provider.FromMapping(Some(mapping));
    assert mapping[2].0 == "key3";

    var e1, e2, e3 := ("key1", "Foo value"), ("key2", "Bar value"), ("key3", "Baz value");
    LastOfThree(p.keyMapping, e1, e2, e3, "ConnectionStrings:Default");
    p.Load([e1, e2, e3]);
    assert p.TryGet("ConnectionStrings:Default").Some?;
    assert p.Count() != 0;

    SingleEntry(p.keyMapping, ("key3", "Baz"), "ConnectionStrings:Default");
    p.Load([("key3", "Baz")]);

    assert p.Count() == 1;
    assert p.TryGet("ConnectionStrings:Default") == Some("Baz");
  }

  method DuplicateKeysWithDifferentCasing()
  {
    var mapping := [("key1", "Foo:Bar:Baz"), ("key2", "Foo:Bar:Qux")];
    DiffersAt("key1", "key2", 3);
    var p := new Provider.FromMapping(Some(mapping));
    assert mapping[0].0 == "key1";

    var env := [("key1", "Foo value 1"), ("Key1", "Foo value 2"), ("kEY1", "Foo value 3")];
    CasingsCollapse(p.keyMapping, "Foo:Bar:Baz");
    p.Load(env);

    assert p.Count() == 1;
    assert p.TryGet("Foo:Bar:Baz") == Some("Foo value 3");
    assert p.TryGet("Foo:Bar:Baz").value[..9] == "Foo value";
  }
}
