/**
 * `Dictionary<string, string>` built with an ignore-case comparer, as a value.
 * An entry is filed under the folded form of its key and remembers the key
 * spelling it was first inserted with; overwriting through the indexer keeps
 * that spelling and replaces only the value.
 */
module IgnoreCaseDictionary {
  import opened Wrappers
  import opened Folding

  /** One stored pair: the key as first inserted, and its current value. */
  datatype Entry = Entry(key: string, value: string)

  datatype Dictionary = Dictionary(entries: map<string, Entry>)
  {
    /** Every entry is filed under the fold of its own stored key. */
    ghost predicate Valid()
    {
      forall f :: f in entries ==> Fold(entries[f].key) == f
    }

    /** `ContainsKey`: some stored key is the same key as `key`, ignoring case. */
    predicate ContainsKey(key: string)
    {
      Fold(key) in entries
    }

    /** The indexer getter `d[key]`, on a key that is present. */
    function Get(key: string): string
      requires ContainsKey(key)
    {
      entries[Fold(key)].value
    }

    /** `TryGetValue`: the value filed under `key`, ignoring case, if any. */
    function TryGet(key: string): Option<string>
    {
      if ContainsKey(key) then Some(Get(key)) else None
    }

    /** `Count`: the number of entries. */
    function Count(): nat
    {
      |entries|
    }

    /** `Keys`: the stored key spellings. */
    function Keys(): set<string>
    {
      set f | f in entries :: entries[f].key
    }

    /** The indexer setter `d[key] = value`: inserts, or overwrites the value of the entry already filed under `key`. */
    function Set(key: string, value: string): (d: Dictionary)
      requires Valid()
      ensures d.Valid()
      ensures forall k {:trigger d.TryGet(k)} :: d.TryGet(k) == if SameKey(k, key) then Some(value) else TryGet(k)
      ensures d.entries.Keys == entries.Keys + {Fold(key)}
      ensures d.Keys() == if ContainsKey(key) then Keys() else Keys() + {key}
    {
      var f := Fold(key);
      FoldIdempotent(key);
      if f in entries then
        var d := Dictionary(entries[f := Entry(entries[f].key, value)]);
        assert d.Keys() == Keys() by {
          assert forall g :: g in entries ==> d.entries[g].key == entries[g].key;
        }
        d
      else
        var d := Dictionary(entries[f := Entry(key, value)]);
        assert d.Keys() == Keys() + {key} by {
          assert forall g :: g in entries ==> d.entries[g].key == entries[g].key;
          assert d.entries[f].key == key;
        }
        d
    }

    /** `Add`: inserts a new entry, and fails (an `ArgumentException` in .NET) when the key is already present. */
    function Add(key: string, value: string): (r: Result<Dictionary>)
      requires Valid()
      ensures r.Err? <==> ContainsKey(key)
      ensures r.Err? ==> r.error == DuplicateKey(key)
      ensures r.Ok? ==> r.value.Valid() && r.value.Count() == Count() + 1
      ensures r.Ok? ==> forall k {:trigger r.value.TryGet(k)} :: r.value.TryGet(k) == if SameKey(k, key) then Some(value) else TryGet(k)
      ensures r.Ok? ==> r.value.Keys() == Keys() + {key}
      ensures r.Ok? ==> r.value.entries.Keys == entries.Keys + {Fold(key)}
    {
      if ContainsKey(key) then Err(DuplicateKey(key)) else Ok(Set(key, value))
    }
  }

  /** `new Dictionary<string, string>(StringComparer.OrdinalIgnoreCase)`. */
  function Empty(): (d: Dictionary)
    ensures d.Valid() && d.Count() == 0 && d.Keys() == {}
    ensures forall k {:trigger d.TryGet(k)} :: d.TryGet(k) == None
  {
    Dictionary(map[])
  }
}
