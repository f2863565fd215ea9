# Environment-variable aliases provider, modelled in Dafny

This project models `EnvironmentAliasesConfigurationProvider`, a configuration
provider that renames selected environment variables to hierarchical
configuration paths. It holds a mapping from environment variable names to
configuration paths (`KeyMapping`, ignoring case on names). `Load(IDictionary)`
throws away its table `Data` and rebuilds it from a snapshot of the environment.
Every snapshot entry whose name is in the mapping, ignoring case, stores its
value under the mapped path. The later of two entries that land on the same
path wins. Names that are not mapped are dropped.

Files and modules:

- `wrappers.dfy` (`Wrappers`): `Option`, `Result` and the one error, `DuplicateKey`.
- `folding.dfy` (`Folding`): `Fold`, the model's stand-in for
  `StringComparer.OrdinalIgnoreCase` (ASCII upper-casing), and `SameKey`.
- `dictionary.dfy` (`IgnoreCaseDictionary`): a `Dictionary<string, string>`
  built with that comparer, as a value. Each entry is filed under its folded
  key and keeps the spelling it was first inserted with, as .NET does when the
  indexer overwrites an existing key.
- `resolve.dfy` (`Resolution`): `Resolve`, the table `Load` builds as a
  function of the mapping and the snapshot, and the lemmas about it.
- `provider.dfy` (`AliasesProvider`): the provider class. Its fields are
  `keyMapping` and `data`; `data` is the `Data` table inherited from
  `ConfigurationProvider`. It has both constructors, and `Load`, whose loop
  updates `data` in place and is proved equal to `Resolve`. `CopyMapping` is
  the constructor's copy loop, including its failure.
- `scenarios.dfy` (`Scenarios`): the unit tests of
  `Configuration.EnvironmentAliases.Test/ProviderTests.cs` replayed as client
  methods on concrete strings, with helper lemmas over abstract entries.

A snapshot is a sequence of `(name, value)` pairs, in the order in which the
environment dictionary enumerates them. For a `Hashtable` that order is not
specified, and the model takes it as given. The tests count "root child keys";
the model counts the entries of `data` instead. The two agree: the host's
`GetChildKeys`, asked for the root, yields one first path segment per entry of
`Data` and does not remove repeated segments (`Foo:Bar` and `Foo:Baz` count
as two).

The mapping constructor copies with `Dictionary.Add`. Two names that differ
only in case therefore make it throw an `ArgumentException`. The model follows
the code: the constructor fails; it does not keep the last of two such pairs.

## Model

| member | source | states |
|---|---|---|
| `Folding.FoldChar` | Configuration.EnvironmentAliases/EnvironmentAliasesConfigurationProvider.cs:17 | the fold of a character is a case partner of it (itself, or its other-case ASCII form) and is never an ASCII lower-case letter |
| `Folding.FoldCharUnique` | Configuration.EnvironmentAliases/EnvironmentAliasesConfigurationProvider.cs:17 | those two properties determine the fold: any character that has both is the fold |
| `Folding.FoldCharPartners` | Configuration.EnvironmentAliases/EnvironmentAliasesConfigurationProvider.cs:17 | two characters fold alike if and only if they are case partners |
| `Folding.FoldIdempotent` | Configuration.EnvironmentAliases/EnvironmentAliasesConfigurationProvider.cs:17 | folding twice is folding once, so a folded key is the same key as the original |
| `Folding.SameKeyIff` | Configuration.EnvironmentAliases/EnvironmentAliasesConfigurationProvider.cs:17 | two strings are the same key to the comparer if and only if they have the same length and are case partners at every position |
| `IgnoreCaseDictionary.Empty` | Configuration.EnvironmentAliases/EnvironmentAliasesConfigurationProvider.cs:50 | a new ignore-case dictionary is well formed, holds no entries, and every lookup misses |
| `IgnoreCaseDictionary.Dictionary.Set` | Configuration.EnvironmentAliases/EnvironmentAliasesConfigurationProvider.cs:55 | after `d[key] = value`, every key that is the same key as `key` ignoring case finds `value`, and every other key finds what it found before; the folded key set gains `Fold(key)`; the stored spellings gain `key` only if it was absent, so an overwrite keeps the first spelling |
| `IgnoreCaseDictionary.Dictionary.Add` | Configuration.EnvironmentAliases/EnvironmentAliasesConfigurationProvider.cs:34 | `Add` fails with `DuplicateKey(key)` exactly when the key is present ignoring case; otherwise it inserts one entry, with the same lookups as `Set` and the new spelling among the stored keys |
| `AliasesProvider.CopyMapping` | Configuration.EnvironmentAliases/EnvironmentAliasesConfigurationProvider.cs:29-36 | copying the mapping with `Add` fails exactly when two names are the same key ignoring case, and then the error names the first item whose name an earlier item already has; on success the table has one entry per item, its stored keys are the item names, every item name finds its path, and only names equal to some item name ignoring case are present |
| `AliasesProvider.CollisionPersists` | Configuration.EnvironmentAliases/EnvironmentAliasesConfigurationProvider.cs:33-34 | once an item collides, every longer prefix holds a duplicate, so the first collision, and with it the reported error, is unique |
| `AliasesProvider.Provider.constructor` | Configuration.EnvironmentAliases/EnvironmentAliasesConfigurationProvider.cs:22-23 | the parameterless constructor leaves both the mapping and the table empty |
| `AliasesProvider.Provider.FromMapping` | Configuration.EnvironmentAliases/EnvironmentAliasesConfigurationProvider.cs:29-36 | a `null` mapping leaves the mapping empty; otherwise the mapping holds exactly the given pairs (the same count, names and lookups); the table starts empty |
| `AliasesProvider.Provider.Load` | Configuration.EnvironmentAliases/EnvironmentAliasesConfigurationProvider.cs:48-57 | after the loop, `data` equals `Resolve(keyMapping, snapshot)`: it depends on the mapping and the new snapshot only, nothing is left over from an earlier load, and the mapping is unchanged |
| `Resolution.Resolve` | Configuration.EnvironmentAliases/EnvironmentAliasesConfigurationProvider.cs:50-56 | the table built from an empty table by storing each mapped entry's value under its path is a well-formed ignore-case dictionary |
| `Resolution.ResolveStep` | Configuration.EnvironmentAliases/EnvironmentAliasesConfigurationProvider.cs:54-55 | the last entry decides a path it lands on; a path it misses has the value it had for the shorter snapshot |
| `Resolution.ResolveLookup` | Configuration.EnvironmentAliases/EnvironmentAliasesConfigurationProvider.cs:52-56 | a path holds `v` if and only if the last snapshot entry landing on it (mapped, with a target that is the same key) carries `v`; a path holds nothing if and only if no entry lands on it |
| `Resolution.ResolveLastWins` | Configuration.EnvironmentAliases.Test/ProviderTests.cs:28-37 | mapping fidelity: a mapped entry with no later entry landing on its path supplies that path's value, looked up by the path as spelled in the mapping |
| `Resolution.ResolveMiss` | Configuration.EnvironmentAliases.Test/ProviderTests.cs:39-41 | filtering: a key that is not the same key as any selected mapping target, such as a raw environment name, is not retrievable |
| `Resolution.ResolveKeys` | Configuration.EnvironmentAliases/EnvironmentAliasesConfigurationProvider.cs:54-55 | the folded keys of the table are exactly the folded paths hit by mapped entries, so the table size is the number of distinct paths hit; a mapped name absent from the snapshot adds no entry |
| `Resolution.ResolveStoredKeys` | Configuration.EnvironmentAliases/EnvironmentAliasesConfigurationProvider.cs:55 | every key stored in the table is spelled exactly as some mapping target that a snapshot entry selected |
| `Resolution.ResolveEmpty` | Configuration.EnvironmentAliases/EnvironmentAliasesConfigurationProvider.cs:50-56 | an empty mapping gives an empty table for any snapshot, and an empty snapshot gives an empty table for any mapping |
| `Resolution.ResolveCountBound` | Configuration.EnvironmentAliases/EnvironmentAliasesConfigurationProvider.cs:54-55 | the table never has more entries than the mapping |
| `Resolution.ResolveCaseCollision` | Configuration.EnvironmentAliases.Test/ProviderTests.cs:181-206 | snapshot names that are all the same key as one mapped name collapse to exactly one entry, at that name's path, holding the last of their values |
| `Resolution.Mapped` | Configuration.EnvironmentAliases/EnvironmentAliasesConfigurationProvider.cs:54 | the entries kept are exactly the snapshot entries whose name is in the mapping |
| `Resolution.ResolveIgnoresUnmapped` | Configuration.EnvironmentAliases/EnvironmentAliasesConfigurationProvider.cs:54 | dropping the unmapped snapshot entries leaves the table unchanged |
| `Scenarios.ThreeDistinct` | Configuration.EnvironmentAliases.Test/ProviderTests.cs:11-42 | three mapped entries on three different paths: each path holds its entry's value, and any key that is none of the paths misses |
| `Scenarios.TwoOfFour` | Configuration.EnvironmentAliases.Test/ProviderTests.cs:45-71 | in a snapshot of four entries where only the second and fourth are mapped, to different paths, each of those paths holds its entry's value |
| `Scenarios.TwoOfFourCount` | Configuration.EnvironmentAliases.Test/ProviderTests.cs:66-67 | the same snapshot gives a table of exactly two entries |
| `Scenarios.LastOfThree` | Configuration.EnvironmentAliases.Test/ProviderTests.cs:152-164 | in three entries whose last is mapped, the last entry's path holds its value, so the first load of `OverwritesPreviousData` leaves a non-empty table |
| `Scenarios.SingleEntry` | Configuration.EnvironmentAliases.Test/ProviderTests.cs:166-177 | a snapshot of one mapped entry gives a table of exactly one entry, holding that entry's value at its path; since `Load` rebuilds the table, this is the whole table after the second load |
| `Scenarios.CasingsCollapse` | Configuration.EnvironmentAliases.Test/ProviderTests.cs:189-205 | `key1`, `Key1` and `kEY1` in the snapshot give one entry, at the path of `key1`, holding the last value |

The client methods in `scenarios.dfy`, one per test of `ProviderTests.cs`,
carry no contract of their own. Each builds the provider, loads the test's
snapshot, and asserts the test's outcomes. `DuplicateKeysWithDifferentCasing`
asserts more than its test does: "Foo value 3", the last of the colliding
values.

## Left out

- The parameterless `Load()` (EnvironmentAliasesConfigurationProvider.cs:39-42) reads the live process environment. That is I/O; the model takes the snapshot as a parameter.
- `EnvironmentAliasesConfigurationSource` and `EnvironmentAliasesExtensions` are thin factory and builder-registration wrappers with no logic of their own.
- The host `ConfigurationProvider` (its `TryGet`, `Set`, `GetChildKeys`) and `ConfigurationRoot` (merging, path-segment splitting, the six keys counted in IntegrationTests.cs:29) are not part of this model. Lookup is `Dictionary.TryGet` and the root key count is the size of `data`.
- `OrdinalIgnoreCase` upper-cases every Unicode character; `Fold` folds only ASCII letters.
- The `(string)` casts of the non-generic `DictionaryEntry` keys and values are gone, because the snapshot is typed as string pairs. For the same reason a `null` snapshot, which makes the `foreach` throw, cannot be expressed.
- Dafny strings cannot be null, so nulls inside the tables are not modelled. A mapping item with a null path makes line 55 throw `ArgumentNullException` once its name is loaded, leaving `Data` partly filled; a snapshot entry with a null value is stored, and a lookup finds it as null.
- A real `IDictionary` snapshot never has two identical names; the model accepts any sequence, which is more general.
- AliasesProvider.Provider.FromMapping: requires that no two names are the same key ignoring case, because a Dafny constructor cannot fail; the exception `Add` raises in that case is modelled by `CopyMapping`, which returns `Err(DuplicateKey(...))`.
- `KeyMapping` is a public mutable dictionary, so callers could add entries after construction. No code in the repository does this, and the model does not offer it.
- Atomic replacement of `Data` under concurrent readers is concurrency, and is not modelled.
