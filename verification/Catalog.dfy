/** Dataset definitions, and the shape of a table that the scan and prune engines rely on. */
module Catalog {
  import opened Wrappers
  import opened Paths
  import opened Rules

  /** One dataset: the directories it scans, its exact files, and the rules its paths match. */
  datatype Definition = Definition(id: string, scanRoots: seq<Path>, files: seq<Path>, rules: seq<Rule>)

  const DATABASE_DATASET_ID := "extensions.databases"

  /** `public_dataset!`: every directory is a scan root and a prefix rule. */
  function Public(id: string, dirs: seq<Path>, files: seq<Path>): Definition {
    Definition(id, dirs, files, seq(|dirs|, i requires 0 <= i < |dirs| => Prefix(dirs[i])))
  }

  /** `dataset_definition`: the first definition with the id. */
  function FindDefinition(table: seq<Definition>, id: string): (r: Option<Definition>)
    ensures r.Some? ==> r.value in table && r.value.id == id
    ensures r.None? <==> forall d :: d in table ==> d.id != id
  {
    if table == [] then None
    else if table[0].id == id then Some(table[0])
    else FindDefinition(table[1..], id)
  }

  predicate KnownId(table: seq<Definition>, id: string) { FindDefinition(table, id).Some? }

  // ---------------------------------------------------------------- table facts

  /** The names directly below `default-user` that exact files use. */
  const FILE_HEADS: set<string> :=
    {"settings.json", "tauritavern-settings.json", "image-metadata.json", "settings", "secrets.json"}

  predicate FileShape(f: Path) {
    |f| >= 2 && f[0] == "default-user" && f[1] in FILE_HEADS
  }

  /**
   A scan root lies inside a mount, above any agent run, apart from the exact files, and not
   inside the database directory.
   */
  predicate RootShape(r: Path) {
    && 2 <= |r| <= 5
    && !(r[0] == "default-user" && r[1] in FILE_HEADS)
    && (DATABASE_ROOT <= r ==> r == DATABASE_ROOT)
  }

  predicate DefinitionShape(d: Definition) {
    && (forall i :: 0 <= i < |d.scanRoots| ==> RootShape(d.scanRoots[i]))
    && (forall i :: 0 <= i < |d.files| ==> FileShape(d.files[i]))
    && (forall i :: 0 <= i < |d.rules| ==> d.rules[i].Root() in d.scanRoots)
    && (forall i :: 0 <= i < |d.rules| && d.rules[i].Prefix? ==> !(DATABASE_ROOT <= d.rules[i].root))
  }
}
