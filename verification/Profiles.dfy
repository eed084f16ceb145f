/** Dataset profiles: a selection may name profiles, which stand for lists of datasets. */
module Profiles {
  import opened Wrappers
  import opened Seqs
  import opened Catalog

  datatype Expansion = Direct(ids: seq<string>) | DefaultPlus(extra: seq<string>)

  datatype Profile = Profile(id: string, expansion: Expansion)

  /** The default list, and the profiles there are. */
  datatype ProfileTable = ProfileTable(defaults: seq<string>, profiles: seq<Profile>)

  function FindProfile(profiles: seq<Profile>, id: string): (r: Option<Profile>)
    ensures r.Some? ==> r.value in profiles && r.value.id == id
    ensures r.None? <==> forall p :: p in profiles ==> p.id != id
  {
    if profiles == [] then None
    else if profiles[0].id == id then Some(profiles[0])
    else FindProfile(profiles[1..], id)
  }

  predicate IsProfile(t: ProfileTable, id: string) { FindProfile(t.profiles, id).Some? }

  /** A selection may name it. */
  predicate Selectable(table: seq<Definition>, t: ProfileTable, id: string) { IsProfile(t, id) || KnownId(table, id) }

  /** What one selected id stands for: the datasets of the profile, or itself. */
  function LeavesOf(t: ProfileTable, id: string): seq<string> {
    match FindProfile(t.profiles, id)
    case None => [id]
    case Some(Profile(_, Direct(ids))) => ids
    case Some(Profile(_, DefaultPlus(extra))) => t.defaults + extra
  }

  function Leaves(t: ProfileTable, ids: seq<string>): seq<string> {
    if ids == [] then [] else Leaves(t, ids[..|ids| - 1]) + LeavesOf(t, ids[|ids| - 1])
  }

  /** Every id once, where it comes first. */
  function Firsts(s: seq<string>): seq<string> {
    if s == [] then []
    else
      var init, last := Firsts(s[..|s| - 1]), s[|s| - 1];
      if last in init then init else init + [last]
  }

  /** The ids of `s`, each once, in the order of their first appearance. */
  lemma {:induction false} FirstsMeaning(s: seq<string>)
    ensures Distinct(Firsts(s)) && Elems(Firsts(s)) == Elems(s)
    ensures forall i, j :: 0 <= i < j < |Firsts(s)| ==> Precedes(s, Firsts(s)[i], Firsts(s)[j])
  {
    if s != [] {
      var init, last := s[..|s| - 1], s[|s| - 1];
      FirstsMeaning(init);
      assert s == init + [last];
      assert forall x :: x in Firsts(init) <==> x in Elems(Firsts(init));
      forall x, y | Precedes(init, x, y)
        ensures Precedes(s, x, y)
      {
        var m :| 0 <= m < |init| && init[m] == x && y !in init[..m + 1];
        assert s[..m + 1] == init[..m + 1];
      }
      if last !in Firsts(init) {
        forall i | 0 <= i < |Firsts(init)|
          ensures Precedes(s, Firsts(init)[i], last)
        {
          assert Firsts(init)[i] in Elems(init);
          var m :| 0 <= m < |init| && init[m] == Firsts(init)[i];
          assert s[m] == init[m] && last !in s[..m + 1];
        }
      }
    }
  }

  /** `x` appears before any `y`. */
  ghost predicate Precedes(s: seq<string>, x: string, y: string) {
    exists m :: 0 <= m < |s| && s[m] == x && y !in s[..m + 1]
  }

  /** `push_dataset_ids`: the ids not seen yet go to the end. */
  method PushDatasetIds(datasetIds: seq<string>, expanded: seq<string>, seen: set<string>, ghost before: seq<string>)
    returns (out: seq<string>, known: set<string>)
    requires expanded == Firsts(before) && seen == Elems(expanded)
    ensures out == Firsts(before + datasetIds) && known == Elems(out)
  {
    out, known := expanded, seen;
    assert before + datasetIds[..0] == before;
    for i := 0 to |datasetIds|
      invariant out == Firsts(before + datasetIds[..i]) && known == Elems(out)
    {
      assert (before + datasetIds[..i + 1])[..|before| + i] == before + datasetIds[..i];
      if datasetIds[i] !in known {
        known := known + {datasetIds[i]};
        out := out + [datasetIds[i]];
      }
    }
    assert datasetIds[..|datasetIds|] == datasetIds;
  }

  /** One selected id: a profile's datasets, or the dataset itself. */
  method ExpandOne(table: seq<Definition>, t: ProfileTable, id: string, expanded: seq<string>, seen: set<string>,
                   ghost before: seq<string>)
    returns (known: bool, out: seq<string>, seenNow: set<string>)
    requires expanded == Firsts(before) && seen == Elems(expanded)
    ensures known <==> Selectable(table, t, id)
    ensures known ==> out == Firsts(before + LeavesOf(t, id)) && seenNow == Elems(out)
  {
    known, out, seenNow := true, expanded, seen;
    match FindProfile(t.profiles, id) {
      case Some(Profile(_, Direct(datasetIds))) =>
        out, seenNow := PushDatasetIds(datasetIds, expanded, seen, before);
      case Some(Profile(_, DefaultPlus(extra))) =>
        out, seenNow := PushDatasetIds(t.defaults, expanded, seen, before);
        out, seenNow := PushDatasetIds(extra, out, seenNow, before + t.defaults);
        assert before + t.defaults + extra == before + (t.defaults + extra);
      case None =>
        if FindDefinition(table, id).None? {
          return false, expanded, seen;
        }
        out, seenNow := PushDatasetIds([id], expanded, seen, before);
    }
  }

  lemma LeavesStep(t: ProfileTable, ids: seq<string>, i: nat)
    requires i < |ids|
    ensures Leaves(t, ids[..i + 1]) == Leaves(t, ids[..i]) + LeavesOf(t, ids[i])
  {
    assert ids[..i + 1][..i] == ids[..i];
  }

  /** What the loop of `expand_dataset_ids` has gathered from the first `n` ids. */
  ghost predicate Expanded(table: seq<Definition>, t: ProfileTable, ids: seq<string>, n: nat, expanded: seq<string>,
                           seen: set<string>) {
    && n <= |ids| && (forall k :: 0 <= k < n ==> Selectable(table, t, ids[k]))
    && expanded == Firsts(Leaves(t, ids[..n])) && seen == Elems(expanded)
  }

  lemma ExpandedStep(table: seq<Definition>, t: ProfileTable, ids: seq<string>, n: nat, expanded: seq<string>,
                     seen: set<string>, out: seq<string>, seenNow: set<string>)
    requires n < |ids| && Expanded(table, t, ids, n, expanded, seen) && Selectable(table, t, ids[n])
    requires out == Firsts(Leaves(t, ids[..n]) + LeavesOf(t, ids[n])) && seenNow == Elems(out)
    ensures Expanded(table, t, ids, n + 1, out, seenNow)
  {
    LeavesStep(t, ids, n);
  }

  /** `expand_dataset_ids`: ids that are neither a profile nor a dataset fail, repetitions are dropped. */
  method ExpandDatasetIds(table: seq<Definition>, t: ProfileTable, ids: seq<string>) returns (r: Result<seq<string>>)
    ensures r.Ok? <==> forall i :: 0 <= i < |ids| ==> Selectable(table, t, ids[i])
    ensures r.Ok? ==> r.value == Firsts(Leaves(t, ids))
    ensures r.Err? ==> r.error == InvalidData
  {
    var expanded: seq<string>, seen: set<string> := [], {};
    for i := 0 to |ids|
      invariant Expanded(table, t, ids, i, expanded, seen)
    {
      var known, out, seenNow := ExpandOne(table, t, ids[i], expanded, seen, Leaves(t, ids[..i]));
      if !known {
        return Err(InvalidData);
      }
      ExpandedStep(table, t, ids, i, expanded, seen, out, seenNow);
      expanded, seen := out, seenNow;
    }
    assert ids[..|ids|] == ids;
    return Ok(expanded);
  }

  /** Every profile names something, and only datasets of the table. */
  ghost predicate ProfilesKnown(table: seq<Definition>, t: ProfileTable) {
    forall id :: IsProfile(t, id) ==>
      LeavesOf(t, id) != [] && forall leaf :: leaf in LeavesOf(t, id) ==> KnownId(table, leaf)
  }

  /** Then a selection can be resolved exactly if it names something, and only profiles and datasets. */
  lemma {:induction false} SelectionIsKnown(table: seq<Definition>, t: ProfileTable, ids: seq<string>)
    requires ProfilesKnown(table, t)
    ensures Leaves(t, ids) != [] <==> ids != []
    ensures (forall leaf :: leaf in Leaves(t, ids) ==> KnownId(table, leaf))
      <==> forall i :: 0 <= i < |ids| ==> Selectable(table, t, ids[i])
  {
    if ids != [] {
      var init, last := ids[..|ids| - 1], ids[|ids| - 1];
      SelectionIsKnown(table, t, init);
      assert ids == init + [last];
      assert !IsProfile(t, last) ==> last in LeavesOf(t, last);
    }
  }

  /** A selected id brings in the dataset: as itself, or by the first profile of that name. */
  ghost predicate BringsIn(t: ProfileTable, id: string, dataset: string) {
    if exists p :: p in t.profiles && p.id == id
    then exists k: nat :: FirstNamed(t.profiles, id, k) && ListedBy(t, t.profiles[k].expansion, dataset)
    else dataset == id
  }

  ghost predicate FirstNamed(profiles: seq<Profile>, id: string, k: nat) {
    k < |profiles| && profiles[k].id == id && forall i :: 0 <= i < k ==> profiles[i].id != id
  }

  /** A direct profile lists its own datasets; any other adds some to the defaults. */
  ghost predicate ListedBy(t: ProfileTable, e: Expansion, dataset: string) {
    (e.Direct? && dataset in e.ids) || (e.DefaultPlus? && (dataset in t.defaults || dataset in e.extra))
  }

  lemma {:induction false} FoundIsFirst(profiles: seq<Profile>, id: string, k: nat)
    requires FirstNamed(profiles, id, k)
    ensures FindProfile(profiles, id) == Some(profiles[k])
  {
    if k > 0 {
      assert profiles[0].id != id;
      assert FirstNamed(profiles[1..], id, k - 1);
      FoundIsFirst(profiles[1..], id, k - 1);
    }
  }

  lemma {:induction false} SomeIsFirst(profiles: seq<Profile>, id: string) returns (k: nat)
    requires exists p :: p in profiles && p.id == id
    ensures FirstNamed(profiles, id, k)
  {
    if profiles[0].id == id {
      k := 0;
    } else {
      k := SomeIsFirst(profiles[1..], id);
      assert FirstNamed(profiles, id, k + 1);
      k := k + 1;
    }
  }

  lemma LeavesOfMeaning(t: ProfileTable, id: string, dataset: string)
    ensures dataset in LeavesOf(t, id) <==> BringsIn(t, id, dataset)
  {
    if exists p :: p in t.profiles && p.id == id {
      var k := SomeIsFirst(t.profiles, id);
      FoundIsFirst(t.profiles, id, k);
      forall m: nat | FirstNamed(t.profiles, id, m)
        ensures m == k
      {
      }
    }
  }

  /** The datasets of a selection are exactly those that one of its ids brings in. */
  lemma {:induction false} ExpansionMeaning(t: ProfileTable, ids: seq<string>, dataset: string)
    ensures dataset in Firsts(Leaves(t, ids)) <==> exists i :: 0 <= i < |ids| && BringsIn(t, ids[i], dataset)
  {
    FirstsMeaning(Leaves(t, ids));
    assert dataset in Firsts(Leaves(t, ids)) <==> dataset in Elems(Firsts(Leaves(t, ids)));
    LeavesMeaning(t, ids, dataset);
  }

  lemma {:induction false} LeavesMeaning(t: ProfileTable, ids: seq<string>, dataset: string)
    ensures dataset in Leaves(t, ids) <==> exists i :: 0 <= i < |ids| && BringsIn(t, ids[i], dataset)
  {
    if ids != [] {
      var init, last := ids[..|ids| - 1], ids[|ids| - 1];
      LeavesMeaning(t, init, dataset);
      LeavesOfMeaning(t, last, dataset);
      assert ids == init + [last];
    }
  }

  lemma Regroup(a: seq<string>, b: seq<string>, c: seq<string>)
    ensures a + (b + c) == (a + b) + c
  {
  }

  /** What an earlier part of a selection brings in comes before what only a later one does. */
  lemma {:induction false} ExpansionOrder(t: ProfileTable, a: seq<string>, b: seq<string>)
    ensures Leaves(t, a + b) == Leaves(t, a) + Leaves(t, b)
  {
    if b == [] {
      assert a + b == a;
    } else {
      var init, last := b[..|b| - 1], b[|b| - 1];
      ExpansionOrder(t, a, init);
      assert (a + b)[..|a + b| - 1] == a + init && (a + b)[|a + b| - 1] == last;
      Regroup(Leaves(t, a), Leaves(t, init), LeavesOf(t, last));
    }
  }

  /** A profile's own order: its datasets as listed, with the defaults before what it adds to them. */
  lemma ProfileOrder(t: ProfileTable, k: nat)
    requires k < |t.profiles| && FirstNamed(t.profiles, t.profiles[k].id, k)
    ensures Leaves(t, [t.profiles[k].id]) == match t.profiles[k].expansion
                                             case Direct(ids) => ids
                                             case DefaultPlus(extra) => t.defaults + extra
  {
    FoundIsFirst(t.profiles, t.profiles[k].id, k);
    assert [t.profiles[k].id][..0] == [];
  }
}
