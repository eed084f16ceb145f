/** Manifest entries, sync modes and plans: the data both sides exchange. */
module Manifest {
  import opened Wrappers
  import opened Paths

  /** A manifest entry; the optional content hash is never filled in by a scan nor read by the planner. */
  datatype Entry = Entry(path: Path, size: u64, mtime: u64)

  datatype SyncMode = Incremental | Mirror

  datatype OverwritePolicy = Exact | PreferNewer

  datatype Plan = Plan(
    id: string,
    selection: seq<string>,
    transfer: seq<Entry>,
    delete: seq<Path>,
    filesTotal: nat,
    bytesTotal: u64)

  predicate DistinctPaths(entries: seq<Entry>) {
    forall i, j :: 0 <= i < j < |entries| ==> entries[i].path != entries[j].path
  }

  /** A plan with these transfers and deletes touches the namespace. */
  ghost predicate Touches(transfer: seq<Entry>, delete: seq<Path>, d: string) {
    || (exists i :: 0 <= i < |transfer| && Namespace(transfer[i].path) == Some(d))
    || (exists i :: 0 <= i < |delete| && Namespace(delete[i]) == Some(d))
  }

  function SumSizes(entries: seq<Entry>): nat {
    if entries == [] then 0 else SumSizes(entries[..|entries| - 1]) + entries[|entries| - 1].size
  }

  /** The same entries in another order make up the same number of bytes. */
  lemma {:induction false} SameSizes(a: seq<Entry>, b: seq<Entry>)
    requires multiset(a) == multiset(b)
    ensures |a| == |b| && SumSizes(a) == SumSizes(b)
    decreases |a|
  {
    assert |a| == |multiset(a)| && |b| == |multiset(b)|;
    if a != [] {
      var last := a[|a| - 1];
      assert last in multiset(b);
      var k :| 0 <= k < |b| && b[k] == last;
      SizeWithout(a, |a| - 1);
      SizeWithout(b, k);
      RestWithout(a, |a| - 1);
      RestWithout(b, k);
      assert a[..|a| - 1] + a[|a|..] == a[..|a| - 1];
      SameSizes(a[..|a| - 1], b[..k] + b[k + 1..]);
    }
  }

  lemma RestWithout(s: seq<Entry>, k: nat)
    requires k < |s|
    ensures multiset(s[..k] + s[k + 1..]) == multiset(s) - multiset{s[k]}
  {
    assert s == s[..k] + [s[k]] + s[k + 1..];
  }

  lemma {:induction false} SizeWithout(s: seq<Entry>, k: nat)
    requires k < |s|
    ensures SumSizes(s) == SumSizes(s[..k] + s[k + 1..]) + s[k].size
    decreases |s|
  {
    var n := |s| - 1;
    if k < n {
      SizeWithout(s[..n], k);
      assert (s[..k] + s[k + 1..])[..n - 1] == s[..n][..k] + s[..n][k + 1..];
    } else {
      assert s[..k] + s[k + 1..] == s[..n];
    }
  }
}
