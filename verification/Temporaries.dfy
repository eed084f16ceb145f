/** The temporary files that received files are written to, and renamed from. */
module Temporaries {
  import opened Paths
  import opened Rules
  import Text

  predicate EndsInDot(name: string) { name != "" && name[|name| - 1] == '.' }

  /** `download_tmp_path`, by file name: one trailing dot goes, and the suffix is added. */
  function Temporary(name: string): string {
    (if EndsInDot(name) then name[..|name| - 1] else name) + ".ttsync.tmp"
  }

  /** Besides a file itself, only the file with one dot more or less shares its temporary file. */
  lemma WhoSharesTemporary(a: string, b: string)
    ensures Temporary(a) == Temporary(b) <==>
      a == b || (a == b + "." && !EndsInDot(b)) || (b == a + "." && !EndsInDot(a))
  {
    var x, y := Temporary(a), Temporary(b);
    assert x[..|x| - |".ttsync.tmp"|] == if EndsInDot(a) then a[..|a| - 1] else a;
    assert y[..|y| - |".ttsync.tmp"|] == if EndsInDot(b) then b[..|b| - 1] else b;
    assert EndsInDot(a) ==> a == a[..|a| - 1] + ".";
    assert EndsInDot(b) ==> b == b[..|b| - 1] + ".";
    assert (b + ".")[..|b|] == b && (a + ".")[..|a|] == a;
  }

  /** Where the file at `p` is written until its rename. */
  function TemporaryOf(p: Path): Path {
    if p == [] then [] else p[..|p| - 1] + [Temporary(p[|p| - 1])]
  }

  /** No directory on the way to `p`, and not `p` itself, has the name of a temporary file. */
  predicate Lasting(p: Path) { forall i :: 0 <= i < |p| ==> !Text.EndsWith(p[i], ".ttsync.tmp") }

  lemma TemporarySuffix(name: string)
    ensures Text.EndsWith(Temporary(name), ".ttsync.tmp")
  {
    var t := Temporary(name);
    assert t[|t| - |".ttsync.tmp"|..] == ".ttsync.tmp";
  }

  /** Nothing lasting lies below a temporary file. */
  lemma BelowTemporary(p: Path, q: Path)
    requires p != [] && TemporaryOf(p) <= q
    ensures !Lasting(q)
  {
    TemporarySuffix(p[|p| - 1]);
    assert q[|p| - 1] == Temporary(p[|p| - 1]);
  }

  /** Plan validation lets only such paths through. */
  lemma InScopeIsLasting(p: Path)
    requires !GloballyExcluded(p)
    ensures Lasting(p)
  {
    forall i | 0 <= i < |p|
      ensures !Text.EndsWith(p[i], ".ttsync.tmp")
    {
      assert !ExcludedComponent(p[i]);
    }
  }
}
