/** Where wire paths lie on the local disk: the three mounts of a workspace, and how they are derived. */
module Layout {
  import opened Wrappers
  import opened Text
  import opened Paths
  import opened Catalog

  /** Mount points as local paths, by their components. */
  datatype Mounts = Mounts(dataRoot: Path, defaultUserRoot: Path, extensionsRoot: Path)

  datatype LayoutMode = TauriTavern | SillyTavern | SillyTavernDocker

  const EXTENSIONS: Path := ["extensions", "third-party"]

  function ResolveToLocal(mounts: Mounts, p: Path): Path {
    if |p| >= 2 && p[0] == "default-user" then mounts.defaultUserRoot + p[1..]
    else if SameOrUnder(p, EXTENSIONS) then mounts.extensionsRoot + p[2..]
    else mounts.dataRoot + p
  }

  /** In every layout a prune boundary stays an ancestor of the file, because no scan root stops short of a mount. */
  lemma BoundaryStaysAncestor(mounts: Mounts, b: Path, p: Path)
    requires RootShape(b) && b <= p
    ensures ResolveToLocal(mounts, b) <= ResolveToLocal(mounts, p)
    ensures b < p ==> ResolveToLocal(mounts, b) < ResolveToLocal(mounts, p)
  {
    assert b[0] == p[0] && b[1] == p[1];
    if EXTENSIONS <= p { assert b[..2] == p[..2] == EXTENSIONS; }
    if EXTENSIONS <= b { assert p[..2] == b[..2] == EXTENSIONS; }
  }

  // ---------------------------------------------------------------- the text tests

  const DEFAULT_USER_TEXT := "default-user"
  const EXTENSIONS_TEXT := "extensions/third-party"

  /** `resolve_canonical_to_local`, on the wire text. */
  function ResolveText(mounts: Mounts, text: string): Path {
    match StripPrefix(text, DEFAULT_USER_TEXT + "/")
    case Some(rest) => mounts.defaultUserRoot + Split(rest, '/')
    case None =>
      if text == EXTENSIONS_TEXT then mounts.extensionsRoot
      else
        match StripPrefix(text, EXTENSIONS_TEXT + "/")
        case Some(rest) => mounts.extensionsRoot + Split(rest, '/')
        case None => mounts.dataRoot + Split(text, '/')
  }

  lemma MountTexts()
    ensures ValidPath([DEFAULT_USER_TEXT]) && Render([DEFAULT_USER_TEXT]) == DEFAULT_USER_TEXT
    ensures ValidPath(EXTENSIONS) && Render(EXTENSIONS) == EXTENSIONS_TEXT
  {
    assert EXTENSIONS[1..] == ["third-party"] && Join(["third-party"], '/') == "third-party";
    assert "extensions" + ['/'] + "third-party" == EXTENSIONS_TEXT;
  }

  /** Stripping a mount's name and a slash cuts exactly its segments off. */
  lemma StripMount(p: Path, m: Path, text: string)
    requires ValidPath(p) && ValidPath(m) && text == Render(m)
    ensures StripPrefix(Render(p), text + "/").Some? <==> m < p
    ensures m < p ==> Split(StripPrefix(Render(p), text + "/").value, '/') == p[|m|..]
    ensures Render(p) == text <==> p == m
  {
    IsUnderMeaning(p, m);
    if m < p {
      var rest := p[|m|..];
      assert p == m + rest;
      JoinAppend(m, rest, '/');
      assert Render(p) == text + "/" + Join(rest, '/');
      assert Render(p)[|text + "/"|..] == Join(rest, '/');
      SplitJoin(rest, '/');
    }
    if text + "/" <= Render(p) {
      assert Render(p)[|text|..][0] == (text + "/")[|text|];
      assert text <= Render(p);
    }
  }

  /** On segments a path resolves to the same local file as by the program's tests on its text. */
  lemma ResolveMeaning(mounts: Mounts, p: Path)
    requires ValidPath(p)
    ensures ResolveText(mounts, Render(p)) == ResolveToLocal(mounts, p)
  {
    MountTexts();
    SegmentsOfRender(p);
    StripMount(p, [DEFAULT_USER_TEXT], DEFAULT_USER_TEXT);
    StripMount(p, EXTENSIONS, EXTENSIONS_TEXT);
    assert [DEFAULT_USER_TEXT] < p <==> |p| >= 2 && p[0] == "default-user";
    assert p == EXTENSIONS ==> p[2..] == [];
  }

  /** What lies below a mount lands below its root with the same relative path, and the rest below the data root. */
  lemma BelowMounts(mounts: Mounts, rest: Path, p: Path)
    requires rest != []
    ensures ResolveToLocal(mounts, ["default-user"] + rest) == mounts.defaultUserRoot + rest
    ensures ResolveToLocal(mounts, EXTENSIONS + rest) == mounts.extensionsRoot + rest
    ensures ResolveToLocal(mounts, EXTENSIONS) == mounts.extensionsRoot
    ensures !(["default-user"] < p) && !(EXTENSIONS <= p) ==> ResolveToLocal(mounts, p) == mounts.dataRoot + p
  {
    assert (["default-user"] + rest)[1..] == rest && (EXTENSIONS + rest)[2..] == rest;
    assert (EXTENSIONS + rest)[0] == "extensions";
    assert mounts.extensionsRoot + [] == mounts.extensionsRoot && EXTENSIONS[2..] == [];
    if |p| >= 2 && p[0] == "default-user" { assert ["default-user"] < p; }
  }

  // ---------------------------------------------------------------- deriving the mounts

  function Parent(w: Path): Path
    requires w != []
  {
    w[..|w| - 1]
  }

  predicate Named(w: Path, name: string) { w != [] && w[|w| - 1] == name }

  /** `WorkspaceMounts::derive`: the workspace path may point at the data root, its parent or the user directory. */
  function Derive(mode: LayoutMode, w: Path): Result<Mounts> {
    match mode
    case TauriTavern =>
      if Named(w, "default-user") then Ok(Mounts(Parent(w), w, Parent(w) + ["extensions", "third-party"]))
      else Ok(Mounts(w, w + ["default-user"], w + ["extensions", "third-party"]))
    case SillyTavern => DeriveBeside(w, ["public", "scripts", "extensions", "third-party"])
    case SillyTavernDocker => DeriveBeside(w, ["extensions"])
  }

  /** The two layouts whose extensions lie beside the data root. */
  function DeriveBeside(w: Path, extensions: Path): Result<Mounts> {
    if Named(w, "default-user") then
      if Parent(w) == [] then Err(InvalidData)
      else Ok(Mounts(Parent(w), w, Parent(Parent(w)) + extensions))
    else if Named(w, "data") then Ok(Mounts(w, w + ["default-user"], Parent(w) + extensions))
    else Ok(Mounts(w + ["data"], w + ["data"] + ["default-user"], w + extensions))
  }

  /** In every derived layout the user directory lies in the data root, so only the extensions lie elsewhere. */
  lemma DerivedResolve(mode: LayoutMode, w: Path, p: Path)
    requires Derive(mode, w).Ok?
    ensures var m := Derive(mode, w).value;
      ResolveToLocal(m, p) == if EXTENSIONS <= p then m.extensionsRoot + p[2..] else m.dataRoot + p
  {
    var m := Derive(mode, w).value;
    assert m.defaultUserRoot == m.dataRoot + ["default-user"];
    if |p| >= 2 && p[0] == "default-user" {
      assert p == ["default-user"] + p[1..];
      assert m.dataRoot + ["default-user"] + p[1..] == m.dataRoot + (["default-user"] + p[1..]);
      assert EXTENSIONS[0] != p[0];
    }
  }

  /** In the first layout every wire path lies below the data root as it stands. */
  lemma TauriTavernResolves(w: Path, p: Path)
    requires Derive(TauriTavern, w).Ok?
    ensures ResolveToLocal(Derive(TauriTavern, w).value, p) == Derive(TauriTavern, w).value.dataRoot + p
  {
    DerivedResolve(TauriTavern, w, p);
    var d := Derive(TauriTavern, w).value.dataRoot;
    if EXTENSIONS <= p {
      assert p == EXTENSIONS + p[2..];
      assert d + EXTENSIONS + p[2..] == d + (EXTENSIONS + p[2..]);
    }
  }

  /** The name of a data root that its layout uses for the extensions. */
  function TakenName(mode: LayoutMode): Option<string> {
    match mode
    case TauriTavern => None
    case SillyTavern => Some("public")
    case SillyTavernDocker => Some("extensions")
  }

  /** The data root lies where the layout has its extensions: the user directory is in a directory of that name. */
  predicate Nested(mode: LayoutMode, w: Path) {
    && TakenName(mode).Some? && |w| >= 2
    && w[|w| - 1] == "default-user" && w[|w| - 2] == TakenName(mode).value
  }

  /** Distinct wire paths are distinct local files. */
  ghost predicate Apart(m: Mounts) {
    forall p, q :: ValidPath(p) && ValidPath(q) && ResolveToLocal(m, p) == ResolveToLocal(m, q) ==> p == q
  }

  /** Two directories that hold one file lie one in the other. */
  lemma OneInTheOther(d: Path, x: Path, p: Path, q: Path)
    requires d + p == x + q
    ensures d <= x || x <= d
  {
    if |d| <= |x| {
      assert d == (d + p)[..|d|] == (x + q)[..|d|] == x[..|d|];
    } else {
      assert x == (x + q)[..|x|] == (d + p)[..|x|] == d[..|x|];
    }
  }

  lemma SameTail(d: Path, p: Path, q: Path)
    requires d + p == d + q
    ensures p == q
  {
    assert p == (d + p)[|d|..] && q == (d + q)[|d|..];
  }

  /** Where data root and extensions lie apart, distinct wire paths are distinct local files. */
  lemma ApartRoots(mode: LayoutMode, w: Path)
    requires Derive(mode, w).Ok?
    requires var m := Derive(mode, w).value; !(m.dataRoot <= m.extensionsRoot) && !(m.extensionsRoot <= m.dataRoot)
    ensures Apart(Derive(mode, w).value)
  {
    var m := Derive(mode, w).value;
    forall p, q | ValidPath(p) && ValidPath(q) && ResolveToLocal(m, p) == ResolveToLocal(m, q)
      ensures p == q
    {
      SameMount(mode, w, p, q);
      DerivedResolve(mode, w, p);
      DerivedResolve(mode, w, q);
      if EXTENSIONS <= p {
        SameTail(m.extensionsRoot, p[2..], q[2..]);
        assert p == EXTENSIONS + p[2..] && q == EXTENSIONS + q[2..];
      } else {
        SameTail(m.dataRoot, p, q);
      }
    }
  }

  lemma SameMount(mode: LayoutMode, w: Path, p: Path, q: Path)
    requires Derive(mode, w).Ok?
    requires var m := Derive(mode, w).value; !(m.dataRoot <= m.extensionsRoot) && !(m.extensionsRoot <= m.dataRoot)
    requires ResolveToLocal(Derive(mode, w).value, p) == ResolveToLocal(Derive(mode, w).value, q)
    ensures EXTENSIONS <= p <==> EXTENSIONS <= q
  {
    var m := Derive(mode, w).value;
    DerivedResolve(mode, w, p);
    DerivedResolve(mode, w, q);
    if EXTENSIONS <= p && !(EXTENSIONS <= q) { OneInTheOther(m.dataRoot, m.extensionsRoot, q, p[2..]); }
    if EXTENSIONS <= q && !(EXTENSIONS <= p) { OneInTheOther(m.dataRoot, m.extensionsRoot, p, q[2..]); }
  }

  lemma TauriTavernApart(w: Path)
    requires Derive(TauriTavern, w).Ok?
    ensures Apart(Derive(TauriTavern, w).value)
  {
    var m := Derive(TauriTavern, w).value;
    forall p, q | ValidPath(p) && ValidPath(q) && ResolveToLocal(m, p) == ResolveToLocal(m, q)
      ensures p == q
    {
      TauriTavernResolves(w, p);
      TauriTavernResolves(w, q);
      SameTail(m.dataRoot, p, q);
    }
  }

  /** In a nested layout a file below the data root and one below the extensions are the same local file. */
  lemma NestedMeets(mode: LayoutMode, w: Path, x: string)
    requires Derive(mode, w).Ok? && Nested(mode, w)
    ensures var m, inner := Derive(mode, w).value, if mode.SillyTavern? then ["scripts"] + EXTENSIONS else [];
      ResolveToLocal(m, inner + [x]) == ResolveToLocal(m, EXTENSIONS + [x])
  {
    var m, inner: Path := Derive(mode, w).value, if mode.SillyTavern? then ["scripts"] + EXTENSIONS else [];
    DerivedResolve(mode, w, inner + [x]);
    DerivedResolve(mode, w, EXTENSIONS + [x]);
    assert Parent(w) == Parent(Parent(w)) + [TakenName(mode).value];
    assert m.extensionsRoot == m.dataRoot + inner;
    assert (EXTENSIONS + [x])[2..] == [x] && m.dataRoot + (inner + [x]) == m.dataRoot + inner + [x];
    assert (inner + [x])[0] != "extensions" || |inner + [x]| < 2;
  }

  lemma NestedIsNotApart(mode: LayoutMode, w: Path)
    requires Derive(mode, w).Ok? && Nested(mode, w)
    ensures !Apart(Derive(mode, w).value)
  {
    var inner: Path := if mode.SillyTavern? then ["scripts"] + EXTENSIONS else [];
    NestedMeets(mode, w, "x");
    MountTexts();
    assert ValidSegment("x") && ValidSegment("scripts");
    assert ValidPath(inner + ["x"]) && ValidPath(EXTENSIONS + ["x"]);
    assert |inner + ["x"]| != |EXTENSIONS + ["x"]|;
  }

  lemma NotNested(mode: LayoutMode, w: Path)
    requires Derive(mode, w).Ok? && !mode.TauriTavern? && !Nested(mode, w)
    ensures var m := Derive(mode, w).value; !(m.dataRoot <= m.extensionsRoot) && !(m.extensionsRoot <= m.dataRoot)
  {
    var m := Derive(mode, w).value;
    var top := if Named(w, "default-user") then Parent(Parent(w)) else if Named(w, "data") then Parent(w) else w;
    assert |m.dataRoot| == |top| + 1 && m.dataRoot[..|top|] == top;
    assert m.extensionsRoot[|top|] == TakenName(mode).value;
    assert m.dataRoot[|top|] != TakenName(mode).value;
  }

  /**
   In the layouts the program derives, distinct wire paths are distinct local files exactly if the data
   root is not a directory its layout puts the extensions in.
   */
  lemma ApartExactly(mode: LayoutMode, w: Path)
    requires Derive(mode, w).Ok?
    ensures Apart(Derive(mode, w).value) <==> !Nested(mode, w)
  {
    if mode.TauriTavern? {
      TauriTavernApart(w);
    } else if Nested(mode, w) {
      NestedIsNotApart(mode, w);
    } else {
      NotNested(mode, w);
      ApartRoots(mode, w);
    }
  }

  /** An installation is the same whether it is given by its own path, its data directory or its user directory. */
  lemma SameMounts(mode: LayoutMode, top: Path)
    requires !Named(top, "default-user") && !Named(top, "data") && !mode.TauriTavern?
    ensures Derive(mode, top) == Derive(mode, top + ["data"])
    ensures top != [] ==> Derive(mode, top + ["data"]) == Derive(mode, top + ["data"] + ["default-user"])
    ensures Derive(mode, top).Ok? && Derive(mode, top).value.dataRoot == top + ["data"]
    ensures Derive(mode, top).value.extensionsRoot
      == top + if mode.SillyTavern? then ["public", "scripts", "extensions", "third-party"] else ["extensions"]
  {
    var data := top + ["data"];
    assert Parent(data) == top && Parent(data + ["default-user"]) == data;
  }

  lemma SameTauriTavernMounts(top: Path)
    requires !Named(top, "default-user")
    ensures Derive(TauriTavern, top) == Derive(TauriTavern, top + ["default-user"])
    ensures Derive(TauriTavern, top).Ok? && Derive(TauriTavern, top).value.dataRoot == top
  {
    assert Parent(top + ["default-user"]) == top;
  }
}
