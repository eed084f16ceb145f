/**
 Wire paths as non-empty sequences of segments, and the bridge to the string tests the program
 runs: `validate_sync_path`, `is_under` and `namespace_directory`.
 */
module Paths {
  import opened Wrappers
  import opened Text

  type Path = seq<string>

  predicate ValidSegment(s: string) {
    s != "" && s != "." && s != ".." && '/' !in s && '\\' !in s
  }

  predicate ValidPath(p: Path) {
    |p| >= 1 && forall i :: 0 <= i < |p| ==> ValidSegment(p[i])
  }

  /** The same path as wire text. */
  function Render(p: Path): string
    requires |p| >= 1
  {
    Join(p, '/')
  }

  function Segments(text: string): Path { Split(text, '/') }

  /** The strictly-below relation on segments. */
  predicate Under(p: Path, q: Path) { q < p }

  predicate SameOrUnder(p: Path, q: Path) { q <= p }

  // ---------------------------------------------------------------- SyncPath validation

  /** The segment test of the loop in `validate_sync_path`. */
  predicate PlainSegment(s: string) { s != "" && s != "." && s != ".." }

  /** `validate_sync_path`, test by test. */
  predicate ValidSyncPath(text: string) {
    && text != ""
    && text[0] != '/'
    && '\\' !in text
    && forall i :: 0 <= i < |Segments(text)| ==> PlainSegment(Segments(text)[i])
  }

  lemma {:induction false} MemberOfJoin(parts: Path, sep: char, c: char)
    requires |parts| >= 1 && c != sep
    ensures c in Join(parts, sep) <==> exists i :: 0 <= i < |parts| && c in parts[i]
  {
    if |parts| > 1 {
      MemberOfJoin(parts[1..], sep, c);
      if i :| 0 <= i < |parts| && c in parts[i] {
        if i > 0 { assert c in parts[1..][i - 1]; }
      }
      if i :| 0 <= i < |parts[1..]| && c in parts[1..][i] {
        assert c in parts[i + 1];
      }
    }
  }

  /** Accepted texts are exactly the renderings of valid segment paths. */
  lemma SyncPathMeaning(text: string)
    ensures ValidSyncPath(text) <==> ValidPath(Segments(text))
    ensures Render(Segments(text)) == text
  {
    JoinSplit(text, '/');
    var parts := Segments(text);
    MemberOfJoin(parts, '/', '\\');
    if ValidPath(parts) {
      assert ValidSegment(parts[0]);
      assert parts[0] != "" && '/' !in parts[0];
      assert parts[0][0] in parts[0];
      assert text[0] == parts[0][0];
    }
  }

  /** The text of a path; the root itself has none. */
  function TextOf(p: Path): string { if p == [] then "" else Render(p) }

  /** Rendering then splitting is the identity on valid paths, so distinct paths render apart. */
  lemma SegmentsOfRender(p: Path)
    requires ValidPath(p)
    ensures Segments(Render(p)) == p && ValidSyncPath(Render(p))
  {
    SplitJoin(p, '/');
    SyncPathMeaning(Render(p));
  }

  // ---------------------------------------------------------------- is_under

  /** `is_under`: strip the prefix, then require a slash. */
  predicate IsUnderText(path: string, prefix: string) {
    match StripPrefix(path, prefix)
    case None => false
    case Some(suffix) => suffix != "" && suffix[0] == '/'
  }

  lemma {:induction false} JoinAppend(a: Path, b: Path, sep: char)
    requires |a| >= 1 && |b| >= 1
    ensures Join(a + b, sep) == Join(a, sep) + [sep] + Join(b, sep)
  {
    if |a| == 1 {
      assert (a + b)[1..] == b;
    } else {
      assert (a + b)[1..] == a[1..] + b;
      JoinAppend(a[1..], b, sep);
    }
  }

  lemma {:induction false} SplitAppend(a: Path, rest: string, sep: char)
    requires |a| >= 1 && forall i :: 0 <= i < |a| ==> sep !in a[i]
    ensures Split(Join(a, sep) + [sep] + rest, sep) == a + Split(rest, sep)
  {
    if |a| == 1 {
      SplitCons(a[0], rest, sep);
    } else {
      var joined := Join(a[1..], sep);
      Regroup(a[0] + [sep], joined, [sep], rest);
      SplitCons(a[0], joined + [sep] + rest, sep);
      SplitAppend(a[1..], rest, sep);
      Regroup([], [a[0]], a[1..], Split(rest, sep));
      assert [a[0]] + a[1..] == a;
    }
  }

  lemma Regroup<T>(a: seq<T>, b: seq<T>, c: seq<T>, d: seq<T>)
    ensures a + b + c + d == a + (b + c + d)
    ensures b + c + d == b + (c + d)
  {
  }

  /** The textual test is the proper-prefix relation on segments. */
  lemma IsUnderMeaning(p: Path, q: Path)
    requires |p| >= 1 && |q| >= 1
    requires forall i :: 0 <= i < |p| ==> '/' !in p[i]
    requires forall i :: 0 <= i < |q| ==> '/' !in q[i]
    ensures IsUnderText(Render(p), Render(q)) <==> Under(p, q)
    ensures Render(p) == Render(q) <==> p == q
  {
    SplitJoin(p, '/');
    SplitJoin(q, '/');
    if Under(p, q) {
      var rest := p[|q|..];
      assert p == q + rest;
      JoinAppend(q, rest, '/');
      assert Render(p) == Render(q) + (['/'] + Join(rest, '/'));
      assert Render(p)[|Render(q)|..] == ['/'] + Join(rest, '/');
    }
    if IsUnderText(Render(p), Render(q)) {
      var suffix := StripPrefix(Render(p), Render(q)).value;
      var rest := suffix[1..];
      assert Render(p) == Render(q) + ['/'] + rest;
      SplitAppend(q, rest, '/');
      assert p == q + Split(rest, '/');
    }
  }

  // ---------------------------------------------------------------- database namespaces

  const DATABASE_ROOT_TEXT := "_tauritavern/databases"
  const DATABASE_ROOT: Path := ["_tauritavern", "databases"]

  predicate IsNamespaceChar(c: char) {
    'a' <= c <= 'z' || '0' <= c <= '9' || c == '-' || c == '_'
  }

  /** A directory name `db-` plus 1 to 128 lower-case letters, digits, hyphens or underscores. */
  predicate IsNamespaceName(name: string) {
    match StripPrefix(name, "db-")
    case None => false
    case Some(rest) =>
      rest != "" && |rest| <= 128 && forall i :: 0 <= i < |rest| ==> IsNamespaceChar(rest[i])
  }

  predicate IsDatabaseFile(file: string) {
    && (file == "database.tdb" || "database.tdb." <= file)
    && file != "database.tdb.lock"
    && !EndsWith(file, ".tmp")
  }

  /** `namespace_directory`: the textual test chain. */
  function NamespaceDirectory(text: string): Option<string> {
    match StripPrefix(text, DATABASE_ROOT_TEXT)
    case None => None
    case Some(tail) =>
      match StripPrefix(tail, "/")
      case None => None
      case Some(relative) =>
        match SplitOnce(relative, '/')
        case None => None
        case Some((directory, file)) =>
          if !IsNamespaceName(directory) || !IsDatabaseFile(file) || '/' in file then None
          else Some(text[..|DATABASE_ROOT_TEXT| + 1 + |directory|])
  }

  /** The namespace a path belongs to, on segments: `_tauritavern/databases/NAME/FILE`. */
  function Namespace(p: Path): Option<string> {
    if |p| == 4 && p[..2] == DATABASE_ROOT && IsNamespaceName(p[2]) && IsDatabaseFile(p[3])
    then Some(p[2]) else None
  }

  lemma DatabaseRootText()
    ensures Render(DATABASE_ROOT) == DATABASE_ROOT_TEXT
    ensures forall i :: 0 <= i < 2 ==> '/' !in DATABASE_ROOT[i]
  {
    assert DATABASE_ROOT[1..] == ["databases"];
    assert Join(["databases"], '/') == "databases";
    assert Join(DATABASE_ROOT, '/') == "_tauritavern" + ['/'] + "databases";
    assert "_tauritavern" + ['/'] + "databases" == "_tauritavern/databases";
  }

  lemma {:induction false} DatabaseFileIsPlain(p: Path)
    requires |p| == 4 && p[..2] == DATABASE_ROOT
    requires '/' !in p[2] && '/' !in p[3]
    ensures Render(p) == DATABASE_ROOT_TEXT + "/" + (p[2] + ['/'] + p[3])
  {
    DatabaseRootText();
    assert p == DATABASE_ROOT + p[2..];
    JoinAppend(DATABASE_ROOT, p[2..], '/');
    assert p[2..] == [p[2], p[3]];
    assert p[2..][1..] == [p[3]];
  }

  /** Four segments of the right kind, from the text's side. */
  lemma DirectoryToSegments(text: string)
    requires NamespaceDirectory(text).Some?
    ensures Namespace(Segments(text)).Some?
    ensures NamespaceDirectory(text).value == Render(Segments(text)[..3])
  {
    DatabaseRootText();
    var relative := StripPrefix(StripPrefix(text, DATABASE_ROOT_TEXT).value, "/").value;
    var (directory, file) := SplitOnce(relative, '/').value;
    assert text == Join(DATABASE_ROOT, '/') + ['/'] + relative;
    SplitAppend(DATABASE_ROOT, relative, '/');
    SplitCons(directory, file, '/');
    SplitSingle(file, '/');
    assert Segments(text) == DATABASE_ROOT + [directory, file];
    assert Segments(text)[..3] == DATABASE_ROOT + [directory];
    JoinAppend(DATABASE_ROOT, [directory], '/');
    assert text[..|DATABASE_ROOT_TEXT| + 1 + |directory|] == DATABASE_ROOT_TEXT + ['/'] + directory;
  }

  /** And from the segments' side. */
  lemma SegmentsToDirectory(text: string)
    requires Namespace(Segments(text)).Some?
    ensures NamespaceDirectory(text).Some?
  {
    JoinSplit(text, '/');
    var p := Segments(text);
    DatabaseFileIsPlain(p);
    var relative := p[2] + ['/'] + p[3];
    assert text[|DATABASE_ROOT_TEXT|..] == "/" + relative;
    assert ("/" + relative)[1..] == relative;
    SplitOnceUnique(p[2], p[3], '/');
  }

  /** The text names a namespace exactly when its segments do, and then it names that directory. */
  lemma NamespaceDirectoryMeaning(text: string)
    ensures NamespaceDirectory(text).Some? <==> Namespace(Segments(text)).Some?
    ensures NamespaceDirectory(text).Some? ==> NamespaceDirectory(text).value == Render(Segments(text)[..3])
  {
    if NamespaceDirectory(text).Some? {
      DirectoryToSegments(text);
    } else if Namespace(Segments(text)).Some? {
      SegmentsToDirectory(text);
    }
  }

  /** Inside one namespace a path is determined by its file name. */
  lemma NamespacePathShape(p: Path)
    requires Namespace(p).Some?
    ensures p == DATABASE_ROOT + [Namespace(p).value, p[3]]
  {
    assert p == p[..2] + [p[2], p[3]];
  }

  /** The staging directory holds both `db-x` and `old-db-y`; the two kinds of name never meet. */
  lemma StagedNamesNeverCollide(x: string, y: string)
    requires IsNamespaceName(x) && IsNamespaceName(y)
    ensures x != "old-" + y
    ensures "old-" + x == "old-" + y ==> x == y
    ensures !IsNamespaceName("old-" + y)
  {
    assert x[0] == 'd' by { assert x == "db-" + StripPrefix(x, "db-").value; }
    assert ("old-" + y)[0] == 'o';
    if "old-" + x == "old-" + y {
      assert x == ("old-" + x)[4..] == ("old-" + y)[4..] == y;
    }
  }

  /** Lower-case letters, digits, hyphen and underscore, by their codes. */
  predicate InNamespaceAlphabet(c: char) {
    0x61 <= c as int <= 0x7A || 0x30 <= c as int <= 0x39 || c as int == 0x2D || c as int == 0x5F
  }

  /** The names of namespaces, spelled out. */
  ghost predicate NamesNamespace(name: string) {
    exists rest: string ::
      name == "db-" + rest && 1 <= |rest| <= 128 && forall i :: 0 <= i < |rest| ==> InNamespaceAlphabet(rest[i])
  }

  /** The names of database files, spelled out: the database and its sidecars, but no lock and no temporary file. */
  ghost predicate NamesDatabaseFile(file: string) {
    && (file == "database.tdb" || exists more: string :: file == "database.tdb." + more)
    && file != "database.tdb.lock"
    && forall head: string :: file != head + ".tmp"
  }

  lemma NamespaceNames(name: string)
    ensures IsNamespaceName(name) <==> NamesNamespace(name)
  {
    if IsNamespaceName(name) {
      var rest := StripPrefix(name, "db-").value;
      assert name == "db-" + rest;
    }
    if NamesNamespace(name) {
      var rest: string :|
        name == "db-" + rest && 1 <= |rest| <= 128 && forall i :: 0 <= i < |rest| ==> InNamespaceAlphabet(rest[i]);
      assert name[3..] == rest;
    }
  }

  lemma DatabaseFileNames(file: string)
    ensures IsDatabaseFile(file) <==> NamesDatabaseFile(file)
  {
    EndsWithMeaning(file, ".tmp");
    if "database.tdb." <= file {
      assert file == "database.tdb." + file[|"database.tdb."|..];
    }
  }

  lemma BelowDatabaseRoot(p: Path)
    requires |p| >= 2
    ensures p[..2] == DATABASE_ROOT <==> p[0] == "_tauritavern" && p[1] == "databases"
  {
    assert p[..2][0] == p[0] && p[..2][1] == p[1];
  }

  /** Exactly which paths lie in a namespace, and in which. */
  lemma NamespaceExactly(p: Path)
    ensures Namespace(p).Some? <==>
      && |p| == 4 && p[0] == "_tauritavern" && p[1] == "databases"
      && NamesNamespace(p[2]) && NamesDatabaseFile(p[3])
    ensures Namespace(p).Some? ==> Namespace(p).value == p[2]
  {
    if |p| == 4 {
      BelowDatabaseRoot(p);
      NamespaceNames(p[2]);
      DatabaseFileNames(p[3]);
    }
  }

  // ---------------------------------------------------------------- wire paths without splitting

  /** `part` occurs somewhere in `text`. */
  ghost predicate Occurs(part: string, text: string) { exists k: nat :: OccursAt(part, text, k) }

  predicate OccursAt(part: string, text: string, k: nat) { k + |part| <= |text| && text[k..k + |part|] == part }

  /** A segment between slashes. */
  function Slashed(s: string): string { "/" + s + "/" }

  lemma SlashedCons(head: string, rest: Path)
    requires rest != []
    ensures Slashed(Join([head] + rest, '/')) == ("/" + head) + Slashed(Join(rest, '/'))
  {
    JoinCons(head, rest, '/');
  }

  lemma {:induction false} SegmentOccurs(parts: Path, s: string)
    requires |parts| >= 1 && '/' !in s && forall i :: 0 <= i < |parts| ==> '/' !in parts[i]
    ensures Occurs(Slashed(s), Slashed(Join(parts, '/'))) <==> s in parts
  {
    var head, text := parts[0], Slashed(Join(parts, '/'));
    if |parts| == 1 {
      OnlyAtSlashes(head, "", s, text);
      assert text == "/" + head + "/" + "";
    } else {
      var rest := Slashed(Join(parts[1..], '/'));
      assert parts == [head] + parts[1..];
      SlashedCons(head, parts[1..]);
      SegmentOccurs(parts[1..], s);
      assert text == "/" + head + "/" + rest[1..];
      OnlyAtSlashes(head, rest[1..], s, text);
      assert rest == "/" + rest[1..];
      assert s in parts <==> s == head || s in parts[1..];
    }
  }

  /** In `/head/tail` a segment between slashes is the first one, or stands in `/tail`. */
  lemma OnlyAtSlashes(head: string, tail: string, s: string, text: string)
    requires text == "/" + head + "/" + tail && '/' !in head && '/' !in s
    ensures Occurs(Slashed(s), text) <==> s == head || Occurs(Slashed(s), "/" + tail)
  {
    if k: nat :| OccursAt(Slashed(s), text, k) {
      SegmentAt(head, tail, s, text, k);
    }
    if k: nat :| OccursAt(Slashed(s), "/" + tail, k) {
      Further(head, tail, s, text, k);
    }
    if s == head {
      assert text[0..|Slashed(s)|] == Slashed(s);
      assert OccursAt(Slashed(s), text, 0);
    }
  }

  lemma Further(head: string, tail: string, s: string, text: string, k: nat)
    requires text == "/" + head + "/" + tail
    ensures OccursAt(Slashed(s), "/" + tail, k) <==> OccursAt(Slashed(s), text, k + |head| + 1)
  {
    var after, m := "/" + tail, |head| + 1;
    assert text[m..] == after;
    if k + |Slashed(s)| <= |after| {
      assert text[m + k..m + k + |Slashed(s)|] == after[k..k + |Slashed(s)|];
    }
  }

  lemma SegmentAt(head: string, tail: string, s: string, text: string, k: nat)
    requires text == "/" + head + "/" + tail && '/' !in head && '/' !in s && OccursAt(Slashed(s), text, k)
    ensures s == head || Occurs(Slashed(s), "/" + tail)
  {
    assert text[k] == text[k..k + |Slashed(s)|][0] == '/';
    NoSlashInside(head, tail, text, k);
    if k == 0 {
      FirstSegment(head, tail, s, text);
    } else {
      Further(head, tail, s, text, k - |head| - 1);
    }
  }

  lemma NoSlashInside(head: string, tail: string, text: string, k: nat)
    requires text == "/" + head + "/" + tail && '/' !in head
    ensures 0 < k <= |head| ==> text[k] != '/'
  {
    if 0 < k <= |head| {
      assert text[k] == head[k - 1];
      assert head[k - 1] in head;
    }
  }

  lemma FirstSegment(head: string, tail: string, s: string, text: string)
    requires text == "/" + head + "/" + tail && '/' !in head && '/' !in s && OccursAt(Slashed(s), text, 0)
    ensures s == head
  {
    var n := |Slashed(s)|;
    assert text == text[0..n] + text[n..];
    assert text[1..] == s + ['/'] + text[n..];
    assert text[1..] == head + ['/'] + tail;
    SplitOnceUnique(s, text[n..], '/');
    SplitOnceUnique(head, tail, '/');
  }

  /**
   The accepted texts, without splitting: no backslash, and between slashes on both sides neither nothing,
   nor a dot, nor two dots.
   */
  lemma SyncPathExactly(text: string)
    ensures ValidSyncPath(text) <==>
      && '\\' !in text
      && !Occurs("//", Slashed(text)) && !Occurs("/./", Slashed(text)) && !Occurs("/../", Slashed(text))
  {
    JoinSplit(text, '/');
    var parts := Segments(text);
    SegmentOccurs(parts, "");
    SegmentOccurs(parts, ".");
    SegmentOccurs(parts, "..");
    assert Slashed("") == "//" && Slashed(".") == "/./" && Slashed("..") == "/../";
    SyncPathMeaning(text);
    MemberOfJoin(parts, '/', '\\');
  }
}
