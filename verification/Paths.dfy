// Package::safePath and Package::protected: which manifest paths the updater accepts, and which
// of them it never rewrites.
module Paths {
  import opened Strings

  type Path = string

  const MANIFEST: Path := "package-files.json"
  const TEMPORARY_SUFFIX: string := ".filebeam-new"

  predicate SafePath(p: Path)
  {
    var parts := Explode(p, '/');
    p != "" && p[0] != '/' && '\0' !in p && '\\' !in p
    && "" !in parts && "." !in parts && ".." !in parts
    && !(".filebeam/" <= p)
  }

  /** The last alternative is the pattern ^backend/database/.*\.sqlite$ : the dot stops at a line
      feed, and without the D modifier the dollar also matches before a final one. */
  predicate Protected(p: Path)
  {
    p == "backend/.env" || "backend/storage/" <= p
    || ProtectedDatabase(p) || (|p| > 0 && p[|p| - 1] == '\n' && ProtectedDatabase(p[..|p| - 1]))
  }

  predicate ProtectedDatabase(p: Path)
  {
    var head, tail := "backend/database/", ".sqlite";
    head <= p && |p| >= |head| + |tail| && p[|p| - |tail|..] == tail && '\n' !in p
  }

  function Temporary(p: Path): Path
  {
    p + TEMPORARY_SUFFIX
  }

  predicate IsTemporary(p: Path)
  {
    |p| >= |TEMPORARY_SUFFIX| && p[|p| - |TEMPORARY_SUFFIX|..] == TEMPORARY_SUFFIX
  }

  lemma TemporaryIsTemporary(p: Path)
    ensures IsTemporary(Temporary(p))
  {
    assert Temporary(p)[|p|..] == TEMPORARY_SUFFIX;
  }

  lemma SingleNameIsSafe(p: Path)
    requires p != "" && p != "." && p != ".." && '/' !in p && '\0' !in p && '\\' !in p
    ensures SafePath(p)
  {
    ExplodeWhole(p, '/');
    assert ".filebeam/"[9] == '/';
  }

  lemma ManifestCharacters(p: Path)
    requires p == MANIFEST
    ensures |p| == 18 && p[5] == 'g' && forall c <- p :: 'a' <= c <= 'z' || c == '-' || c == '.'
  {
  }

  lemma ManifestIsSafe()
    ensures SafePath(MANIFEST) && !IsTemporary(MANIFEST)
  {
    var p := MANIFEST;
    ManifestCharacters(p);
    SingleNameIsSafe(p);
    assert TEMPORARY_SUFFIX[0] == '.' && |TEMPORARY_SUFFIX| == 13;
    assert p[|p| - |TEMPORARY_SUFFIX|..][0] == 'g';
  }

  predicate Name(name: string)
  {
    name != "" && name != "." && name != ".." && '/' !in name && '\0' !in name && '\\' !in name
  }

  lemma BelowNameIsSafe(a: string, p: Path)
    requires Name(a) && a[0] != '.' && SafePath(p)
    ensures SafePath(a + ['/'] + p)
  {
    ExplodeSeparated(a, p, '/');
    assert (a + ['/'] + p)[0] == a[0] && ".filebeam/"[0] == '.';
  }

  lemma TwoNamesAreSafe(a: string, b: string)
    requires Name(a) && Name(b) && a[0] != '.'
    ensures SafePath(a + ['/'] + b)
  {
    SingleNameIsSafe(b);
    BelowNameIsSafe(a, b);
  }

  lemma ThreeNamesAreSafe(a: string, b: string, c: string)
    requires Name(a) && Name(b) && Name(c) && a[0] != '.' && b[0] != '.'
    ensures SafePath(a + ['/'] + (b + ['/'] + c))
  {
    TwoNamesAreSafe(b, c);
    BelowNameIsSafe(a, b + ['/'] + c);
  }

  lemma EnvironmentIsSafe(p: Path)
    requires p == "backend/.env"
    ensures SafePath(p) && !IsTemporary(p) && Protected(p)
  {
    TwoNamesAreSafe("backend", ".env");
    ShortIsNotTemporary(p);
    assert p == "backend" + ['/'] + ".env";
  }

  lemma ShortIsNotTemporary(p: Path)
    requires |p| < 13
    ensures !IsTemporary(p)
  {
  }

  datatype Resolution = Outside | Inside(names: seq<string>)

  /** What a POSIX kernel makes of the segments of a path without symbolic links: empty and "."
      segments vanish, ".." climbs, and climbing above the root leaves the install tree. */
  function Resolve(above: seq<string>, parts: seq<string>): Resolution
    decreases |parts|
  {
    if parts == [] then Inside(above)
    else if parts[0] == "" || parts[0] == "." then Resolve(above, parts[1..])
    else if parts[0] == ".." then
      if above == [] then Outside else Resolve(above[..|above| - 1], parts[1..])
    else Resolve(above + [parts[0]], parts[1..])
  }

  lemma {:induction false} ResolvePlain(above: seq<string>, parts: seq<string>)
    requires "" !in parts && "." !in parts && ".." !in parts
    ensures Resolve(above, parts) == Inside(above + parts)
    decreases |parts|
  {
    if parts == [] {
      assert above + parts == above;
    } else {
      ResolvePlain(above + [parts[0]], parts[1..]);
      assert above + [parts[0]] + parts[1..] == above + parts;
    }
  }

  predicate Vanishing(name: string)
  {
    name == "" || name == "." || name == ".."
  }

  lemma {:induction false} ResolveShrinks(above: seq<string>, parts: seq<string>)
    ensures Resolve(above, parts).Inside? ==> |Resolve(above, parts).names| <= |above| + |parts|
    ensures Resolve(above, parts).Inside? && (exists name <- parts :: Vanishing(name)) ==>
              |Resolve(above, parts).names| < |above| + |parts|
    decreases |parts|
  {
    if parts != [] {
      ResolveShrinks(above, parts[1..]);
      ResolveShrinks(above + [parts[0]], parts[1..]);
      if above != [] {
        ResolveShrinks(above[..|above| - 1], parts[1..]);
      }
      assert forall name <- parts :: name == parts[0] || name in parts[1..];
    }
  }

  lemma StateDirectory(p: Path)
    ensures ".filebeam/" <= p <==> |Explode(p, '/')| > 1 && Explode(p, '/')[0] == ".filebeam"
  {
    var name := ".filebeam";
    if name + ['/'] <= p {
      assert p == name + ['/'] + p[|name| + 1..];
      ExplodeSeparated(name, p[|name| + 1..], '/');
    }
    assert name + ['/'] == ".filebeam/";
  }

  /** The accepted paths are exactly those whose every segment is a name that the kernel follows
      downwards, without the characters that other systems treat otherwise, outside the updater's own
      directory. */
  lemma SafePathExactly(p: Path)
    ensures var parts := Explode(p, '/');
            SafePath(p) <==> Resolve([], parts) == Inside(parts) && '\0' !in p && '\\' !in p
                             && !(|parts| > 1 && parts[0] == ".filebeam")
  {
    StateDirectory(p);
    ResolvesInPlace(Explode(p, '/'));
    EmptyFirst(p);
  }

  lemma ResolvesInPlace(parts: seq<string>)
    ensures Resolve([], parts) == Inside(parts) <==> forall name <- parts :: !Vanishing(name)
  {
    ResolveShrinks([], parts);
    if forall name <- parts :: !Vanishing(name) {
      ResolvePlain([], parts);
      assert [] + parts == parts;
    }
  }

  lemma EmptyFirst(p: Path)
    ensures p == "" || p[0] == '/' ==> Explode(p, '/')[0] == ""
  {
  }

  /** A path of the given form; the dot of the pattern stops at a line feed. */
  ghost predicate Bracketed(p: Path, head: string, tail: string)
  {
    exists name :: '\n' !in name && p == head + name + tail
  }

  /** The protected paths are the environment file, the storage directory, and database files, whose
      name may be followed by a line feed. */
  lemma ProtectedExactly(p: Path, head: string, tail: string)
    requires head == "backend/database/" && tail == ".sqlite"
    ensures Protected(p) <==>
              p == "backend/.env" || "backend/storage/" <= p || Bracketed(p, head, tail) || Bracketed(p, head, tail + "\n")
  {
    BracketedExactly(p, head, tail);
    if |p| > 0 && p[|p| - 1] == '\n' {
      BracketedExactly(p[..|p| - 1], head, tail);
    }
    LineFeedBehind(p, head, tail);
  }

  lemma BracketedExactly(p: Path, head: string, tail: string)
    requires '\n' !in head && '\n' !in tail
    ensures Bracketed(p, head, tail) <==> head <= p && |p| >= |head| + |tail| && p[|p| - |tail|..] == tail && '\n' !in p
  {
    if head <= p && |p| >= |head| + |tail| && p[|p| - |tail|..] == tail && '\n' !in p {
      assert p == head + p[|head|..|p| - |tail|] + tail;
    }
  }

  lemma LineFeedBehind(p: Path, head: string, tail: string)
    ensures Bracketed(p, head, tail + "\n") <==> |p| > 0 && p[|p| - 1] == '\n' && Bracketed(p[..|p| - 1], head, tail)
  {
    if name :| '\n' !in name && p == head + name + (tail + "\n") {
      assert p[..|p| - 1] == head + name + tail;
    }
    if |p| > 0 && p[|p| - 1] == '\n' && Bracketed(p[..|p| - 1], head, tail) {
      var name :| '\n' !in name && p[..|p| - 1] == head + name + tail;
      assert p == head + name + (tail + "\n");
    }
  }

  /** Two accepted paths name the same file only if they are the same string, and an accepted path
      names something inside the tree and outside the updater's own state directory. This is what
      makes it sound to treat the install tree as a map from paths to contents. */
  lemma SafePathsNeverAlias(p: Path, q: Path)
    requires SafePath(p) && SafePath(q)
    ensures Resolve([], Explode(p, '/')) == Resolve([], Explode(q, '/')) <==> p == q
    ensures Resolve([], Explode(p, '/')).Inside?
    ensures var names := Resolve([], Explode(p, '/')).names;
            |names| > 0 && !(|names| > 1 && names[0] == ".filebeam")
  {
    ResolvePlain([], Explode(p, '/'));
    ResolvePlain([], Explode(q, '/'));
    assert [] + Explode(p, '/') == Explode(p, '/');
    assert [] + Explode(q, '/') == Explode(q, '/');
  }
}
