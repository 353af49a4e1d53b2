// The desktop client's export_verified: verified files are copied into a staging directory inside the
// destination and then renamed into place, all or none of them.
module ExportFiles {
  type Name = nat
  type Content = nat

  datatype Entry = File(content: Content) | Folder(files: map<Name, Content>)

  /** What a path of the request turns out to be: a regular file below the private root, or not. */
  datatype Source = Verified(name: Name, content: Content) | Rejected

  /** What goes wrong: copies by their position, renames and removals by the name they work on. */
  datatype Faults = Faults(create: bool, copies: set<nat>, list: bool, renames: set<Name>, stuck: set<Name>)

  /** The files the request stands for; of two with the same base name the later one. */
  function Exported(paths: seq<Source>): map<Name, Content>
  {
    if paths == [] then map[]
    else
      var before, last := Exported(paths[..|paths| - 1]), paths[|paths| - 1];
      if last.Verified? then before[last.name := last.content] else before
  }

  function AsFiles(files: map<Name, Content>): map<Name, Entry>
  {
    map name <- files :: File(files[name])
  }

  function Committed(files: map<Name, Content>, names: set<Name>): map<Name, Entry>
  {
    map name | name in files && name in names :: File(files[name])
  }

  /** Whether a request succeeds; the order in which the staging directory is listed has no part in it. */
  predicate Succeeds(entries: map<Name, Entry>, paths: seq<Source>, staging: Name, w: Faults)
  {
    staging !in entries && !w.create && !w.list
    && forall i | 0 <= i < |paths| ::
         paths[i].Verified? && paths[i].name !in entries && paths[i].name != staging
         && i !in w.copies && paths[i].name !in w.renames
  }

  /** Nothing but `expected` and what could not be removed again. */
  ghost predicate Leaves(entries: map<Name, Entry>, expected: map<Name, Entry>, w: Faults)
  {
    (forall name <- expected :: name in entries && entries[name] == expected[name])
    && forall name <- entries :: name in expected || name in w.stuck
  }

  class Destination {
    var entries: map<Name, Entry>

    /** The loop over the requested paths. */
    method Stage(paths: seq<Source>, staging: Name, w: Faults, ghost before: map<Name, Entry>) returns (ok: bool)
      requires staging !in before && entries == before[staging := Folder(map[])]
      modifies this
      ensures ok <==> forall i | 0 <= i < |paths| ::
                paths[i].Verified? && paths[i].name !in before && paths[i].name != staging && i !in w.copies
      ensures ok ==> entries == before[staging := Folder(Exported(paths))]
      ensures staging in entries && entries[staging].Folder? && entries - {staging} == before
    {
      for i := 0 to |paths|
        invariant entries == before[staging := Folder(Exported(paths[..i]))]
        invariant forall j | 0 <= j < i ::
                    paths[j].Verified? && paths[j].name !in before && paths[j].name != staging && j !in w.copies
      {
        var staged := entries[staging].files;
        match paths[i] {
          case Rejected => return false;
          case Verified(name, content) =>
            if name in entries {
              return false;
            }
            if i in w.copies {
              var torn: Content := *;
              entries := entries[staging := Folder(staged[name := torn])];
              return false;
            }
            entries := entries[staging := Folder(staged[name := content])];
            assert paths[..i + 1][..i] == paths[..i];
        }
      }
      assert paths[..|paths|] == paths;
      ok := true;
    }

    /** The loop over the staging directory, in whatever order it is listed. */
    method Commit(staging: Name, w: Faults, ghost before: map<Name, Entry>) returns (ok: bool, committed: set<Name>)
      requires staging in entries && entries[staging].Folder? && entries - {staging} == before
      requires entries[staging].files.Keys !! before.Keys && staging !in entries[staging].files
      modifies this
      ensures var staged := old(entries[staging].files);
              && committed <= staged.Keys
              && (ok <==> staged.Keys !! w.renames)
              && (ok ==> committed == staged.Keys)
              && staging in entries && entries - {staging} == before + Committed(staged, committed)
    {
      ghost var staged := entries[staging].files;
      var rest := entries[staging].files.Keys;
      committed := {};
      while rest != {}
        invariant committed == staged.Keys - rest && rest <= staged.Keys && committed !! w.renames
        invariant staging in entries && entries[staging] == Folder(staged - committed)
        invariant entries - {staging} == before + Committed(staged, committed)
      {
        var name :| name in rest;
        if name in w.renames {
          return false, committed;
        }
        var files := entries[staging].files;
        CommitStep(entries, before, staged, committed, name, staging, Folder(files - {name}));
        entries := entries[name := File(files[name])][staging := Folder(files - {name})];
        committed := committed + {name};
        rest := rest - {name};
      }
      ok := true;
    }

    method Remove(names: set<Name>, w: Faults)
      modifies this
      ensures entries == old(entries) - (names - w.stuck)
    {
      var rest := names;
      while rest != {}
        invariant rest <= names && entries == old(entries) - (names - rest - w.stuck)
      {
        var name :| name in rest;
        rest := rest - {name};
        if name !in w.stuck {
          entries := entries - {name};
        }
      }
    }

    /** All or nothing: an error leaves the destination as it was, success adds exactly the verified
        files, and either way no entry is overwritten. Only what cannot be removed again may stay. */
    method ExportVerified(paths: seq<Source>, staging: Name, w: Faults) returns (ok: bool)
      modifies this
      ensures ok <==> Succeeds(old(entries), paths, staging, w)
      ensures Leaves(entries, if ok then old(entries) + AsFiles(Exported(paths)) else old(entries), w)
      ensures w.stuck == {} ==> entries == if ok then old(entries) + AsFiles(Exported(paths)) else old(entries)
    {
      if staging in entries || w.create {
        return false;
      }
      ghost var before := entries;
      entries := entries[staging := Folder(map[])];
      ok := Stage(paths, staging, w, before);
      if ok {
        ExportedNames(paths);
        if w.list {
          ok := false;
        } else {
          var committed: set<Name>;
          ok, committed := Commit(staging, w, before);
          if ok {
            Kept(entries, before, Exported(paths), staging, w);
          } else {
            RolledBack(entries, before, Exported(paths), committed, staging, w);
            Remove(committed, w);
          }
        }
      }
      Remove({staging}, w);
    }
  }

  lemma CommitStep(entries: map<Name, Entry>, before: map<Name, Entry>, staged: map<Name, Content>, done: set<Name>,
                   name: Name, staging: Name, left: Entry)
    requires name in staged && name != staging && entries - {staging} == before + Committed(staged, done)
    ensures entries[name := File(staged[name])][staging := left] - {staging} == before + Committed(staged, done + {name})
  {
    assert entries[name := File(staged[name])][staging := left] - {staging} == (entries - {staging})[name := File(staged[name])];
    assert Committed(staged, done + {name}) == Committed(staged, done)[name := File(staged[name])];
  }

  lemma RolledBack(entries: map<Name, Entry>, before: map<Name, Entry>, staged: map<Name, Content>, done: set<Name>,
                   staging: Name, w: Faults)
    requires staging !in before && staged.Keys !! before.Keys && done <= staged.Keys
    requires entries - {staging} == before + Committed(staged, done)
    ensures Leaves(entries - (done - w.stuck) - ({staging} - w.stuck), before, w)
  {
    var left := entries - (done - w.stuck) - ({staging} - w.stuck);
    forall name <- left ensures name in before || name in w.stuck {
      assert name != staging ==> name in entries - {staging};
    }
    forall name <- before ensures name in left && left[name] == before[name] {
      assert name in entries - {staging} && (entries - {staging})[name] == before[name];
    }
  }

  lemma Kept(entries: map<Name, Entry>, before: map<Name, Entry>, staged: map<Name, Content>, staging: Name, w: Faults)
    requires staging !in before && staging !in staged
    requires entries - {staging} == before + Committed(staged, staged.Keys)
    ensures Leaves(entries - ({staging} - w.stuck), before + AsFiles(staged), w)
  {
    assert Committed(staged, staged.Keys) == AsFiles(staged);
    forall name <- before + AsFiles(staged) ensures name in entries && entries[name] == (before + AsFiles(staged))[name] {
      assert name in entries - {staging} && (entries - {staging})[name] == (before + AsFiles(staged))[name];
    }
    forall name <- entries - ({staging} - w.stuck) ensures name in before + AsFiles(staged) || name in w.stuck {
      assert name != staging ==> name in entries - {staging};
    }
  }

  lemma {:induction false} ExportedNames(paths: seq<Source>)
    ensures forall name :: name in Exported(paths) <==> exists i | 0 <= i < |paths| :: paths[i].Verified? && paths[i].name == name
  {
    if paths != [] {
      var before := paths[..|paths| - 1];
      ExportedNames(before);
      forall name | name in Exported(paths)
        ensures exists i | 0 <= i < |paths| :: paths[i].Verified? && paths[i].name == name
      {
        if name in Exported(before) {
          var i :| 0 <= i < |before| && before[i].Verified? && before[i].name == name;
          assert paths[i].Verified? && paths[i].name == name;
        } else {
          assert paths[|paths| - 1].Verified? && paths[|paths| - 1].name == name;
        }
      }
      forall i | 0 <= i < |paths| && paths[i].Verified? ensures paths[i].name in Exported(paths) {
        if i < |before| {
          assert before[i].Verified?;
        }
      }
    }
  }

  // ---------------------------------------------------------------- base names that occur twice

  /** A successful export holds every requested content exactly if sources with one base name agree. */
  lemma {:induction false} EveryContentExactly(paths: seq<Source>)
    requires forall p <- paths :: p.Verified?
    ensures (forall i | 0 <= i < |paths| :: paths[i].name in Exported(paths) && Exported(paths)[paths[i].name] == paths[i].content)
       <==> (forall i, j | 0 <= i < j < |paths| && paths[i].name == paths[j].name :: paths[i].content == paths[j].content)
  {
    ExportedNames(paths);
    forall i | 0 <= i < |paths| ensures exists k :: i <= k < |paths| && IsLast(paths, paths[i].name, k) {
      var k := LastOf(paths, i);
    }
    forall i, k | 0 <= i < |paths| && IsLast(paths, paths[i].name, k)
      ensures Exported(paths)[paths[i].name] == paths[k].content
    {
      LastWins(paths, paths[i].name, k);
    }
  }

  ghost predicate IsLast(paths: seq<Source>, name: Name, k: int)
  {
    0 <= k < |paths| && paths[k].Verified? && paths[k].name == name
    && forall j | k < j < |paths| :: paths[j].Verified? ==> paths[j].name != name
  }

  lemma {:induction false} LastOf(paths: seq<Source>, i: nat) returns (k: nat)
    requires i < |paths| && paths[i].Verified?
    ensures i <= k && IsLast(paths, paths[i].name, k)
    decreases |paths| - i
  {
    if j :| i < j < |paths| && paths[j].Verified? && paths[j].name == paths[i].name {
      k := LastOf(paths, j);
    } else {
      k := i;
    }
  }

  lemma {:induction false} LastWins(paths: seq<Source>, name: Name, k: nat)
    requires IsLast(paths, name, k)
    ensures name in Exported(paths) && Exported(paths)[name] == paths[k].content
  {
    if k < |paths| - 1 {
      var before := paths[..|paths| - 1];
      assert IsLast(before, name, k);
      LastWins(before, name, k);
    }
  }

  /** And it adds one file per source exactly if base names are distinct. */
  lemma {:induction false} EveryFileExactly(paths: seq<Source>)
    requires forall p <- paths :: p.Verified?
    ensures |Exported(paths)| <= |paths|
    ensures |Exported(paths)| == |paths| <==> forall i, j | 0 <= i < j < |paths| :: paths[i].name != paths[j].name
  {
    if paths != [] {
      var before, last := paths[..|paths| - 1], paths[|paths| - 1];
      EveryFileExactly(before);
      ExportedNames(before);
      if last.name in Exported(before) {
        var i :| 0 <= i < |before| && before[i].name == last.name;
        assert paths[i].name == last.name;
        assert Exported(paths).Keys == Exported(before).Keys;
      } else {
        assert Exported(paths).Keys == Exported(before).Keys + {last.name};
        forall i | 0 <= i < |before| ensures before[i].name != last.name {
          assert before[i].Verified?;
        }
      }
    }
  }

  /** Two verified files of one base name into an empty directory: the export succeeds with one file. */
  lemma SecondNameReplacesFirst(paths: seq<Source>, w: Faults)
    requires paths == [Verified(1, 10), Verified(1, 20)] && w == Faults(false, {}, false, {}, {})
    ensures Succeeds(map[], paths, 0, w) && Exported(paths) == map[1 := 20]
  {
    var first := [Verified(1, 10)];
    assert paths[..1] == first && first[..0] == [];
    assert Exported(first) == map[1 := 10];
    assert Exported(paths) == map[1 := 10][1 := 20];
  }
}
