/** The directories to remove after a deletion (libpkg/pkg_delete.c:136-182): of nested
    directories only the innermost are kept, since their parents go with them. */
module DeleteDirs {
  import opened Characters

  datatype Source = File(name: string) | Dir(name: string)

  /** A file has a directory part, and a directory has a name. */
  predicate GoodSource(src: Source)
  {
    match src
    case File(name) => '/' in name
    case Dir(name) => name != ""
  }

  /** The directory, with a slash at its end. */
  function PathOf(src: Source): (path: string)
    requires GoodSource(src)
    ensures path != "" && path[|path| - 1] == '/'
  {
    match src
    case File(name) => name[..LastIndex(name, '/') + 1]
    case Dir(name) => if name[|name| - 1] == '/' then name else name + "/"
  }

  /** The directory of a file, and that of a directory with or without its slash. */
  lemma PathsAre(dir: string, base: string)
    requires '/' !in base
    ensures PathOf(File(dir + "/" + base)) == dir + "/"
    ensures dir != "" && dir[|dir| - 1] != '/' ==> PathOf(Dir(dir)) == dir + "/"
    ensures PathOf(Dir(dir + "/")) == dir + "/"
  {
    hide LastIndex;
    var name := dir + "/" + base;
    assert name[|dir|] == '/' && forall k :: |dir| < k < |name| ==> name[k] == base[k - |dir| - 1];
    assert LastIndex(name, '/') == |dir|;
    assert name[..|dir| + 1] == dir + "/";
  }

  /** One directory more: nothing if it is an ancestor of one that is kept; in place of
      one that it lies in; or else at the end. The first of them that it meets decides. */
  function Add(kept: seq<string>, path: string): seq<string>
  {
    if kept == [] then [path]
    else if path <= kept[0] then kept
    else if kept[0] <= path then kept[0 := path]
    else [kept[0]] + Add(kept[1..], path)
  }

  function AddAll(paths: seq<string>): seq<string>
  {
    if paths == [] then [] else Add(AddAll(paths[..|paths| - 1]), paths[|paths| - 1])
  }

  /** None of the directories lies in another. */
  ghost predicate Apart(kept: seq<string>)
  {
    forall i, j :: 0 <= i < |kept| && 0 <= j < |kept| && kept[i] <= kept[j] ==> i == j
  }

  /** Some kept directory is the given one, or lies in it. */
  ghost predicate Covered(kept: seq<string>, path: string)
  {
    exists i :: 0 <= i < |kept| && path <= kept[i]
  }

  lemma PrefixesCompare(a: string, b: string, c: string)
    requires a <= c && b <= c
    ensures a <= b || b <= a
  {
  }

  lemma PrefixOfPrefix(a: string, b: string, c: string)
    requires a <= b && b <= c
    ensures a <= c
  {
  }

  /** A member of the new list was there before, or is the new one. */
  lemma {:induction false} AddMembers(kept: seq<string>, path: string)
    ensures forall d :: d in Add(kept, path) ==> d == path || d in kept
    ensures Covered(Add(kept, path), path)
    ensures forall d :: Covered(kept, d) ==> Covered(Add(kept, path), d)
    decreases kept, 1
  {
    if kept == [] {
      assert path <= Add(kept, path)[0];
    } else if path <= kept[0] {
    } else if kept[0] <= path {
      assert path <= Add(kept, path)[0];
      forall d | Covered(kept, d)
        ensures Covered(Add(kept, path), d)
      {
        var i :| 0 <= i < |kept| && d <= kept[i];
        if i == 0 {
          PrefixOfPrefix(d, kept[0], path);
          assert d <= Add(kept, path)[0];
        } else {
          assert d <= Add(kept, path)[i];
        }
      }
    } else {
      AddMembersFurther(kept, path);
    }
  }

  lemma AddMembersFurther(kept: seq<string>, path: string)
    requires kept != [] && !(path <= kept[0]) && !(kept[0] <= path)
    ensures forall d :: d in Add(kept, path) ==> d == path || d in kept
    ensures Covered(Add(kept, path), path)
    ensures forall d :: Covered(kept, d) ==> Covered(Add(kept, path), d)
    decreases kept, 0
  {
    var rest := Add(kept[1..], path);
    AddMembers(kept[1..], path);
    CoveredCons(kept[0], rest, path);
    forall d | Covered(kept, d)
      ensures Covered(Add(kept, path), d)
    {
      CoveredCons(kept[0], rest, d);
      assert kept == [kept[0]] + kept[1..];
      CoveredCons(kept[0], kept[1..], d);
    }
  }

  lemma CoveredCons(first: string, rest: seq<string>, d: string)
    ensures Covered([first] + rest, d) <==> d <= first || Covered(rest, d)
  {
    var all := [first] + rest;
    if d <= first {
      assert d <= all[0];
    }
    if i :| 0 <= i < |rest| && d <= rest[i] {
      assert d <= all[i + 1];
    }
  }

  /** The directories kept stay apart. */
  lemma {:induction false} AddKeepsApart(kept: seq<string>, path: string)
    requires Apart(kept)
    ensures Apart(Add(kept, path))
  {
    if kept == [] || path <= kept[0] {
    } else if kept[0] <= path {
      forall j | 0 < j < |kept|
        ensures !(path <= kept[j]) && !(kept[j] <= path)
      {
        if path <= kept[j] {
          PrefixOfPrefix(kept[0], path, kept[j]);
        }
        if kept[j] <= path {
          PrefixesCompare(kept[0], kept[j], path);
        }
      }
    } else {
      var rest := Add(kept[1..], path);
      AddKeepsApart(kept[1..], path);
      AddMembers(kept[1..], path);
      forall j | 0 <= j < |rest|
        ensures !(kept[0] <= rest[j]) && !(rest[j] <= kept[0])
      {
        assert rest[j] in rest;
        if rest[j] != path {
          var k :| 0 <= k < |kept[1..]| && kept[1..][k] == rest[j];
          assert kept[k + 1] == rest[j];
        }
      }
    }
  }

  lemma {:induction false} RunKeeps(paths: seq<string>)
    ensures Apart(AddAll(paths))
    ensures forall d :: d in AddAll(paths) ==> d in paths
    ensures forall d :: d in paths ==> Covered(AddAll(paths), d)
  {
    if paths != [] {
      var init, path := paths[..|paths| - 1], paths[|paths| - 1];
      RunKeeps(init);
      AddKeepsApart(AddAll(init), path);
      AddMembers(AddAll(init), path);
      assert paths == init + [path];
    }
  }

  /** Over any run, a directory is kept exactly if it was added and no directory that
      lies in it was. */
  lemma KeptIffInnermost(paths: seq<string>, d: string)
    ensures d in AddAll(paths) <==> d in paths && forall e :: e in paths && d <= e ==> e == d
  {
    var kept := AddAll(paths);
    RunKeeps(paths);
    if d in kept {
      forall e | e in paths && d <= e
        ensures e == d
      {
        var i :| 0 <= i < |kept| && kept[i] == d;
        var j :| 0 <= j < |kept| && e <= kept[j];
        PrefixOfPrefix(d, e, kept[j]);
        assert i == j;
      }
    } else if d in paths {
      var j :| 0 <= j < |kept| && d <= kept[j];
      assert kept[j] in paths;
    }
  }

  // ----- the array of the source -----

  class DirList {
    var dirs: array<string>
    var len: nat

    ghost predicate Valid()
      reads this
    {
      len <= dirs.Length
    }

    ghost function Contents(): seq<string>
      requires Valid()
      reads this, dirs
    {
      dirs[..len]
    }

    constructor ()
      ensures Valid() && Contents() == [] && fresh(dirs)
    {
      dirs := new string[0];
      len := 0;
    }

    /** Room for 64 more. */
    method Grow()
      requires Valid()
      modifies this
      ensures Valid() && Contents() == old(Contents()) && len == old(len) < dirs.Length && fresh(dirs)
    {
      var more := new string[dirs.Length + 64](i => "");
      forall i | 0 <= i < len {
        more[i] := dirs[i];
      }
      dirs := more;
    }

    /** `pkg_add_dir_to_del` */
    method AddDir(src: Source)
      requires Valid() && GoodSource(src)
      modifies this, dirs
      ensures Valid() && (dirs == old(dirs) || fresh(dirs))
      ensures Contents() == Add(old(Contents()), PathOf(src))
    {
      var path := PathOf(src);
      ghost var kept := Contents();
      var i := 0;
      while i < len
        invariant Valid() && 0 <= i <= len == |kept| && Contents() == kept && dirs == old(dirs)
        invariant forall j :: 0 <= j < i ==> !(path <= kept[j]) && !(kept[j] <= path)
      {
        assert dirs[i] == kept[i];
        AddFurther(kept, path, i);
        if path <= dirs[i] {
          return;
        }
        if dirs[i] <= path {
          dirs[i] := path;
          return;
        }
        i := i + 1;
      }
      AddAtEnd(kept, path);
      if len + 1 > dirs.Length {
        Grow();
      }
      dirs[len] := path;
      len := len + 1;
    }
  }

  /** The first directory that the new one meets decides. */
  lemma {:induction false} AddFurther(kept: seq<string>, path: string, i: nat)
    requires i < |kept| && forall j :: 0 <= j < i ==> !(path <= kept[j]) && !(kept[j] <= path)
    ensures path <= kept[i] ==> Add(kept, path) == kept
    ensures !(path <= kept[i]) && kept[i] <= path ==> Add(kept, path) == kept[i := path]
    decreases i
  {
    if i > 0 {
      AddFurther(kept[1..], path, i - 1);
      assert kept == [kept[0]] + kept[1..];
    }
  }

  lemma {:induction false} AddAtEnd(kept: seq<string>, path: string)
    requires forall j :: 0 <= j < |kept| ==> !(path <= kept[j]) && !(kept[j] <= path)
    ensures Add(kept, path) == kept + [path]
  {
    if kept != [] {
      AddAtEnd(kept[1..], path);
      assert kept == [kept[0]] + kept[1..];
    }
  }
}
