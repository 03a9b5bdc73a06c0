/** The rez build script rez_build.py: which directories and files of the
    source tree to install, and whether to copy them or symlink them. The
    source directory's listing and the file system's answers are
    parameters; copying and linking are recorded on a `Destination`. */
module RezBuild {
  import opened Lists
  import opened Strings

  /** What the build installs when run as a script. */
  const DirectoryList: seq<string> := ["icons", "plug-ins", "scripts"]
  const FileList: seq<string> := ["timeWarp.mod", "_versions.py", "__init__.py"]

  const IgnoredDirs: seq<string> := [".git", "_rez_build", ".vscode", ".idea"]
  const IgnoredFiles: seq<string> := [".gitignore", "README.md", "package.py", "rez_build.py", "parse_build_args.py"]
  const IgnoredExts: seq<string> := [".pyc"]

  const TrueWords: seq<string> := ["yes", "true", "t", "y", "1"]
  const FalseWords: seq<string> := ["no", "false", "f", "n", "0"]

  /** `str2bool`: the recognised "no" words and anything unrecognised are
      both false. */
  function Str2Bool(value: string): bool
  {
    if Lower(value) in TrueWords then true
    else if Lower(value) in FalseWords then false
    else false
  }

  /** True exactly for the "yes" words, in any letter case. */
  lemma Str2BoolTrueWords(value: string)
    ensures Str2Bool(value) <==> Lower(value) in TrueWords
    ensures Lower(value) in FalseWords ==> !Str2Bool(value)
  {
  }

  /** Letter case never matters: lower-casing first changes nothing, and
      any two spellings that lower-case alike parse alike. */
  lemma Str2BoolIgnoresCase(a: string, b: string)
    requires Lower(a) == Lower(b)
    ensures Str2Bool(a) == Str2Bool(b)
    ensures Str2Bool(Lower(a)) == Str2Bool(a)
  {
    LowerIdempotent(a);
  }

  /** A directory entry `get_all_dirs` keeps. */
  function DirKeeper(sourceDir: string, isDir: string -> bool): string -> bool
  {
    d => isDir(Join(sourceDir, d)) && d !in IgnoredDirs
  }

  /** A directory entry `get_all_files` keeps. */
  function FileKeeper(sourceDir: string, isFile: string -> bool): string -> bool
  {
    f => isFile(Join(sourceDir, f)) && f !in IgnoredFiles && Ext(f) !in IgnoredExts
  }

  /** `get_all_dirs`: the directories of the listing that are not
      ignored, in listing order. */
  method GetAllDirs(sourceDir: string, listing: seq<string>, isDir: string -> bool) returns (result: seq<string>)
    ensures result == Filter(listing, DirKeeper(sourceDir, isDir))
  {
    result := [];
    for i := 0 to |listing|
      invariant result == Filter(listing[..i], DirKeeper(sourceDir, isDir))
    {
      var d := listing[i];
      FilterSnoc(listing[..i], d, DirKeeper(sourceDir, isDir));
      assert listing[..i + 1] == listing[..i] + [d];
      var fullpath := Join(sourceDir, d);
      if !isDir(fullpath) {
        continue;
      }
      if d in IgnoredDirs {
        continue;
      }
      result := result + [d];
    }
    assert listing[..|listing|] == listing;
  }

  /** `get_all_files`: the files of the listing that are neither ignored
      by name nor compiled Python, in listing order. */
  method GetAllFiles(sourceDir: string, listing: seq<string>, isFile: string -> bool) returns (result: seq<string>)
    ensures result == Filter(listing, FileKeeper(sourceDir, isFile))
  {
    result := [];
    for i := 0 to |listing|
      invariant result == Filter(listing[..i], FileKeeper(sourceDir, isFile))
    {
      var f := listing[i];
      FilterSnoc(listing[..i], f, FileKeeper(sourceDir, isFile));
      assert listing[..i + 1] == listing[..i] + [f];
      var fullpath := Join(sourceDir, f);
      if !isFile(fullpath) {
        continue;
      }
      if f in IgnoredFiles {
        continue;
      }
      if Ext(f) in IgnoredExts {
        continue;
      }
      result := result + [f];
    }
    assert listing[..|listing|] == listing;
  }

  /** The kept directories are exactly the listed, non-ignored
      directories, and they keep their listing order. */
  lemma AllDirsSpec(sourceDir: string, listing: seq<string>, isDir: string -> bool, x: string, y: string)
    ensures x in Filter(listing, DirKeeper(sourceDir, isDir)) <==>
      x in listing && isDir(Join(sourceDir, x)) && x !in IgnoredDirs
    ensures x in Filter(listing, DirKeeper(sourceDir, isDir)) && y in Filter(listing, DirKeeper(sourceDir, isDir)) ==>
      (IndexOf(Filter(listing, DirKeeper(sourceDir, isDir)), x) < IndexOf(Filter(listing, DirKeeper(sourceDir, isDir)), y)
       <==> IndexOf(listing, x) < IndexOf(listing, y))
  {
    if x in Filter(listing, DirKeeper(sourceDir, isDir)) && y in Filter(listing, DirKeeper(sourceDir, isDir)) {
      FilterOrder(listing, DirKeeper(sourceDir, isDir), x, y);
    }
  }

  /** The kept files are exactly the listed files that are not ignored and
      not compiled Python, in listing order. A name such as `.pyc`, all
      dots before its last dot, has no extension and is kept. */
  lemma AllFilesSpec(sourceDir: string, listing: seq<string>, isFile: string -> bool, x: string, y: string)
    ensures x in Filter(listing, FileKeeper(sourceDir, isFile)) <==>
      x in listing && isFile(Join(sourceDir, x)) && x !in IgnoredFiles && Ext(x) != ".pyc"
    ensures x in Filter(listing, FileKeeper(sourceDir, isFile)) && y in Filter(listing, FileKeeper(sourceDir, isFile)) ==>
      (IndexOf(Filter(listing, FileKeeper(sourceDir, isFile)), x) < IndexOf(Filter(listing, FileKeeper(sourceDir, isFile)), y)
       <==> IndexOf(listing, x) < IndexOf(listing, y))
  {
    if x in Filter(listing, FileKeeper(sourceDir, isFile)) && y in Filter(listing, FileKeeper(sourceDir, isFile)) {
      FilterOrder(listing, FileKeeper(sourceDir, isFile), x, y);
    }
  }

  /** Which names count as compiled Python. */
  lemma CompiledPython()
    ensures Ext("core.pyc") in IgnoredExts
    ensures Ext(".pyc") !in IgnoredExts
    ensures Ext("core.py") !in IgnoredExts
  {
    ExtCoreFiles();
    ExtHiddenPyc();
  }

  lemma ExtCoreFiles()
    ensures Ext("core.pyc") == ".pyc"
    ensures Ext("core.py") == ".py"
  {
    assert "core"[0] != '.';
    assert "core" + "." + "pyc" == "core.pyc";
    ExtOfDotted("core", "pyc");
    assert "core" + "." + "py" == "core.py";
    ExtOfDotted("core", "py");
  }

  lemma ExtHiddenPyc()
    ensures Ext(".pyc") == []
  {
    var p := ".pyc";
    assert p[0] == '.' && p[1] != '.' && p[2] != '.' && p[3] != '.';
    assert LastIndex(p, '.') == 0;
    ExtLeadingDots(p);
  }

  /** A `dirs` or `files` argument of exactly `["*"]` stands for the whole
      kept listing; any other list is used as given. */
  function ExpandStar(names: seq<string>, all: seq<string>): (r: seq<string>)
    ensures names == ["*"] ==> r == all
    ensures names != ["*"] ==> r == names
  {
    if |names| == 1 && names[0] == "*" then all else names
  }

  /** A list that merely contains "*" is not expanded. */
  lemma StarAmongOthers(all: seq<string>)
    ensures ExpandStar(["*", "icons"], all) == ["*", "icons"]
    ensures ExpandStar(DirectoryList, all) == DirectoryList && ExpandStar(FileList, all) == FileList
  {
  }

  /** What happened to one entry: the messages the build prints. */
  datatype Step =
    | Copied(src: string, dst: string)
    | CopyFailed(src: string, dst: string)
    | MakeDirsFailed(parent: string)
    | Linked(link: string, src: string)
    | LinkFailed(link: string, src: string)

  /** Where entry `name` comes from or goes to: `dir + "/" + name`. */
  function Under(dir: string, name: string): string
  {
    dir + "/" + name
  }

  /** Copying the entries `names` one after the other: each attempt either
      copies or is reported as failed, and the next entry is tried in
      either case. `fails` says which destinations cannot be written; a
      tree copy (`tree`, `shutil.copytree`) also fails when its destination
      exists already, while a file copy (`shutil.copy`) overwrites it. */
  function CopyAll(names: seq<string>, sourceDir: string, destDir: string, fails: string -> bool, tree: bool,
                   copied: map<string, string>): (seq<Step>, map<string, string>)
  {
    if names == [] then ([], copied)
    else
      var (steps, c) := CopyAll(names[..|names| - 1], sourceDir, destDir, fails, tree, copied);
      var n := names[|names| - 1];
      var src, dst := Under(sourceDir, n), Under(destDir, n);
      if fails(dst) || (tree && dst in c) then (steps + [CopyFailed(src, dst)], c)
      else (steps + [Copied(src, dst)], c[dst := src])
  }

  /** Entry `name` is copied by the loop: its destination can be written
      and, for a tree, did not exist before the loop. */
  predicate CopyMade(name: string, destDir: string, fails: string -> bool, tree: bool, copied: map<string, string>)
  {
    !fails(Under(destDir, name)) && !(tree && Under(destDir, name) in copied)
  }

  /** Different entries go to different paths. */
  lemma UnderInjective(dir: string, a: string, b: string)
    requires Under(dir, a) == Under(dir, b)
    ensures a == b
  {
    assert a == Under(dir, a)[|dir| + 1..];
    assert b == Under(dir, b)[|dir| + 1..];
  }

  /** The destinations after the copy loop are exactly the old ones and
      those of the entries that are copied. */
  lemma {:induction false} CopyAllKeys(names: seq<string>, sourceDir: string, destDir: string,
                                       fails: string -> bool, tree: bool, copied: map<string, string>)
    ensures var c := CopyAll(names, sourceDir, destDir, fails, tree, copied).1;
      forall d :: d in c <==>
        d in copied || exists i :: 0 <= i < |names| && CopyMade(names[i], destDir, fails, tree, copied) && d == Under(destDir, names[i])
  {
    if names != [] {
      var front, n := names[..|names| - 1], names[|names| - 1];
      CopyAllKeys(front, sourceDir, destDir, fails, tree, copied);
      var c := CopyAll(front, sourceDir, destDir, fails, tree, copied).1;
      var c' := CopyAll(names, sourceDir, destDir, fails, tree, copied).1;
      forall d ensures d in c' <==>
        d in copied || exists i :: 0 <= i < |names| && CopyMade(names[i], destDir, fails, tree, copied) && d == Under(destDir, names[i])
      {
        if exists i :: 0 <= i < |names| && CopyMade(names[i], destDir, fails, tree, copied) && d == Under(destDir, names[i]) {
          var i :| 0 <= i < |names| && CopyMade(names[i], destDir, fails, tree, copied) && d == Under(destDir, names[i]);
          if i < |front| {
            assert front[i] == names[i];
          }
        }
        if d in c && d !in copied {
          var i :| 0 <= i < |front| && CopyMade(front[i], destDir, fails, tree, copied) && d == Under(destDir, front[i]);
          assert front[i] == names[i];
        }
        if d in c' && d !in c {
          assert names[|names| - 1] == n;
        }
      }
    }
  }

  /** Before the copy of entry `n`, its destination exists exactly when it
      did before the loop or an earlier copy of the same entry was made. */
  lemma CopyAtLast(front: seq<string>, n: string, sourceDir: string, destDir: string,
                   fails: string -> bool, tree: bool, copied: map<string, string>)
    ensures var c := CopyAll(front, sourceDir, destDir, fails, tree, copied).1;
      Under(destDir, n) in c <==> Under(destDir, n) in copied || (CopyMade(n, destDir, fails, tree, copied) && n in front)
  {
    CopyAllKeys(front, sourceDir, destDir, fails, tree, copied);
    var c := CopyAll(front, sourceDir, destDir, fails, tree, copied).1;
    var dst := Under(destDir, n);
    if dst in c && dst !in copied {
      var j :| 0 <= j < |front| && CopyMade(front[j], destDir, fails, tree, copied) && dst == Under(destDir, front[j]);
      UnderInjective(destDir, front[j], n);
    }
    if CopyMade(n, destDir, fails, tree, copied) && n in front {
      var j :| 0 <= j < |front| && front[j] == n;
    }
  }

  /** One step per entry, in order, about that entry only: a tree copy
      fails when its destination existed before the loop or the same entry
      came earlier; any copy fails when its destination cannot be
      written. */
  lemma {:induction false} CopyAllSteps(names: seq<string>, sourceDir: string, destDir: string,
                                        fails: string -> bool, tree: bool, copied: map<string, string>)
    ensures var steps := CopyAll(names, sourceDir, destDir, fails, tree, copied).0;
      && |steps| == |names|
      && (forall i :: 0 <= i < |names| ==>
            steps[i] == if fails(Under(destDir, names[i])) || (tree && (Under(destDir, names[i]) in copied || names[i] in names[..i]))
                        then CopyFailed(Under(sourceDir, names[i]), Under(destDir, names[i]))
                        else Copied(Under(sourceDir, names[i]), Under(destDir, names[i])))
  {
    if names != [] {
      var front, n := names[..|names| - 1], names[|names| - 1];
      CopyAllSteps(front, sourceDir, destDir, fails, tree, copied);
      CopyAtLast(front, n, sourceDir, destDir, fails, tree, copied);
      var steps := CopyAll(front, sourceDir, destDir, fails, tree, copied).0;
      var steps' := CopyAll(names, sourceDir, destDir, fails, tree, copied).0;
      forall i | 0 <= i < |names|
        ensures steps'[i] == if fails(Under(destDir, names[i])) || (tree && (Under(destDir, names[i]) in copied || names[i] in names[..i]))
                             then CopyFailed(Under(sourceDir, names[i]), Under(destDir, names[i]))
                             else Copied(Under(sourceDir, names[i]), Under(destDir, names[i]))
      {
        if i < |front| {
          assert front[i] == names[i] && steps'[i] == steps[i] && names[..i] == front[..i];
        } else {
          assert names[i] == n && names[..i] == front;
        }
      }
    }
  }

  /** Every entry that is copied ends up copied from the same name under
      the source directory. */
  lemma {:induction false} CopyAllMade(names: seq<string>, sourceDir: string, destDir: string,
                                       fails: string -> bool, tree: bool, copied: map<string, string>)
    ensures var c := CopyAll(names, sourceDir, destDir, fails, tree, copied).1;
      forall i :: 0 <= i < |names| && CopyMade(names[i], destDir, fails, tree, copied) ==>
        Under(destDir, names[i]) in c && c[Under(destDir, names[i])] == Under(sourceDir, names[i])
  {
    if names != [] {
      var front, n := names[..|names| - 1], names[|names| - 1];
      CopyAllMade(front, sourceDir, destDir, fails, tree, copied);
      CopyAtLast(front, n, sourceDir, destDir, fails, tree, copied);
      var c := CopyAll(front, sourceDir, destDir, fails, tree, copied).1;
      var c' := CopyAll(names, sourceDir, destDir, fails, tree, copied).1;
      forall i | 0 <= i < |names| && CopyMade(names[i], destDir, fails, tree, copied)
        ensures Under(destDir, names[i]) in c' && c'[Under(destDir, names[i])] == Under(sourceDir, names[i])
      {
        if i < |front| {
          assert front[i] == names[i];
          if Under(destDir, names[i]) == Under(destDir, n) {
            UnderInjective(destDir, names[i], n);
          }
        } else if tree && Under(destDir, n) in c {
          assert names[i] == n;
          var j :| 0 <= j < |front| && front[j] == n;
        }
      }
    }
  }

  /** Every old copy that no entry copies over keeps its source; a tree
      copy never copies over an old one. */
  lemma {:induction false} CopyAllKept(names: seq<string>, sourceDir: string, destDir: string,
                                       fails: string -> bool, tree: bool, copied: map<string, string>)
    ensures var c := CopyAll(names, sourceDir, destDir, fails, tree, copied).1;
      forall d :: d in copied && (forall i :: 0 <= i < |names| && CopyMade(names[i], destDir, fails, tree, copied) ==> d != Under(destDir, names[i])) ==>
        d in c && c[d] == copied[d]
  {
    if names != [] {
      var front, n := names[..|names| - 1], names[|names| - 1];
      CopyAllKept(front, sourceDir, destDir, fails, tree, copied);
      CopyAtLast(front, n, sourceDir, destDir, fails, tree, copied);
      var c' := CopyAll(names, sourceDir, destDir, fails, tree, copied).1;
      forall d | d in copied && (forall i :: 0 <= i < |names| && CopyMade(names[i], destDir, fails, tree, copied) ==> d != Under(destDir, names[i]))
        ensures d in c' && c'[d] == copied[d]
      {
        forall i | 0 <= i < |front| && CopyMade(front[i], destDir, fails, tree, copied) ensures d != Under(destDir, front[i]) {
          assert front[i] == names[i];
        }
        assert names[|names| - 1] == n;
      }
    }
  }

  /** Best effort for copies, all together: the steps, exactly which
      destinations there are, where each copy made comes from, and that
      old copies survive; a tree copy never replaces one. */
  lemma CopyAllBestEffort(names: seq<string>, sourceDir: string, destDir: string,
                          fails: string -> bool, tree: bool, copied: map<string, string>)
    ensures var (steps, c) := CopyAll(names, sourceDir, destDir, fails, tree, copied);
      && |steps| == |names|
      && (forall i :: 0 <= i < |names| ==>
            steps[i] == if fails(Under(destDir, names[i])) || (tree && (Under(destDir, names[i]) in copied || names[i] in names[..i]))
                        then CopyFailed(Under(sourceDir, names[i]), Under(destDir, names[i]))
                        else Copied(Under(sourceDir, names[i]), Under(destDir, names[i])))
      && (forall d :: d in c <==>
            d in copied || exists i :: 0 <= i < |names| && CopyMade(names[i], destDir, fails, tree, copied) && d == Under(destDir, names[i]))
      && (forall i :: 0 <= i < |names| && CopyMade(names[i], destDir, fails, tree, copied) ==>
            Under(destDir, names[i]) in c && c[Under(destDir, names[i])] == Under(sourceDir, names[i]))
      && (forall d :: d in copied && (forall i :: 0 <= i < |names| && CopyMade(names[i], destDir, fails, tree, copied) ==> d != Under(destDir, names[i])) ==>
            d in c && c[d] == copied[d])
      && (tree ==> forall d :: d in copied ==> d in c && c[d] == copied[d])
  {
    CopyAllSteps(names, sourceDir, destDir, fails, tree, copied);
    CopyAllKeys(names, sourceDir, destDir, fails, tree, copied);
    CopyAllMade(names, sourceDir, destDir, fails, tree, copied);
    CopyAllKept(names, sourceDir, destDir, fails, tree, copied);
  }

  /** Linking one entry: the parent of the link is made first when it is
      not a directory yet; failing that is reported. `os.symlink` then
      fails on a path that is a link already, or when `fails` says so. */
  function LinkOne(name: string, sourceDir: string, destDir: string, fails: string -> bool,
                   dirs: set<string>, links: map<string, string>): (Step, set<string>, map<string, string>)
  {
    var src, link := Under(sourceDir, name), Under(destDir, name);
    var parent := Dirname(link);
    if parent !in dirs && fails(parent) then (MakeDirsFailed(parent), dirs, links)
    else if link in links || fails(link) then (LinkFailed(link, src), dirs + {parent}, links)
    else (Linked(link, src), dirs + {parent}, links[link := src])
  }

  /** Linking the entries `names` one after the other; whatever happens to
      one entry, the next is tried. */
  function LinkAll(names: seq<string>, sourceDir: string, destDir: string, fails: string -> bool,
                   dirs: set<string>, links: map<string, string>): (seq<Step>, set<string>, map<string, string>)
  {
    if names == [] then ([], dirs, links)
    else
      var (steps, ds, ls) := LinkAll(names[..|names| - 1], sourceDir, destDir, fails, dirs, links);
      var (step, ds', ls') := LinkOne(names[|names| - 1], sourceDir, destDir, fails, ds, ls);
      (steps + [step], ds', ls')
  }

  /** The parent directory `symlink` makes sure of for entry `name`. */
  function Parent(destDir: string, name: string): string
  {
    Dirname(Under(destDir, name))
  }

  /** Entry `name` gets its link from the loop: its parent exists or can
      be made, the link does not fail, and it was not a link before the
      loop. */
  predicate LinkMade(name: string, destDir: string, fails: string -> bool, dirs: set<string>, links: map<string, string>)
  {
    && !(Parent(destDir, name) !in dirs && fails(Parent(destDir, name)))
    && !fails(Under(destDir, name))
    && Under(destDir, name) !in links
  }

  /** The last try of the link loop, on the directories and links the
      earlier tries left. */
  lemma LinkAllLast(names: seq<string>, sourceDir: string, destDir: string,
                    fails: string -> bool, dirs: set<string>, links: map<string, string>)
    requires names != []
    ensures var r := LinkAll(names[..|names| - 1], sourceDir, destDir, fails, dirs, links);
      var n := names[|names| - 1];
      var p, link := Parent(destDir, n), Under(destDir, n);
      && LinkAll(names, sourceDir, destDir, fails, dirs, links).1 == (if p !in r.1 && fails(p) then r.1 else r.1 + {p})
      && LinkAll(names, sourceDir, destDir, fails, dirs, links).2 ==
           (if (p !in r.1 && fails(p)) || link in r.2 || fails(link) then r.2 else r.2[link := Under(sourceDir, n)])
  {
  }

  /** The directories gained by the loop are exactly the parents that
      could be made. */
  lemma {:induction false} LinkAllDirs(names: seq<string>, sourceDir: string, destDir: string,
                                       fails: string -> bool, dirs: set<string>, links: map<string, string>)
    ensures var ds := LinkAll(names, sourceDir, destDir, fails, dirs, links).1;
      forall p :: p in ds <==> p in dirs || exists i :: 0 <= i < |names| && p == Parent(destDir, names[i]) && !fails(p)
  {
    if names != [] {
      var front, n := names[..|names| - 1], names[|names| - 1];
      assert names == front + [n];
      LinkAllDirs(front, sourceDir, destDir, fails, dirs, links);
      LinkAllLast(names, sourceDir, destDir, fails, dirs, links);
      DirsSnoc(names, front, n, destDir, fails, dirs,
               LinkAll(front, sourceDir, destDir, fails, dirs, links).1,
               LinkAll(names, sourceDir, destDir, fails, dirs, links).1);
    }
  }

  /** One more entry adds its parent to the directories exactly when the
      parent is there or can be made. */
  lemma DirsSnoc(names: seq<string>, front: seq<string>, n: string, destDir: string, fails: string -> bool,
                 dirs: set<string>, ds: set<string>, ds': set<string>)
    requires names == front + [n]
    requires forall p :: p in ds <==> p in dirs || exists i :: 0 <= i < |front| && p == Parent(destDir, front[i]) && !fails(p)
    requires ds' == if Parent(destDir, n) !in ds && fails(Parent(destDir, n)) then ds else ds + {Parent(destDir, n)}
    ensures forall p :: p in ds' <==> p in dirs || exists i :: 0 <= i < |names| && p == Parent(destDir, names[i]) && !fails(p)
  {
    forall q ensures q in ds' <==> q in dirs || exists i :: 0 <= i < |names| && q == Parent(destDir, names[i]) && !fails(q) {
      if exists i :: 0 <= i < |names| && q == Parent(destDir, names[i]) && !fails(q) {
        var i :| 0 <= i < |names| && q == Parent(destDir, names[i]) && !fails(q);
        if i < |front| {
          assert front[i] == names[i];
        }
      }
      if q in ds && q !in dirs {
        var i :| 0 <= i < |front| && q == Parent(destDir, front[i]) && !fails(q);
        assert front[i] == names[i];
      }
      if q == Parent(destDir, n) && !fails(q) {
        assert names[|front|] == n;
      }
    }
  }

  /** The links after the loop are exactly the old ones and those of the
      entries that get their link. */
  lemma {:induction false} LinkAllOnly(names: seq<string>, sourceDir: string, destDir: string,
                                       fails: string -> bool, dirs: set<string>, links: map<string, string>)
    ensures var ls := LinkAll(names, sourceDir, destDir, fails, dirs, links).2;
      forall l :: l in ls <==>
        l in links || exists i :: 0 <= i < |names| && LinkMade(names[i], destDir, fails, dirs, links) && l == Under(destDir, names[i])
  {
    if names != [] {
      var front, n := names[..|names| - 1], names[|names| - 1];
      assert names == front + [n];
      LinkAllOnly(front, sourceDir, destDir, fails, dirs, links);
      LinkAllDirs(front, sourceDir, destDir, fails, dirs, links);
      LinkAllLast(names, sourceDir, destDir, fails, dirs, links);
      LinksSnoc(names, front, n, sourceDir, destDir, fails, dirs, links,
                LinkAll(front, sourceDir, destDir, fails, dirs, links).1,
                LinkAll(front, sourceDir, destDir, fails, dirs, links).2,
                LinkAll(names, sourceDir, destDir, fails, dirs, links).2);
    }
  }

  /** One more entry adds its link exactly when that entry gets its link. */
  lemma LinksSnoc(names: seq<string>, front: seq<string>, n: string, sourceDir: string, destDir: string,
                  fails: string -> bool, dirs: set<string>, links: map<string, string>,
                  ds: set<string>, ls: map<string, string>, ls': map<string, string>)
    requires names == front + [n]
    requires forall p :: p in ds <==> p in dirs || exists i :: 0 <= i < |front| && p == Parent(destDir, front[i]) && !fails(p)
    requires forall l :: l in ls <==>
      l in links || exists i :: 0 <= i < |front| && LinkMade(front[i], destDir, fails, dirs, links) && l == Under(destDir, front[i])
    requires ls' == if (Parent(destDir, n) !in ds && fails(Parent(destDir, n))) || Under(destDir, n) in ls || fails(Under(destDir, n))
                    then ls else ls[Under(destDir, n) := Under(sourceDir, n)]
    ensures forall l :: l in ls' <==>
      l in links || exists i :: 0 <= i < |names| && LinkMade(names[i], destDir, fails, dirs, links) && l == Under(destDir, names[i])
  {
    var p := Parent(destDir, n);
    assert (p !in ds && fails(p)) <==> (p !in dirs && fails(p)) by {
      if p in ds && p !in dirs {
        var i :| 0 <= i < |front| && p == Parent(destDir, front[i]) && !fails(p);
      }
    }
    forall l ensures l in ls' <==>
      l in links || exists i :: 0 <= i < |names| && LinkMade(names[i], destDir, fails, dirs, links) && l == Under(destDir, names[i])
    {
      if exists i :: 0 <= i < |names| && LinkMade(names[i], destDir, fails, dirs, links) && l == Under(destDir, names[i]) {
        var i :| 0 <= i < |names| && LinkMade(names[i], destDir, fails, dirs, links) && l == Under(destDir, names[i]);
        if i < |front| {
          assert front[i] == names[i];
        } else {
          assert names[i] == n;
        }
      }
      if l in ls && l !in links {
        var i :| 0 <= i < |front| && LinkMade(front[i], destDir, fails, dirs, links) && l == Under(destDir, front[i]);
        assert front[i] == names[i];
      }
      if l in ls' && l !in ls {
        assert LinkMade(names[|front|], destDir, fails, dirs, links) && l == Under(destDir, names[|front|]);
      }
    }
  }

  /** Before entry `n` is tried, its parent fails exactly as it would have
      before the loop, and its link exists exactly when it did before the
      loop or an earlier try of the same entry made it. */
  lemma LinkAtLast(front: seq<string>, n: string, sourceDir: string, destDir: string,
                   fails: string -> bool, dirs: set<string>, links: map<string, string>)
    ensures var (_, ds, ls) := LinkAll(front, sourceDir, destDir, fails, dirs, links);
      && ((Parent(destDir, n) !in ds && fails(Parent(destDir, n))) <==> (Parent(destDir, n) !in dirs && fails(Parent(destDir, n))))
      && (Under(destDir, n) in ls <==> Under(destDir, n) in links || (LinkMade(n, destDir, fails, dirs, links) && n in front))
  {
    LinkAllDirs(front, sourceDir, destDir, fails, dirs, links);
    LinkAllOnly(front, sourceDir, destDir, fails, dirs, links);
    var (_, ds, ls) := LinkAll(front, sourceDir, destDir, fails, dirs, links);
    var p, link := Parent(destDir, n), Under(destDir, n);
    if p in ds && p !in dirs {
      var i :| 0 <= i < |front| && p == Parent(destDir, front[i]) && !fails(p);
    }
    if link in ls && link !in links {
      var j :| 0 <= j < |front| && LinkMade(front[j], destDir, fails, dirs, links) && link == Under(destDir, front[j]);
      UnderInjective(destDir, front[j], n);
    }
    if LinkMade(n, destDir, fails, dirs, links) && n in front {
      var j :| 0 <= j < |front| && front[j] == n;
    }
  }

  /** One step per entry, in order, decided by that entry, the directories
      and links there were at the start, and whether the same entry came
      earlier: a missing parent that cannot be made, a failed link, or the
      link made. */
  lemma {:induction false} LinkAllSteps(names: seq<string>, sourceDir: string, destDir: string,
                                        fails: string -> bool, dirs: set<string>, links: map<string, string>)
    ensures var steps := LinkAll(names, sourceDir, destDir, fails, dirs, links).0;
      && |steps| == |names|
      && (forall i :: 0 <= i < |names| ==>
            steps[i] == if Parent(destDir, names[i]) !in dirs && fails(Parent(destDir, names[i])) then MakeDirsFailed(Parent(destDir, names[i]))
                        else if fails(Under(destDir, names[i])) || Under(destDir, names[i]) in links || names[i] in names[..i]
                        then LinkFailed(Under(destDir, names[i]), Under(sourceDir, names[i]))
                        else Linked(Under(destDir, names[i]), Under(sourceDir, names[i])))
  {
    if names != [] {
      var front, n := names[..|names| - 1], names[|names| - 1];
      LinkAllSteps(front, sourceDir, destDir, fails, dirs, links);
      LinkAtLast(front, n, sourceDir, destDir, fails, dirs, links);
      var steps := LinkAll(front, sourceDir, destDir, fails, dirs, links).0;
      var steps' := LinkAll(names, sourceDir, destDir, fails, dirs, links).0;
      forall i | 0 <= i < |names|
        ensures steps'[i] == if Parent(destDir, names[i]) !in dirs && fails(Parent(destDir, names[i])) then MakeDirsFailed(Parent(destDir, names[i]))
                             else if fails(Under(destDir, names[i])) || Under(destDir, names[i]) in links || names[i] in names[..i]
                             then LinkFailed(Under(destDir, names[i]), Under(sourceDir, names[i]))
                             else Linked(Under(destDir, names[i]), Under(sourceDir, names[i]))
      {
        if i < |front| {
          assert front[i] == names[i] && steps'[i] == steps[i] && names[..i] == front[..i];
        } else {
          assert names[i] == n && names[..i] == front;
        }
      }
    }
  }

  /** Every entry that gets its link points at the same name under the
      source directory. */
  lemma {:induction false} LinkAllMade(names: seq<string>, sourceDir: string, destDir: string,
                                       fails: string -> bool, dirs: set<string>, links: map<string, string>)
    ensures var ls := LinkAll(names, sourceDir, destDir, fails, dirs, links).2;
      forall i :: 0 <= i < |names| && LinkMade(names[i], destDir, fails, dirs, links) ==>
        Under(destDir, names[i]) in ls && ls[Under(destDir, names[i])] == Under(sourceDir, names[i])
  {
    if names != [] {
      var front, n := names[..|names| - 1], names[|names| - 1];
      LinkAllMade(front, sourceDir, destDir, fails, dirs, links);
      LinkAtLast(front, n, sourceDir, destDir, fails, dirs, links);
      var ls := LinkAll(front, sourceDir, destDir, fails, dirs, links).2;
      var ls' := LinkAll(names, sourceDir, destDir, fails, dirs, links).2;
      forall i | 0 <= i < |names| && LinkMade(names[i], destDir, fails, dirs, links)
        ensures Under(destDir, names[i]) in ls' && ls'[Under(destDir, names[i])] == Under(sourceDir, names[i])
      {
        if i < |front| {
          assert front[i] == names[i];
          if Under(destDir, names[i]) == Under(destDir, n) {
            UnderInjective(destDir, names[i], n);
          }
        } else if Under(destDir, n) in ls {
          assert names[i] == n;
          var j :| 0 <= j < |front| && front[j] == n;
        }
      }
    }
  }

  /** Every old link keeps its target: `os.symlink` never replaces a
      link. */
  lemma {:induction false} LinkAllKept(names: seq<string>, sourceDir: string, destDir: string,
                                       fails: string -> bool, dirs: set<string>, links: map<string, string>)
    ensures var ls := LinkAll(names, sourceDir, destDir, fails, dirs, links).2;
      forall l :: l in links ==> l in ls && ls[l] == links[l]
  {
    if names != [] {
      var front := names[..|names| - 1];
      LinkAllKept(front, sourceDir, destDir, fails, dirs, links);
      LinkAllOnly(front, sourceDir, destDir, fails, dirs, links);
    }
  }

  /** Best effort for links, all together: the steps, the directories,
      exactly which links there are, where each new one points, and that
      old links survive unchanged. */
  lemma LinkAllBestEffort(names: seq<string>, sourceDir: string, destDir: string,
                          fails: string -> bool, dirs: set<string>, links: map<string, string>)
    ensures var (steps, ds, ls) := LinkAll(names, sourceDir, destDir, fails, dirs, links);
      && |steps| == |names|
      && (forall i :: 0 <= i < |names| ==>
            steps[i] == if Parent(destDir, names[i]) !in dirs && fails(Parent(destDir, names[i])) then MakeDirsFailed(Parent(destDir, names[i]))
                        else if fails(Under(destDir, names[i])) || Under(destDir, names[i]) in links || names[i] in names[..i]
                        then LinkFailed(Under(destDir, names[i]), Under(sourceDir, names[i]))
                        else Linked(Under(destDir, names[i]), Under(sourceDir, names[i])))
      && (forall p :: p in ds <==> p in dirs || exists i :: 0 <= i < |names| && p == Parent(destDir, names[i]) && !fails(p))
      && (forall l :: l in ls <==>
            l in links || exists i :: 0 <= i < |names| && LinkMade(names[i], destDir, fails, dirs, links) && l == Under(destDir, names[i]))
      && (forall i :: 0 <= i < |names| && LinkMade(names[i], destDir, fails, dirs, links) ==>
            Under(destDir, names[i]) in ls && ls[Under(destDir, names[i])] == Under(sourceDir, names[i]))
      && (forall l :: l in links ==> l in ls && ls[l] == links[l])
  {
    LinkAllSteps(names, sourceDir, destDir, fails, dirs, links);
    LinkAllDirs(names, sourceDir, destDir, fails, dirs, links);
    LinkAllOnly(names, sourceDir, destDir, fails, dirs, links);
    LinkAllMade(names, sourceDir, destDir, fails, dirs, links);
    LinkAllKept(names, sourceDir, destDir, fails, dirs, links);
  }

  /** The parent `symlink` checks for an entry of a destination directory
      without a trailing '/' is that directory itself. */
  lemma LinkParent(destDir: string, name: string)
    requires |destDir| > 0 && destDir[|destDir| - 1] != '/' && '/' !in name
    ensures Parent(destDir, name) == destDir
  {
    DirnameOfChild(destDir, name);
  }

  /** The install tree the build writes to: copies (destination to
      source), links (link to target) and the directories known to
      exist. */
  class Destination {
    var copied: map<string, string>
    var links: map<string, string>
    var dirs: set<string>

    constructor(dirs: set<string>)
      ensures copied == map[] && links == map[] && this.dirs == dirs
    {
      copied, links, this.dirs := map[], map[], dirs;
    }

    /** `copy_dirs_and_files`: expand a `["*"]` argument, then copy the
        directories and then the files, each on a best-effort basis. */
    method CopyDirsAndFiles(dirs: seq<string>, files: seq<string>, sourceDir: string, destDir: string,
                            listing: seq<string>, isDir: string -> bool, isFile: string -> bool, fails: string -> bool)
      returns (steps: seq<Step>)
      modifies this`copied
      ensures var ds := ExpandStar(dirs, Filter(listing, DirKeeper(sourceDir, isDir)));
        var fs := ExpandStar(files, Filter(listing, FileKeeper(sourceDir, isFile)));
        var (s1, c1) := CopyAll(ds, sourceDir, destDir, fails, true, old(copied));
        var (s2, c2) := CopyAll(fs, sourceDir, destDir, fails, false, c1);
        steps == s1 + s2 && copied == c2
    {
      var ds, fs := dirs, files;
      if |ds| == 1 && ds[0] == "*" {
        ds := GetAllDirs(sourceDir, listing, isDir);
      }
      if |fs| == 1 && fs[0] == "*" {
        fs := GetAllFiles(sourceDir, listing, isFile);
      }
      var s1 := CopyEach(ds, sourceDir, destDir, fails, true);
      var s2 := CopyEach(fs, sourceDir, destDir, fails, false);
      steps := s1 + s2;
    }

    /** One copy loop, of trees (`copytree`) or of files (`copy`): every
        entry is tried, a failure is reported and the loop goes on. */
    method CopyEach(names: seq<string>, sourceDir: string, destDir: string, fails: string -> bool, tree: bool)
      returns (steps: seq<Step>)
      modifies this`copied
      ensures (steps, copied) == CopyAll(names, sourceDir, destDir, fails, tree, old(copied))
    {
      steps := [];
      for i := 0 to |names|
        invariant (steps, copied) == CopyAll(names[..i], sourceDir, destDir, fails, tree, old(copied))
      {
        assert names[..i + 1][..i] == names[..i];
        var src := Under(sourceDir, names[i]);
        var dst := Under(destDir, names[i]);
        if fails(dst) || (tree && dst in copied) {
          steps := steps + [CopyFailed(src, dst)];
        } else {
          copied := copied[dst := src];
          steps := steps + [Copied(src, dst)];
        }
      }
      assert names[..|names|] == names;
    }

    /** `symlink`: expand a `["*"]` argument, then link the directories
        and then the files, each on a best-effort basis. */
    method Symlink(dirs: seq<string>, files: seq<string>, sourceDir: string, destDir: string,
                   listing: seq<string>, isDir: string -> bool, isFile: string -> bool, fails: string -> bool)
      returns (steps: seq<Step>)
      modifies this`links, this`dirs
      ensures var ds := ExpandStar(dirs, Filter(listing, DirKeeper(sourceDir, isDir)));
        var fs := ExpandStar(files, Filter(listing, FileKeeper(sourceDir, isFile)));
        var (s1, d1, l1) := LinkAll(ds, sourceDir, destDir, fails, old(this.dirs), old(links));
        var (s2, d2, l2) := LinkAll(fs, sourceDir, destDir, fails, d1, l1);
        steps == s1 + s2 && this.dirs == d2 && links == l2
    {
      var ds, fs := dirs, files;
      if |ds| == 1 && ds[0] == "*" {
        ds := GetAllDirs(sourceDir, listing, isDir);
      }
      if |fs| == 1 && fs[0] == "*" {
        fs := GetAllFiles(sourceDir, listing, isFile);
      }
      var s1 := LinkEach(ds, sourceDir, destDir, fails);
      var s2 := LinkEach(fs, sourceDir, destDir, fails);
      steps := s1 + s2;
    }

    /** One link loop. */
    method LinkEach(names: seq<string>, sourceDir: string, destDir: string, fails: string -> bool)
      returns (steps: seq<Step>)
      modifies this`links, this`dirs
      ensures (steps, dirs, links) == LinkAll(names, sourceDir, destDir, fails, old(dirs), old(links))
    {
      steps := [];
      for i := 0 to |names|
        invariant (steps, dirs, links) == LinkAll(names[..i], sourceDir, destDir, fails, old(dirs), old(links))
      {
        assert names[..i + 1][..i] == names[..i];
        var src := Under(sourceDir, names[i]);
        var link := Under(destDir, names[i]);
        var parent := Dirname(link);
        if parent !in dirs {
          if fails(parent) {
            steps := steps + [MakeDirsFailed(parent)];
            continue;
          }
        }
        dirs := dirs + {parent};
        if link in links || fails(link) {
          steps := steps + [LinkFailed(link, src)];
        } else {
          links := links[link := src];
          steps := steps + [Linked(link, src)];
        }
      }
      assert names[..|names|] == names;
    }
  }

  datatype Mode = Copy | Link

  /** The outcome of reading the environment: a KeyError names the
      variable that is missing. */
  datatype Plan = Plan(mode: Mode, sourceDir: string, destDir: string) | KeyError(name: string)

  /** The decision of the script's main block: the source and install
      paths are read first, then the build type; only a local build asked
      for symlinks links, everything else copies. */
  function BuildPlan(env: map<string, string>): (p: Plan)
    ensures p.KeyError? <==>
      "REZ_BUILD_SOURCE_PATH" !in env || "REZ_BUILD_INSTALL_PATH" !in env || "REZ_BUILD_TYPE" !in env
  {
    if "REZ_BUILD_SOURCE_PATH" !in env then KeyError("REZ_BUILD_SOURCE_PATH")
    else if "REZ_BUILD_INSTALL_PATH" !in env then KeyError("REZ_BUILD_INSTALL_PATH")
    else if "REZ_BUILD_TYPE" !in env then KeyError("REZ_BUILD_TYPE")
    else
      var mode :=
        if env["REZ_BUILD_TYPE"] == "local" then
          if "__PARSE_ARG_SYMLINK" in env && Str2Bool(env["__PARSE_ARG_SYMLINK"]) then Link else Copy
        else Copy;
      Plan(mode, env["REZ_BUILD_SOURCE_PATH"], env["REZ_BUILD_INSTALL_PATH"])
  }

  /** The build links exactly when it is local and the symlink argument
      is present and true, in any letter case; the paths come straight
      from the environment. */
  lemma BuildPlanLinks(env: map<string, string>)
    requires "REZ_BUILD_SOURCE_PATH" in env && "REZ_BUILD_INSTALL_PATH" in env && "REZ_BUILD_TYPE" in env
    ensures BuildPlan(env).Plan?
    ensures BuildPlan(env).mode == Link <==>
      env["REZ_BUILD_TYPE"] == "local" && "__PARSE_ARG_SYMLINK" in env &&
      Lower(env["__PARSE_ARG_SYMLINK"]) in TrueWords
    ensures BuildPlan(env).sourceDir == env["REZ_BUILD_SOURCE_PATH"]
    ensures BuildPlan(env).destDir == env["REZ_BUILD_INSTALL_PATH"]
  {
    if "__PARSE_ARG_SYMLINK" in env {
      Str2BoolTrueWords(env["__PARSE_ARG_SYMLINK"]);
    }
  }

  /** The main block after clearing the destination: link or copy the
      fixed directory and file lists. A KeyError stops it before anything
      is installed. */
  method Build(env: map<string, string>, out: Destination,
               listing: seq<string>, isDir: string -> bool, isFile: string -> bool, fails: string -> bool)
    returns (plan: Plan, steps: seq<Step>)
    modifies out
    ensures plan == BuildPlan(env)
    ensures plan.KeyError? ==> steps == [] && out.copied == old(out.copied) && out.links == old(out.links) && out.dirs == old(out.dirs)
    ensures plan.Plan? && plan.mode == Copy ==>
      var (s1, c1) := CopyAll(DirectoryList, plan.sourceDir, plan.destDir, fails, true, old(out.copied));
      var (s2, c2) := CopyAll(FileList, plan.sourceDir, plan.destDir, fails, false, c1);
      steps == s1 + s2 && out.copied == c2 && out.links == old(out.links) && out.dirs == old(out.dirs)
    ensures plan.Plan? && plan.mode == Link ==>
      var (s1, d1, l1) := LinkAll(DirectoryList, plan.sourceDir, plan.destDir, fails, old(out.dirs), old(out.links));
      var (s2, d2, l2) := LinkAll(FileList, plan.sourceDir, plan.destDir, fails, d1, l1);
      steps == s1 + s2 && out.links == l2 && out.dirs == d2 && out.copied == old(out.copied)
  {
    plan := BuildPlan(env);
    steps := [];
    if plan.KeyError? {
      return;
    }
    StarAmongOthers(listing);
    if plan.mode == Link {
      steps := out.Symlink(DirectoryList, FileList, plan.sourceDir, plan.destDir, listing, isDir, isFile, fails);
    } else {
      steps := out.CopyDirsAndFiles(DirectoryList, FileList, plan.sourceDir, plan.destDir, listing, isDir, isFile, fails);
    }
  }
}
