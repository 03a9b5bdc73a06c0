/** What the two installers of timeWarp share: the `.mod` file's text and
    location, the search for an installed module, and the host they work
    on (environment variables and a file system whose failures are
    oracles). */
module ModFile {
  import opened Lists
  import opened Strings

  const ModFileName: string := "timeWarp.mod"
  const Placeholder: string := "ABAB"
  const TemplateHead: string := "+ timeWarp 1.0 "
  const TemplateTail: string := "/timeWarp\nscripts: ./scripts"

  /** The module description with a placeholder for the scripts path. */
  function Template(): string
  {
    TemplateHead + Placeholder + TemplateTail
  }

  /** The `.mod` text: the template with its placeholder replaced. */
  function ModText(scriptsPath: string): string
  {
    ReplaceAll(Template(), Placeholder, scriptsPath)
  }

  /** The placeholder occurs once, so the text is the module line for the
      given scripts path followed by the scripts entry, whatever the path
      holds (even the placeholder itself). */
  lemma ModTextIs(scriptsPath: string)
    ensures ModText(scriptsPath) == "+ timeWarp 1.0 " + scriptsPath + "/timeWarp\nscripts: ./scripts"
  {
    assert 'A' !in TemplateHead && 'A' !in TemplateTail;
    ReplacePlaceholder(TemplateHead, TemplateTail, Placeholder, scriptsPath);
  }

  /** Different scripts paths give different texts. */
  lemma ModTextInjective(p: string, q: string)
    requires ModText(p) == ModText(q)
    ensures p == q
  {
    ModTextIs(p);
    ModTextIs(q);
    var n := |TemplateHead|;
    assert |p| == |q|;
    assert p == ModText(p)[n..n + |p|];
  }

  /** Where the module file goes: `os.path.join(module_path, "timeWarp.mod")`. */
  function ModFilePath(modulePath: string): string
  {
    Join(modulePath, ModFileName)
  }

  /** The module file sits directly in the module directory, under its own
      name. */
  lemma ModFilePathShape(modulePath: string)
    ensures EndsWith(ModFilePath(modulePath), ModFileName)
    ensures |modulePath| > 0 && modulePath[|modulePath| - 1] != '/' ==>
      ModFilePath(modulePath) == modulePath + "/" + ModFileName
    ensures modulePath == [] ==> ModFilePath(modulePath) == ModFileName
  {
    JoinShape(modulePath, ModFileName);
  }

  /** The guard "the mod file name is in the path" always holds for the
      path the installers build. */
  lemma ModFilePathNamesModFile(modulePath: string)
    ensures Contains(ModFilePath(modulePath), ModFileName)
  {
    JoinContainsLast(modulePath, ModFileName);
  }

  /** The result of reading an environment variable that may be unset. */
  datatype Lookup = Found(path: string) | NotFound | AttributeError

  /** The entries of the module search path; none when it is unset. */
  function ModulePaths(env: map<string, string>): seq<string>
  {
    if "MAYA_MODULE_PATH" in env then Split(env["MAYA_MODULE_PATH"], ':') else []
  }

  /** Directory `dir` holds the mod file. */
  predicate HoldsModFile(hasFile: string -> bool, dir: string)
  {
    hasFile(ModFilePath(dir))
  }

  /** Entry `i` is the first of `entries` whose directory holds the mod
      file. */
  predicate FirstWithModFile(entries: seq<string>, hasFile: string -> bool, i: int)
  {
    && 0 <= i < |entries| && HoldsModFile(hasFile, entries[i])
    && forall j :: 0 <= j < i ==> !HoldsModFile(hasFile, entries[j])
  }

  /** `installed_mod_path`: the first entry of the `:`-separated module
      path whose directory holds the mod file; nothing when none does. An
      unset variable makes the split fail. `hasFile` answers the glob. */
  method InstalledModPath(env: map<string, string>, hasFile: string -> bool) returns (r: Lookup)
    ensures "MAYA_MODULE_PATH" !in env <==> r == AttributeError
    ensures r.Found? ==> exists i :: FirstWithModFile(ModulePaths(env), hasFile, i) && ModulePaths(env)[i] == r.path
    ensures r.NotFound? <==>
      "MAYA_MODULE_PATH" in env && forall j :: 0 <= j < |ModulePaths(env)| ==> !HoldsModFile(hasFile, ModulePaths(env)[j])
  {
    if "MAYA_MODULE_PATH" !in env {
      return AttributeError;
    }
    var entries := ModulePaths(env);
    var i := FirstHolding(entries, hasFile);
    if i < |entries| {
      return Found(entries[i]);
    }
    return NotFound;
  }

  /** The scan of `installed_mod_path`: the index of the first entry whose
      directory holds the mod file, or the number of entries. */
  method FirstHolding(entries: seq<string>, hasFile: string -> bool) returns (i: nat)
    ensures i <= |entries|
    ensures i < |entries| ==> FirstWithModFile(entries, hasFile, i)
    ensures i == |entries| ==> forall j :: 0 <= j < |entries| ==> !HoldsModFile(hasFile, entries[j])
  {
    i := 0;
    while i < |entries|
      invariant i <= |entries|
      invariant forall j :: 0 <= j < i ==> !HoldsModFile(hasFile, entries[j])
    {
      if HoldsModFile(hasFile, entries[i]) {
        return;
      }
      i := i + 1;
    }
  }

  /** The machine the installers run on. `dirs` and `files` (path to
      contents) are what exists; `cannotCreate` and `cannotRemove` say
      which directories cannot be made and which paths cannot be
      removed. */
  class Host {
    var env: map<string, string>
    var dirs: set<string>
    var files: map<string, string>
    const cannotCreate: string -> bool
    const cannotRemove: string -> bool

    constructor(env: map<string, string>, dirs: set<string>, files: map<string, string>,
                cannotCreate: string -> bool, cannotRemove: string -> bool)
      ensures this.env == env && this.dirs == dirs && this.files == files
      ensures this.cannotCreate == cannotCreate && this.cannotRemove == cannotRemove
    {
      this.env, this.dirs, this.files := env, dirs, files;
      this.cannotCreate, this.cannotRemove := cannotCreate, cannotRemove;
    }
  }

  /** `os.environ[name] += ":" + value`. */
  function Appended(env: map<string, string>, name: string, value: string): map<string, string>
    requires name in env
  {
    env[name := env[name] + ":" + value]
  }

  /** What stays of a file tree once `root` and everything below it is
      removed. */
  function Outside(paths: set<string>, root: string): (r: set<string>)
    ensures r <= paths && root !in r
    ensures forall p :: p in r ==> !(|root| + 1 <= |p| && p[..|root| + 1] == root + "/")
    ensures forall p :: p in paths && p != root && !(|root| + 1 <= |p| && p[..|root| + 1] == root + "/") ==> p in r
  {
    set p | p in paths && p != root && !(|root| + 1 <= |p| && p[..|root| + 1] == root + "/")
  }
}

/** The installer of scripts/install.py. */
module ScriptsInstall {
  import opened Lists
  import opened Strings
  import opened ModFile

  /** `build_mod_file` answers with False, the written file's path, or a
      KeyError when the plug-in path variable is unset. */
  datatype BuildResult = Failed | Written(path: string) | KeyError(name: string)

  /** `build_mod_file`: first appends the mod file's path to the plug-in
      path (before any check, so also when it then fails); fails when the
      module directory is missing and cannot be made, or when an existing
      mod file cannot be removed; otherwise writes the text and answers
      with the file's path. */
  method BuildModFile(host: Host, modulePath: string, scriptsPath: string) returns (r: BuildResult)
    modifies host
    ensures "MAYA_PLUG_IN_PATH" !in old(host.env) ==>
      r == KeyError("MAYA_PLUG_IN_PATH") && unchanged(host)
    ensures "MAYA_PLUG_IN_PATH" in old(host.env) ==>
      host.env == Appended(old(host.env), "MAYA_PLUG_IN_PATH", ModFilePath(modulePath))
    ensures var modFile := ModFilePath(modulePath);
      var dirFails := modulePath !in old(host.dirs) && host.cannotCreate(modulePath);
      var removeFails := modFile in old(host.files) && host.cannotRemove(modFile);
      "MAYA_PLUG_IN_PATH" in old(host.env) ==>
        && (r == Failed <==> dirFails || removeFails)
        && (r != Failed ==> r == Written(modFile))
        && host.dirs == (if dirFails then old(host.dirs) else old(host.dirs) + {modulePath})
        && host.files == (if r == Failed then old(host.files) else old(host.files)[modFile := ModText(scriptsPath)])
  {
    var modText := ModText(scriptsPath);
    var modFilePath := ModFilePath(modulePath);
    if "MAYA_PLUG_IN_PATH" !in host.env {
      return KeyError("MAYA_PLUG_IN_PATH");
    }
    host.env := Appended(host.env, "MAYA_PLUG_IN_PATH", modFilePath);
    if modulePath !in host.dirs {
      if host.cannotCreate(modulePath) {
        return Failed;
      }
      host.dirs := host.dirs + {modulePath};
    }
    ModFilePathNamesModFile(modulePath);
    if modFilePath in host.files && Contains(modFilePath, ModFileName) {
      if host.cannotRemove(modFilePath) {
        return Failed;
      }
      host.files := host.files - {modFilePath};
    }
    host.files := host.files[modFilePath := modText];
    return Written(modFilePath);
  }

  /** `transfer_scripts`: clears `<scripts>/timeWarp` when it exists and
      recreates it; answers with `<source>/plug-ins`, or with nothing when
      the old copy cannot be removed. `source` is the package's own
      location. */
  method TransferScripts(host: Host, scriptsPath: string, source: string) returns (pluginPath: Option<string>)
    modifies host`dirs, host`files
    ensures var dest := Join(scriptsPath, "timeWarp");
      if dest in old(host.dirs) && host.cannotRemove(dest) then
        pluginPath == None && host.dirs == old(host.dirs) && host.files == old(host.files)
      else
        && pluginPath == Some(Join(source, "plug-ins"))
        && host.dirs == (if dest in old(host.dirs) then Outside(old(host.dirs), dest) else old(host.dirs)) + {dest}
        && host.files == (if dest in old(host.dirs) then
                            map p | p in Outside(old(host.files).Keys, dest) :: old(host.files)[p]
                          else old(host.files))
  {
    var destination := Join(scriptsPath, "timeWarp");
    if destination in host.dirs {
      if host.cannotRemove(destination) {
        return None;
      }
      var keptFiles := Outside(host.files.Keys, destination);
      host.files := map p | p in keptFiles :: host.files[p];
      host.dirs := Outside(host.dirs, destination);
    }
    host.dirs := host.dirs + {destination};
    pluginPath := Some(Join(source, "plug-ins"));
  }

  /** The text Python makes of an optional path in `":{}".format(...)`. */
  function Shown(p: Option<string>): string
  {
    if p.Some? then p.value else "None"
  }

  /** `load_plugin`'s environment part: the plug-in directory is appended
      to the module path and then to the plug-in path. A missing variable
      raises a KeyError at its own step, after the steps before it. */
  method LoadPlugin(host: Host, pluginPath: Option<string>) returns (ok: bool)
    modifies host`env
    ensures ok <==> "MAYA_MODULE_PATH" in old(host.env) && "MAYA_PLUG_IN_PATH" in old(host.env)
    ensures "MAYA_MODULE_PATH" !in old(host.env) ==> host.env == old(host.env)
    ensures "MAYA_MODULE_PATH" in old(host.env) && "MAYA_PLUG_IN_PATH" !in old(host.env) ==>
      host.env == Appended(old(host.env), "MAYA_MODULE_PATH", Shown(pluginPath))
    ensures ok ==>
      host.env == Appended(Appended(old(host.env), "MAYA_MODULE_PATH", Shown(pluginPath)), "MAYA_PLUG_IN_PATH", Shown(pluginPath))
  {
    if "MAYA_MODULE_PATH" !in host.env {
      return false;
    }
    host.env := Appended(host.env, "MAYA_MODULE_PATH", Shown(pluginPath));
    if "MAYA_PLUG_IN_PATH" !in host.env {
      return false;
    }
    host.env := Appended(host.env, "MAYA_PLUG_IN_PATH", Shown(pluginPath));
    return true;
  }

  /** After a successful load both variables end with the plug-in
      directory, each after a ':'. */
  lemma LoadPluginAppends(env: map<string, string>, p: string)
    requires "MAYA_MODULE_PATH" in env && "MAYA_PLUG_IN_PATH" in env
    ensures var e := Appended(Appended(env, "MAYA_MODULE_PATH", p), "MAYA_PLUG_IN_PATH", p);
      && EndsWith(e["MAYA_MODULE_PATH"], ":" + p) && EndsWith(e["MAYA_PLUG_IN_PATH"], ":" + p)
      && e["MAYA_MODULE_PATH"][..|env["MAYA_MODULE_PATH"]|] == env["MAYA_MODULE_PATH"]
      && e["MAYA_PLUG_IN_PATH"][..|env["MAYA_PLUG_IN_PATH"]|] == env["MAYA_PLUG_IN_PATH"]
      && e.Keys == env.Keys
  {
    var e := Appended(Appended(env, "MAYA_MODULE_PATH", p), "MAYA_PLUG_IN_PATH", p);
    assert e["MAYA_MODULE_PATH"] == env["MAYA_MODULE_PATH"] + (":" + p);
    assert e["MAYA_PLUG_IN_PATH"] == env["MAYA_PLUG_IN_PATH"] + (":" + p);
  }
}

/** The installer of plug-ins/install.py. */
module PluginsInstall {
  import opened Strings
  import opened ModFile

  /** `build_mod_file` of the plug-in installer: the same checks as the
      scripts installer, but no environment change, and True instead of
      the path. */
  method BuildModFile(host: Host, modulePath: string, scriptsPath: string) returns (ok: bool)
    modifies host`dirs, host`files
    ensures var modFile := ModFilePath(modulePath);
      var dirFails := modulePath !in old(host.dirs) && host.cannotCreate(modulePath);
      var removeFails := modFile in old(host.files) && host.cannotRemove(modFile);
      && (!ok <==> dirFails || removeFails)
      && host.dirs == (if dirFails then old(host.dirs) else old(host.dirs) + {modulePath})
      && host.files == (if ok then old(host.files)[modFile := ModText(scriptsPath)] else old(host.files))
  {
    var modText := ModText(scriptsPath);
    var modFilePath := ModFilePath(modulePath);
    if modulePath !in host.dirs {
      if host.cannotCreate(modulePath) {
        return false;
      }
      host.dirs := host.dirs + {modulePath};
    }
    ModFilePathNamesModFile(modulePath);
    if modFilePath in host.files && Contains(modFilePath, ModFileName) {
      if host.cannotRemove(modFilePath) {
        return false;
      }
      host.files := host.files - {modFilePath};
    }
    host.files := host.files[modFilePath := modText];
    return true;
  }
}
