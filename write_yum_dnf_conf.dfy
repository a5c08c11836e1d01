/**
 * The rewriting `fs_image/rpm/write_yum_dnf_conf.py` applies to a repo
 * snapshot's `yum.conf` or `dnf.conf` so that the package manager talks to
 * local `repo-server` proxies: where the plugins and the config go, the
 * versionlock plugin's configuration, the new base and GPG key URLs of
 * every repo, and the `--repo-server-ports` argument.
 *
 * Reading and writing the INI file (`YumDnfConfParser`), creating the
 * files, and the side-loaded plugin code are not part of this model. A URL
 * is the triple of fields `urlunparse` puts back together.
 */
module WriteYumDnfConf {
  import opened Wrappers
  import opened Strings
  import opened PosixPath

  /** The package manager a snapshot is configured for. */
  datatype YumDnf = Yum | Dnf {
    /** `yum_dnf.value` */
    function Value(): string {
      match this
      case Yum => "yum"
      case Dnf => "dnf"
    }
  }

  /** `plugin_dir`: relative to the output and install directories. */
  function PluginDir(yumDnf: YumDnf): string {
    yumDnf.Value() + "/plugins"
  }

  /** `config_path`: relative like `PluginDir`. */
  function ConfigPath(yumDnf: YumDnf): string {
    yumDnf.Value() + "/" + yumDnf.Value() + ".conf"
  }

  /** The plugins sit in `<installer>/plugins`: two names, the installer's directory and `plugins`. */
  lemma PluginDirNames(yumDnf: YumDnf)
    ensures PluginDir(yumDnf) == PathJoin(yumDnf.Value(), "plugins")
    ensures Split(PluginDir(yumDnf), '/') == [yumDnf.Value(), "plugins"]
  {
    var v := yumDnf.Value();
    assert !StartsWith("plugins", "/") by { assert "plugins"[0] == 'p'; }
    assert !EndsWith(v, "/");
    assert '/' !in v && '/' !in "plugins";
    SplitJoin([v, "plugins"], '/');
    assert Join([v, "plugins"], "/") == PluginDir(yumDnf) by {
      assert Join(["plugins"], "/") == "plugins";
    }
  }

  /** The config is `<installer>/<installer>.conf`: in the same directory as the plugins. */
  lemma ConfigPathNames(yumDnf: YumDnf)
    ensures ConfigPath(yumDnf) == PathJoin(yumDnf.Value(), yumDnf.Value() + ".conf")
    ensures Split(ConfigPath(yumDnf), '/') == [yumDnf.Value(), yumDnf.Value() + ".conf"]
  {
    var v := yumDnf.Value();
    var file := v + ".conf";
    assert !StartsWith(file, "/") by { assert file[0] == v[0]; }
    assert !EndsWith(v, "/");
    assert '/' !in v && '/' !in file;
    SplitJoin([v, file], '/');
    assert Join([v, file], "/") == ConfigPath(yumDnf) by {
      assert Join([file], "/") == file;
    }
  }

  // ---------------------------------------------------------------------
  // populate_versionlock_conf

  /** A file the rewriting writes: where, and what. */
  datatype OutFile = OutFile(path: string, content: string)

  /** The text of `versionlock.conf`, whose lock list lives in `lockDir` inside the container. */
  function VersionlockConf(lockDir: string): string {
    "[main]\nenabled = 1\nlocklist = " + lockDir + "/" + LockList + "\n"
  }

  /** The name of the lock list file. */
  const LockList := "versionlock.list"

  /** `LockList` is one relative name. */
  lemma LockListIsName()
    ensures LockList != "" && LockList[0] != '/' && '/' !in LockList
  {
    assert LockList[0] == 'v';
  }

  /**
   * `populate_versionlock_conf`, as called by `write_yum_dnf_conf`: the
   * plugin configuration and an empty lock list, in the output's plugin
   * directory; the configuration points at the lock list's place under the
   * install directory, where it is bind-mounted at run time.
   */
  function VersionlockFiles(yumDnf: YumDnf, outDir: string, installDir: string): (r: seq<OutFile>)
    ensures |r| == 2
    ensures r[0].path == PathJoin(PathJoin(outDir, PluginDir(yumDnf)), "versionlock.conf")
    ensures r[1] == OutFile(PathJoin(PathJoin(outDir, PluginDir(yumDnf)), LockList), "")
  {
    var pluginOut := PathJoin(outDir, PluginDir(yumDnf));
    [OutFile(PathJoin(pluginOut, "versionlock.conf"), VersionlockConf(PathJoin(installDir, PluginDir(yumDnf)))),
     OutFile(PathJoin(pluginOut, LockList), "")]
  }

  /** A directory under the plugin directory ends in its last name, not in a '/'. */
  lemma PluginDirUnder(dir: string, yumDnf: YumDnf)
    ensures var p := PathJoin(dir, PluginDir(yumDnf)); p != "" && p[|p| - 1] == 's'
  {
    var p := PathJoin(dir, PluginDir(yumDnf));
    assert EndsWith(p, PluginDir(yumDnf));
    assert p[|p| - 1] == PluginDir(yumDnf)[|PluginDir(yumDnf)| - 1];
  }

  /** Joining a relative name onto a directory without a trailing '/' puts one '/' between them. */
  lemma JoinWithSlash(dir: string, name: string)
    requires dir != "" && dir[|dir| - 1] != '/' && name != "" && name[0] != '/'
    ensures PathJoin(dir, name) == dir + "/" + name
  {
    assert !StartsWith(name, "/");
    assert !EndsWith(dir, "/");
  }

  /** The configuration names `versionlock.list` inside the plugin directory under `installDir`. */
  lemma LocklistLine(installDir: string, yumDnf: YumDnf)
    ensures var lockDir := PathJoin(installDir, PluginDir(yumDnf));
            VersionlockConf(lockDir) == "[main]\nenabled = 1\nlocklist = " + PathJoin(lockDir, LockList) + "\n"
  {
    var lockDir := PathJoin(installDir, PluginDir(yumDnf));
    PluginDirUnder(installDir, yumDnf);
    LockListIsName();
    JoinWithSlash(lockDir, LockList);
  }

  /**
   * The lock list `versionlock.conf` names is the file written next to it,
   * at the same place under the install directory as it has under the
   * output directory.
   */
  lemma LocklistUnderInstallDir(yumDnf: YumDnf, outDir: string, installDir: string)
    ensures var files := VersionlockFiles(yumDnf, outDir, installDir);
            files[0].content
            == "[main]\nenabled = 1\nlocklist = " + PathJoin(PathJoin(installDir, PluginDir(yumDnf)), LockList) + "\n"
    ensures Basename(VersionlockFiles(yumDnf, outDir, installDir)[1].path) == LockList
  {
    LocklistLine(installDir, yumDnf);
    LockListIsName();
    BasenameOfJoin(PathJoin(outDir, PluginDir(yumDnf)), LockList);
  }

  /** The paths `isolate_main` records: the config and the versionlock directory inside the container. */
  datatype MainPaths = MainPaths(configPath: string, versionlockDir: string)

  function IsolateMainPaths(yumDnf: YumDnf, installDir: string): MainPaths {
    MainPaths(PathJoin(installDir, ConfigPath(yumDnf)), PathJoin(installDir, PluginDir(yumDnf)))
  }

  /**
   * The versionlock directory recorded in `[main]` is the one whose
   * `versionlock.list` the plugin configuration names, and the recorded
   * config sits beside the plugins in the installer's directory under the
   * install directory.
   */
  lemma IsolateMainPathsAgree(yumDnf: YumDnf, outDir: string, installDir: string)
    ensures var main := IsolateMainPaths(yumDnf, installDir);
            VersionlockFiles(yumDnf, outDir, installDir)[0].content
            == "[main]\nenabled = 1\nlocklist = " + PathJoin(main.versionlockDir, LockList) + "\n"
    ensures var v := yumDnf.Value();
            IsolateMainPaths(yumDnf, installDir)
            == MainPaths(PathJoin(installDir, PathJoin(v, v + ".conf")), PathJoin(installDir, PathJoin(v, "plugins")))
  {
    LocklistUnderInstallDir(yumDnf, outDir, installDir);
    PluginDirNames(yumDnf);
    ConfigPathNames(yumDnf);
  }

  // ---------------------------------------------------------------------
  // URL rewriting

  /** The fields of a parsed URL that the rewriting uses; query, parameters and fragment are empty. */
  datatype Url = Url(scheme: string, netloc: string, path: string)

  /**
   * `urlunparse` for a scheme with a network location such as `http`:
   * `scheme://netloc`, then the path, given a leading '/' if it has none.
   */
  function Unparse(u: Url): (r: string)
    ensures StartsWith(r, u.scheme + "://" + u.netloc)
  {
    var path := if u.path != "" && u.path[0] != '/' then "/" + u.path else u.path;
    assert u.scheme + "://" + u.netloc + path == (u.scheme + "://" + u.netloc) + path;
    u.scheme + "://" + u.netloc + path
  }

  /** `urlparse(f'http://localhost:{p}')` for each port, in order. */
  function ServerUrls(ports: seq<int>): (r: seq<Url>)
    ensures |r| == |ports|
    ensures forall i :: 0 <= i < |ports| ==> r[i] == Url("http", "localhost:" + IntToString(ports[i]), "")
  {
    seq(|ports|, i requires 0 <= i < |ports| => Url("http", "localhost:" + IntToString(ports[i]), ""))
  }

  /** The fields of a repo section that the rewriting replaces. */
  datatype Repo = Repo(name: string, baseUrls: seq<string>, gpgKeyUrls: seq<string>)

  datatype RewriteError = NoServerForGpgKey(repo: string)

  /** Each base URL: the same server with the repo's name as its path. */
  function BaseUrls(servers: seq<Url>, name: string): (r: seq<string>)
    ensures |r| == |servers|
  {
    seq(|servers|, i requires 0 <= i < |servers| => Unparse(servers[i].(path := name)))
  }

  /** Each key URL: the first server, under `<repo>/<basename of the key URL's path>`. */
  function GpgKeyUrls(first: Url, name: string, keys: seq<string>, pathOf: string -> string): (r: seq<string>)
    ensures |r| == |keys|
  {
    seq(|keys|, i requires 0 <= i < |keys| => Unparse(first.(path := PathJoin(name, Basename(pathOf(keys[i]))))))
  }

  /**
   * One repo of the `isolate_repos` comprehension. `pathOf` is the path
   * component `urlparse` finds in a key URL. Indexing `server_urls[0]` with
   * no ports fails, but only when there is some key URL to rewrite.
   */
  function RewriteRepo(repo: Repo, servers: seq<Url>, pathOf: string -> string): (r: Result<Repo, RewriteError>)
    ensures r.Failure? <==> |servers| == 0 && |repo.gpgKeyUrls| > 0
    ensures r.Failure? ==> r.error == NoServerForGpgKey(repo.name)
    ensures r.Success? ==> r.value.name == repo.name
                           && |r.value.baseUrls| == |servers|
                           && |r.value.gpgKeyUrls| == |repo.gpgKeyUrls|
  {
    var baseUrls := BaseUrls(servers, repo.name);
    if |repo.gpgKeyUrls| == 0 then Success(repo.(baseUrls := baseUrls, gpgKeyUrls := []))
    else if |servers| == 0 then Failure(NoServerForGpgKey(repo.name))
    else Success(repo.(baseUrls := baseUrls, gpgKeyUrls := GpgKeyUrls(servers[0], repo.name, repo.gpgKeyUrls, pathOf)))
  }

  /** The rewriting of every repo, in order; the first repo that fails stops it. */
  function RewriteRepos(repos: seq<Repo>, ports: seq<int>, pathOf: string -> string): (r: Result<seq<Repo>, RewriteError>)
    ensures r.Success? ==> |r.value| == |repos|
    ensures r.Success? ==> forall i :: 0 <= i < |repos| ==> RewriteRepo(repos[i], ServerUrls(ports), pathOf) == Success(r.value[i])
    ensures r.Failure? ==> exists i :: 0 <= i < |repos| && RewriteRepo(repos[i], ServerUrls(ports), pathOf) == Failure(r.error)
    decreases |repos|
  {
    if |repos| == 0 then Success([])
    else
      match RewriteRepo(repos[0], ServerUrls(ports), pathOf)
      case Failure(e) => Failure(e)
      case Success(first) =>
        match RewriteRepos(repos[1..], ports, pathOf)
        case Failure(e) =>
          assert exists i :: 0 <= i < |repos| && RewriteRepo(repos[i], ServerUrls(ports), pathOf) == Failure(e) by {
            var i :| 0 <= i < |repos[1..]| && RewriteRepo(repos[1..][i], ServerUrls(ports), pathOf) == Failure(e);
            assert repos[i + 1] == repos[1..][i];
          }
          Failure(e)
        case Success(rest) =>
          assert forall i :: 0 <= i < |repos| ==> RewriteRepo(repos[i], ServerUrls(ports), pathOf) == Success(([first] + rest)[i]) by {
            forall i | 0 <= i < |repos| ensures RewriteRepo(repos[i], ServerUrls(ports), pathOf) == Success(([first] + rest)[i]) {
              if i > 0 { assert repos[i] == repos[1..][i - 1]; }
            }
          }
          Success([first] + rest)
  }

  /** Rewriting fails exactly when there are no ports and some repo has a GPG key. */
  lemma {:induction false} RewriteFailsWithoutPorts(repos: seq<Repo>, ports: seq<int>, pathOf: string -> string)
    ensures RewriteRepos(repos, ports, pathOf).Failure?
            <==> |ports| == 0 && exists i :: 0 <= i < |repos| && |repos[i].gpgKeyUrls| > 0
    decreases |repos|
  {
    if |repos| > 0 {
      RewriteFailsWithoutPorts(repos[1..], ports, pathOf);
      if exists i :: 0 <= i < |repos[1..]| && |repos[1..][i].gpgKeyUrls| > 0 {
        var i :| 0 <= i < |repos[1..]| && |repos[1..][i].gpgKeyUrls| > 0;
        assert repos[i + 1] == repos[1..][i];
      }
      if i :| 0 <= i < |repos| && |repos[i].gpgKeyUrls| > 0 {
        if i > 0 { assert repos[1..][i - 1] == repos[i]; }
      }
    }
  }

  /** The URL `urlunparse` gives for `http://localhost:<port>` with a relative path. */
  lemma LocalhostUrl(port: int, path: string)
    requires !StartsWith(path, "/") && path != ""
    ensures Unparse(Url("http", "localhost:" + IntToString(port), path)) == "http://localhost:" + IntToString(port) + "/" + path
  {
    assert path[0] != '/' by { assert !StartsWith(path, "/"); }
    var p := IntToString(port);
    calc {
      Unparse(Url("http", "localhost:" + p, path));
      "http" + "://" + ("localhost:" + p) + ("/" + path);
      { assert "http" + "://" + ("localhost:" + p) == ("http" + "://" + "localhost:") + p; }
      ("http" + "://" + "localhost:") + p + ("/" + path);
      { assert "http" + "://" + "localhost:" == "http://localhost:"; }
      "http://localhost:" + p + "/" + path;
    }
  }

  /**
   * A rewritten repo has one base URL per port, in port order, each
   * `http://localhost:<port>/<repo name>` (for a repo name that is not
   * empty and does not start with '/').
   */
  lemma BaseUrlPerPort(repo: Repo, ports: seq<int>, pathOf: string -> string)
    requires RewriteRepo(repo, ServerUrls(ports), pathOf).Success?
    requires repo.name != "" && !StartsWith(repo.name, "/")
    ensures var out := RewriteRepo(repo, ServerUrls(ports), pathOf).value;
            |out.baseUrls| == |ports|
            && forall i :: 0 <= i < |ports| ==> out.baseUrls[i] == "http://localhost:" + IntToString(ports[i]) + "/" + repo.name
  {
    var out := RewriteRepo(repo, ServerUrls(ports), pathOf).value;
    forall i | 0 <= i < |ports| ensures out.baseUrls[i] == "http://localhost:" + IntToString(ports[i]) + "/" + repo.name {
      LocalhostUrl(ports[i], repo.name);
    }
  }

  /** One rewritten key URL: the key's file name under the repo's name, on the given port. */
  lemma KeyUrl(port: int, repoName: string, keyPath: string)
    requires repoName != "" && !StartsWith(repoName, "/")
    ensures var p := PathJoin(repoName, Basename(keyPath));
            Unparse(Url("http", "localhost:" + IntToString(port), p)) == "http://localhost:" + IntToString(port) + "/" + p
            && Basename(p) == Basename(keyPath)
  {
    var name := Basename(keyPath);
    var p := PathJoin(repoName, name);
    assert !StartsWith(p, "/") && p != "" by {
      assert p[0] == repoName[0];
    }
    LocalhostUrl(port, p);
    BasenameOfJoin(repoName, name);
  }

  /**
   * Every rewritten GPG key URL, in the original order, points at the first
   * port, at `<repo name>/<basename of the original key URL's path>`, and
   * so keeps the key's file name.
   */
  lemma GpgKeysToFirstPort(repo: Repo, ports: seq<int>, pathOf: string -> string)
    requires RewriteRepo(repo, ServerUrls(ports), pathOf).Success?
    requires repo.name != "" && !StartsWith(repo.name, "/")
    ensures var out := RewriteRepo(repo, ServerUrls(ports), pathOf).value;
            |out.gpgKeyUrls| == |repo.gpgKeyUrls|
            && forall i :: 0 <= i < |repo.gpgKeyUrls| ==>
                 var name := Basename(pathOf(repo.gpgKeyUrls[i]));
                 out.gpgKeyUrls[i] == "http://localhost:" + IntToString(ports[0]) + "/" + PathJoin(repo.name, name)
                 && Basename(PathJoin(repo.name, name)) == name
  {
    var out := RewriteRepo(repo, ServerUrls(ports), pathOf).value;
    if |repo.gpgKeyUrls| > 0 {
      var first := ServerUrls(ports)[0];
      assert out.gpgKeyUrls == GpgKeyUrls(first, repo.name, repo.gpgKeyUrls, pathOf);
      forall i | 0 <= i < |repo.gpgKeyUrls|
        ensures var name := Basename(pathOf(repo.gpgKeyUrls[i]));
                out.gpgKeyUrls[i] == "http://localhost:" + IntToString(ports[0]) + "/" + PathJoin(repo.name, name)
                && Basename(PathJoin(repo.name, name)) == name
      {
        KeyUrl(ports[0], repo.name, pathOf(repo.gpgKeyUrls[i]));
      }
    }
  }

  // ---------------------------------------------------------------------
  // --repo-server-ports

  datatype PortsError = NotAnInteger(token: string)

  /** `[int(p) for p in ports.split()]`: the first token that is not an integer fails the whole list. */
  function ParsePorts(s: string): (r: Result<seq<int>, PortsError>)
    ensures r.Success? ==>
              |r.value| == |Words(s)| && forall i :: 0 <= i < |r.value| ==> ParseInt(Words(s)[i]) == Some(r.value[i])
    ensures r.Failure? ==>
              exists i :: 0 <= i < |Words(s)| && ParseInt(Words(s)[i]).None? && r.error == NotAnInteger(Words(s)[i])
                          && forall j :: 0 <= j < i ==> ParseInt(Words(s)[j]).Some?
  {
    ParseTokens(Words(s))
  }

  /** The tokens parsed in order; the first one `int()` refuses is the error. */
  function ParseTokens(tokens: seq<string>): (r: Result<seq<int>, PortsError>)
    ensures r.Success? ==> |r.value| == |tokens| && forall i :: 0 <= i < |r.value| ==> ParseInt(tokens[i]) == Some(r.value[i])
    ensures r.Failure? ==>
              exists i :: 0 <= i < |tokens| && ParseInt(tokens[i]).None? && r.error == NotAnInteger(tokens[i])
                          && forall j :: 0 <= j < i ==> ParseInt(tokens[j]).Some?
    ensures r.Failure? <==> exists i :: 0 <= i < |tokens| && ParseInt(tokens[i]).None?
    decreases |tokens|
  {
    if |tokens| == 0 then Success([])
    else match ParseInt(tokens[0])
      case None => Failure(NotAnInteger(tokens[0]))
      case Some(p) =>
        match ParseTokens(tokens[1..])
        case Failure(e) =>
          assert exists i :: 0 <= i < |tokens| && ParseInt(tokens[i]).None? && e == NotAnInteger(tokens[i])
                             && forall j :: 0 <= j < i ==> ParseInt(tokens[j]).Some? by {
            var i :| 0 <= i < |tokens[1..]| && ParseInt(tokens[1..][i]).None? && e == NotAnInteger(tokens[1..][i])
                     && forall j :: 0 <= j < i ==> ParseInt(tokens[1..][j]).Some?;
            assert tokens[i + 1] == tokens[1..][i];
            forall j | 0 <= j < i + 1 ensures ParseInt(tokens[j]).Some? {
              if j > 0 { assert tokens[j] == tokens[1..][j - 1]; }
            }
          }
          Failure(e)
        case Success(rest) =>
          assert forall i :: 0 <= i < |rest| + 1 ==> ParseInt(tokens[i]) == Some(([p] + rest)[i]) by {
            forall i | 0 <= i < |rest| + 1 ensures ParseInt(tokens[i]) == Some(([p] + rest)[i]) {
              if i > 0 { assert tokens[i] == tokens[1..][i - 1]; }
            }
          }
          assert !exists i :: 0 <= i < |tokens| && ParseInt(tokens[i]).None?;
          Success([p] + rest)
  }

  /** The space-separated decimal form of some ports parses back to those ports. */
  lemma PortsRoundTrip(ports: seq<int>)
    ensures ParsePorts(Join(seq(|ports|, i requires 0 <= i < |ports| => IntToString(ports[i])), " ")) == Success(ports)
  {
    var tokens := seq(|ports|, i requires 0 <= i < |ports| => IntToString(ports[i]));
    forall k | 0 <= k < |tokens| ensures IsWord(tokens[k]) && ParseInt(tokens[k]) == Some(ports[k]) {
      IntToStringIsWord(ports[k]);
      ParseIntToString(ports[k]);
    }
    WordsOfJoin(tokens);
    var r := ParsePorts(Join(tokens, " "));
    assert r.Success?;
    assert r.value == ports;
  }
}
