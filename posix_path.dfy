/**
 * The parts of Python's `posixpath` the modelled code uses: `join` of two
 * paths, `basename`, and `normpath` worked out on the '/'-separated pieces
 * of a path.
 */
module PosixPath {
  import opened Wrappers
  import opened Strings

  /** `os.path.join(a, b)` */
  function PathJoin(a: string, b: string): (r: string)
    ensures EndsWith(r, b)
  {
    if StartsWith(b, "/") then b
    else if a == "" || EndsWith(a, "/") then a + b
    else a + "/" + b
  }

  /** `os.path.basename(p)`: the longest suffix of `p` without a '/'. */
  function Basename(p: string): (r: string)
    ensures '/' !in r
    ensures EndsWith(p, r)
    ensures |r| < |p| ==> p[|p| - |r| - 1] == '/'
    decreases |p|
  {
    if |p| == 0 || p[|p| - 1] == '/' then ""
    else Basename(p[..|p| - 1]) + [p[|p| - 1]]
  }

  /** A slash-free suffix that starts the path or follows a '/' is the basename. */
  lemma {:induction false} BasenameOfSuffix(p: string, b: string)
    requires '/' !in b && EndsWith(p, b)
    requires |b| == |p| || p[|p| - |b| - 1] == '/'
    ensures Basename(p) == b
    decreases |b|
  {
    if |b| > 0 {
      var q, b' := p[..|p| - 1], b[..|b| - 1];
      assert p[|p| - 1] == b[|b| - 1];
      assert q[|q| - |b'|..] == b' by {
        assert q[|q| - |b'|..] == p[|p| - |b|..][..|b'|];
      }
      assert |b'| < |q| ==> q[|q| - |b'| - 1] == p[|p| - |b| - 1];
      BasenameOfSuffix(q, b');
      assert b == b' + [b[|b| - 1]];
    }
  }

  /** Joining a slash-free name onto any directory keeps it as the basename. */
  lemma BasenameOfJoin(dir: string, name: string)
    requires '/' !in name
    ensures Basename(PathJoin(dir, name)) == name
  {
    var p := PathJoin(dir, name);
    if name != "" {
      assert !StartsWith(name, "/") by { assert name[0] != '/'; }
      if dir == "" || EndsWith(dir, "/") {
        assert p == dir + name;
        assert |name| < |p| ==> p[|p| - |name| - 1] == dir[|dir| - 1];
      } else {
        assert p == dir + "/" + name;
        assert p[|p| - |name| - 1] == '/';
      }
      BasenameOfSuffix(p, name);
    }
  }

  /** A name that `normpath` keeps: not empty, not '.', not '..', no '/'. */
  predicate IsNormalName(c: string) {
    c != "" && c != "." && c != ".." && '/' !in c
  }

  predicate IsNormalPath(names: seq<string>) {
    forall i :: 0 <= i < |names| ==> IsNormalName(names[i])
  }

  predicate SlashFree(pieces: seq<string>) {
    forall i :: 0 <= i < |pieces| ==> '/' !in pieces[i]
  }

  /**
   * `os.path.normpath` on the pieces of a path, continuing after the names
   * already `resolved`: empty and '.' pieces vanish and '..' drops the name
   * before it. At the top of an absolute path '..' stays at '/'; at the top
   * of a relative path `normpath` keeps it, so the result would start with
   * '..', which `None` reports.
   */
  function Resolve(resolved: seq<string>, pieces: seq<string>, absolute: bool): (r: Option<seq<string>>)
    requires IsNormalPath(resolved) && SlashFree(pieces)
    ensures r.Some? ==> IsNormalPath(r.value)
    ensures absolute ==> r.Some?
    decreases |pieces|
  {
    if |pieces| == 0 then Some(resolved)
    else if pieces[0] == "" || pieces[0] == "." then Resolve(resolved, pieces[1..], absolute)
    else if pieces[0] == ".." then
      if |resolved| > 0 then Resolve(resolved[..|resolved| - 1], pieces[1..], absolute)
      else if absolute then Resolve(resolved, pieces[1..], absolute)
      else None
    else Resolve(resolved + [pieces[0]], pieces[1..], absolute)
  }

  /** The names `normpath(s)` leaves, or `None` when a relative `s` climbs above its start. */
  function NormNames(s: string): (r: Option<seq<string>>)
    ensures StartsWith(s, "/") ==> r.Some?
  {
    Resolve([], Split(s, '/'), StartsWith(s, "/"))
  }

  /** Names that are already normal pass through unchanged. */
  lemma {:induction false} ResolveNormal(resolved: seq<string>, names: seq<string>, absolute: bool)
    requires IsNormalPath(resolved) && IsNormalPath(names)
    ensures Resolve(resolved, names, absolute) == Some(resolved + names)
    decreases |names|
  {
    if |names| > 0 {
      ResolveNormal(resolved + [names[0]], names[1..], absolute);
      assert resolved + [names[0]] + names[1..] == resolved + names;
    } else {
      assert resolved + names == resolved;
    }
  }

  /** On an absolute path, normalising in two stretches is normalising in one. */
  lemma {:induction false} ResolveAppend(resolved: seq<string>, x: seq<string>, y: seq<string>)
    requires IsNormalPath(resolved) && SlashFree(x) && SlashFree(y)
    ensures SlashFree(x + y)
    ensures Resolve(resolved, x + y, true) == Resolve(Resolve(resolved, x, true).value, y, true)
    decreases |x|
  {
    if |x| > 0 {
      assert (x + y)[0] == x[0] && (x + y)[1..] == x[1..] + y;
      var next := if x[0] == "" || x[0] == "." then resolved
                  else if x[0] == ".." then (if |resolved| > 0 then resolved[..|resolved| - 1] else resolved)
                  else resolved + [x[0]];
      ResolveAppend(next, x[1..], y);
    } else {
      assert x + y == y;
    }
  }

  /**
   * A path that normalises relatively without climbing above its start
   * normalises the same way below any prefix, whether or not the whole is
   * absolute.
   */
  lemma {:induction false} ResolveBelow(prefix: seq<string>, resolved: seq<string>, pieces: seq<string>, absolute: bool)
    requires IsNormalPath(prefix) && IsNormalPath(resolved) && SlashFree(pieces)
    requires Resolve(resolved, pieces, false).Some?
    ensures IsNormalPath(prefix + resolved)
    ensures Resolve(prefix + resolved, pieces, absolute) == Some(prefix + Resolve(resolved, pieces, false).value)
    decreases |pieces|
  {
    assert IsNormalPath(prefix + resolved) by {
      forall i | 0 <= i < |prefix + resolved| ensures IsNormalName((prefix + resolved)[i]) {
        if i >= |prefix| { assert (prefix + resolved)[i] == resolved[i - |prefix|]; }
      }
    }
    if |pieces| > 0 {
      if pieces[0] == "" || pieces[0] == "." {
        ResolveBelow(prefix, resolved, pieces[1..], absolute);
      } else if pieces[0] == ".." {
        assert |resolved| > 0;
        assert (prefix + resolved)[..|prefix + resolved| - 1] == prefix + resolved[..|resolved| - 1];
        ResolveBelow(prefix, resolved[..|resolved| - 1], pieces[1..], absolute);
      } else {
        assert prefix + resolved + [pieces[0]] == prefix + (resolved + [pieces[0]]);
        ResolveBelow(prefix, resolved + [pieces[0]], pieces[1..], absolute);
      }
    }
  }

  /** Empty pieces (doubled or trailing slashes) change nothing. */
  lemma ResolveSkipsEmpty(resolved: seq<string>, x: seq<string>, y: seq<string>)
    requires IsNormalPath(resolved) && SlashFree(x) && SlashFree(y)
    ensures SlashFree(x + [""] + y) && SlashFree(x + y)
    ensures Resolve(resolved, x + [""] + y, true) == Resolve(resolved, x + y, true)
  {
    assert SlashFree([""] + y);
    ResolveAppend(resolved, x, [""] + y);
    assert x + ([""] + y) == x + [""] + y;
    var mid := Resolve(resolved, x, true).value;
    assert ([""] + y)[1..] == y;
    assert Resolve(mid, [""] + y, true) == Resolve(mid, y, true);
    ResolveAppend(resolved, x, y);
  }

  /**
   * The pieces of `os.path.join(a, b)`, once normalised as an absolute path,
   * are those of `a` followed by those of `b`.
   */
  lemma JoinPieces(a: string, b: string)
    requires !StartsWith(b, "/")
    ensures SlashFree(Split(a, '/') + Split(b, '/'))
    ensures Resolve([], Split(PathJoin(a, b), '/'), true) == Resolve([], Split(a, '/') + Split(b, '/'), true)
  {
    var sa, sb := Split(a, '/'), Split(b, '/');
    assert SlashFree(sa + sb);
    if a == "" {
      assert sa == [""];
      assert (sa + sb)[1..] == sb;
    } else if EndsWith(a, "/") {
      var a' := a[..|a| - 1];
      assert a == a' + ['/'] + "";
      SplitAround(a', "", '/');
      assert PathJoin(a, b) == a' + ['/'] + b;
      SplitAround(a', b, '/');
      var sa' := Split(a', '/');
      assert sa + sb == sa' + [""] + sb;
      ResolveSkipsEmpty([], sa', sb);
    } else {
      assert PathJoin(a, b) == a + ['/'] + b;
      SplitAround(a, b, '/');
    }
  }
}
