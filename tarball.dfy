/**
 * The tarball item of `fs_image/compiler/items/tarball.py`: validation of
 * its fields, the facts it provides and requires, and the `tar` command its
 * build runs inside the build appliance.
 *
 * The archive's table of contents is given as a list of members; reading
 * and decompressing the archive are not modelled. Facts carry the
 * image-absolute normal form of their path (as a list of names), which is
 * how the fact classes key them.
 */
module Tarball {
  import opened Wrappers
  import opened Strings
  import opened PosixPath
  import opened ItemCommon

  /** A tarball item whose fields have been validated: extract `source` into `intoDir`. */
  datatype TarballItem = TarballItem(intoDir: string, source: string, forceRootOwnership: bool)

  /** One entry of the archive's table of contents. */
  datatype Member = Member(name: string, isDir: bool)

  datatype Provided = ProvidesFile(path: seq<string>) | ProvidesDirectory(path: seq<string>)

  datatype Required = RequireDirectory(path: seq<string>)

  /** The image-absolute normal form a fact gives its path: `normpath('/' + path.lstrip('/'))`. */
  function ImagePath(path: string): (r: seq<string>)
    ensures IsNormalPath(r)
  {
    Resolve([], Split(path, '/'), true).value
  }

  // ---------------------------------------------------------------------
  // customize_fields

  const IntoDirField := "into_dir"
  const ForceRootOwnershipField := "force_root_ownership"

  /** Python's `value in [True, False]`, which also admits 1 and 0 since `1 == True` and `0 == False`. */
  predicate IsTrueOrFalse(v: FieldValue) {
    v.BoolValue? || v == IntValue(0) || v == IntValue(1)
  }

  /**
   * The fields after `customize_fields`: `into_dir` is coerced to a normal
   * relative path first; then `force_root_ownership` must be present and be
   * True or False.
   */
  function CustomizedFields(fields: map<string, FieldValue>): (r: Result<map<string, FieldValue>, FieldError>)
    ensures CoercedPathField(fields, IntoDirField).Failure? ==> r == CoercedPathField(fields, IntoDirField)
    ensures CoercedPathField(fields, IntoDirField).Success? && ForceRootOwnershipField !in fields ==>
              r == Failure(MissingField(ForceRootOwnershipField))
    ensures CoercedPathField(fields, IntoDirField).Success? && ForceRootOwnershipField in fields ==>
              (r.Success? <==> IsTrueOrFalse(fields[ForceRootOwnershipField]))
    ensures CoercedPathField(fields, IntoDirField).Success? && ForceRootOwnershipField in fields
            && !IsTrueOrFalse(fields[ForceRootOwnershipField]) ==>
              r == Failure(BadFlag(ForceRootOwnershipField, fields[ForceRootOwnershipField]))
    ensures r.Success? ==> r == CoercedPathField(fields, IntoDirField)
    ensures r.Success? ==> r.value.Keys == fields.Keys
    ensures r.Success? ==> forall k :: k in fields && k != IntoDirField ==> r.value[k] == fields[k]
    ensures r.Success? && IntoDirField in fields && fields[IntoDirField].StrValue? ==>
              r.value[IntoDirField].StrValue? && IsNormalRelative(r.value[IntoDirField].s)
  {
    match CoercedPathField(fields, IntoDirField)
    case Failure(e) => Failure(e)
    case Success(coerced) =>
      if ForceRootOwnershipField !in coerced then Failure(MissingField(ForceRootOwnershipField))
      else if IsTrueOrFalse(coerced[ForceRootOwnershipField]) then Success(coerced)
      else Failure(BadFlag(ForceRootOwnershipField, coerced[ForceRootOwnershipField]))
  }

  /**
   * `TarballItem.customize_fields(kwargs)`. The path coercion edits the
   * dictionary before the flag is checked, so a bad flag leaves `into_dir`
   * already normalised; a bad path leaves the dictionary untouched.
   */
  method CustomizeFields(kwargs: Kwargs) returns (r: Outcome<FieldError>)
    modifies kwargs
    ensures r.Pass? <==> CustomizedFields(old(kwargs.fields)).Success?
    ensures r.Fail? ==> r.error == CustomizedFields(old(kwargs.fields)).error
    ensures kwargs.fields == match CoercedPathField(old(kwargs.fields), IntoDirField)
                             case Success(coerced) => coerced
                             case Failure(_) => old(kwargs.fields)
  {
    r := CoercePathFieldNormalRelative(kwargs, IntoDirField);
    if r.Fail? {
      return;
    }
    if ForceRootOwnershipField !in kwargs.fields {
      r := Fail(MissingField(ForceRootOwnershipField));
    } else if !IsTrueOrFalse(kwargs.fields[ForceRootOwnershipField]) {
      r := Fail(BadFlag(ForceRootOwnershipField, kwargs.fields[ForceRootOwnershipField]));
    }
  }

  // ---------------------------------------------------------------------
  // provides / requires

  /**
   * The directory member that `relpath` cannot handle: `into_dir` is the
   * root '' and the member's name normalises to the absolute root, so the
   * joined path is empty and `os.path.relpath` raises.
   */
  predicate EmptyDirectoryPath(intoDir: string, m: Member) {
    m.isDir && intoDir == "" && NormNames(m.name) == Some([]) && StartsWith(m.name, "/")
  }

  /**
   * What one archive member contributes to `provides()`: a file fact for a
   * non-directory, a directory fact for a directory other than the
   * extraction directory itself, and an error for a name that climbs out
   * with '..' or for a directory whose joined path is empty. The path is
   * `into_dir` followed by the member's normal names.
   */
  function MemberFact(intoDir: string, m: Member): (r: Result<Option<Provided>, PathError>)
    ensures r.Failure? <==> NormNames(m.name).None? || EmptyDirectoryPath(intoDir, m)
    ensures r.Failure? ==> r.error == if NormNames(m.name).None? then EscapesImage(m.name) else NoPathSpecified
    ensures r.Success? ==>
              var path := ImagePath(intoDir) + NormNames(m.name).value;
              r.value == if !m.isDir then Some(ProvidesFile(path))
                         else if NormNames(m.name).value == [] then None
                         else Some(ProvidesDirectory(path))
  {
    match MakePathNormalRelative(m.name)
    case Failure(e) => Failure(e)
    case Success(relative) =>
      var path := PathJoin(intoDir, relative);
      JoinPieces(intoDir, relative);
      ResolveAppend([], Split(intoDir, '/'), Split(relative, '/'));
      ResolveBelow(ImagePath(intoDir), [], Split(relative, '/'), true);
      assert ImagePath(intoDir) + [] == ImagePath(intoDir);
      assert path == "" <==> intoDir == "" && relative == "";
      // `relpath(path, into_dir)` raises on an empty path; otherwise it is the
      // member's own relative part, so it normalises to '.' exactly when the
      // member names nothing below `into_dir`.
      if m.isDir then
        if path == "" then Failure(NoPathSpecified)
        else if NormNames(relative).value == [] then Success(None)
        else Success(Some(ProvidesDirectory(ImagePath(path))))
      else Success(Some(ProvidesFile(ImagePath(path))))
  }

  /** The facts `provides()` yields over the whole table of contents, or the first member's error. */
  function ProvidesFacts(intoDir: string, members: seq<Member>): Result<seq<Provided>, PathError>
    decreases |members|
  {
    if |members| == 0 then Success([])
    else
      match ProvidesFacts(intoDir, members[..|members| - 1])
      case Failure(e) => Failure(e)
      case Success(before) =>
        match MemberFact(intoDir, members[|members| - 1])
        case Failure(e) => Failure(e)
        case Success(None) => Success(before)
        case Success(Some(f)) => Success(before + [f])
  }

  /** The member is refused: its name climbs out of the extraction directory, or `relpath` raises on it. */
  predicate Refused(intoDir: string, m: Member) {
    NormNames(m.name).None? || EmptyDirectoryPath(intoDir, m)
  }

  /** `provides()` fails exactly when some member is refused. */
  lemma {:induction false} ProvidesFailsIff(intoDir: string, members: seq<Member>)
    ensures ProvidesFacts(intoDir, members).Failure? <==> exists i :: 0 <= i < |members| && Refused(intoDir, members[i])
    decreases |members|
  {
    if |members| > 0 {
      var n := |members| - 1;
      var earlier := members[..n];
      ProvidesFailsIff(intoDir, earlier);
      if ProvidesFacts(intoDir, earlier).Failure? {
        var i :| 0 <= i < |earlier| && Refused(intoDir, earlier[i]);
        assert members[i] == earlier[i];
        assert ProvidesFacts(intoDir, members).Failure?;
      } else if Refused(intoDir, members[n]) {
        assert MemberFact(intoDir, members[n]).Failure?;
        assert ProvidesFacts(intoDir, members).Failure?;
      } else {
        assert MemberFact(intoDir, members[n]).Success?;
        assert ProvidesFacts(intoDir, members).Success?;
        assert forall i :: 0 <= i < n ==> !Refused(intoDir, earlier[i]);
        forall i | 0 <= i < |members| ensures !Refused(intoDir, members[i]) {
          if i < n {
            assert members[i] == earlier[i];
            assert !Refused(intoDir, earlier[i]);
          } else {
            assert i == n;
          }
        }
      }
    }
  }

  /** At most one fact per member, and every fact lies under the extraction directory. */
  lemma {:induction false} ProvidesUnderIntoDir(intoDir: string, members: seq<Member>)
    requires ProvidesFacts(intoDir, members).Success?
    ensures |ProvidesFacts(intoDir, members).value| <= |members|
    ensures forall k :: 0 <= k < |ProvidesFacts(intoDir, members).value| ==> ImagePath(intoDir) <= ProvidesFacts(intoDir, members).value[k].path
    decreases |members|
  {
    if |members| > 0 {
      var earlier := members[..|members| - 1];
      ProvidesUnderIntoDir(intoDir, earlier);
      var before := ProvidesFacts(intoDir, earlier).value;
      var facts := ProvidesFacts(intoDir, members).value;
      forall k | 0 <= k < |facts| ensures ImagePath(intoDir) <= facts[k].path {
        if k < |before| {
          assert facts[k] == before[k];
        } else {
          assert facts[k] == MemberFact(intoDir, members[|members| - 1]).value.value;
        }
      }
    }
  }

  /** Once a prefix of the members fails, the whole listing fails with the same error. */
  lemma {:induction false} PrefixFailure(intoDir: string, members: seq<Member>, n: nat)
    requires n <= |members|
    requires ProvidesFacts(intoDir, members[..n]).Failure?
    ensures ProvidesFacts(intoDir, members) == ProvidesFacts(intoDir, members[..n])
    decreases |members| - n
  {
    if n < |members| {
      assert members[..n + 1][..n] == members[..n];
      PrefixFailure(intoDir, members, n + 1);
    } else {
      assert members[..n] == members;
    }
  }

  /** `TarballItem.provides()`: walks the members in archive order, yielding each one's fact. */
  method Provides(item: TarballItem, members: seq<Member>) returns (r: Result<seq<Provided>, PathError>)
    ensures r == ProvidesFacts(item.intoDir, members)
  {
    var facts: seq<Provided> := [];
    for i := 0 to |members|
      invariant ProvidesFacts(item.intoDir, members[..i]) == Success(facts)
    {
      assert members[..i + 1][..i] == members[..i];
      var fact := MemberFact(item.intoDir, members[i]);
      match fact {
        case Failure(e) =>
          PrefixFailure(item.intoDir, members, i + 1);
          return Failure(e);
        case Success(None) =>
        case Success(Some(f)) =>
          facts := facts + [f];
      }
    }
    assert members[..|members|] == members;
    r := Success(facts);
  }

  /** How many of `members` contribute a fact. */
  function YieldCount(intoDir: string, members: seq<Member>): nat
    decreases |members|
  {
    if |members| == 0 then 0
    else
      var tail := members[..|members| - 1];
      var f := MemberFact(intoDir, members[|members| - 1]);
      YieldCount(intoDir, tail) + (if f.Success? && f.value.Some? then 1 else 0)
  }

  /**
   * Member order is kept: the fact of member `i`, when it has one, sits
   * right after the facts of the members before it; there is one fact per
   * contributing member and none other.
   */
  lemma {:induction false} ProvidesInMemberOrder(intoDir: string, members: seq<Member>, i: nat)
    requires ProvidesFacts(intoDir, members).Success?
    requires i < |members|
    ensures |ProvidesFacts(intoDir, members).value| == YieldCount(intoDir, members)
    ensures MemberFact(intoDir, members[i]).Success?
    ensures MemberFact(intoDir, members[i]).value.Some? ==>
              YieldCount(intoDir, members[..i]) < |ProvidesFacts(intoDir, members).value| &&
              ProvidesFacts(intoDir, members).value[YieldCount(intoDir, members[..i])]
                == MemberFact(intoDir, members[i]).value.value
    decreases |members|
  {
    var earlier := members[..|members| - 1];
    assert ProvidesFacts(intoDir, earlier).Success?;
    if i < |members| - 1 {
      assert earlier[..i] == members[..i];
      ProvidesInMemberOrder(intoDir, earlier, i);
    } else {
      assert members[..i] == earlier;
      if |earlier| > 0 {
        ProvidesInMemberOrder(intoDir, earlier, 0);
      }
    }
  }

  /** `requires()`: the extraction directory must already exist, and nothing else is needed. */
  function Requires(item: TarballItem): (r: seq<Required>)
    ensures |r| == 1
    ensures r[0] == RequireDirectory(ImagePath(item.intoDir))
  {
    [RequireDirectory(ImagePath(item.intoDir))]
  }

  /** Everything the item provides lies under the one directory it requires. */
  lemma ProvidesUnderRequiredDirectory(item: TarballItem, members: seq<Member>, k: nat)
    requires ProvidesFacts(item.intoDir, members).Success?
    requires k < |ProvidesFacts(item.intoDir, members).value|
    ensures Requires(item)[0].path <= ProvidesFacts(item.intoDir, members).value[k].path
  {
    ProvidesUnderIntoDir(item.intoDir, members);
  }

  // ---------------------------------------------------------------------
  // build

  /** The parts of the layer options the tarball build reads. */
  datatype LayerOpts = LayerOpts(layerTarget: string, buildAppliance: Option<string>)

  datatype BuildError = MissingBuildAppliance(layerTarget: string)

  /** One container run: `cmd` inside `layer`, with bind mounts, a user and forwarded descriptors. */
  datatype NspawnRun = NspawnRun(
    cmd: seq<string>,
    layer: string,
    bindmountRw: seq<(string, string)>,
    user: string,
    forwardFds: seq<int>,
    allowMknod: bool)

  /** The argument list joined into the `tar` command line of `build`. */
  function TarArgv(item: TarballItem, workDir: string): (argv: seq<string>)
    ensures |argv| == if item.forceRootOwnership then 10 else 9
    ensures argv[..3] == ["tar", "-C", workDir + "/" + item.intoDir]
    ensures argv[3..6] == ["-x", "--xattrs", "--force-local"]
    ensures item.forceRootOwnership ==> argv[6] == "--no-same-owner"
    ensures ("--no-same-owner" in argv) <==> item.forceRootOwnership
    ensures argv[|argv| - 3..] == ["--keep-old-files", "-f", "-"]
  {
    var target := workDir + "/" + item.intoDir;
    assert target[|workDir|] == '/';
    assert target != "--no-same-owner" by { assert '/' in target; }
    ["tar", "-C", target, "-x", "--xattrs", "--force-local"]
      + (if item.forceRootOwnership then ["--no-same-owner"] else [])
      + ["--keep-old-files", "-f", "-"]
  }

  /**
   * `TarballItem.build`: refused unless the layer has a build appliance;
   * otherwise one run of `sh -uec '<tar command> 0<&3'` in the appliance as
   * root, with the subvolume mounted read-write at `workDir` and the
   * decompressed archive forwarded so that `tar -f -` reads it as stdin.
   */
  function Build(item: TarballItem, subvolPath: string, opts: LayerOpts, workDir: string, archiveFd: int)
    : (r: Result<NspawnRun, BuildError>)
    ensures r.Failure? <==> opts.buildAppliance.None?
    ensures r.Failure? ==> r.error == MissingBuildAppliance(opts.layerTarget)
    ensures r.Success? ==>
              && r.value.cmd == ["sh", "-uec", Join(TarArgv(item, workDir), " ") + " 0<&3"]
              && r.value.layer == opts.buildAppliance.value
              && r.value.bindmountRw == [(subvolPath, workDir)]
              && r.value.user == "root"
              && r.value.forwardFds == [archiveFd]
              && r.value.allowMknod
  {
    match opts.buildAppliance
    case None => Failure(MissingBuildAppliance(opts.layerTarget))
    case Some(appliance) =>
      var tarCmd := Join(TarArgv(item, workDir), " ");
      Success(NspawnRun(["sh", "-uec", tarCmd + " 0<&3"], appliance, [(subvolPath, workDir)], "root", [archiveFd], true))
  }
}
