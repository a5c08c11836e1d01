/**
 * Stand-in for the helpers of `fs_image/compiler/items/common.py` that the
 * tarball item calls: `make_path_normal_relative` and
 * `coerce_path_field_normal_relative`, plus the keyword-argument dictionary
 * that `customize_fields` edits in place. That file is not part of this
 * model; the behaviour here is the minimal one its callers rely on:
 * `normpath`, leading slashes dropped, and a path that climbs out with
 * '..' refused.
 */
module ItemCommon {
  import opened Wrappers
  import opened Strings
  import opened PosixPath

  /**
   * Why a path is refused: it climbs out of its start with '..', or it is
   * empty where `os.path.relpath` needs a path (its `ValueError`).
   */
  datatype PathError = EscapesImage(path: string) | NoPathSpecified

  /** The values an item's keyword arguments can hold, as far as validation cares. */
  datatype FieldValue = NoneValue | BoolValue(b: bool) | IntValue(i: int) | StrValue(s: string)

  datatype FieldError =
    | BadPath(field: string, cause: PathError)
    | NotAPath(field: string, value: FieldValue)
    | MissingField(field: string)
    | BadFlag(field: string, value: FieldValue)

  /** The keyword-argument dictionary an item's fields are built from; validation edits it in place. */
  class Kwargs {
    var fields: map<string, FieldValue>

    constructor (fields: map<string, FieldValue>)
      ensures this.fields == fields
    {
      this.fields := fields;
    }
  }

  /** A path in the form `make_path_normal_relative` returns. */
  predicate IsNormalRelative(s: string) {
    s == "" || s == "." || IsNormalPath(Split(s, '/'))
  }

  lemma JoinStartsWithFirst(parts: seq<string>, sep: string)
    requires |parts| >= 1
    ensures |parts[0]| <= |Join(parts, sep)| && Join(parts, sep)[..|parts[0]|] == parts[0]
  {
    if |parts| > 1 {
      assert Join(parts, sep) == parts[0] + (sep + Join(parts[1..], sep));
    }
  }

  /**
   * `make_path_normal_relative(orig)`: `normpath(orig).lstrip('/')`, refused
   * when the relative result would begin with '..'. The root comes out as
   * '' when `orig` is absolute and as '.' otherwise, as `normpath` gives.
   */
  function MakePathNormalRelative(orig: string): (r: Result<string, PathError>)
    ensures r.Failure? <==> NormNames(orig).None?
    ensures r.Failure? ==> r.error == EscapesImage(orig)
    ensures r.Success? ==> IsNormalRelative(r.value) && !StartsWith(r.value, "/")
    ensures r.Success? ==> NormNames(r.value) == NormNames(orig)
    ensures r.Success? ==> (r.value == "" <==> NormNames(orig) == Some([]) && StartsWith(orig, "/"))
  {
    match NormNames(orig)
    case None => Failure(EscapesImage(orig))
    case Some(names) =>
      if names == [] then
        assert Split("", '/') == [""];
        assert Split(".", '/') == ["."] by {
          assert "."[1..] == "" && "."[0] == '.';
          assert ['.'] + Split("", '/')[0] == ".";
          assert Split("", '/')[1..] == [];
        }
        Success(if StartsWith(orig, "/") then "" else ".")
      else
        var s := Join(names, "/");
        SplitJoin(names, '/');
        ResolveNormal([], names, false);
        JoinStartsWithFirst(names, "/");
        assert !StartsWith(s, "/") by {
          assert s[0] == names[0][0];
          assert IsNormalName(names[0]);
        }
        assert names == [] + names;
        Success(s)
  }

  /** Normalising a normalised path changes it no further (the absolute root '' becomes '.'). */
  lemma NormaliseTwice(orig: string)
    requires MakePathNormalRelative(orig).Success?
    ensures var once := MakePathNormalRelative(orig).value;
            MakePathNormalRelative(once) == Success(if once == "" then "." else once)
  {
    var once := MakePathNormalRelative(orig).value;
    var names := NormNames(orig).value;
    assert NormNames(once) == Some(names);
    if names != [] {
      assert once == Join(names, "/");
    }
  }

  /** `coerce_path_field_normal_relative` on the dictionary's contents. */
  function CoercedPathField(fields: map<string, FieldValue>, field: string): (r: Result<map<string, FieldValue>, FieldError>)
    ensures r.Success? ==> r.value.Keys == fields.Keys
    ensures r.Success? ==> forall k :: k in fields && k != field ==> r.value[k] == fields[k]
    ensures r.Success? && field in fields && fields[field].StrValue? ==>
              r.value[field].StrValue? && IsNormalRelative(r.value[field].s)
              && NormNames(r.value[field].s) == NormNames(fields[field].s)
    ensures r.Success? && field in fields && fields[field].StrValue? ==>
              r.value[field].StrValue? && MakePathNormalRelative(fields[field].s) == Success(r.value[field].s)
    ensures r.Success? && (field !in fields || fields[field].NoneValue?) ==> r.value == fields
    ensures r.Failure? <==> field in fields && match fields[field]
                                              case NoneValue => false
                                              case StrValue(s) => NormNames(s).None?
                                              case _ => true
    ensures r.Failure? ==> r.error == match fields[field]
                                      case StrValue(s) => BadPath(field, EscapesImage(s))
                                      case other => NotAPath(field, other)
  {
    if field !in fields then Success(fields)
    else match fields[field]
      case NoneValue => Success(fields)
      case StrValue(s) =>
        (match MakePathNormalRelative(s)
         case Success(normal) => Success(fields[field := StrValue(normal)])
         case Failure(e) => Failure(BadPath(field, e)))
      case other => Failure(NotAPath(field, other))
  }

  /** Normalises `kwargs[field]` in place when it is set; on an error the dictionary is left as it was. */
  method CoercePathFieldNormalRelative(kwargs: Kwargs, field: string) returns (r: Outcome<FieldError>)
    modifies kwargs
    ensures match CoercedPathField(old(kwargs.fields), field)
            case Success(fields) => r == Pass && kwargs.fields == fields
            case Failure(e) => r == Fail(e) && kwargs.fields == old(kwargs.fields)
  {
    var coerced := CoercedPathField(kwargs.fields, field);
    match coerced {
      case Success(fields) =>
        kwargs.fields := fields;
        r := Pass;
      case Failure(e) =>
        r := Fail(e);
    }
  }
}
