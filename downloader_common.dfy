/**
 * The checkable parts of `fs_image/rpm/downloader/common.py`: the integrity
 * check a downloaded stream goes through (`verify_chunk_stream`), the
 * database retry schedule, the download buffer size, and how
 * `download_resource` prepares its URLs.
 *
 * The hash algorithms themselves are foreign code: a hasher is a class
 * that remembers the bytes fed to it, and its digest is an arbitrary
 * function of the algorithm name and those bytes.
 */
module DownloaderCommon {
  import opened Wrappers
  import opened Strings

  newtype byte = x: int | 0 <= x < 256

  /** `2 ** i` */
  function Pow2(i: nat): (r: nat)
    ensures r >= 1
  {
    if i == 0 then 1 else 2 * Pow2(i - 1)
  }

  /** `[2 ** i for i in range(n)]` */
  function PowersOfTwo(n: nat): (r: seq<nat>)
    ensures |r| == n && forall i :: 0 <= i < n ==> r[i] == Pow2(i)
  {
    seq(n, i requires 0 <= i < n => Pow2(i))
  }

  /** `DB_MAX_RETRY_S`: the delays, in seconds, between attempts to reach the repo database. */
  const DbMaxRetryS: seq<nat> := PowersOfTwo(8)

  function Sum(s: seq<nat>): nat
    decreases |s|
  {
    if |s| == 0 then 0 else Sum(s[..|s| - 1]) + s[|s| - 1]
  }

  /** Waiting 1, 2, 4, ... seconds `n` times waits `2 ** n - 1` seconds in all. */
  lemma {:induction false} SumOfPowersOfTwo(n: nat)
    ensures Sum(PowersOfTwo(n)) == Pow2(n) - 1
    decreases n
  {
    if n > 0 {
      SumOfPowersOfTwo(n - 1);
      assert PowersOfTwo(n)[..n - 1] == PowersOfTwo(n - 1);
    }
  }

  /** The schedule is the eight delays 1, 2, ..., 128 seconds: 255 seconds, 4 minutes 15, in all. */
  lemma DbRetrySchedule()
    ensures DbMaxRetryS == [1, 2, 4, 8, 16, 32, 64, 128]
    ensures Sum(DbMaxRetryS) == 255
  {
    SumOfPowersOfTwo(8);
    assert Pow2(8) == 256;
    assert Pow2(7) == 128 && Pow2(6) == 64 && Pow2(5) == 32 && Pow2(4) == 16;
  }

  // ---------------------------------------------------------------------
  // verify_chunk_stream

  /** A checksum from the repo metadata: an algorithm name and the expected hex digest. */
  datatype Checksum = Checksum(algorithm: string, hexdigest: string)

  /** What an integrity error reports as expected and as found: a size or a digest. */
  datatype Evidence = Size(bytes: int) | Digest(hex: string)

  datatype FileIntegrityError = FileIntegrityError(location: string, failedCheck: string, expected: Evidence, actual: Evidence)

  /** `ck.hasher()`: an incremental hasher for one algorithm. */
  class Hasher {
    const algorithm: string
    const hashOf: (string, seq<byte>) -> string
    var fed: seq<byte>

    constructor (algorithm: string, hashOf: (string, seq<byte>) -> string)
      ensures this.algorithm == algorithm && this.hashOf == hashOf && fed == []
    {
      this.algorithm := algorithm;
      this.hashOf := hashOf;
      fed := [];
    }

    method Update(chunk: seq<byte>)
      modifies this
      ensures fed == old(fed) + chunk
    {
      fed := fed + chunk;
    }

    function HexDigest(): string
      reads this
    {
      hashOf(algorithm, fed)
    }
  }

  /** All the bytes of the stream, chunk after chunk. */
  function Concat(chunks: seq<seq<byte>>): seq<byte>
    decreases |chunks|
  {
    if |chunks| == 0 then [] else Concat(chunks[..|chunks| - 1]) + chunks[|chunks| - 1]
  }

  /** The running `actual_size += len(chunk)`. */
  function TotalSize(chunks: seq<seq<byte>>): int
    decreases |chunks|
  {
    if |chunks| == 0 then 0 else TotalSize(chunks[..|chunks| - 1]) + |chunks[|chunks| - 1]|
  }

  /** The size counted chunk by chunk is the length of the whole stream. */
  lemma {:induction false} TotalSizeIsLength(chunks: seq<seq<byte>>)
    ensures TotalSize(chunks) == |Concat(chunks)|
    decreases |chunks|
  {
    if |chunks| > 0 {
      TotalSizeIsLength(chunks[..|chunks| - 1]);
    }
  }

  /** The stream's bytes digest to what the checksum expects. */
  predicate Matches(ck: Checksum, hashOf: (string, seq<byte>) -> string, data: seq<byte>) {
    hashOf(ck.algorithm, data) == ck.hexdigest
  }

  /** The error for the first checksum, in declared order, that `data` does not match. */
  function FirstMismatch(checksums: seq<Checksum>, hashOf: (string, seq<byte>) -> string, data: seq<byte>, location: string)
    : Option<FileIntegrityError>
    decreases |checksums|
  {
    if |checksums| == 0 then None
    else
      var ck := checksums[0];
      var actual := hashOf(ck.algorithm, data);
      if actual != ck.hexdigest then Some(FileIntegrityError(location, ck.algorithm, Digest(ck.hexdigest), Digest(actual)))
      else FirstMismatch(checksums[1..], hashOf, data, location)
  }

  /** What the stream raises once it is exhausted: the size check first, then the checksums. */
  function StreamVerdict(chunks: seq<seq<byte>>, checksums: seq<Checksum>, size: int, location: string,
                         hashOf: (string, seq<byte>) -> string): Option<FileIntegrityError>
  {
    var actualSize := TotalSize(chunks);
    if actualSize != size then Some(FileIntegrityError(location, "size", Size(size), Size(actualSize)))
    else FirstMismatch(checksums, hashOf, Concat(chunks), location)
  }

  /**
   * `verify_chunk_stream`: passes every chunk on, counting bytes and feeding
   * one hasher per checksum; after the last chunk it checks the size, then
   * each checksum in turn. The error, if any, is raised only after every
   * chunk has gone through.
   */
  method VerifyChunkStream(chunks: seq<seq<byte>>, checksums: seq<Checksum>, size: int, location: string,
                           hashOf: (string, seq<byte>) -> string)
    returns (yielded: seq<seq<byte>>, error: Option<FileIntegrityError>)
    ensures yielded == chunks
    ensures error == StreamVerdict(chunks, checksums, size, location, hashOf)
  {
    var actualSize := 0;
    var hashers: seq<Hasher> := [];
    for i := 0 to |checksums|
      invariant |hashers| == i
      invariant forall j :: 0 <= j < i ==> fresh(hashers[j])
      invariant forall j :: 0 <= j < i ==> hashers[j].algorithm == checksums[j].algorithm && hashers[j].hashOf == hashOf
      invariant forall j :: 0 <= j < i ==> hashers[j].fed == []
      invariant forall j, k :: 0 <= j < k < i ==> hashers[j] != hashers[k]
    {
      var h := new Hasher(checksums[i].algorithm, hashOf);
      hashers := hashers + [h];
    }
    yielded := [];
    for i := 0 to |chunks|
      invariant yielded == chunks[..i]
      invariant actualSize == TotalSize(chunks[..i])
      invariant forall j :: 0 <= j < |hashers| ==> fresh(hashers[j])
      invariant forall j, k :: 0 <= j < k < |hashers| ==> hashers[j] != hashers[k]
      invariant forall j :: 0 <= j < |hashers| ==> hashers[j].fed == Concat(chunks[..i])
    {
      assert chunks[..i + 1][..i] == chunks[..i];
      actualSize := actualSize + |chunks[i]|;
      for k := 0 to |hashers|
        invariant forall j :: 0 <= j < k ==> hashers[j].fed == Concat(chunks[..i]) + chunks[i]
        invariant forall j :: k <= j < |hashers| ==> hashers[j].fed == Concat(chunks[..i])
      {
        hashers[k].Update(chunks[i]);
      }
      yielded := yielded + [chunks[i]];
    }
    assert chunks[..|chunks|] == chunks;
    if actualSize != size {
      return yielded, Some(FileIntegrityError(location, "size", Size(size), Size(actualSize)));
    }
    ghost var data := Concat(chunks);
    for k := 0 to |checksums|
      invariant FirstMismatch(checksums, hashOf, data, location) == FirstMismatch(checksums[k..], hashOf, data, location)
    {
      assert checksums[k..][1..] == checksums[k + 1..];
      var actual := hashers[k].HexDigest();
      if actual != checksums[k].hexdigest {
        return yielded, Some(FileIntegrityError(location, checksums[k].algorithm, Digest(checksums[k].hexdigest), Digest(actual)));
      }
    }
    error := None;
  }

  /** A size error is raised exactly when the stream's length differs from `size`, whatever the checksums. */
  lemma SizeCheckedFirst(chunks: seq<seq<byte>>, checksums: seq<Checksum>, size: int, location: string,
                         hashOf: (string, seq<byte>) -> string)
    ensures var v := StreamVerdict(chunks, checksums, size, location, hashOf);
            (v.Some? && v.value.expected.Size?) <==> |Concat(chunks)| != size
    ensures var v := StreamVerdict(chunks, checksums, size, location, hashOf);
            |Concat(chunks)| != size ==> v == Some(FileIntegrityError(location, "size", Size(size), Size(|Concat(chunks)|)))
  {
    TotalSizeIsLength(chunks);
    FirstMismatchIsDigest(checksums, hashOf, Concat(chunks), location);
  }

  lemma {:induction false} FirstMismatchIsDigest(checksums: seq<Checksum>, hashOf: (string, seq<byte>) -> string, data: seq<byte>, location: string)
    ensures var m := FirstMismatch(checksums, hashOf, data, location);
            m.Some? ==> m.value.expected.Digest? && m.value.location == location
    decreases |checksums|
  {
    if |checksums| > 0 {
      FirstMismatchIsDigest(checksums[1..], hashOf, data, location);
    }
  }

  /**
   * A checksum error names the first checksum, in declared order, that the
   * stream's bytes do not match, with its expected and its actual digest.
   */
  lemma {:induction false} FirstMismatchIsFirst(checksums: seq<Checksum>, hashOf: (string, seq<byte>) -> string, data: seq<byte>, location: string)
    ensures var m := FirstMismatch(checksums, hashOf, data, location);
            m.Some? ==> exists k :: 0 <= k < |checksums| && !Matches(checksums[k], hashOf, data)
                          && (forall j :: 0 <= j < k ==> Matches(checksums[j], hashOf, data))
                          && m.value == FileIntegrityError(location, checksums[k].algorithm, Digest(checksums[k].hexdigest),
                                                           Digest(hashOf(checksums[k].algorithm, data)))
    ensures FirstMismatch(checksums, hashOf, data, location).None? <==> forall k :: 0 <= k < |checksums| ==> Matches(checksums[k], hashOf, data)
    decreases |checksums|
  {
    if |checksums| > 0 {
      var rest := checksums[1..];
      FirstMismatchIsFirst(rest, hashOf, data, location);
      var m := FirstMismatch(checksums, hashOf, data, location);
      if Matches(checksums[0], hashOf, data) && m.Some? {
        var k :| 0 <= k < |rest| && !Matches(rest[k], hashOf, data)
                 && (forall j :: 0 <= j < k ==> Matches(rest[j], hashOf, data))
                 && m.value == FileIntegrityError(location, rest[k].algorithm, Digest(rest[k].hexdigest),
                                                  Digest(hashOf(rest[k].algorithm, data)));
        assert forall j :: 0 <= j < k + 1 ==> Matches(checksums[j], hashOf, data) by {
          forall j | 0 <= j < k + 1 ensures Matches(checksums[j], hashOf, data) {
            if j > 0 { assert checksums[j] == rest[j - 1]; }
          }
        }
        assert checksums[k + 1] == rest[k];
      }
      if forall k :: 0 <= k < |rest| ==> Matches(rest[k], hashOf, data) {
        if Matches(checksums[0], hashOf, data) {
          forall k | 0 <= k < |checksums| ensures Matches(checksums[k], hashOf, data) {
            if k > 0 { assert checksums[k] == rest[k - 1]; }
          }
        }
      } else {
        var k :| 0 <= k < |rest| && !Matches(rest[k], hashOf, data);
        assert checksums[k + 1] == rest[k];
      }
    }
  }

  /**
   * With the right size, the stream fails a checksum exactly when some
   * digest of its bytes is wrong, and then on the first one; when every
   * digest matches it completes without error.
   */
  lemma ChecksumsInDeclaredOrder(chunks: seq<seq<byte>>, checksums: seq<Checksum>, size: int, location: string,
                                 hashOf: (string, seq<byte>) -> string)
    requires |Concat(chunks)| == size
    ensures var v := StreamVerdict(chunks, checksums, size, location, hashOf);
            v.None? <==> forall k :: 0 <= k < |checksums| ==> Matches(checksums[k], hashOf, Concat(chunks))
    ensures var v := StreamVerdict(chunks, checksums, size, location, hashOf);
            v.Some? ==> exists k :: 0 <= k < |checksums| && !Matches(checksums[k], hashOf, Concat(chunks))
                          && (forall j :: 0 <= j < k ==> Matches(checksums[j], hashOf, Concat(chunks)))
                          && v.value.failedCheck == checksums[k].algorithm
  {
    TotalSizeIsLength(chunks);
    FirstMismatchIsFirst(checksums, hashOf, Concat(chunks), location);
  }

  // ---------------------------------------------------------------------
  // download_resource

  /** `repo_url` with the trailing '/' that `urljoin` needs, added only when missing. */
  function NormaliseRepoUrl(repoUrl: string): (r: string)
    ensures EndsWith(r, "/")
    ensures r == repoUrl || r == repoUrl + "/"
    ensures EndsWith(repoUrl, "/") ==> r == repoUrl
  {
    if EndsWith(repoUrl, "/") then repoUrl else repoUrl + "/"
  }

  datatype DownloadError = AbsoluteRelativeUrl(relativeUrl: string)

  /** The two URLs `download_resource` hands to `urljoin`. */
  datatype UrlJoin = UrlJoin(base: string, relative: string)

  /**
   * The URL preparation of `download_resource`: the repo URL gets its
   * trailing slash, and a relative URL starting with '/' (which would make
   * `urljoin` drop the repo's path) fails the assertion.
   */
  function DownloadResource(repoUrl: string, relativeUrl: string): (r: Result<UrlJoin, DownloadError>)
    ensures r.Failure? <==> StartsWith(relativeUrl, "/")
    ensures r.Failure? ==> r.error == AbsoluteRelativeUrl(relativeUrl)
    ensures r.Success? ==> r.value.relative == relativeUrl && EndsWith(r.value.base, "/")
                           && StartsWith(r.value.base, repoUrl) && |r.value.base| <= |repoUrl| + 1
    ensures r.Success? ==> r.value.base == NormaliseRepoUrl(repoUrl)
  {
    var base := NormaliseRepoUrl(repoUrl);
    if StartsWith(relativeUrl, "/") then Failure(AbsoluteRelativeUrl(relativeUrl))
    else Success(UrlJoin(base, relativeUrl))
  }
}
