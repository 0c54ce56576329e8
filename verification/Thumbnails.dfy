/** The thumbnail job: one media row and its blobs, with storage, processor and database calls that may fail. */
module Thumbnails {
  import opened Basics
  import opened Text
  import opened Tasks

  datatype Status = Pending | Processing | Finished | Failed

  datatype Row = Row(id: string, fileSize: int, thumbKey: Option<string>, thumbIsOrig: bool, status: Status,
                     thumbSize: Option<int>)

  /** An exception, as far as it is looked at. */
  datatype Failure = Failure(isValueError: bool, message: string)

  datatype Thumbnail = Thumbnail(data: Option<seq<byte>>, isOrig: bool, format: string, size: int)

  /** A row update: somebody else may delete the row just before it, and it may raise, with no effect then. */
  datatype Call = Call(vanishes: bool, failure: Option<Failure>)

  /** A failing put: before it opens the file it leaves what is there, after that a file with some of the bytes. */
  datatype PutFailure = PutFailure(failure: Failure, partial: Option<seq<byte>>)

  /** How the calls of one job turn out. */
  datatype Env = Env(load: Option<Failure>, mark: Call, hasProcessor: bool, config: Option<Failure>,
                     read: Option<Failure>, extract: Option<Failure>, generate: Result<Thumbnail, Failure>,
                     put: Option<PutFailure>, finish: Call, deletes: bool, last: Call)

  // ----- failure reasons -----

  datatype Reason =
    | MissingMedia | AlreadyDone
    | ProcessorMissing | MetadataExtractFailed | ThumbnailGenerateFailed | ThumbnailStoreFailed
    | StorageReadFailed | RepositoryUpdateFailed

  function FailureReason(e: Failure): Reason {
    if e.isValueError && e.message == "processor_missing" then ProcessorMissing
    else
      var message := Lower(e.message);
      if Contains(message, "extract") && Contains(message, "metadata") then MetadataExtractFailed
      else if Contains(message, "thumbnail") && !Contains(message, "cleanup") then ThumbnailGenerateFailed
      else if Contains(message, "store") || Contains(message, "write thumb") || Contains(message, "thumbnail_store")
      then ThumbnailStoreFailed
      else if Contains(message, "read source") || Contains(message, "storage read") || Contains(message, "get_bytes")
      then StorageReadFailed
      else if Contains(message, "update media") || Contains(message, "repository update") then RepositoryUpdateFailed
      else ThumbnailGenerateFailed
  }

  predicate IsRetryable(reason: Reason) {
    reason in {StorageReadFailed, ThumbnailStoreFailed, RepositoryUpdateFailed, ThumbnailGenerateFailed}
  }

  /** Only two kinds of failure are final at once. */
  lemma RetryableExactly(e: Failure)
    ensures !IsRetryable(FailureReason(e)) <==>
              (e.isValueError && e.message == "processor_missing")
              || (Contains(Lower(e.message), "extract") && Contains(Lower(e.message), "metadata"))
  {
  }

  lemma ContainsParts(s: string, whole: string, at: nat, part: string)
    requires at <= |whole| && part <= whole[at..]
    ensures Contains(s, whole) ==> Contains(s, part)
  {
    if Contains(s, whole) {
      var i :| 0 <= i <= |s| - |whole| && whole <= s[i..];
      assert s[i..][at..] == s[i + at..];
      assert part <= s[i + at..];
    }
  }

  lemma ContainsItsLetters(s: string, part: string, k: nat)
    requires k < |part| && part[k] !in s
    ensures !Contains(s, part)
  {
    forall i | 0 <= i <= |s| - |part| ensures !(part <= s[i..]) {
      assert s[i..][k] == s[i + k] && s[i + k] in s;
    }
  }

  lemma ProcessorMissingStoresNothing()
    ensures var m := Lower("processor_missing"); !Contains(m, "store") && !Contains(m, "write thumb")
  {
    var m := Lower("processor_missing");
    assert 't' !in m;
    ContainsItsLetters(m, "store", 1);
    ContainsItsLetters(m, "write thumb", 3);
  }

  /** When any failure, of a put or of another call, is reported as a store failure: its message speaks of storing or of
      writing a thumb, and does not speak of a thumbnail, unless of a cleanup too, nor of extracting metadata. */
  lemma StoreFailureExactly(e: Failure)
    ensures var m := Lower(e.message);
            FailureReason(e) == ThumbnailStoreFailed
            <==> && (Contains(m, "store") || Contains(m, "write thumb"))
                 && (Contains(m, "thumbnail") ==> Contains(m, "cleanup"))
                 && !(Contains(m, "extract") && Contains(m, "metadata"))
  {
    var m := Lower(e.message);
    ContainsParts(m, "thumbnail_store", 10, "store");
    if e.message == "processor_missing" { ProcessorMissingStoresNothing(); }
  }

  /** So a message made for it, "thumbnail_store", is recognised only next to a cleanup. */
  lemma StoreFailureIsMisread(e: Failure)
    requires Contains(Lower(e.message), "thumbnail_store")
    ensures var m := Lower(e.message);
            FailureReason(e) == ThumbnailStoreFailed
            <==> Contains(m, "cleanup") && !(Contains(m, "extract") && Contains(m, "metadata"))
  {
    StoreFailureExactly(e);
    ContainsParts(Lower(e.message), "thumbnail_store", 0, "thumbnail");
    ContainsParts(Lower(e.message), "thumbnail_store", 10, "store");
  }

  /** The errors the file system raises name the path, and the path names the directory of the thumbnails: such a
      failing put is not a store failure, unless the text speaks of a cleanup and of storing, say in the root's
      path. */
  lemma PathErrorIsMisread(e: Failure, before: string, after: string)
    requires e.message == before + "thumbnails" + after
    ensures var m := Lower(e.message);
            FailureReason(e) == ThumbnailStoreFailed
            <==> && Contains(m, "cleanup") && (Contains(m, "store") || Contains(m, "write thumb"))
                 && !(Contains(m, "extract") && Contains(m, "metadata"))
  {
    var m := Lower(e.message);
    assert m[|before|..] == "thumbnails" + Lower(after);
    assert "thumbnail" <= m[|before|..];
    StoreFailureExactly(e);
  }

  /** Text without these letters and without "store" gets the default reason. */
  lemma DefaultReason(e: Failure)
    requires !e.isValueError && !Contains(Lower(e.message), "store")
    requires var m := Lower(e.message); 'm' !in m && 'w' !in m && 'u' !in m && 'g' !in m
    ensures FailureReason(e) == ThumbnailGenerateFailed
  {
    var m := Lower(e.message);
    ContainsItsLetters(m, "metadata", 0);
    ContainsItsLetters(m, "write thumb", 0);
    ContainsItsLetters(m, "thumbnail_store", 3);
    ContainsItsLetters(m, "read source", 7);
    ContainsItsLetters(m, "storage read", 5);
    ContainsItsLetters(m, "get_bytes", 0);
    ContainsItsLetters(m, "update media", 0);
    ContainsItsLetters(m, "repository update", 11);
  }

  const DISK_FULL := Failure(false, "[Errno 28] No " + "space left on device")

  /** And the error of a write to a full disk, which names no path, is reported as a generation failure. */
  lemma DiskFullIsMisread()
    ensures FailureReason(DISK_FULL) == ThumbnailGenerateFailed
  {
    DiskFullLower();
    OneS("[errno 28] no ", "pace left on device");
    assert forall c :: c in {'m', 'w', 'u', 'g', 's'} ==> c !in "[errno 28] no " && c !in "pace left on device";
    DefaultReason(DISK_FULL);
  }

  lemma DiskFullLower()
    ensures Lower(DISK_FULL.message) == "[errno 28] no " + "s" + "pace left on device"
  {
    LowerOfSum("[Errno 28] No ", "space left on device");
    assert Lower("[Errno 28] No ") == "[errno 28] no ";
    NothingToLower("space left on device");
    assert "space left on device" == "s" + "pace left on device";
  }

  lemma LowerOfSum(a: string, b: string)
    ensures Lower(a + b) == Lower(a) + Lower(b)
  {
  }

  lemma NothingToLower(s: string)
    requires forall i :: 0 <= i < |s| ==> LowerChar(s[i]) == s[i]
    ensures Lower(s) == s
  {
  }

  /** Text whose only "s" is not followed by a "t" does not contain "store". */
  lemma OneS(before: string, after: string)
    requires 's' !in before && 's' !in after && after != [] && after[0] != 't'
    ensures !Contains(before + "s" + after, "store")
  {
    var m := before + "s" + after;
    forall i | 0 <= i <= |m| - |"store"| ensures !("store" <= m[i..]) {
      assert m[i..][0] == m[i] && m[i..][1] == m[i + 1];
      assert m[i] == if i < |before| then before[i] else if i == |before| then 's' else after[i - |before| - 1];
    }
  }

  // ----- rows and blobs -----

  const NOT_FOUND := Failure(false, "media_not_found")

  function ThumbKey(id: string, format: string): string {
    "thumbnails/" + id + "." + if format != "jpeg" then format else "jpg"
  }

  /** A finished row is the original, or has a blob; any other row has no trace of a thumbnail. */
  predicate RowIsSound(row: Row, blobs: map<string, seq<byte>>) {
    if row.status != Finished then row.thumbKey.None? && row.thumbSize.None? && !row.thumbIsOrig
    else if row.thumbIsOrig then row.thumbKey.None? && row.thumbSize == Some(row.fileSize)
    else row.thumbKey.Some? && row.thumbKey.value in blobs
  }

  /** What the try block runs into first, if anything, on a row that is there when it starts. */
  function FirstFailure(env: Env): Option<Failure> {
    if !env.hasProcessor then Some(Failure(true, "processor_missing"))
    else if env.config.Some? then env.config
    else if env.read.Some? then env.read
    else if env.extract.Some? then env.extract
    else if env.generate.Err? then Some(env.generate.error)
    else if !env.generate.value.isOrig && env.put.Some? then Some(env.put.value.failure)
    else if env.finish.failure.Some? then env.finish.failure
    else if env.finish.vanishes then Some(NOT_FOUND)
    else None
  }

  /** The finished row for a generated thumbnail. */
  predicate Shows(row: Row, thumbnail: Thumbnail, blobs: map<string, seq<byte>>) {
    && row.status == Finished && row.thumbIsOrig == thumbnail.isOrig
    && if thumbnail.isOrig then row.thumbKey == None && row.thumbSize == Some(row.fileSize)
       else
         && row.thumbKey == Some(ThumbKey(row.id, thumbnail.format)) && row.thumbSize == Some(thumbnail.size)
         && row.thumbKey.value in blobs
         && blobs[row.thumbKey.value] == if thumbnail.data.Some? then thumbnail.data.value else []
  }

  /** A thumbnail is put. */
  predicate ReachesPut(env: Env) {
    && env.hasProcessor && env.config.None? && env.read.None? && env.extract.None? && env.generate.Ok?
    && !env.generate.value.isOrig
  }

  /** The put writes the blob. */
  predicate Writes(env: Env, id: string, key: string) {
    ReachesPut(env) && env.put.None? && key == ThumbKey(id, env.generate.value.format)
  }

  /** The put fails with the file open. */
  predicate Tears(env: Env, id: string, key: string) {
    ReachesPut(env) && env.put.Some? && env.put.value.partial.Some? && key == ThumbKey(id, env.generate.value.format)
  }

  /** The torn blobs after a try. */
  function TornBy(env: Env, id: string, torn: set<string>): set<string> {
    if !ReachesPut(env) then torn
    else
      var key := ThumbKey(id, env.generate.value.format);
      if env.put.None? then torn - {key} else if env.put.value.partial.Some? then torn + {key} else torn
  }

  /** The row, the blobs that failed deletions left and those that failing puts left. */
  datatype Seen = Seen(row: Option<Row>, leaked: set<string>, torn: set<string>)

  class UploadService {
    var row: Option<Row>
    var blobs: map<string, seq<byte>>
    ghost var leaked: set<string>  // blobs that were written and whose deletion failed
    ghost var torn: set<string>    // blobs that a failing put left

    constructor (id: string, fileSize: int)
      ensures Valid() && row == Some(Row(id, fileSize, None, false, Pending, None)) && leaked == torn == {}
    {
      row, blobs := Some(Row(id, fileSize, None, false, Pending, None)), map[];
      leaked, torn := {}, {};
    }

    predicate Referenced(key: string)
      reads this
    {
      row.Some? && row.value.thumbKey == Some(key)
    }

    /** The row is sound, and a blob that the row does not name is there because its deletion failed or because a put
        failed halfway. */
    ghost function Look(): Seen
      reads this
    {
      Seen(row, leaked, torn)
    }

    ghost predicate Valid()
      reads this
    {
      && (row.Some? ==> RowIsSound(row.value, blobs))
      && leaked + torn <= blobs.Keys && leaked !! torn
      && (forall key :: key in torn ==> !Referenced(key))
      && (forall key :: key in blobs && !Referenced(key) ==> key in leaked || key in torn)
    }

    /** update_media_thumbnail_state writes the four thumbnail columns of the row with this id. */
    method UpdateThumbnailState(call: Call, media: Row) returns (failure: Option<Failure>)
      modifies this`row
      ensures row == if call.vanishes || old(row).None? then None
                     else if call.failure.Some? then old(row)
                     else Some(old(row).value.(thumbKey := media.thumbKey, thumbIsOrig := media.thumbIsOrig,
                                               status := media.status, thumbSize := media.thumbSize))
      ensures failure == if call.failure.Some? then call.failure else if row.None? then Some(NOT_FOUND) else None
    {
      if call.vanishes {
        row := None;
      }
      if call.failure.Some? {
        return call.failure;
      }
      if row.None? {
        return Some(NOT_FOUND);
      }
      row := Some(row.value.(thumbKey := media.thumbKey, thumbIsOrig := media.thumbIsOrig,
                             status := media.status, thumbSize := media.thumbSize));
      return None;
    }

    method PutBlob(key: string, data: seq<byte>)
      modifies this`blobs, this`leaked, this`torn
      ensures blobs == old(blobs)[key := data] && leaked == old(leaked) - {key} && torn == old(torn) - {key}
    {
      blobs := blobs[key := data];
      leaked, torn := leaked - {key}, torn - {key};
    }

    /** A put that raises. Nobody deletes what it leaves. */
    method FailPut(key: string, partial: Option<seq<byte>>)
      modifies this`blobs, this`leaked, this`torn
      ensures partial.None? ==> blobs == old(blobs) && leaked == old(leaked) && torn == old(torn)
      ensures partial.Some? ==>
                blobs == old(blobs)[key := partial.value] && leaked == old(leaked) - {key} && torn == old(torn) + {key}
    {
      if partial.Some? {
        blobs := blobs[key := partial.value];
        leaked, torn := leaked - {key}, torn + {key};
      }
    }

    /** Deleting what was written, if anything; a failure is only logged. */
    method DeleteWritten(written: Option<string>, works: bool)
      modifies this`blobs, this`leaked
      ensures written.None? ==> blobs == old(blobs) && leaked == old(leaked)
      ensures written.Some? && works ==>
                blobs == old(blobs) - {written.value} && leaked == old(leaked) - {written.value}
      ensures written.Some? && !works ==> blobs == old(blobs) && leaked == old(leaked) + {written.value}
    {
      if written.Some? {
        if works {
          blobs := blobs - {written.value};
          leaked := leaked - {written.value};
        } else {
          leaked := leaked + {written.value};
        }
      }
    }

    /** The try block. When it fails, at most one blob was written, and the row still shows no thumbnail. Only then is
        the blob named to be deleted: one that a failing put left is not. */
    method MakeThumbnail(env: Env, loaded: Row) returns (failure: Option<Failure>, written: Option<string>)
      requires Valid() && row == Some(loaded) && loaded.status == Processing
      modifies this
      ensures failure == FirstFailure(env)
      ensures failure.None? ==> Valid() && row.Some? && env.generate.Ok? && Shows(row.value, env.generate.value, blobs)
                                && row.value.id == loaded.id && row.value.fileSize == loaded.fileSize
      ensures failure.Some? ==> row == None || row == Some(loaded)
      ensures torn == TornBy(env, loaded.id, old(torn))
      ensures failure.Some? ==> leaked + torn <= blobs.Keys && leaked !! torn
      ensures failure.Some? && written.Some? ==>
                written.value in blobs && written.value !in torn && written.value !in leaked
      ensures failure.Some? ==> forall key :: key in blobs ==> key in leaked || key in torn || written == Some(key)
      ensures failure.Some? ==> (row == None <==> ReachesFinish(env) && env.finish.vanishes)
      ensures leaked <= old(leaked)
    {
      written := None;
      if !env.hasProcessor {
        return Some(Failure(true, "processor_missing")), written;
      }
      if env.config.Some? {
        return env.config, written;
      }
      if env.read.Some? {
        return env.read, written;
      }
      if env.extract.Some? {
        return env.extract, written;
      }
      if env.generate.Err? {
        return Some(env.generate.error), written;
      }
      var thumbnail := env.generate.value;
      var media := loaded;
      if thumbnail.isOrig {
        media := media.(thumbIsOrig := true, thumbKey := None, thumbSize := Some(media.fileSize));
      } else {
        var thumbKey := ThumbKey(media.id, thumbnail.format);
        if env.put.Some? {
          FailPut(thumbKey, env.put.value.partial);
          return Some(env.put.value.failure), written;
        }
        PutBlob(thumbKey, if thumbnail.data.Some? then thumbnail.data.value else []);
        written := Some(thumbKey);
        media := media.(thumbIsOrig := false, thumbKey := Some(thumbKey), thumbSize := Some(thumbnail.size));
      }
      media := media.(status := Finished);
      failure := UpdateThumbnailState(env.finish, media);
    }

    /** generate_thumbnail. */
    method GenerateThumbnail(env: Env, attempt: int, maxAttempts: int) returns (out: Outcome, reason: Option<Reason>)
      requires Valid()
      modifies this
      ensures Valid()
      ensures row.Some? ==> old(row).Some? && row.value.id == old(row).value.id
                            && row.value.fileSize == old(row).value.fileSize
      // a written blob is lost only if the deletion failed
      ensures env.deletes ==> leaked <= old(leaked)
      // and a put that fails halfway leaves one that nobody deletes
      ensures torn == if !Settled(old(row)) && Tries(env) then TornBy(env, old(row).value.id, old(torn)) else old(torn)
      // nothing to do, or nothing known: nothing changes
      ensures env.load.Some? ==> out == Raised && row == old(row) && blobs == old(blobs)
      ensures env.load.None? && Settled(old(row)) ==>
                out == RunResult(Skipped, false) && row == old(row) && blobs == old(blobs)
      // the row could not be marked
      ensures env.load.None? && !Settled(old(row)) && !Marks(env) ==>
                out == Raised && (row == None || row == old(row)) && blobs == old(blobs)
      // success, exactly when nothing fails
      ensures env.load.None? && !Settled(old(row)) && Marks(env) ==>
                (out == RunResult(Succeeded, false) <==> FirstFailure(env).None?)
      ensures out == RunResult(Succeeded, false) ==>
                row.Some? && env.generate.Ok? && Shows(row.value, env.generate.value, blobs)
      // failure
      ensures env.load.None? && !Settled(old(row)) && Marks(env) && FirstFailure(env).Some? ==>
                var retryable := IsRetryable(FailureReason(FirstFailure(env).value));
                && out == FailedOutcome(env, retryable, attempt < maxAttempts)
                && (row.Some? ==>
                      row.value.status == if env.last.failure.Some? then Processing
                                          else if retryable && attempt < maxAttempts then Pending else Failed)
                && (out != Raised ==> reason == Some(FailureReason(FirstFailure(env).value)))
                && (row.None? <==> LosesRow(env))
    {
      if env.load.Some? {
        return Raised, None;
      }
      if row.None? {
        return RunResult(Skipped, false), Some(MissingMedia);
      }
      var media := row.value;
      if media.status == Finished {
        return RunResult(Skipped, false), Some(AlreadyDone);
      }
      media := media.(status := Processing);
      var failure := UpdateThumbnailState(env.mark, media);
      if failure.Some? {
        return Raised, None;
      }
      var written: Option<string>;
      failure, written := MakeThumbnail(env, media);
      if failure.None? {
        return RunResult(Succeeded, false), None;
      }
      reason := Some(FailureReason(failure.value));
      var retryable := IsRetryable(reason.value);
      if retryable && attempt < maxAttempts {
        media := media.(status := Pending, thumbKey := None, thumbSize := None, thumbIsOrig := false);
        DeleteWritten(written, env.deletes);
        failure := UpdateThumbnailState(env.last, media);
        if failure.Some? {
          return Raised, None;
        }
        return RunResult(RetryScheduled, true), reason;
      }
      media := media.(status := Failed, thumbKey := None, thumbSize := None, thumbIsOrig := false);
      DeleteWritten(written, env.deletes);
      failure := UpdateThumbnailState(env.last, media);
      return RunResult(if retryable then FailedExhausted else FailedPermanent, false), reason;
    }
  }

  /** There is no row, or its thumbnail is there. */
  predicate Settled(row: Option<Row>) {
    row.None? || row.value.status == Finished
  }

  /** The row can be marked as being processed. */
  predicate Marks(env: Env) {
    env.mark.failure.None? && !env.mark.vanishes
  }

  /** The try block is entered, if the row is there and not finished. */
  predicate Tries(env: Env) {
    env.load.None? && Marks(env)
  }

  /** The try block gets as far as updating the row. */
  predicate ReachesFinish(env: Env) {
    && env.hasProcessor && env.config.None? && env.read.None? && env.extract.None? && env.generate.Ok?
    && (env.generate.value.isOrig || env.put.None?)
  }

  /** In a job that fails, somebody else deletes the row. */
  predicate LosesRow(env: Env) {
    (ReachesFinish(env) && env.finish.vanishes) || env.last.vanishes
  }

  /** What the queue sees of a failed job. A retry that could not be recorded, or whose row is gone, raises. */
  function FailedOutcome(env: Env, retryable: bool, attemptsLeft: bool): Outcome {
    if retryable && attemptsLeft then
      if env.last.failure.Some? || LosesRow(env) then Raised else RunResult(RetryScheduled, true)
    else RunResult(if retryable then FailedExhausted else FailedPermanent, false)
  }

  // ----- the job and its retries -----

  /** The row is read and marked, and if the try fails, it is still there and its last update works. What the processor,
      the storage and the update that ends the try do is left open. */
  predicate Undisturbed(env: Env) {
    && env.load.None? && Marks(env)
    && (FirstFailure(env).Some? ==> !LosesRow(env) && env.last.failure.None?)
  }

  predicate Recovers(env: Env) {
    FirstFailure(env).Some? && IsRetryable(FailureReason(FirstFailure(env).value))
  }

  /** The attempt that ends the job: the first, from the given one on, that does not fail in a way worth repeating, or
      the last one allowed. */
  function LastAttempt(envs: nat -> Env, attempt: nat, maxAttempts: nat): (last: nat)
    requires attempt <= maxAttempts
    ensures attempt <= last <= maxAttempts
    decreases maxAttempts - attempt
  {
    if attempt < maxAttempts && Recovers(envs(attempt)) then LastAttempt(envs, attempt + 1, maxAttempts) else attempt
  }

  /** The attempts that are made, from the given one to the one that ends the job, are undisturbed. */
  predicate RunsUndisturbed(envs: nat -> Env, attempt: nat, maxAttempts: nat)
    requires attempt <= maxAttempts
    decreases maxAttempts - attempt
  {
    && Undisturbed(envs(attempt))
    && (attempt < maxAttempts && Recovers(envs(attempt)) ==> RunsUndisturbed(envs, attempt + 1, maxAttempts))
  }

  /** No deletion fails in the first n attempts. */
  predicate Deletes(envs: nat -> Env, n: nat) {
    n == 0 || (Deletes(envs, n - 1) && envs(n).deletes)
  }

  /** The torn blobs after the first n attempts on a row that is not finished. */
  function TornAfter(envs: nat -> Env, n: nat, id: string, before: set<string>): set<string> {
    if n == 0 then before
    else
      var earlier := TornAfter(envs, n - 1, id, before);
      if Tries(envs(n)) then TornBy(envs(n), id, earlier) else earlier
  }

  /** The attempt, the n-th, tries and its put does this to the key. */
  predicate TearsAt(envs: nat -> Env, n: nat, id: string, key: string) {
    Tries(envs(n)) && Tears(envs(n), id, key)
  }

  predicate WritesAt(envs: nat -> Env, n: nat, id: string, key: string) {
    Tries(envs(n)) && Writes(envs(n), id, key)
  }

  /** No attempt after the k-th and up to the n-th writes the key. A blob is deleted only by the attempt
      that wrote it. */
  ghost predicate UnwrittenSince(envs: nat -> Env, k: nat, n: nat, id: string, key: string) {
    forall j: nat :: k < j <= n ==> !WritesAt(envs, j, id, key)
  }

  /** An attempt among the first n left the blob, and none after it wrote it. */
  ghost predicate LeftTorn(envs: nat -> Env, n: nat, id: string, key: string) {
    exists k: nat :: 1 <= k <= n && TearsAt(envs, k, id, key) && UnwrittenSince(envs, k, n, id, key)
  }

  /** A blob is torn after n attempts exactly when a put of one of them failed with the file open, or it was torn
      before, and no attempt since then wrote it. */
  lemma {:induction false} TornExactly(envs: nat -> Env, n: nat, id: string, before: set<string>, key: string)
    ensures key in TornAfter(envs, n, id, before)
       <==> LeftTorn(envs, n, id, key) || (key in before && UnwrittenSince(envs, 0, n, id, key))
  {
    if n == 0 {
    } else {
      TornExactly(envs, n - 1, id, before, key);
      LeftTornNext(envs, n, id, key);
      UnwrittenNext(envs, 0, n, id, key);
    }
  }

  lemma UnwrittenNext(envs: nat -> Env, k: nat, n: nat, id: string, key: string)
    requires k < n
    ensures UnwrittenSince(envs, k, n, id, key)
       <==> UnwrittenSince(envs, k, n - 1, id, key) && !WritesAt(envs, n, id, key)
  {
  }

  lemma LeftTornNext(envs: nat -> Env, n: nat, id: string, key: string)
    requires n > 0
    ensures LeftTorn(envs, n, id, key)
       <==> TearsAt(envs, n, id, key) || (LeftTorn(envs, n - 1, id, key) && !WritesAt(envs, n, id, key))
  {
    if TearsAt(envs, n, id, key) {
      assert UnwrittenSince(envs, n, n, id, key);
    }
    if LeftTorn(envs, n - 1, id, key) && !WritesAt(envs, n, id, key) {
      var k: nat :| 1 <= k <= n - 1 && TearsAt(envs, k, id, key) && UnwrittenSince(envs, k, n - 1, id, key);
      UnwrittenNext(envs, k, n, id, key);
    }
    if LeftTorn(envs, n, id, key) && !TearsAt(envs, n, id, key) {
      var k: nat :| 1 <= k <= n && TearsAt(envs, k, id, key) && UnwrittenSince(envs, k, n, id, key);
      UnwrittenNext(envs, k, n, id, key);
    }
  }

  function AttemptTorn(env: Env, row: Option<Row>, before: set<string>): set<string> {
    if !Settled(row) && Tries(env) then TornBy(env, row.value.id, before) else before
  }

  predicate SameUnsettled(before: Option<Row>, after: Option<Row>) {
    !Settled(before) && !Settled(after) && after.value.id == before.value.id
  }

  /** The row that the attempt leaves when it ends the job, and the state recorded. */
  predicate EndsAs(env: Env, row: Option<Row>, final: TaskState) {
    && row.Some? && row.value.status == (if FirstFailure(env).None? then Finished else Failed)
    && final == FinalState(env)
  }

  /** What one attempt does: to the blobs lost and torn, and to the row; and, undisturbed, whether it is repeated. */
  predicate Attempted(env: Env, attemptsLeft: bool, s: Seen, t: Seen, again: bool, final: TaskState) {
    && (env.deletes ==> t.leaked <= s.leaked)
    && t.torn == AttemptTorn(env, s.row, s.torn)
    && (again ==> attemptsLeft && SameUnsettled(s.row, t.row))
    && (Undisturbed(env) && !Settled(s.row) ==>
          if again then Recovers(env) else !(Recovers(env) && attemptsLeft) && EndsAs(env, t.row, final))
  }

  /** One turn of the queue's loop: whether the handler is called again, and if not, the state recorded. */
  method Attempt(service: UploadService, env: Env, attempt: nat, maxAttempts: nat)
    returns (again: bool, final: TaskState)
    requires service.Valid()
    modifies service
    ensures service.Valid()
    ensures Attempted(env, attempt < maxAttempts, old(service.Look()), service.Look(), again, final)
  {
    var out, reason := service.GenerateThumbnail(env, attempt, maxAttempts);
    again, final := Retries(out, attempt, maxAttempts), Terminal(out);
  }

  function FinalState(env: Env): TaskState {
    if FirstFailure(env).None? then Succeeded else if Recovers(env) then FailedExhausted else FailedPermanent
  }

  /** The torn blobs after a job of n attempts. */
  function JobTorn(envs: nat -> Env, n: nat, row: Option<Row>, before: set<string>): set<string> {
    if Settled(row) then before else TornAfter(envs, n, row.value.id, before)
  }

  lemma JobTornNext(envs: nat -> Env, n: nat, first: Option<Row>, row: Option<Row>, before: set<string>)
    requires n > 0 && (first == row || SameUnsettled(first, row))
    ensures AttemptTorn(envs(n), row, JobTorn(envs, n - 1, first, before)) == JobTorn(envs, n, first, before)
  {
  }

  /** The attempts from the given one on are undisturbed, and the last of them is this one. */
  predicate Calm(envs: nat -> Env, attempt: nat, maxAttempts: nat, last: nat)
    requires attempt <= maxAttempts
  {
    RunsUndisturbed(envs, attempt, maxAttempts) && LastAttempt(envs, attempt, maxAttempts) == last
  }

  lemma CalmNext(envs: nat -> Env, attempt: nat, maxAttempts: nat, last: nat)
    requires attempt <= maxAttempts && Calm(envs, attempt, maxAttempts, last)
    ensures Undisturbed(envs(attempt))
    ensures if attempt < maxAttempts && Recovers(envs(attempt)) then Calm(envs, attempt + 1, maxAttempts, last)
            else attempt == last
  {
  }

  /** Before the given attempt, the attempts before it having been repeated. */
  ghost predicate JobInv(envs: nat -> Env, attempt: nat, maxAttempts: nat, first: Seen, s: Seen)
    requires maxAttempts >= 1
  {
    && 1 <= attempt <= maxAttempts
    && (Deletes(envs, attempt - 1) ==> s.leaked <= first.leaked)
    && s.torn == JobTorn(envs, attempt - 1, first.row, first.torn)
    && (s.row == first.row || SameUnsettled(first.row, s.row))
    && (!Settled(first.row) && RunsUndisturbed(envs, 1, maxAttempts) ==>
          Calm(envs, attempt, maxAttempts, LastAttempt(envs, 1, maxAttempts)))
  }

  /** After the attempt that ended the job. */
  ghost predicate JobDone(envs: nat -> Env, attempt: nat, maxAttempts: nat, first: Seen, s: Seen, final: TaskState)
    requires maxAttempts >= 1
  {
    && 1 <= attempt <= maxAttempts
    // a written blob is lost only if a deletion failed in an attempt that was made
    && (Deletes(envs, attempt) ==> s.leaked <= first.leaked)
    // the blobs that failing puts left
    && s.torn == JobTorn(envs, attempt, first.row, first.torn)
    // unless, in an attempt that is made, the row cannot be read or updated or is deleted, the job leaves it finished
    // or failed, and finished exactly when the last attempt met no failure
    && (!Settled(first.row) && RunsUndisturbed(envs, 1, maxAttempts) ==>
          attempt == LastAttempt(envs, 1, maxAttempts) && EndsAs(envs(attempt), s.row, final))
  }

  lemma {:induction false} JobCalm(envs: nat -> Env, attempt: nat, maxAttempts: nat, first: Seen, s: Seen, t: Seen,
                                   again: bool, final: TaskState)
    requires maxAttempts >= 1 && JobInv(envs, attempt, maxAttempts, first, s)
    requires Attempted(envs(attempt), attempt < maxAttempts, s, t, again, final)
    requires !Settled(first.row) && RunsUndisturbed(envs, 1, maxAttempts)
    ensures again ==> attempt < maxAttempts && Calm(envs, attempt + 1, maxAttempts, LastAttempt(envs, 1, maxAttempts))
    ensures !again ==> attempt == LastAttempt(envs, 1, maxAttempts) && EndsAs(envs(attempt), t.row, final)
  {
    CalmNext(envs, attempt, maxAttempts, LastAttempt(envs, 1, maxAttempts));
  }

  lemma DeletesNext(envs: nat -> Env, n: nat, first: Seen, s: Seen, t: Seen)
    requires n > 0 && (Deletes(envs, n - 1) ==> s.leaked <= first.leaked) && (envs(n).deletes ==> t.leaked <= s.leaked)
    ensures Deletes(envs, n) ==> t.leaked <= first.leaked
  {
  }

  lemma {:induction false} JobStep(envs: nat -> Env, attempt: nat, maxAttempts: nat, first: Seen, s: Seen, t: Seen,
                                   again: bool, final: TaskState)
    requires maxAttempts >= 1 && JobInv(envs, attempt, maxAttempts, first, s)
    requires Attempted(envs(attempt), attempt < maxAttempts, s, t, again, final)
    ensures again ==> JobInv(envs, attempt + 1, maxAttempts, first, t)
    ensures !again ==> JobDone(envs, attempt, maxAttempts, first, t, final)
  {
    JobTornNext(envs, attempt, first.row, s.row, first.torn);
    DeletesNext(envs, attempt, first, s, t);
    if !Settled(first.row) && RunsUndisturbed(envs, 1, maxAttempts) {
      JobCalm(envs, attempt, maxAttempts, first, s, t, again, final);
    }
  }

  /** The queue's loop around the handler: another attempt exactly when one is scheduled. */
  method RunJob(service: UploadService, envs: nat -> Env, maxAttempts: nat) returns (final: TaskState, attempt: nat)
    requires service.Valid() && maxAttempts >= 1
    modifies service
    ensures service.Valid()
    ensures JobDone(envs, attempt, maxAttempts, old(service.Look()), service.Look(), final)
  {
    attempt := 1;
    ghost var first := service.Look();
    while true
      invariant service.Valid()
      invariant JobInv(envs, attempt, maxAttempts, first, service.Look())
      decreases maxAttempts - attempt
    {
      ghost var before := service.Look();
      var again;
      again, final := Attempt(service, envs(attempt), attempt, maxAttempts);
      JobStep(envs, attempt, maxAttempts, first, before, service.Look(), again, final);
      if !again {
        return;
      }
      attempt := attempt + 1;
    }
  }

  /** A whole job, seen from the storage: a blob that the row does not name and that no failed deletion explains is
      there exactly when a put of an attempt that was made failed with the file open, or it was there before, and no
      attempt since then wrote it. */
  method RunJobAndCount(service: UploadService, envs: nat -> Env, maxAttempts: nat) returns (attempt: nat)
    requires service.Valid() && maxAttempts >= 1 && !Settled(service.row)
    modifies service
    ensures service.Valid() && 1 <= attempt <= maxAttempts
    ensures var id := old(service.row).value.id;
            forall key :: (key in service.blobs && !service.Referenced(key) && key !in service.leaked)
              <==> LeftTorn(envs, attempt, id, key)
                   || (key in old(service.torn) && UnwrittenSince(envs, 0, attempt, id, key))
  {
    ghost var id, before := service.row.value.id, service.torn;
    var final;
    final, attempt := RunJob(service, envs, maxAttempts);
    forall key
      ensures key in service.torn
         <==> LeftTorn(envs, attempt, id, key) || (key in before && UnwrittenSince(envs, 0, attempt, id, key))
    {
      TornExactly(envs, attempt, id, before, key);
    }
  }

  // ----- a full disk -----

  /** A job in which the disk is full: the put opens the file, writes some bytes, and raises. */
  function DiskFullEnv(thumbnail: Thumbnail, partial: seq<byte>): Env {
    var works := Call(false, None);
    var put := Some(PutFailure(DISK_FULL, Some(partial)));
    Env(None, works, true, None, None, None, Ok(thumbnail), put, works, true, works)
  }

  /** Each attempt recovers, up to the last. */
  lemma {:induction false} DiskFullExhausts(thumbnail: Thumbnail, partial: seq<byte>, attempt: nat, maxAttempts: nat)
    requires !thumbnail.isOrig && attempt <= maxAttempts
    ensures var envs := (n: nat) => DiskFullEnv(thumbnail, partial);
            RunsUndisturbed(envs, attempt, maxAttempts) && LastAttempt(envs, attempt, maxAttempts) == maxAttempts
    decreases maxAttempts - attempt
  {
    DiskFullIsMisread();
    if attempt < maxAttempts { DiskFullExhausts(thumbnail, partial, attempt + 1, maxAttempts); }
  }

  /** With a full disk the job fails for good after all its attempts, no deletion fails, and the partial blob stays. */
  method DiskFullJob(id: string, fileSize: int, thumbnail: Thumbnail, partial: seq<byte>, maxAttempts: nat)
    returns (service: UploadService)
    requires !thumbnail.isOrig && maxAttempts >= 1
    ensures service.Valid() && service.leaked == {}
    ensures service.row.Some? && service.row.value.status == Failed
    ensures var key := ThumbKey(id, thumbnail.format);
            key in service.blobs && !service.Referenced(key) && service.torn == {key}
  {
    service := new UploadService(id, fileSize);
    var envs := (n: nat) => DiskFullEnv(thumbnail, partial);
    DiskFullExhausts(thumbnail, partial, 1, maxAttempts);
    DiskFullTears(thumbnail, partial, maxAttempts, id);
    var final, attempt := RunJob(service, envs, maxAttempts);
  }

  lemma {:induction false} DiskFullTears(thumbnail: Thumbnail, partial: seq<byte>, n: nat, id: string)
    requires !thumbnail.isOrig
    ensures var envs := (m: nat) => DiskFullEnv(thumbnail, partial);
            && TornAfter(envs, n, id, {}) == (if n == 0 then {} else {ThumbKey(id, thumbnail.format)})
            && Deletes(envs, n)
  {
    if n == 0 {
    } else {
      DiskFullTears(thumbnail, partial, n - 1, id);
    }
  }
}
