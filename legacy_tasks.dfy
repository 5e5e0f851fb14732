/** The earlier `ThumbnailsCreator` (api/src/images/tasks.py): the same save loop and the same
    `finally` that deletes the cached upload, but no `except`, so the first exception reaches
    the caller once the cache key is gone. */
module LegacyTasks {
  import opened Common
  import Resizer
  import Task = ThumbnailsCreatorTask

  /** `max_retries`, as in the live task. */
  const MaxRetries: nat := 0

  /** How a legacy run ends: it returns when every result is saved, and otherwise raises the
      exception of the first result that raised or did not validate. */
  function LegacyOutcome(checks: Task.SaveChecks, imageUuid: string, yielded: seq<Resizer.ResizeOutcome>): (o: Task.TaskOutcome)
    ensures o == Task.Returned <==> |Task.SavedBeforeFailure(checks, imageUuid, yielded)| == |yielded|
    ensures o.Raised? ==> Task.FirstFailure(checks, imageUuid, yielded) == Some(o.error)
  {
    match Task.FirstFailure(checks, imageUuid, yielded)
    case None => Task.Returned
    case Some(e) => Task.Raised(e)
  }

  class LegacyThumbnailsCreator {
    var cache: map<string, Bytes>
    var thumbnails: seq<Task.Thumbnail>
    var files: map<string, Bytes>
    var effects: seq<Task.Effect>

    constructor(cache0: map<string, Bytes>, thumbnails0: seq<Task.Thumbnail>, files0: map<string, Bytes>)
      ensures cache == cache0 && thumbnails == thumbnails0 && files == files0 && effects == []
    {
      cache := cache0;
      thumbnails := thumbnails0;
      files := files0;
      effects := [];
    }

    /** The `try` body of `run`: validate and save each resized result in turn, stopping at
        the first one that raised or did not validate, whose exception is returned. */
    method SaveInTurn(checks: Task.SaveChecks, imageUuid: string, yielded: seq<Resizer.ResizeOutcome>)
      returns (failure: Option<Task.TaskError>)
      modifies this
      ensures failure == Task.FirstFailure(checks, imageUuid, yielded)
      ensures var saved := Task.SavedBeforeFailure(checks, imageUuid, yielded);
        && thumbnails == old(thumbnails) + saved
        && files == Task.StoreFiles(old(files), saved)
        && effects == old(effects) + Task.SaveEffects(saved)
        && cache == old(cache)
    {
      ghost var done: seq<Task.Thumbnail> := [];
      var i := 0;
      assert yielded[i..] == yielded;
      while i < |yielded|
        invariant 0 <= i <= |yielded|
        invariant Task.SavedBeforeFailure(checks, imageUuid, yielded) == done + Task.SavedBeforeFailure(checks, imageUuid, yielded[i..])
        invariant Task.FirstFailure(checks, imageUuid, yielded) == Task.FirstFailure(checks, imageUuid, yielded[i..])
        invariant Task.Journal(old(thumbnails), old(files), old(effects), done, thumbnails, files, effects)
        invariant cache == old(cache)
      {
        if yielded[i].Failed? {
          Task.StopAt(checks, imageUuid, yielded, i, done);
          return Some(Task.ResizeRaised(yielded[i].error));
        }
        var t := Task.Record(imageUuid, yielded[i]);
        if !Task.IsValid(checks, t) {
          Task.StopAt(checks, imageUuid, yielded, i, done);
          return Some(Task.ValidationRaised);
        }
        Task.SaveAt(checks, imageUuid, yielded, i, done);
        Task.JournalStep(old(thumbnails), old(files), old(effects), done, thumbnails, files, effects, t);
        var path := Task.StoredPath(t);
        thumbnails := thumbnails + [t];
        files := files[path := t.data];
        effects := effects + [Task.Saved(t)];
        done := done + [t];
        i := i + 1;
      }
      assert yielded[i..] == [];
      assert done + [] == done;
      failure := None;
    }

    /** `run(image_uuid, thumbnails_data)`: resize and save inside `try`; the `finally`
        deletes the cached upload and the exception, if any, propagates. */
    method Run(lib: Resizer.ImageLibrary, checks: Task.SaveChecks, imageUuid: string, thumbnailsData: seq<Resizer.ThumbnailSpec>)
      returns (outcome: Task.TaskOutcome)
      modifies this
      ensures var yielded := Task.Yielded(lib, old(cache), imageUuid, thumbnailsData);
        var saved := Task.SavedBeforeFailure(checks, imageUuid, yielded);
        && outcome == LegacyOutcome(checks, imageUuid, yielded)
        && thumbnails == old(thumbnails) + saved
        && files == Task.StoreFiles(old(files), saved)
        && effects == old(effects) + Task.SaveEffects(saved) + [Task.CacheDeleted(imageUuid)]
        && cache == old(cache) - {imageUuid}
    {
      var yielded := Task.ResizeAll(lib, cache, imageUuid, thumbnailsData);
      var failure := SaveInTurn(checks, imageUuid, yielded);
      // finally
      cache := cache - {imageUuid};
      effects := effects + [Task.CacheDeleted(imageUuid)];
      outcome := if failure.None? then Task.Returned else Task.Raised(failure.value);
    }
  }

  /** Where the two versions part: on the same results both leave the same rows, files and
      journal, but only the legacy one raises, and it raises exactly when results were lost. */
  lemma LegacyRaisesWhenLiveSwallows(checks: Task.SaveChecks, imageUuid: string, yielded: seq<Resizer.ResizeOutcome>, k: nat)
    requires k < |yielded| && yielded[k].Failed?
    ensures LegacyOutcome(checks, imageUuid, yielded).Raised?
    ensures |Task.SavedBeforeFailure(checks, imageUuid, yielded)| <= k
  {
    Task.NothingSavedAfterFailure(checks, imageUuid, yielded, k);
  }
}
