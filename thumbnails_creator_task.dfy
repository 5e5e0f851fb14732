/** The live worker task `ThumbnailsCreator` (api/src/images/tasks/thumbnails_creator_task.py):
    it resizes the cached upload once per planned entry, saves each result as a Thumbnail, stops
    at the first exception, which it swallows, and always deletes the cached upload. */
module ThumbnailsCreatorTask {
  import opened Common
  import Resizer
  import Validators
  import CoreModels

  /** `max_retries`: a failed task is never run again. */
  const MaxRetries: nat := 0

  /** The `max_length` of the Thumbnail `file` field, which the serializer checks against the
      name of the uploaded file. */
  const MaxFileNameLength: nat := 100

  /** A Thumbnail row: the image it belongs to, its size, the name of its file and the bytes. */
  datatype Thumbnail = Thumbnail(image: string, height: int, width: int, file: string, data: Bytes)

  /** Where OverwriteStorage puts the file of a Thumbnail: `Thumbnail.get_upload_to`. */
  function StoredPath(t: Thumbnail): (path: string)
    ensures path == CoreModels.ThumbnailGenerateUploadTo(t.image, t.file)
  {
    CoreModels.ThumbnailGenerateUploadTo(t.image, t.file)
  }

  /** The checks of `ThumbnailSerializer.is_valid`: the image's primary key exists, the bytes
      are an image PIL can open, and the file name passes the model's validators. The first two
      depend on the database and on PIL; the third is Validators.ImgExtensionValidator in the
      checks the task runs with (FieldChecks). */
  datatype SaveChecks = SaveChecks(imageExists: string -> bool, isImage: Bytes -> bool, nameValid: string -> bool)

  /** The checks with the file field's own validator. */
  function FieldChecks(imageExists: string -> bool, isImage: Bytes -> bool): (checks: SaveChecks)
    ensures forall name :: checks.nameValid(name) <==> Validators.ImgExtensionValidator(name).Pass?
  {
    SaveChecks(imageExists, isImage, name => Validators.ImgExtensionValidator(name).Pass?)
  }

  /** `serializer.is_valid()` on the data `save_image` builds; the name must also fit the
      field's `max_length`. */
  predicate IsValid(checks: SaveChecks, t: Thumbnail) {
    && checks.imageExists(t.image)
    && checks.isImage(t.data)
    && 0 < |t.file| <= MaxFileNameLength
    && checks.nameValid(t.file)
  }

  /** What the task raises and logs. */
  datatype TaskError = ResizeRaised(error: Resizer.ResizeError) | ValidationRaised

  /** A task run either returns or lets an exception out. */
  datatype TaskOutcome = Returned | Raised(error: TaskError)

  /** The outside effects of a run, in order: a Thumbnail saved, or the cache key deleted. */
  datatype Effect = Saved(thumbnail: Thumbnail) | CacheDeleted(key: string)

  /** The record `save_image(image_uuid, filename, size, img_bytes)` stores for one result. */
  function Record(imageUuid: string, result: Resizer.ResizeOutcome): (t: Thumbnail)
    requires result.Resized?
    ensures t.image == imageUuid && t.file == result.file && t.data == result.data
    ensures t.height == result.size.height && t.width == result.size.width
  {
    Thumbnail(imageUuid, result.size.height, result.size.width, result.file, result.data)
  }

  /** What the resizer yields for a job, in the model's order (see Resizer.Resize). */
  function Yielded(lib: Resizer.ImageLibrary, cache: map<string, Bytes>, imageUuid: string, data: seq<Resizer.ThumbnailSpec>): (ys: seq<Resizer.ResizeOutcome>)
    ensures |ys| == |data|
  {
    seq(|data|, k requires 0 <= k < |data| => Resizer.ResizeImage(lib, cache, imageUuid, data[k]))
  }

  /** `ImageResizer(image_uuid, thumbnails_data).resize()` against the cache. */
  method ResizeAll(lib: Resizer.ImageLibrary, cache: map<string, Bytes>, imageUuid: string, data: seq<Resizer.ThumbnailSpec>)
    returns (ys: seq<Resizer.ResizeOutcome>)
    ensures ys == Yielded(lib, cache, imageUuid, data)
  {
    ys := Resizer.Resize(lib, cache, Resizer.ImageResizer(imageUuid, data));
  }

  /** The thumbnails a run saves from `yielded`: one per result, in order, up to the first
      result that raised or did not validate. */
  function SavedBeforeFailure(checks: SaveChecks, imageUuid: string, yielded: seq<Resizer.ResizeOutcome>): (saved: seq<Thumbnail>)
    ensures |saved| <= |yielded|
    decreases |yielded|
  {
    if |yielded| == 0 || yielded[0].Failed? then []
    else
      var t := Record(imageUuid, yielded[0]);
      if !IsValid(checks, t) then [] else [t] + SavedBeforeFailure(checks, imageUuid, yielded[1..])
  }

  /** The exception that ends the loop early, None when every result is saved. */
  function FirstFailure(checks: SaveChecks, imageUuid: string, yielded: seq<Resizer.ResizeOutcome>): (e: Option<TaskError>)
    ensures e.None? <==> |SavedBeforeFailure(checks, imageUuid, yielded)| == |yielded|
    decreases |yielded|
  {
    if |yielded| == 0 then None
    else if yielded[0].Failed? then Some(ResizeRaised(yielded[0].error))
    else if !IsValid(checks, Record(imageUuid, yielded[0])) then Some(ValidationRaised)
    else FirstFailure(checks, imageUuid, yielded[1..])
  }

  /** The journal entries of a sequence of saves. */
  function SaveEffects(saved: seq<Thumbnail>): (es: seq<Effect>)
    ensures |es| == |saved|
    ensures forall k :: 0 <= k < |es| ==> es[k] == Saved(saved[k])
  {
    seq(|saved|, k requires 0 <= k < |saved| => Saved(saved[k]))
  }

  /** The storage after the files of `saved` are written, each under its upload path; a later
      file of the same path replaces an earlier one. */
  function StoreFiles(files: map<string, Bytes>, saved: seq<Thumbnail>): map<string, Bytes>
    decreases |saved|
  {
    if |saved| == 0 then files
    else
      var last := saved[|saved| - 1];
      StoreFiles(files, saved[..|saved| - 1])[StoredPath(last) := last.data]
  }

  /** The number of deletions of `key` in a journal. */
  function CountDeletes(effects: seq<Effect>, key: string): nat
    decreases |effects|
  {
    if |effects| == 0 then 0
    else (if effects[0] == CacheDeleted(key) then 1 else 0) + CountDeletes(effects[1..], key)
  }

  class ThumbnailsCreator {
    var cache: map<string, Bytes>
    var thumbnails: seq<Thumbnail>
    var files: map<string, Bytes>
    var effects: seq<Effect>

    constructor(cache0: map<string, Bytes>, thumbnails0: seq<Thumbnail>, files0: map<string, Bytes>)
      ensures cache == cache0 && thumbnails == thumbnails0 && files == files0 && effects == []
    {
      cache := cache0;
      thumbnails := thumbnails0;
      files := files0;
      effects := [];
    }

    /** `save_image(image_uuid, filename, size, img_bytes)`: validate, then store the row and
        its file; raise when validation fails. */
    method SaveImage(checks: SaveChecks, imageUuid: string, filename: string, size: Resizer.Size, data: Bytes)
      returns (r: Outcome<TaskError>)
      modifies this
      ensures cache == old(cache)
      ensures var t := Thumbnail(imageUuid, size.height, size.width, filename, data);
        if IsValid(checks, t) then
          && r == Pass
          && thumbnails == old(thumbnails) + [t]
          && files == old(files)[StoredPath(t) := data]
          && effects == old(effects) + [Saved(t)]
        else
          && r == Fail(ValidationRaised)
          && thumbnails == old(thumbnails) && files == old(files) && effects == old(effects)
    {
      var t := Thumbnail(imageUuid, size.height, size.width, filename, data);
      if !IsValid(checks, t) {
        return Fail(ValidationRaised);
      }
      thumbnails := thumbnails + [t];
      files := files[StoredPath(t) := data];
      effects := effects + [Saved(t)];
      r := Pass;
    }

    /** The `for` loop of `run` over what the resizer yields, in whatever order it yields it:
        save each result until one raises, and report that one. */
    method SaveAll(checks: SaveChecks, imageUuid: string, yielded: seq<Resizer.ResizeOutcome>)
      returns (failure: Option<TaskError>)
      modifies this
      ensures failure == FirstFailure(checks, imageUuid, yielded)
      ensures var saved := SavedBeforeFailure(checks, imageUuid, yielded);
        && thumbnails == old(thumbnails) + saved
        && files == StoreFiles(old(files), saved)
        && effects == old(effects) + SaveEffects(saved)
        && cache == old(cache)
    {
      ghost var done: seq<Thumbnail> := [];
      var i := 0;
      assert yielded[i..] == yielded;
      while i < |yielded|
        invariant 0 <= i <= |yielded|
        invariant SavedBeforeFailure(checks, imageUuid, yielded) == done + SavedBeforeFailure(checks, imageUuid, yielded[i..])
        invariant FirstFailure(checks, imageUuid, yielded) == FirstFailure(checks, imageUuid, yielded[i..])
        invariant Journal(old(thumbnails), old(files), old(effects), done, thumbnails, files, effects)
        invariant cache == old(cache)
      {
        if yielded[i].Failed? {
          StopAt(checks, imageUuid, yielded, i, done);
          return Some(ResizeRaised(yielded[i].error));
        }
        var t := Record(imageUuid, yielded[i]);
        JournalStep(old(thumbnails), old(files), old(effects), done, thumbnails, files, effects, t);
        var r := SaveImage(checks, imageUuid, yielded[i].file, yielded[i].size, yielded[i].data);
        if r.Fail? {
          StopAt(checks, imageUuid, yielded, i, done);
          return Some(ValidationRaised);
        }
        SaveAt(checks, imageUuid, yielded, i, done);
        done := done + [t];
        i := i + 1;
      }
      assert yielded[i..] == [];
      assert done + [] == done;
      failure := None;
    }

    /** `run(image_uuid, thumbnails_data)`: resize, save every result until the first
        exception, swallow it, and in the `finally` delete the cached upload. */
    method Run(lib: Resizer.ImageLibrary, checks: SaveChecks, imageUuid: string, thumbnailsData: seq<Resizer.ThumbnailSpec>)
      returns (outcome: TaskOutcome)
      modifies this
      ensures outcome == Returned
      ensures var saved := SavedBeforeFailure(checks, imageUuid, Yielded(lib, old(cache), imageUuid, thumbnailsData));
        && thumbnails == old(thumbnails) + saved
        && files == StoreFiles(old(files), saved)
        && effects == old(effects) + SaveEffects(saved) + [CacheDeleted(imageUuid)]
        && cache == old(cache) - {imageUuid}
    {
      var results := ResizeAll(lib, cache, imageUuid, thumbnailsData);
      var _ := SaveAll(checks, imageUuid, results);
      cache := cache - {imageUuid};
      effects := effects + [CacheDeleted(imageUuid)];
      outcome := Returned;
    }
  }

  /** One step of the loop: a result that raised or does not validate ends the saves and is
      the failure; one that validates is saved and the loop goes on with the next. */
  lemma StepAt(checks: SaveChecks, imageUuid: string, results: seq<Resizer.ResizeOutcome>, i: nat)
    requires i < |results|
    ensures results[i].Failed? ==>
      SavedBeforeFailure(checks, imageUuid, results[i..]) == [] &&
      FirstFailure(checks, imageUuid, results[i..]) == Some(ResizeRaised(results[i].error))
    ensures results[i].Resized? && !IsValid(checks, Record(imageUuid, results[i])) ==>
      SavedBeforeFailure(checks, imageUuid, results[i..]) == [] &&
      FirstFailure(checks, imageUuid, results[i..]) == Some(ValidationRaised)
    ensures results[i].Resized? && IsValid(checks, Record(imageUuid, results[i])) ==>
      SavedBeforeFailure(checks, imageUuid, results[i..]) ==
        [Record(imageUuid, results[i])] + SavedBeforeFailure(checks, imageUuid, results[i + 1..]) &&
      FirstFailure(checks, imageUuid, results[i..]) == FirstFailure(checks, imageUuid, results[i + 1..])
  {
    assert results[i..][0] == results[i];
    assert results[i..][1..] == results[i + 1..];
  }

  /** The loop stops at result `i`, which raised or did not validate: what was saved before
      it is everything saved, and its exception is the first one. */
  lemma StopAt(checks: SaveChecks, imageUuid: string, yielded: seq<Resizer.ResizeOutcome>, i: nat, done: seq<Thumbnail>)
    requires i < |yielded|
    requires yielded[i].Failed? || !IsValid(checks, Record(imageUuid, yielded[i]))
    requires SavedBeforeFailure(checks, imageUuid, yielded) == done + SavedBeforeFailure(checks, imageUuid, yielded[i..])
    requires FirstFailure(checks, imageUuid, yielded) == FirstFailure(checks, imageUuid, yielded[i..])
    ensures SavedBeforeFailure(checks, imageUuid, yielded) == done
    ensures FirstFailure(checks, imageUuid, yielded) ==
      if yielded[i].Failed? then Some(ResizeRaised(yielded[i].error)) else Some(ValidationRaised)
  {
    StepAt(checks, imageUuid, yielded, i);
    assert done + [] == done;
  }

  /** The loop saves result `i`: it joins what was saved, and the rest decides the outcome. */
  lemma SaveAt(checks: SaveChecks, imageUuid: string, yielded: seq<Resizer.ResizeOutcome>, i: nat, done: seq<Thumbnail>)
    requires i < |yielded|
    requires yielded[i].Resized? && IsValid(checks, Record(imageUuid, yielded[i]))
    requires SavedBeforeFailure(checks, imageUuid, yielded) == done + SavedBeforeFailure(checks, imageUuid, yielded[i..])
    requires FirstFailure(checks, imageUuid, yielded) == FirstFailure(checks, imageUuid, yielded[i..])
    ensures SavedBeforeFailure(checks, imageUuid, yielded) ==
      (done + [Record(imageUuid, yielded[i])]) + SavedBeforeFailure(checks, imageUuid, yielded[i + 1..])
    ensures FirstFailure(checks, imageUuid, yielded) == FirstFailure(checks, imageUuid, yielded[i + 1..])
  {
    StepAt(checks, imageUuid, yielded, i);
    var t := Record(imageUuid, yielded[i]);
    assert (done + [t]) + SavedBeforeFailure(checks, imageUuid, yielded[i + 1..]) ==
      done + ([t] + SavedBeforeFailure(checks, imageUuid, yielded[i + 1..]));
  }

  lemma AppendSave(files: map<string, Bytes>, done: seq<Thumbnail>, t: Thumbnail)
    ensures SaveEffects(done + [t]) == SaveEffects(done) + [Saved(t)]
    ensures StoreFiles(files, done + [t]) == StoreFiles(files, done)[StoredPath(t) := t.data]
  {
    assert (done + [t])[..|done|] == done;
  }

  /** Writing saves keeps every existing file and leaves a file under the path of each save;
      the last save of a path decides its bytes. */
  lemma {:induction false} StoreFilesKeepsAndAdds(files: map<string, Bytes>, saved: seq<Thumbnail>)
    ensures forall p :: p in files ==> p in StoreFiles(files, saved)
    ensures forall k :: 0 <= k < |saved| ==> StoredPath(saved[k]) in StoreFiles(files, saved)
    ensures |saved| > 0 ==> StoreFiles(files, saved)[StoredPath(saved[|saved| - 1])] == saved[|saved| - 1].data
    decreases |saved|
  {
    if |saved| > 0 {
      var init := saved[..|saved| - 1];
      StoreFilesKeepsAndAdds(files, init);
      forall k | 0 <= k < |saved| - 1
        ensures StoredPath(saved[k]) in StoreFiles(files, saved)
      {
        assert saved[k] == init[k];
      }
    }
  }

  /** The creator's rows, files and journal after the saves `done`, starting from `thumbnails0`,
      `files0` and `effects0`. */
  predicate Journal(thumbnails0: seq<Thumbnail>, files0: map<string, Bytes>, effects0: seq<Effect>, done: seq<Thumbnail>,
                    thumbnails: seq<Thumbnail>, files: map<string, Bytes>, effects: seq<Effect>)
  {
    && thumbnails == thumbnails0 + done
    && files == StoreFiles(files0, done)
    && effects == effects0 + SaveEffects(done)
  }

  /** One more save extends the rows, writes its file and adds its journal entry. */
  lemma JournalStep(thumbnails0: seq<Thumbnail>, files0: map<string, Bytes>, effects0: seq<Effect>, done: seq<Thumbnail>,
                    thumbnails: seq<Thumbnail>, files: map<string, Bytes>, effects: seq<Effect>, t: Thumbnail)
    requires Journal(thumbnails0, files0, effects0, done, thumbnails, files, effects)
    ensures Journal(thumbnails0, files0, effects0, done + [t],
                    thumbnails + [t], files[StoredPath(t) := t.data], effects + [Saved(t)])
  {
    AppendSave(files0, done, t);
    assert thumbnails0 + (done + [t]) == (thumbnails0 + done) + [t];
    assert effects0 + (SaveEffects(done) + [Saved(t)]) == (effects0 + SaveEffects(done)) + [Saved(t)];
  }

  /** Deletions add up over concatenated journals. */
  lemma {:induction false} CountDeletesAppend(a: seq<Effect>, b: seq<Effect>, key: string)
    ensures CountDeletes(a + b, key) == CountDeletes(a, key) + CountDeletes(b, key)
    decreases |a|
  {
    if |a| == 0 {
      assert a + b == b;
    } else {
      assert (a + b)[0] == a[0];
      assert (a + b)[1..] == a[1..] + b;
      CountDeletesAppend(a[1..], b, key);
    }
  }

  lemma {:induction false} SavesDeleteNothing(saved: seq<Thumbnail>, key: string)
    ensures CountDeletes(SaveEffects(saved), key) == 0
    decreases |saved|
  {
    if |saved| > 0 {
      assert SaveEffects(saved)[1..] == SaveEffects(saved[1..]);
      SavesDeleteNothing(saved[1..], key);
    }
  }

  /** The journal of a run deletes the cache key exactly once, after the last save. */
  lemma CleanupOnceAndLast(saved: seq<Thumbnail>, imageUuid: string)
    ensures var es := SaveEffects(saved) + [CacheDeleted(imageUuid)];
      && CountDeletes(es, imageUuid) == 1
      && es[|es| - 1] == CacheDeleted(imageUuid)
      && forall k :: 0 <= k < |es| - 1 ==> es[k].Saved?
  {
    CountDeletesAppend(SaveEffects(saved), [CacheDeleted(imageUuid)], imageUuid);
    SavesDeleteNothing(saved, imageUuid);
  }

  /** No result after one that raised is saved: the saves of the whole run are those of the
      results before it. */
  lemma {:induction false} NothingSavedAfterFailure(checks: SaveChecks, imageUuid: string, yielded: seq<Resizer.ResizeOutcome>, k: nat)
    requires k < |yielded| && yielded[k].Failed?
    ensures SavedBeforeFailure(checks, imageUuid, yielded) == SavedBeforeFailure(checks, imageUuid, yielded[..k])
    ensures |SavedBeforeFailure(checks, imageUuid, yielded)| <= k
    decreases k
  {
    if k > 0 && yielded[0].Resized? && IsValid(checks, Record(imageUuid, yielded[0])) {
      assert yielded[..k][1..] == yielded[1..][..k - 1];
      assert yielded[..k][0] == yielded[0];
      NothingSavedAfterFailure(checks, imageUuid, yielded[1..], k - 1);
    }
  }

  /** Each saved thumbnail is the record of the result at the same position, belongs to the
      task's image and passed validation: results are saved in the order they are yielded. */
  lemma {:induction false} SavedInOrder(checks: SaveChecks, imageUuid: string, yielded: seq<Resizer.ResizeOutcome>)
    ensures var saved := SavedBeforeFailure(checks, imageUuid, yielded);
      forall k :: 0 <= k < |saved| ==>
        yielded[k].Resized? && saved[k] == Record(imageUuid, yielded[k]) &&
        saved[k].image == imageUuid && IsValid(checks, saved[k])
    decreases |yielded|
  {
    if |yielded| > 0 && yielded[0].Resized? && IsValid(checks, Record(imageUuid, yielded[0])) {
      SavedInOrder(checks, imageUuid, yielded[1..]);
    }
  }

  /** When every result is an image that validates, every one of them is saved, in order. */
  lemma {:induction false} EverythingSavedWithoutFailure(checks: SaveChecks, imageUuid: string, yielded: seq<Resizer.ResizeOutcome>)
    requires forall k :: 0 <= k < |yielded| ==> yielded[k].Resized? && IsValid(checks, Record(imageUuid, yielded[k]))
    ensures |SavedBeforeFailure(checks, imageUuid, yielded)| == |yielded|
    ensures FirstFailure(checks, imageUuid, yielded).None?
    decreases |yielded|
  {
    if |yielded| > 0 {
      EverythingSavedWithoutFailure(checks, imageUuid, yielded[1..]);
    }
  }

  /** The URL `get_thumbnails` hands out for plan entry `k` names the file the worker writes
      for that entry: both are the entry's file name under the image's thumbnail folder. */
  lemma UrlNamesStoredFile(lib: Resizer.ImageLibrary, cache: map<string, Bytes>, imageUuid: string,
                           plan: seq<Resizer.ThumbnailSpec>, k: nat, absolute: string -> string)
    requires k < |plan|
    requires Yielded(lib, cache, imageUuid, plan)[k].Resized?
    ensures var t := Record(imageUuid, Yielded(lib, cache, imageUuid, plan)[k]);
      t.file == plan[k].file &&
      absolute(StoredPath(t)) == CoreModels.GenerateAbsoluteUrl(absolute, imageUuid, plan[k].file)
  {
    assert Yielded(lib, cache, imageUuid, plan)[k] == Resizer.ResizeImage(lib, cache, imageUuid, plan[k]);
  }
}
