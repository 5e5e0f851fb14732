/** `OverwriteStorage` (api/src/core/storage.py): the thumbnails' file storage, which frees a
    name by deleting the file that has it instead of picking a new name. The storage is its
    set of existing paths, relative to the media root. */
module Storage {

  /** The file set after `get_available_name(name)`: `name` no longer exists, everything
      else is as before. */
  function AfterGetAvailableName(files: set<string>, name: string): (after: set<string>)
    ensures name !in after
    ensures forall p :: p != name ==> (p in after <==> p in files)
  {
    files - {name}
  }

  class OverwriteStorage {
    var files: set<string>

    constructor(existing: set<string>)
      ensures files == existing
    {
      files := existing;
    }

    /** `get_available_name(name)`: if `name` exists, remove it; return `name` unchanged. */
    method GetAvailableName(name: string) returns (r: string)
      modifies this
      ensures r == name
      ensures files == AfterGetAvailableName(old(files), name)
    {
      if name in files {
        files := files - {name};
      }
      r := name;
    }
  }

  /** A name that does not exist is returned without removing anything. */
  lemma AbsentNameRemovesNothing(files: set<string>, name: string)
    requires name !in files
    ensures AfterGetAvailableName(files, name) == files
  {
    assert forall p :: p in AfterGetAvailableName(files, name) <==> p in files;
  }

  /** A name that exists is the one and only file removed. */
  lemma PresentNameRemovesOne(files: set<string>, name: string)
    requires name in files
    ensures |AfterGetAvailableName(files, name)| == |files| - 1
    ensures AfterGetAvailableName(files, name) + {name} == files
  {
    var after := AfterGetAvailableName(files, name);
    assert after + {name} == files by {
      assert forall p :: p in after + {name} <==> p in files;
    }
    assert |after + {name}| == |after| + 1 by {
      assert name !in after;
    }
  }

  /** Asking for the same name twice gives the same name and the same files as asking once. */
  lemma GetAvailableNameIdempotent(files: set<string>, name: string)
    ensures AfterGetAvailableName(AfterGetAvailableName(files, name), name) == AfterGetAvailableName(files, name)
  {
    AbsentNameRemovesNothing(AfterGetAvailableName(files, name), name);
  }
}
