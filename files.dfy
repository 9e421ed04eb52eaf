/** The part of the file system that result bundles touch: a map from a file's
    path to the JSON document it holds. Writing a file replaces whatever the
    path held before (`open(path, "w")`). Directories are implicit. */
module Files {
  import opened Wrappers
  import opened Json
  import opened Paths

  class FileStore {
    var files: map<Path, Json>

    constructor ()
      ensures files == map[]
    {
      files := map[];
    }

    /** `path.exists() and path.is_file()`. */
    predicate IsFile(path: Path)
      reads this
    {
      path in files
    }

    /** `json.load(open(path))`, or `None` when there is no such file. */
    function Read(path: Path): (r: Option<Json>)
      reads this
      ensures r.Some? <==> path in files
      ensures r.Some? ==> r.value == files[path]
    {
      if path in files then Some(files[path]) else None
    }

    /** `json.dump(content, open(path, "w"))`: the file then reads back as
        `content`, and every other file reads as before. */
    method Write(path: Path, content: Json)
      modifies this
      ensures files == old(files)[path := content]
      ensures Read(path) == Some(content)
      ensures forall p :: p != path ==> Read(p) == old(Read(p))
    {
      files := files[path := content];
    }
  }
}
