/**
 * The `Schema` class of src/xml_validator/schema.py: it stores the schema folder and,
 * on construction, checks that folder in a fixed order: it must exist, be a
 * directory and be listable.
 */
module SchemaFolder {
  import opened Outcomes
  import opened FixImports
  import Validator

  /** What the file system says about a path. */
  datatype PathStatus = PathStatus(present: bool, isDir: bool, listable: bool)

  /** The exceptions `_validate_folder` raises, with their messages. */
  datatype FolderError =
    | FileNotFound(message: string)
    | NotADirectory(message: string)
    | PermissionDenied(message: string)

  class Schema {
    var schemaFolder: string

    /** `__init__` up to the check: the folder is stored first. */
    constructor (folder: string)
      ensures schemaFolder == folder
    {
      schemaFolder := folder;
    }

    /**
     * `_validate_folder`: a missing path, then a path that is no directory, then a
     * directory that cannot be listed; the first failing check decides the error.
     */
    function ValidateFolder(status: PathStatus): (r: Option<FolderError>)
      reads this
      ensures r.Some? && r.value.FileNotFound? <==> !status.present
      ensures r.Some? && r.value.NotADirectory? <==> status.present && !status.isDir
      ensures r.Some? && r.value.PermissionDenied? <==> status.present && status.isDir && !status.listable
      ensures r.None? <==> status.present && status.isDir && status.listable
      ensures r.Some? && r.value.FileNotFound? ==> r.value.message == "Schema folder not found: " + schemaFolder
      ensures r.Some? && r.value.NotADirectory? ==> r.value.message == "Path is not a directory: " + schemaFolder
      ensures r.Some? && r.value.PermissionDenied? ==>
        r.value.message == "Cannot access schema folder (permission denied): " + schemaFolder
    {
      if !status.present then
        Some(FileNotFound("Schema folder not found: " + schemaFolder))
      else if !status.isDir then
        Some(NotADirectory("Path is not a directory: " + schemaFolder))
      else if !status.listable then
        Some(PermissionDenied("Cannot access schema folder (permission denied): " + schemaFolder))
      else
        None
    }

    /** `Schema(folder)`: construction succeeds exactly when the folder passes the check. */
    static method New(folder: string, status: PathStatus) returns (r: Result<Schema, FolderError>)
      ensures r.Success? ==> fresh(r.value) && r.value.schemaFolder == folder
      ensures r.Success? <==> status.present && status.isDir && status.listable
      ensures r.Failure? ==> (r.error.FileNotFound? <==> !status.present)
      ensures r.Failure? ==> (r.error.NotADirectory? <==> status.present && !status.isDir)
      ensures r.Failure? && r.error.FileNotFound? ==> r.error.message == "Schema folder not found: " + folder
      ensures r.Failure? && r.error.NotADirectory? ==> r.error.message == "Path is not a directory: " + folder
      ensures r.Failure? && r.error.PermissionDenied? ==>
        r.error.message == "Cannot access schema folder (permission denied): " + folder
    {
      var schema := new Schema(folder);
      var check := schema.ValidateFolder(status);
      if check.Some? {
        return Failure(check.value);
      }
      return Success(schema);
    }
  }

  /** The status of a path in the validator's file system, where every directory can be listed. */
  function StatusIn(fs: Validator.FileSystem, path: string): PathStatus {
    var isDir := path in fs && fs[path].Directory?;
    PathStatus(path in fs, isDir, isDir)
  }

  /**
   * The two folder checks agree: a schema folder that `validate_inputs` accepts passes
   * `_validate_folder`, and one that `_validate_folder` passes is the directory half of
   * `validate_inputs`.
   */
  lemma FolderChecksAgree(s: Schema, fs: Validator.FileSystem, submitted: string)
    ensures Validator.ValidateInputs(fs, s.schemaFolder, submitted) ==> s.ValidateFolder(StatusIn(fs, s.schemaFolder)).None?
    ensures s.ValidateFolder(StatusIn(fs, s.schemaFolder)).None? ==>
      (Validator.ValidateInputs(fs, s.schemaFolder, submitted) <==> submitted in fs && fs[submitted].RegularFile?)
  {
  }
}
