/**
 * The driver of xml_validator.py: `validate_inputs`, `create_temp_schemas`,
 * `find_main_schema` and the branch and cleanup structure of `validate_xml`.
 *
 * The file system is a map from paths to entries; a directory holds a map from
 * file names to contents. The listing orders of `glob`, the fresh name chosen by
 * `tempfile.mkdtemp` and the verdict of the XML schema engine are parameters.
 */
module Validator {
  import opened Outcomes
  import opened FixImports

  /** What reading a file as UTF-8 gives: its text, or a decoding error. */
  datatype Content = Text(text: string) | Undecodable

  datatype Entry = Directory(files: map<string, Content>) | RegularFile | OtherKind

  type FileSystem = map<string, Entry>

  /** The name part that marks the main schema. */
  const MainMarker: string := "FSA029"

  const PathsMessage: string := "Paths provided do not lead to valid file types (xsd, xml)"
  const NoMainMessage: string := "Error: " + MainMarker + " schema not in the provided directory"

  /** What the schema engine makes of the submission against the main schema of a folder. */
  datatype Verdict = Valid | Invalid | EngineFails

  /** The schema engine: folder contents, main schema name, submission path. */
  type Engine = (map<string, Content>, string, string) -> Verdict

  /** An exception that leaves `validate_xml`. */
  datatype Raised = DecodeError(file: string) | EngineError

  /** What a run of `validate_xml` printed, and the exception it ended with, if any. */
  datatype Run = Run(printed: seq<string>, raised: Option<Raised>)

  // ---------------------------------------------------------------------------
  // Inputs and folders
  // ---------------------------------------------------------------------------

  /** `validate_inputs`: the schema path is an existing directory and the submission an existing regular file. */
  predicate ValidateInputs(fs: FileSystem, schemaDir: string, submitted: string)
    ensures ValidateInputs(fs, schemaDir, submitted) ==>
      schemaDir != submitted && schemaDir in fs && fs[schemaDir].Directory? && FolderFiles(fs, schemaDir) == fs[schemaDir].files
  {
    var dirIsValid := schemaDir in fs && fs[schemaDir].Directory?;
    var fileIsValid := submitted in fs && fs[submitted].RegularFile?;
    dirIsValid && fileIsValid
  }

  /** The files a folder lists: none when the path is missing or not a directory. */
  function FolderFiles(fs: FileSystem, dir: string): map<string, Content> {
    if dir in fs && fs[dir].Directory? then fs[dir].files else map[]
  }

  predicate IsXsdName(name: string) {
    EndsWith(name, XsdSuffix)
  }

  /** The names `glob("*.xsd")` yields for a folder. */
  function XsdNames(files: map<string, Content>): set<string> {
    set n | n in files && IsXsdName(n)
  }

  /** `order` lists every name of `names` exactly once. */
  predicate IsListing(order: seq<string>, names: set<string>) {
    (forall i, j :: 0 <= i < j < |order| ==> order[i] != order[j])
    && (forall i :: 0 <= i < |order| ==> order[i] in names)
    && (forall n :: n in names ==> n in order)
  }

  predicate AllDecodable(files: map<string, Content>, names: seq<string>) {
    forall n :: n in names ==> n in files && files[n].Text?
  }

  /** The position of the first listed file that cannot be read as UTF-8, if any. */
  function FirstUndecodable(files: map<string, Content>, order: seq<string>): (r: Option<nat>)
    requires forall i :: 0 <= i < |order| ==> order[i] in files
    ensures r.None? <==> AllDecodable(files, order)
    ensures r.Some? ==> r.value < |order| && files[order[r.value]].Undecodable?
    ensures r.Some? ==> AllDecodable(files, order[..r.value])
    decreases |order|
  {
    if order == [] then None
    else if files[order[0]].Undecodable? then Some(0)
    else
      match FirstUndecodable(files, order[1..])
      case None => None
      case Some(i) => Some(i + 1)
  }

  /** The listed files, each text passed through `fix`. */
  function CopyWith(fix: string -> string, files: map<string, Content>, names: seq<string>): (copy: map<string, Content>)
    requires AllDecodable(files, names)
  {
    map n | n in names :: Text(fix(files[n].text))
  }

  /** The fixed copies of the listed files. */
  function FixedCopy(files: map<string, Content>, names: seq<string>): (copy: map<string, Content>)
    requires AllDecodable(files, names)
  {
    CopyWith(FixSchemaImports, files, names)
  }

  /** Copying one more file with any `fix` adds exactly that file. */
  lemma CopyWithStep(fix: string -> string, files: map<string, Content>, order: seq<string>, i: nat)
    requires i < |order| && AllDecodable(files, order[..i + 1])
    ensures AllDecodable(files, order[..i])
    ensures CopyWith(fix, files, order[..i + 1]) == CopyWith(fix, files, order[..i])[order[i] := Text(fix(files[order[i]].text))]
  {
    assert order[..i + 1] == order[..i] + [order[i]];
  }

  /** The folder `create_temp_schemas` promises: every `.xsd` file of the source, with its imports fixed. */
  function FixedFolder(files: map<string, Content>): (folder: map<string, Content>)
    requires forall n :: n in XsdNames(files) ==> files[n].Text?
  {
    map n | n in XsdNames(files) :: Text(FixSchemaImports(files[n].text))
  }

  /** Copying the files in listing order yields the promised folder, whatever the order. */
  lemma FixedCopyOfListing(files: map<string, Content>, order: seq<string>)
    requires IsListing(order, XsdNames(files)) && AllDecodable(files, order)
    ensures forall n :: n in XsdNames(files) ==> files[n].Text?
    ensures FixedCopy(files, order) == FixedFolder(files)
  {
    assert forall n :: n in order <==> n in XsdNames(files);
  }

  /** Writing the same entry twice keeps the second write. */
  lemma UpdateTwice<K, V>(m: map<K, V>, k: K, a: V, b: V)
    ensures m[k := a][k := b] == m[k := b]
  {
  }

  /** Every listed name is a file of the folder. */
  lemma ListedFiles(files: map<string, Content>, order: seq<string>)
    requires IsListing(order, XsdNames(files))
    ensures forall k :: 0 <= k < |order| ==> order[k] in files
  {
  }

  lemma DecodableStep(files: map<string, Content>, order: seq<string>, i: nat)
    requires i < |order| && AllDecodable(files, order[..i])
    requires order[i] in files && files[order[i]].Text?
    ensures AllDecodable(files, order[..i + 1])
  {
    assert order[..i + 1] == order[..i] + [order[i]];
  }

  /** Copying one more file adds exactly that file. */
  lemma FixedCopyStep(files: map<string, Content>, order: seq<string>, i: nat)
    requires i < |order| && AllDecodable(files, order[..i + 1])
    ensures AllDecodable(files, order[..i])
    ensures FixedCopy(files, order[..i + 1]) == FixedCopy(files, order[..i])[order[i] := Text(FixSchemaImports(files[order[i]].text))]
  {
    CopyWithStep(FixSchemaImports, files, order, i);
  }

  /** The copied folder holds exactly the `.xsd` names of the source; a source with none gives an empty folder. */
  lemma FixedFolderNames(files: map<string, Content>)
    requires forall n :: n in XsdNames(files) ==> files[n].Text?
    ensures FixedFolder(files).Keys == XsdNames(files)
    ensures forall n :: n in files && !IsXsdName(n) ==> n !in FixedFolder(files)
    ensures XsdNames(files) == {} ==> FixedFolder(files) == map[]
  {
  }

  // ---------------------------------------------------------------------------
  // The main schema
  // ---------------------------------------------------------------------------

  /** Python's `"FSA029" in name`. */
  predicate IsMainName(name: string) {
    Contains(name, MainMarker)
  }

  /** The first listed name that marks the main schema. */
  function MainSchema(listing: seq<string>): (r: Option<string>)
    ensures r.None? <==> forall i :: 0 <= i < |listing| ==> !IsMainName(listing[i])
    ensures r.Some? ==> exists i :: (0 <= i < |listing| && listing[i] == r.value && IsMainName(r.value)
      && forall j :: 0 <= j < i ==> !IsMainName(listing[j]))
    decreases |listing|
  {
    if listing == [] then None
    else if IsMainName(listing[0]) then Some(listing[0])
    else MainSchema(listing[1..])
  }

  /** `find_main_schema`: scan the listing and stop at the first `FSA029` name. */
  method FindMainSchema(listing: seq<string>) returns (r: Option<string>)
    ensures r == MainSchema(listing)
  {
    var i := 0;
    while i < |listing|
      invariant 0 <= i <= |listing|
      invariant MainSchema(listing[i..]) == MainSchema(listing)
    {
      assert listing[i..][1..] == listing[i + 1..];
      if IsMainName(listing[i]) {
        return Some(listing[i]);
      }
      i := i + 1;
    }
    return None;
  }

  /**
   * The main schema is a file of the copied folder, and there is none exactly when no
   * copied name contains `FSA029`, whatever order the copied folder is listed in.
   */
  lemma MainSchemaCopied(files: map<string, Content>, listing: seq<string>)
    requires forall n :: n in XsdNames(files) ==> files[n].Text?
    requires IsListing(listing, XsdNames(files))
    ensures MainSchema(listing).Some? ==> MainSchema(listing).value in FixedFolder(files)
    ensures MainSchema(listing).None? <==> forall n :: n in FixedFolder(files) ==> !IsMainName(n)
  {
    FixedFolderNames(files);
  }

  /** The report for an engine verdict: one printed line, or the engine's exception. */
  function Report(submitted: string, verdict: Verdict): (r: Run)
    ensures r.raised.None? <==> verdict != EngineFails
    ensures r.raised.None? ==>
      r.printed == ["Submitted file (" + submitted + ") is " + (if verdict == Valid then "VALID" else "INVALID")]
    ensures r.raised.Some? ==> r.printed == [] && r.raised.value == EngineError
  {
    var named := "Submitted file (" + submitted + ") is ";
    match verdict
    case Valid =>
      assert "Submitted file (" + submitted + ") is VALID" == named + "VALID";
      Run(["Submitted file (" + submitted + ") is VALID"], None)
    case Invalid =>
      assert "Submitted file (" + submitted + ") is INVALID" == named + "INVALID";
      Run(["Submitted file (" + submitted + ") is INVALID"], None)
    case EngineFails => Run([], Some(EngineError))
  }

  /** What `validate_xml` reports once the fixed folder exists. */
  function ReportOnFolder(folder: map<string, Content>, listing: seq<string>, submitted: string, engine: Engine): (r: Run)
    ensures r == Run([NoMainMessage], None) <==> forall i :: 0 <= i < |listing| ==> !IsMainName(listing[i])
    ensures MainSchema(listing).Some? ==> r == Report(submitted, engine(folder, MainSchema(listing).value, submitted))
  {
    match MainSchema(listing)
    case None => Run([NoMainMessage], None)
    case Some(main) =>
      var run := Report(submitted, engine(folder, main, submitted));
      assert NoMainMessage[0] == 'E' && (run.raised.None? ==> run.printed[0][0] == 'S');
      run
  }

  // ---------------------------------------------------------------------------
  // The file system, changed in place
  // ---------------------------------------------------------------------------

  class Disk {
    var entries: FileSystem

    constructor (entries0: FileSystem)
      ensures entries == entries0
    {
      entries := entries0;
    }

    /**
     * `create_temp_schemas`: make the fresh folder `temp`, then copy the `.xsd` files of
     * `schemaDir` into it, in listing order, each passed through `fix_schema_imports`.
     * A file that is not valid UTF-8 stops the copy with a decoding error; the folder
     * stays, with the files copied before it.
     */
    method CreateTempSchemas(schemaDir: string, temp: string, order: seq<string>) returns (r: Result<string, string>)
      requires temp !in entries
      requires IsListing(order, XsdNames(FolderFiles(entries, schemaDir)))
      modifies this
      ensures var files := FolderFiles(old(entries), schemaDir);
        match FirstUndecodable(files, order)
        case None =>
          (forall n :: n in XsdNames(files) ==> files[n].Text?)
          && r == Success(temp) && entries == old(entries)[temp := Directory(FixedFolder(files))]
        case Some(i) =>
          r == Failure(order[i]) && entries == old(entries)[temp := Directory(FixedCopy(files, order[..i]))]
    {
      var files := FolderFiles(entries, schemaDir);
      ListedFiles(files, order);
      var copied: map<string, Content> := map[];
      entries := entries[temp := Directory(copied)];
      assert FixedCopy(files, order[..0]) == copied;
      var i := 0;
      while i < |order|
        invariant 0 <= i <= |order|
        invariant AllDecodable(files, order[..i]) && copied == FixedCopy(files, order[..i])
        invariant entries == old(entries)[temp := Directory(copied)]
      {
        var name := order[i];
        match files[name]
        case Undecodable =>
          FirstUndecodableAt(files, order, i);
          return Failure(name);
        case Text(content) =>
          var fixedContent := FixSchemaImports(content);
          DecodableStep(files, order, i);
          FixedCopyStep(files, order, i);
          UpdateTwice(old(entries), temp, Directory(copied), Directory(copied[name := Text(fixedContent)]));
          copied := copied[name := Text(fixedContent)];
          entries := entries[temp := Directory(copied)];
          i := i + 1;
      }
      assert order[..i] == order;
      FixedCopyOfListing(files, order);
      return Success(temp);
    }

    /**
     * `validate_xml` as written. The `finally` clause removes the temporary folder only
     * once `create_temp_schemas` has returned it, so a decoding error inside the copy
     * leaves the folder behind. `order` is the order `glob` lists the schema folder in,
     * `listing` the order it lists the copied folder in; both hold the same names.
     */
    method ValidateXml(schemaDir: string, submitted: string, temp: string, order: seq<string>,
                       listing: seq<string>, engine: Engine) returns (run: Run)
      requires temp !in entries
      requires IsListing(order, XsdNames(FolderFiles(entries, schemaDir)))
      requires IsListing(listing, XsdNames(FolderFiles(entries, schemaDir)))
      modifies this
      ensures !ValidateInputs(old(entries), schemaDir, submitted) ==>
        run == Run([PathsMessage], None) && entries == old(entries)
      ensures var files := FolderFiles(old(entries), schemaDir);
        ValidateInputs(old(entries), schemaDir, submitted) ==>
        match FirstUndecodable(files, order)
        case None =>
          (forall n :: n in XsdNames(files) ==> files[n].Text?)
          && run == ReportOnFolder(FixedFolder(files), listing, submitted, engine) && entries == old(entries)
        case Some(i) =>
          run == Run([], Some(DecodeError(order[i])))
          && entries == old(entries)[temp := Directory(FixedCopy(files, order[..i]))]
    {
      var tempFolder: Option<string> := None;
      if ValidateInputs(entries, schemaDir, submitted) {
        var created := CreateTempSchemas(schemaDir, temp, order);
        if created.Failure? {
          run := Run([], Some(DecodeError(created.error)));
        } else {
          tempFolder := Some(created.value);
          var folder := entries[temp].files;
          var main := FindMainSchema(listing);
          if main.None? {
            run := Run([NoMainMessage], None);
          } else {
            run := Report(submitted, engine(folder, main.value, submitted));
          }
        }
      } else {
        run := Run([PathsMessage], None);
      }
      if tempFolder.Some? && tempFolder.value in entries {
        RemoveAdded(old(entries), tempFolder.value, entries[tempFolder.value]);
        entries := Without(entries, tempFolder.value);
      }
    }

    /**
     * `validate_xml` with the cleanup it evidently intends: the temporary folder is
     * removed on every path once it has been made, including a decoding error.
     */
    method ValidateXmlCleaningUp(schemaDir: string, submitted: string, temp: string, order: seq<string>,
                                 listing: seq<string>, engine: Engine) returns (run: Run)
      requires temp !in entries
      requires IsListing(order, XsdNames(FolderFiles(entries, schemaDir)))
      requires IsListing(listing, XsdNames(FolderFiles(entries, schemaDir)))
      modifies this
      ensures entries == old(entries)
      ensures !ValidateInputs(old(entries), schemaDir, submitted) ==> run == Run([PathsMessage], None)
      ensures var files := FolderFiles(old(entries), schemaDir);
        ValidateInputs(old(entries), schemaDir, submitted) ==>
        match FirstUndecodable(files, order)
        case None =>
          (forall n :: n in XsdNames(files) ==> files[n].Text?)
          && run == ReportOnFolder(FixedFolder(files), listing, submitted, engine)
        case Some(i) => run == Run([], Some(DecodeError(order[i])))
    {
      var tempFolder: Option<string> := None;
      if ValidateInputs(entries, schemaDir, submitted) {
        tempFolder := Some(temp);
        var created := CreateTempSchemas(schemaDir, temp, order);
        if created.Failure? {
          run := Run([], Some(DecodeError(created.error)));
        } else {
          var folder := entries[temp].files;
          var main := FindMainSchema(listing);
          if main.None? {
            run := Run([NoMainMessage], None);
          } else {
            run := Report(submitted, engine(folder, main.value, submitted));
          }
        }
      } else {
        run := Run([PathsMessage], None);
      }
      if tempFolder.Some? && tempFolder.value in entries {
        RemoveAdded(old(entries), tempFolder.value, entries[tempFolder.value]);
        entries := Without(entries, tempFolder.value);
      }
    }
  }

  /** `shutil.rmtree(path)`: the file system without `path`. */
  function Without(fs: FileSystem, path: string): (r: FileSystem)
    ensures r.Keys == fs.Keys - {path}
    ensures forall p :: p in r ==> r[p] == fs[p]
  {
    map p | p in fs && p != path :: fs[p]
  }

  /** Removing a path that was just added restores the file system. */
  lemma RemoveAdded(fs: FileSystem, path: string, e: Entry)
    requires path !in fs
    ensures Without(fs[path := e], path) == fs
  {
  }

  /** The first undecodable file of the listing is the one the copy stops at. */
  lemma {:induction false} FirstUndecodableAt(files: map<string, Content>, order: seq<string>, i: nat)
    requires i < |order| && (forall k :: 0 <= k < |order| ==> order[k] in files)
    requires AllDecodable(files, order[..i]) && files[order[i]].Undecodable?
    ensures FirstUndecodable(files, order) == Some(i)
    decreases i
  {
    if i > 0 {
      assert order[0] in order[..i];
      assert order[1..][..i - 1] == order[1..i];
      assert forall n :: n in order[1..i] ==> n in order[..i];
      FirstUndecodableAt(files, order[1..], i - 1);
    }
  }

  /**
   * The input of a run that leaves its temporary folder behind: a valid input pair whose
   * only schema is not UTF-8 meets every precondition of the runs, and the copy stops at
   * its first file.
   */
  lemma DecodeErrorLeavesTempFolder()
    ensures var fs := map["schemas" := Directory(map["FSA029.xsd" := Undecodable]), "return.xml" := RegularFile];
      ValidateInputs(fs, "schemas", "return.xml") && "tmp" !in fs
      && IsListing(["FSA029.xsd"], XsdNames(FolderFiles(fs, "schemas")))
      && FirstUndecodable(FolderFiles(fs, "schemas"), ["FSA029.xsd"]) == Some(0)
  {
    var files := map["FSA029.xsd" := Undecodable];
    assert IsXsdName("FSA029.xsd") by {
      assert "FSA029.xsd"[|"FSA029.xsd"| - |XsdSuffix|..] == XsdSuffix;
    }
    assert XsdNames(files) == {"FSA029.xsd"};
  }

  /**
   * The run itself on that input: `validate_xml` as written raises the decoding error
   * and leaves `tmp` on disk, where the corrected run raises the same error and removes it.
   */
  method DecodeErrorRuns() returns (leaked: bool, cleaned: bool, run: Run)
    ensures leaked && cleaned
    ensures run == Run([], Some(DecodeError("FSA029.xsd")))
  {
    var fs := map["schemas" := Directory(map["FSA029.xsd" := Undecodable]), "return.xml" := RegularFile];
    DecodeErrorLeavesTempFolder();
    var engine: Engine := (folder, main, submitted) => Valid;
    var asWritten := new Disk(fs);
    run := asWritten.ValidateXml("schemas", "return.xml", "tmp", ["FSA029.xsd"], ["FSA029.xsd"], engine);
    leaked := "tmp" in asWritten.entries;
    var corrected := new Disk(fs);
    var run2 := corrected.ValidateXmlCleaningUp("schemas", "return.xml", "tmp", ["FSA029.xsd"], ["FSA029.xsd"], engine);
    cleaned := "tmp" !in corrected.entries && run2 == run;
  }
}
