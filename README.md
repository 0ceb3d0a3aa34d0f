# FSA029 schema validator: import rewriting and temporary schema folder

The tool validates an XML submission against the FSA029 XML Schema. The schema is
spread over several `.xsd` files whose `schemaLocation` attributes point at
directories that do not exist on the user's machine. `validate_xml` handles this in
five steps:

1. It checks the two input paths.
2. It copies every `.xsd` file of the schema folder into a fresh temporary folder.
3. On the way, it rewrites import locations (`fix_schema_imports`: two `re.sub`
   passes). Each CommonTypes location becomes `CommonTypes-Schema.xsd`, and each
   location whose last segment is an `.xsd` file name becomes that name. Other
   locations keep their directory. In an element that is not closed, pass 2 can
   capture text past the closing quote.
4. It picks the first copied file whose name contains `FSA029` as the main schema.
5. It hands that schema to the XML engine.

A `finally` clause removes the temporary folder afterwards. The `Schema` class of
`src/xml_validator/schema.py` stores a schema folder and checks it when it is built.

The model has six modules, one per file:

- `FixImports` (`fix_imports.dfy`) is the rewriter. It models Python's `re.sub` as a
  left-to-right scan over a *matcher*, a function that gives the leftmost match at
  the start of a text. It also models the two patterns in the regex engine's
  backtracking order. That covers the greedy `[^"]*` giving characters back to the
  last slash, and the greedy `[^/]+` reaching the last `.xsd"`.
- `FixImportsProperties` and `FixDocuments` (`fix_imports_properties.dfy`,
  `fix_documents.dfy`) give an independent reference definition of what happens to
  one location (`FixLocation`). They prove that, on a well-formed document, the two
  substitution passes equal that definition applied to every location. From this
  follow idempotence, the CommonTypes redirection, the directory stripping, and
  "text without imports is unchanged".
- `Outcomes` (`outcomes.dfy`) holds the `Option` and `Result` types the others share.
- `Validator` (`validator.dfy`) models the file system as a map from paths to
  entries, changed in place by the methods of class `Disk`:
  - `create_temp_schemas` copies the folder in a listing order that is a parameter;
  - `find_main_schema` is a loop proved against its specification function;
  - `validate_xml` takes the XML engine as a parameter.
- `SchemaFolder` (`schema.dfy`) holds the `Schema` class with its three ordered
  folder checks.

The test suite expects more than the code holds; the model follows the code:

- tests/test_schema.py exercises dependency extraction and a choice of main schema
  by dependency count. `Schema` has no such methods. `validate_xml` takes the first
  listed file whose name contains `FSA029`.
- test.py expects an "Error during validation" message. `validate_xml` has a
  `try`/`finally` with no `except`, so an exception leaves it. The model returns the
  exception as the run's outcome.
- The `finally` clause is meant to remove the temporary folder on every exit path.
  The code misses every exception raised inside `create_temp_schemas` after
  `mkdtemp` has made the folder (see Findings). Such an exception can come from
  reading a schema file that is not UTF-8, from `open` failing on a schema file
  (`PermissionError`, `IsADirectoryError`), or from a failed write. The model
  shows the decoding case only, since its reads never fail otherwise and its
  writes always succeed.

## Model

| member | source | states |
|---|---|---|
| FixImports.FindFrom | xml_validator.py:66 | the index where a `[^"]*` run ends: the first given character at or after the start, or the end of the text; nothing before it is that character |
| FixImports.LastSlash | xml_validator.py:70 | the slash that backtracking `[^"]*/` settles on: the last slash in the range, and no slash after it; None exactly when the range has no slash |
| FixImports.LastXsdClose | xml_validator.py:70 | where greedy `[^/]+\.xsd"` stops: the last `.xsd"` in the range, none after it; None exactly when the range has none |
| FixImports.MatchCommonTypes | xml_validator.py:66-67 | a match of pattern 1 starts with `schemaLocation="`, stays inside the text, and is replaced by `schemaLocation="CommonTypes-Schema.xsd"` |
| FixImports.MatchPath | xml_validator.py:70-71 | a match of pattern 2 starts with `schemaLocation="` and ends inside the text |
| FixImports.MatchAt | xml_validator.py:64-73 | every match of either pattern starts with the tag and covers at least one character |
| FixImports.Compile | xml_validator.py:75-76 | each compiled pattern advances the `re.sub` scan, so the substitution terminates |
| FixImports.SubstituteWith | xml_validator.py:76 | `re.sub` returns a text in which no match starts anywhere unchanged; what it does at a match and across an unmatched stretch is stated by FixImportsProperties.ReplaceMatch and FixImportsProperties.SkipUnmatched |
| FixImports.Substitute | xml_validator.py:76 | either pattern's pass leaves a text without `schemaLocation="` unchanged, since both patterns start with that tag |
| FixImports.FixSchemaImports | xml_validator.py:62-78 | a text with no `schemaLocation="` comes back unchanged; on a well-formed document the whole rewrite is stated by FixDocuments.FixDocument |
| FixImportsProperties.SkipUnmatched | xml_validator.py:76 | `re.sub` copies a stretch with no match starting in it unchanged and resumes the scan right after it |
| FixImportsProperties.ReplaceMatch | xml_validator.py:76 | at a match, `re.sub` emits the replacement and resumes right after the matched text |
| FixImportsProperties.NoMatchInsideImport | xml_validator.py:64-73 | no match of either pattern starts inside a well-formed import attribute after its first character |
| FixImportsProperties.CommonTypesMatchOnLayout | xml_validator.py:66-67 | on an attribute with a quote-free value, pattern 1 matches exactly the whole attribute when the value contains `CommonTypes` before a final `.xsd`, and not at all otherwise |
| FixImportsProperties.PathMatchOnLayout | xml_validator.py:70-71 | on an attribute whose value is quote-free and does not end in `=`, and whose element is closed, pattern 2 matches exactly the whole attribute when the part after the value's last slash is a non-empty name ending in `.xsd`, and its group is that name |
| FixImportsProperties.MatchOnImport | xml_validator.py:64-73 | at a well-formed import, each pattern matches the whole attribute exactly when the reference definition says it rewrites the location, with the reference definition's replacement |
| FixImportsProperties.PathCaptureRunsPastQuote | xml_validator.py:70 | on `schemaLocation="a/b" c.xsd"` pattern 2 matches past the closing quote, and its group is `b" c.xsd` |
| FixImportsProperties.PathCaptureSpansAttributes | xml_validator.py:70-71 | on `schemaLocation="x/y" schemaLocation="q.xsd"`, the output of a first run on `schemaLocation="x/y" schemaLocation="p/q.xsd"`, pattern 2 matches the whole text with group `y" schemaLocation="q.xsd`, so a second run changes it again: idempotence needs the element to be closed |
| FixDocuments.CommonTypesRedirected | xml_validator.py:65-68 | a location with `CommonTypes` before its `.xsd` suffix becomes `CommonTypes-Schema.xsd`, whatever directory it had |
| FixDocuments.DirectoryStripped | xml_validator.py:69-72 | a location without `CommonTypes` whose last slash is followed by a schema file name keeps only that name |
| FixDocuments.BareLocationKept | xml_validator.py:64-76 | a location with no slash and no `CommonTypes` is left unchanged |
| FixDocuments.CommonTypesFileFixed | xml_validator.py:67 | the redirect target is itself left unchanged by both passes |
| FixDocuments.RewrittenSlashFree | xml_validator.py:69-72 | whatever pass 2 rewrites is a bare file name, with no slash |
| FixDocuments.RewriteWellFormed | xml_validator.py:64-73 | each pass turns a well-formed location into a well-formed location |
| FixDocuments.FixLocationIdempotent | xml_validator.py:75-76 | fixing a location twice gives the same as fixing it once |
| FixDocuments.PassOnImport | xml_validator.py:76 | one `re.sub` pass over an import followed by more text rewrites that import's location per the reference definition, keeps the text after it, and goes on with the rest |
| FixDocuments.PassOnImports | xml_validator.py:76 | one pass over a sequence of well-formed imports rewrites each location and keeps everything else, in order |
| FixDocuments.PassOnDocument | xml_validator.py:75-76 | one pass over a well-formed document keeps the head and rewrites each import's location |
| FixDocuments.FixDocument | xml_validator.py:62-78 | `fix_schema_imports` on a well-formed document keeps the head and all text between attributes, in order, and replaces each location by its reference rewrite |
| FixDocuments.FixLocationsWellFormed | xml_validator.py:62-78 | the output of `fix_schema_imports` on a well-formed document is well formed again |
| FixDocuments.FixIdempotent | xml_validator.py:62-78 | on a well-formed document, running `fix_schema_imports` on its own output changes nothing (outside that class it can change it again; see PathCaptureSpansAttributes) |
| Validator.ValidateInputs | xml_validator.py:39-43 | accepted inputs name an existing directory and a different path, and the directory's files are what the validator then reads; how it agrees with `_validate_folder` is stated by SchemaFolder.FolderChecksAgree |
| Validator.FirstUndecodable | xml_validator.py:51-53 | the first listed file that cannot be read as UTF-8; None exactly when every listed file decodes; all files before it decode |
| Validator.FixedCopyOfListing | xml_validator.py:49-57 | copying the listed files one by one, each fixed, yields the same folder whatever the listing order |
| Validator.FixedCopyStep | xml_validator.py:55-57 | writing one more file adds exactly that file's fixed text to the copy |
| Validator.FixedFolderNames | xml_validator.py:49-57 | the temporary folder holds exactly the `.xsd` names of the schema folder; other files are not copied; no `.xsd` files give an empty folder |
| Validator.MainSchema | xml_validator.py:81-85 | the first listed name containing `FSA029`; None exactly when no listed name contains it |
| Validator.FindMainSchema | xml_validator.py:81-85 | the loop returns exactly the first listed name containing `FSA029`, or None |
| Validator.MainSchemaCopied | xml_validator.py:81-85 | the chosen main schema is a file of the copied folder, and none is chosen exactly when no copied name contains `FSA029`, whatever the listing order |
| Validator.Report | xml_validator.py:25-31 | the run raises exactly when the engine fails, and then prints nothing; otherwise it prints exactly one line, `Submitted file (<path>) is VALID` or `... is INVALID` after the verdict |
| Validator.ReportOnFolder | xml_validator.py:19-31 | the run prints only the missing-`FSA029` message exactly when no listed name contains `FSA029`; otherwise the engine judges the submission against the first such name |
| Validator.Without | xml_validator.py:35-36 | removing the temporary folder takes away exactly that path and keeps every other entry as it was |
| Validator.RemoveAdded | xml_validator.py:35-36 | removing a folder that the run itself created gives back the file system as it was before the run |
| Validator.Disk.constructor | xml_validator.py:13 | the disk starts with the given entries |
| Validator.Disk.CreateTempSchemas | xml_validator.py:46-59 | when every listed file decodes, the new folder holds each `.xsd` file of the schema folder, fixed, and nothing else changes; otherwise it fails on the first undecodable file and leaves the folder holding the files copied before it |
| Validator.Disk.ValidateXml | xml_validator.py:13-36 | rejected inputs print the path message and change nothing; otherwise the report follows the main schema and the engine's verdict; a decoding error leaves the temporary folder on disk, and every other path removes it |
| Validator.DecodeErrorLeavesTempFolder | xml_validator.py:15-18 | a concrete schema folder whose only `.xsd` file does not decode meets all preconditions and makes the copy fail on its first file |
| Validator.DecodeErrorRuns | xml_validator.py:15-36 | on that input, `validate_xml` as written raises the decoding error and leaves the temporary folder on disk; the corrected run raises the same error and removes it |
| Validator.Disk.ValidateXmlCleaningUp | xml_validator.py:15-36 | the same run with the folder created inside the protected block: the report is the same, and the disk is left exactly as it was on every path |
| SchemaFolder.Schema.constructor | src/xml_validator/schema.py:18 | the object stores the folder it was given |
| SchemaFolder.Schema.ValidateFolder | src/xml_validator/schema.py:24-37 | FileNotFoundError exactly when the folder is missing; ValueError exactly when it exists but is not a directory; PermissionError exactly when it is a directory that cannot be listed; no error exactly when all three hold; the messages are exactly `Schema folder not found: <folder>`, `Path is not a directory: <folder>` and `Cannot access schema folder (permission denied): <folder>` |
| SchemaFolder.Schema.New | src/xml_validator/schema.py:11-22 | construction succeeds exactly when the folder exists, is a directory and can be listed, and the new object holds the folder; a failure carries the first failing check's error, with exactly the message `_validate_folder` gives it |
| SchemaFolder.FolderChecksAgree | xml_validator.py:39-43 | a schema folder that `validate_inputs` accepts passes `_validate_folder`; for a folder that passes it, `validate_inputs` holds exactly when the submission is a regular file |

## Left out

- The XML engine (`lxml`: parsing, schema compilation, validation) is a parameter. It gives a verdict or fails. Its failures are one kind of raised error.
- Real I/O is replaced by a map from paths to entries. `tempfile.mkdtemp`'s fresh name is a parameter that must not be in use yet. The order in which `glob("*.xsd")` lists files is a parameter: any order of the folder's `.xsd` names.
- `glob` details are not modelled: hidden files, case rules, directories or symbolic links whose names end in `.xsd`. A name is taken as listed exactly when it ends in `.xsd`.
- In the validator's file system every directory can be listed. Only `SchemaFolder.Schema.ValidateFolder` models an unlistable folder.
- Text is a sequence of characters. UTF-8 decoding is reduced to "decodes or not", and writing always succeeds.
- The regular-expression engine is not modelled in general. Only the two patterns of `fix_schema_imports` are modelled, each by its own matching function.
- FixDocuments.FixDocument: stated only for well-formed documents. In such a document no location holds a quote or ends in `=`, neither the head nor the text after any attribute contains `schemaLocation="`, and after each attribute a slash comes before any further quote. Outside that, pass 2 can capture past the closing quote. That behaviour is defined by `FixImports.MatchPath` and shown by `FixImportsProperties.PathCaptureRunsPastQuote`, but no whole-document theorem covers it.
- `main()`, the command-line argument check and its usage message, `src/xml_validator/cli.py` and `src/xml_validator/__main__.py` are not part of this model.
- The `Schema` methods that tests/test_schema.py calls but `src/xml_validator/schema.py` does not define have no code, so they are not part of this model.
- The `TODO` steps of `Schema.__init__` (listing, main-schema analysis, loading) have no code, so nothing of them is modelled.
- SchemaFolder.Schema.constructor: stores the folder text as given. `__init__` stores `Path(schema_folder)`, which drops a trailing slash, `.` segments and repeated slashes, so the model takes the text as already normalized.
- SchemaFolder.Schema.New: its messages end with the text as given, where Python prints the normalized `Path` (`"schemas/"` prints as `schemas`).
- SchemaFolder.Schema.ValidateFolder: the same; its messages end with the stored text, not with its normalized form.
- FixDocuments.FixIdempotent: stated only for well-formed documents. `FixImportsProperties.PathCaptureSpansAttributes` shows a text with quote-free values that a second run changes again.
- Validator.Disk.ValidateXml: an exception raised by the engine is one error kind; its type and message are not modelled.

## Findings

| source | as written | input that shows it | evidently intended | confidence | as-written member | corrected member |
|---|---|---|---|---|---|---|
| xml_validator.py:15-18 | `temp_folder` is assigned only when `create_temp_schemas` returns, but that function creates the folder first (line 48). Any exception after that leaves the folder on disk, because the `finally` clause sees `None`. This covers a `UnicodeDecodeError` from reading a schema file (line 53), a `PermissionError` or `IsADirectoryError` from `open` (line 52), and a failed write (lines 56-57). The model exhibits the decoding case | a schema folder holding `FSA029.xsd` that is not valid UTF-8 and a regular submission file (Validator.DecodeErrorLeavesTempFolder, Validator.DecodeErrorRuns) | the temporary folder is removed on every exit path | not executed | Validator.Disk.ValidateXml | Validator.Disk.ValidateXmlCleaningUp |
