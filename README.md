# Course-file portal: a Dafny model

This project models the core of a course-file portal for college faculty.
On the server it covers:

- the subject records, their create, update and delete routes, and the
  per-teacher uniqueness of (subject code, academic year);
- the three file slots a subject record holds, and the routes that update a
  slot's description and file or delete its file;
- the download route that merges a subject's section files into one PDF;
- the two multer upload configurations: where a file is stored, under which
  name, which types pass and how large a file may be;
- the cover-page helpers that put a subject cover and a section cover in
  front of an uploaded PDF;
- the recursive pruning of empty folders;
- the one-off script that seeds the `uploads/<year>/<department>/<faculty id>/<subject>` tree;
- the administrator's faculty routes: spreadsheet import, listing, update and delete.

On the client it covers:

- the top-level session (token, teacher, chosen academic year) and the page
  each route renders;
- the login and signup forms and their validation;
- the dashboard's list of subjects and its add/edit form;
- the sections panel of a subject: its catalog of 23 sections, the section
  editor, the "has files" test and the name the merged PDF is saved under.

The disk is a `Disk.FileSystem` object holding a set of directory paths and a
set of file paths. Every server operation that touches files is a method that
`modifies` it. Its `ensures` say exactly which paths appear and disappear,
with the error branches the source takes: a directory where a file is
expected, or a file where a directory is needed. Database collections are
maps from document id to record, held in classes (`SubjectRoutes.SubjectStore`,
`AdminRoutes.FacultyDirectory`). React components are classes whose fields
are the component's state; each handler is a method. What the server or the
browser answers (an HTTP reply, a confirmation dialog, `Date.now()`,
`Math.random()`, whether a PDF renders) is a parameter.

Rows of the table below whose third column starts with "definition:" name a
function that only spells out an expression of the source; they hold no
proved property, and the lemmas and methods that use them do. Rows starting
with "scaffolding:" are proof steps with no counterpart in the source.

Some facts the model proves about the code as it stands:

- The subject routes look files up at `uploads/<fileName>`. The section
  upload middleware stores them at least two levels deeper, so the lookup
  never finds an uploaded file (`SubjectRoutes.LookupMissesUploadedFile`).
- For the same reason, a merge over uploaded files appends nothing
  (`SubjectRoutes.NothingFoundNothingMerged`).
- The client's sections panel lists 23 section names, and none of them is
  one of the three slots the subject schema declares and the section routes
  accept (`SubjectSections.CatalogNamesAreNotSlots`). Every file delete,
  and every save without a file, that the panel sends is therefore
  answered 400. A save with a file fails before the name is checked, in
  the upload middleware (next point). The editor renders no description
  box and nothing calls `handleInputChange`, so a save sends back the
  description the edit loaded. A subject as the
  server sends it shows every catalog section with its default description
  and no file (`SubjectSections.ServerSubjectShowsOnlyDefaults`).
- The section upload's destination reads a `subjectId` that no teacher
  document has, so a signed-in teacher's file is never stored
  (`UploadMiddleware.SignedInUploadNeverStored`; see "## Findings").

## Model

| member | source | states |
|---|---|---|
| Common.TrimEmptyIffAllSpace | client/src/components/Signup.js:40-42 | `!value.trim()` holds exactly when the value is made only of JavaScript white space |
| Common.TrimHasNoOuterSpace | server/models/Subject.js:4-39 | what `trim: true` stores neither starts nor ends with white space |
| Common.Trim | client/src/components/Signup.js:40 | definition: `String.prototype.trim`, both white-space runs dropped (its properties in `TrimEmptyIffAllSpace` and `TrimHasNoOuterSpace`) |
| Common.TrimStart | client/src/components/Signup.js:40 | removing leading white space leaves a suffix of the string that is empty or starts with a non-space, and what was removed is all white space |
| Common.TrimEnd | client/src/components/Signup.js:40 | removing trailing white space leaves a prefix of the string that is empty or ends with a non-space, and what was removed is all white space |
| Common.Truthy | client/src/App.js:112 | definition: a value that may be absent is truthy when present and not the empty string |
| Common.FailureText | client/src/components/Dashboard.js:67 | definition: `message \|\| fallback` is the message when it is truthy, else the fallback (also App.js:59 and :82, Dashboard.js:90, SubjectSections.js:230, :244 and :288) |
| Common.Utf16Length | client/src/components/Signup.js:52 | `length` counts UTF-16 code units: between one and two per character, and one per character exactly when none lies beyond the Basic Multilingual Plane |
| Common.ToUpper | server/utils/pdfUtils.js:33 | `toUpperCase` keeps the length and maps each ASCII lower-case letter to its capital, leaving every other character alone |
| Common.ToLower | server/routes/subjects.js:344 | `toLowerCase` keeps the length and maps each ASCII capital to its lower-case letter |
| Common.Decimal | server/middleware/upload.js:29 | a non-negative number prints as a non-empty run of digits |
| Common.JoinPath | server/middleware/upload.js:20 | `path.join` of plain names keeps exactly the non-empty segments, and changes nothing when none is empty |
| Common.Prefixes | server/middleware/upload.js:23 | the directories a recursive `mkdir` makes sure of are exactly the non-empty prefixes of the path |
| Disk.FileSystem.Exists | server/routes/subjects.js:161 | `existsSync` is true exactly for a directory or a file |
| Disk.FileSystem.MkdirRecursive | server/middleware/upload.js:23 | the recursive mkdir succeeds exactly when no prefix of the path is a file, and then adds every prefix; on failure nothing changes |
| Disk.FileSystem.Unlink | server/routes/subjects.js:162 | unlinking succeeds exactly on a regular file, which is removed |
| Disk.FileSystem.WriteFile | server/utils/pdfUtils.js:83-89 | writing succeeds exactly when the path is not a directory and its parent exists; the file then exists |
| Disk.FileSystem.Rename | server/utils/pdfUtils.js:111 | renaming a file replaces the target file, and fails without change when the source is missing or the target is a directory or has no parent |
| Disk.FileSystem.Rmdir | server/utils/cleanupUtils.js:16 | `rmdir` succeeds exactly on a directory with no entries, which is removed |
| Disk.FileSystem.Entries | server/utils/cleanupUtils.js:8 | `readdir` lists exactly the names of the directories and files directly inside |
| SubjectModel.DefaultSlot | server/models/Subject.js:40-93 | a new slot has no file name, no URL and no upload time |
| SubjectModel.GetSlot | server/models/Subject.js:40-93 | a slot exists for exactly the three names the schema declares |
| SubjectModel.SetSlot | server/models/Subject.js:40-93 | assigning a slot changes that slot only and no other field of the record |
| SubjectModel.Normalize | server/models/Subject.js:4-39 | definition: the `trim: true` setters applied to the string fields (its properties in `TrimIdempotent`, `SaveIdempotent`, `SavedIsSettled`) |
| SubjectModel.NewSubject | server/models/Subject.js:4-97 | definition: the given fields, the three default slots and the creation time (what is stored, in `NewSubjectAccepted` and `NewSubjectDefaults`) |
| SubjectModel.Save | server/models/Subject.js:4-39 | `save()` stores the trimmed record exactly when it conforms (every required field non-blank, semester '1' or '2'), else refuses it |
| SubjectModel.TrimIdempotent | server/models/Subject.js:4-39 | trimming twice is trimming once |
| SubjectModel.NewSubjectAccepted | server/models/Subject.js:4-39 | a new record is stored exactly when every required field is non-blank and the trimmed semester is '1' or '2' |
| SubjectModel.NewSubjectDefaults | server/models/Subject.js:40-97 | a stored new record has trimmed year and code, the creation time, and the three default slots with their own descriptions and no file |
| SubjectModel.SaveIdempotent | server/models/Subject.js:4-39 | saving a stored record again stores the same record |
| SubjectModel.SavedIsSettled | server/models/Subject.js:4-39 | what `save()` stores conforms and is trimmed |
| SubjectModel.SettledSavesUnchanged | server/models/Subject.js:4-39 | a conforming, trimmed record is stored unchanged |
| SubjectModel.DefaultDescriptionsDiffer | server/models/Subject.js:43-79 | scaffolding: the three default descriptions are pairwise different, so `NewSubjectDefaults` can tell the slots apart |
| SubjectRoutes.LookupMissesUploadedFile | server/routes/subjects.js:206-211 | the path the routes look a file up at is never the path the upload middleware stored it under |
| SubjectRoutes.Provided | server/routes/subjects.js:63 | definition: every body field present and non-empty (also :103) |
| SubjectRoutes.LookupPath | server/routes/subjects.js:160 | definition: `uploads/<fileName>`, where every route looks a stored file up (also :207, :251 and :341) |
| SubjectRoutes.ValidSectionName | server/routes/subjects.js:184-187 | definition: a section name is valid exactly when it is `timetable`, `lessonplan` or `midsheets` (the same list at subjects.js:235-238) |
| SubjectRoutes.PutKeepsUnique | server/routes/subjects.js:67-88 | storing a record that shares its key with no other keeps (teacher, code, year) unique |
| SubjectRoutes.Clash | server/routes/subjects.js:68-72 | definition: the `findOne` on teacher, code and academic year, excluding the record itself on update (also :117-122) |
| SubjectRoutes.NoClashMeansNoSameKey | server/routes/subjects.js:67-75 | when the clash query finds nothing, the record saved from the form shares its key with no other record |
| SubjectRoutes.SlotsDoNotAffectValidation | server/routes/subjects.js:204-219 | changing a slot keeps a stored record valid, so saving it stores it unchanged |
| SubjectRoutes.PutKeepsValid | server/routes/subjects.js:77-88 | storing a settled record under its id, with no other record of its key, keeps the collection valid |
| SubjectRoutes.SetSlotKeepsValid | server/routes/subjects.js:204-219 | changing one slot of a stored record keeps the collection valid |
| SubjectRoutes.RemoveKeepsValid | server/routes/subjects.js:167 | removing a record keeps the collection valid |
| SubjectRoutes.UpdatedSlot | server/routes/subjects.js:199-217 | a given description (even empty) replaces the old one, and an uploaded file sets the name, the URL `/uploads/<name>` and the upload time; otherwise the fields stay |
| SubjectRoutes.ClearedSlot | server/routes/subjects.js:255-258 | deleting the file keeps the description and clears name, URL and upload time |
| SubjectRoutes.MergeCandidates | server/routes/subjects.js:291-293 | the candidates are no more than the listed sections (membership and order in the two lemmas below) |
| SubjectRoutes.MergeCandidatesMembers | server/routes/subjects.js:291-293 | a section is a candidate exactly when it is listed and its file name is not blank |
| SubjectRoutes.MergeCandidatesConcat | server/routes/subjects.js:291-293 | filtering keeps the catalog order: the candidates of two halves are those of the first followed by those of the second |
| SubjectRoutes.NoCandidatesIffAllBlank | server/routes/subjects.js:291-297 | there is nothing to merge exactly when every section's file name is blank |
| SubjectRoutes.MergedFileNameShape | server/routes/subjects.js:368 | the merged file starts with the subject name and `_`, and has extension `.pdf` |
| SubjectRoutes.MergedFileName | server/routes/subjects.js:368 | definition: `<subjectName>_<subjectCode>_merged_<now>.pdf` (its shape, in `MergedFileNameShape`) |
| SubjectRoutes.TempWritten | server/routes/subjects.js:346-356 | definition: a Word candidate's conversion goes through when the file exists, text extraction succeeds and the temporary PDF can be written |
| SubjectRoutes.Contribution | server/routes/subjects.js:339-365 | a candidate missing on disk is skipped; an appended path is the looked-up file or its temporary PDF, and the merger can load it; the merge breaks exactly on a `.pdf` candidate that is a directory or that the merger cannot load, or on a converted PDF the merger cannot load |
| SubjectRoutes.Contributions | server/routes/subjects.js:339-365 | one part per candidate (which part, in `ContributionsAt`) |
| SubjectRoutes.ContributionsAt | server/routes/subjects.js:339-365 | the k-th part is the k-th candidate's contribution |
| SubjectRoutes.Appended | server/routes/subjects.js:346-362 | the merger receives at most one path per part (which ones, in `AppendSections`) |
| SubjectRoutes.Converted | server/routes/subjects.js:354-360 | every path scheduled for deletion is an appended temporary PDF under `temp` |
| SubjectRoutes.TempPdfPath | server/routes/subjects.js:351 | definition: `temp/<section>_<now>.pdf`, the converted copy of a Word section |
| SubjectRoutes.NothingFoundNothingMerged | server/routes/subjects.js:343-365 | when no candidate's file is at its looked-up path, nothing is appended |
| SubjectRoutes.OtherExtensionsSkipped | server/routes/subjects.js:344-362 | a file that is neither `.pdf`, `.doc` nor `.docx` contributes nothing |
| SubjectRoutes.Paginate | server/routes/subjects.js:317-328 | line i lands on page i div 27 at x = 10, y = 20 + 10·(i mod 27); the document has max(1, ceil(n/27)) pages |
| SubjectRoutes.SubjectStore.Owned | server/routes/subjects.js:37-53 | the lookup finds a record exactly when the id is stored and belongs to the teacher |
| SubjectRoutes.SubjectStore.CreateSubject | server/routes/subjects.js:58-93 | a missing field gives 400; a clash gives 400 with no change; otherwise the saved record is added under the new id with 201, or 500 when validation refuses it; the store stays valid |
| SubjectRoutes.SubjectStore.UpdateSubject | server/routes/subjects.js:98-140 | 400 for a missing field, 404 for a subject not the teacher's, 400 for a clash with another record, else the record is replaced by the saved one (or 500); the store stays valid |
| SubjectRoutes.SubjectStore.DeleteSubject | server/routes/subjects.js:145-173 | 404 for a subject not the teacher's; otherwise every attached file that exists is unlinked and the record removed, unless an attached path is a directory: the request then fails with the record kept, and exactly the files of the sections before that one are gone |
| SubjectRoutes.AttachedPaths | server/routes/subjects.js:157-160 | definition: `uploads/<fileName>` of each section whose file name is non-empty, the files the delete removes |
| SubjectRoutes.SubjectStore.UpdateSection | server/routes/subjects.js:178-225 | the upload runs first: a file is stored exactly when multer accepts it (allowed type, within 10 MiB, a destination that can be created, a target that is not a directory), and the destination exists afterwards once the type passed; a refused file is passed to Express's error handler, a 500 page carrying the filter's text for a wrong type, multer's "File too large" for an oversized file, and an error the model leaves open when the destination or the write fails, with nothing else done; otherwise the section is handled as `HandleSection` states, with the stored file's name |
| SubjectRoutes.SubjectStore.HandleSection | server/routes/subjects.js:182-224 | an invalid name gives 400 before the lookup, a subject not the teacher's 404, else the slot update; only `uploads/<name>` files are ever unlinked |
| SubjectRoutes.UploadErrorMessage | server/middleware/upload.js:45 | the message of the error the upload middleware passes on: the filter's text for a wrong type, multer's "File too large" for the size limit, and none the model fixes for a failing destination or write |
| SubjectRoutes.SubjectStore.ApplySectionUpdate | server/routes/subjects.js:199-219 | with a new file the old one is unlinked when it exists, a directory in its place gives 500; otherwise the updated slot is saved and returned |
| SubjectRoutes.SubjectStore.DeleteSectionFile | server/routes/subjects.js:230-268 | 400 for an invalid name, 404 for a subject not the teacher's; with no file the record is returned unchanged; otherwise the file is unlinked and the slot cleared, or 500 when a directory stands there |
| SubjectRoutes.SubjectStore.ClearSectionFile | server/routes/subjects.js:249-260 | the file-delete handler after the lookup, with the same three outcomes |
| SubjectRoutes.SubjectStore.DownloadMerged | server/routes/subjects.js:273-392 | 404 for a subject not the teacher's, 400 when no section has a file, else the outcome of the merge: on a 500 the converted PDFs written so far stay on disk with their deletion scheduled |
| SubjectRoutes.UnlinkIfExists | server/routes/subjects.js:161-163 | a missing path is left alone, a file removed, and a directory makes the unlink throw |
| SubjectRoutes.MergeSubject | server/routes/subjects.js:299-386 | the merge fails exactly when the merger throws on a path it is handed or the output cannot be written, and otherwise writes the merged file, even when every candidate was skipped; after a throw at the first broken candidate, the converted PDFs added before it (deletion scheduled) and its own rejected temporary PDF remain on disk |
| SubjectRoutes.EnsureTempDir | server/routes/subjects.js:299-305 | the temp directory exists afterwards unless a file named `temp` stands in its way |
| SubjectRoutes.AppendSections | server/routes/subjects.js:339-365 | the loop succeeds exactly when no part breaks, and then hands the merger the appended paths in candidate order, writing only the scheduled temporary PDFs; when a part breaks, it stops at the first broken candidate with exactly the files `StoppedMerge` names on disk |
| SubjectRoutes.StoppedMerge | server/routes/subjects.js:339-365 | definition: the merge stopped at the first broken candidate `k`, with the converted PDFs before it scheduled and on disk, plus `k`'s temporary PDF when it was written |
| SubjectRoutes.AppendStep | server/routes/subjects.js:340-364 | one turn yields the candidate's contribution and schedules the converted PDF; when the part breaks, the only file added is the candidate's own temporary PDF, if it was written |
| SubjectRoutes.AppendOne | server/routes/subjects.js:341-363 | a candidate's contribution, with the temporary PDF written only when a Word file is converted; a converted PDF the merger cannot load stays on disk |
| SubjectRoutes.ContributionIgnoresTempFiles | server/routes/subjects.js:343-362 | temporary PDFs written earlier in the loop do not change what a later candidate contributes |
| PdfUtils.SplitBeforeUpper | server/utils/pdfUtils.js:31 | the split yields at least one piece (what the pieces are, in the lemmas below) |
| PdfUtils.FormatTitle | server/utils/pdfUtils.js:30-33 | definition: split before capitals, join with spaces, upper-case (its properties in the lemmas below) |
| PdfUtils.SplitBeforeUpperRoundTrip | server/utils/pdfUtils.js:31 | putting the pieces of the split together gives the text back |
| PdfUtils.SplitBeforeUpperCuts | server/utils/pdfUtils.js:31 | every piece after the first starts with a capital and no piece holds one past its first character |
| PdfUtils.JoinSplitIsSpaced | server/utils/pdfUtils.js:31-32 | joining the pieces with spaces puts one space in front of each capital past index 0 |
| PdfUtils.FormatTitleLength | server/utils/pdfUtils.js:30-33 | the title grows by one character per capital past index 0 |
| PdfUtils.FormatTitleWithoutCapitals | server/utils/pdfUtils.js:30-33 | a name with no inner capital is only upper-cased |
| PdfUtils.TwoWordTitle | server/utils/pdfUtils.js:30-33 | a lower-case word followed by a capitalised one becomes the two upper-cased words with a space between |
| PdfUtils.AcademicCalendarTitle | server/utils/pdfUtils.js:30-33 | "academicCalendar" becomes "ACADEMIC CALENDAR" |
| PdfUtils.CreateCoverPage | server/utils/pdfUtils.js:14-66 | a cover that renders shows the formatted title at the given size, with the subtitle exactly for a subject cover; a rendering failure gives the empty buffer, never a rejection |
| PdfUtils.MergeOrder | server/utils/pdfUtils.js:93-105 | the merged document is the subject cover (first section of a named subject only), the section cover, then the original |
| PdfUtils.TempCoverPath | server/utils/pdfUtils.js:85 | definition: `temp-<now>-<random>.pdf` in that directory |
| PdfUtils.MergedPath | server/utils/pdfUtils.js:80 | definition: `merged-<now>.pdf` in that directory |
| PdfUtils.DirName | server/utils/pdfUtils.js:79 | definition: `path.dirname` of the original, where the covers and the merged file are written |
| PdfUtils.MergePdfWithCover | server/utils/pdfUtils.js:76-126 | it resolves exactly when every cover can be written and the original and merged files can be handled; the original then holds the merge in cover order; whether it resolves or throws, every cover file written is removed |
| PdfUtils.AddCovers | server/utils/pdfUtils.js:83-102 | each cover is written to its temp file and appended; this succeeds exactly when rendering works and each cover's directory exists |
| PdfUtils.SaveOverOriginal | server/utils/pdfUtils.js:107-111 | the merged file is saved beside the original and renamed over it; this succeeds exactly when the merged path can be written, and then the original path holds the file while the merged path is gone |
| PdfUtils.UnlinkAll | server/utils/pdfUtils.js:114-121 | every listed file is gone afterwards, failed unlinks are ignored, and nothing else changes |
| PdfUtils.IsFirstSection | server/utils/pdfUtils.js:140-162 | the upload counts as the first section exactly when no other listed section has a file |
| PdfUtils.ScanFields | server/utils/pdfUtils.js:155-160 | the loop with its early `break` finds no file exactly when no other scanned name has one |
| PdfUtils.FirstSectionReadsSchemaSlots | server/utils/pdfUtils.js:142-162 | only the three schema slots can hold a file, so the rule reads: the other slots have empty file names |
| PdfUtils.OwnFileIgnored | server/utils/pdfUtils.js:155-160 | the section's own earlier file never changes the rule |
| PdfUtils.FileUrlNamesStoredFile | server/utils/pdfUtils.js:170-174 | the returned URL is the URL of the path the middleware stored the file under, for the teacher's own subject and year |
| PdfUtils.FileUrl | server/utils/pdfUtils.js:172 | definition: the recorded `/uploads/<year>/<department>/<facultyId>/<subject id>/<filename>` URL (what it names, in `FileUrlNamesStoredFile`) |
| PdfUtils.UploadsUrl | server/utils/pdfUtils.js:172 | the URL of a stored path is `/uploads/<year>/<department>/<faculty id>/<subject>/<name>` |
| PdfUtils.HandlePdfUploadWithCover | server/utils/pdfUtils.js:136-179 | a Word file is returned untouched and nothing is merged; for a PDF the result is present exactly when the merge succeeds, and then the merger was handed the covers and the original in cover order (the subject cover only for the first section of a named subject) and the original path holds the merge; either way every cover file written is gone |
| CleanupUtils.CleanEmptyFolders | server/utils/cleanupUtils.js:4-24 | a missing folder rejects, a file gives false; for a directory, exactly the directories below it holding no file are removed, and the result says whether it is left empty, which is when no file lies below it |
| CleanupUtils.PruneChildStep | server/utils/cleanupUtils.js:13-17 | one subdirectory's recursive call and `rmdir` extend the pruned part by that subdirectory |
| CleanupUtils.FileChildStep | server/utils/cleanupUtils.js:11-13 | an entry that is a file prunes nothing |
| CleanupUtils.AllEntriesCovered | server/utils/cleanupUtils.js:8-19 | the entries listed at the start reach every directory below the folder |
| CleanupUtils.EmptyIffNoFileBelow | server/utils/cleanupUtils.js:21-23 | after pruning, the folder has no entries exactly when no file lies below it |
| CleanupUtils.NoEmptyDirectoryRemains | server/utils/cleanupUtils.js:4-24 | after the walk, no directory below the folder is empty |
| CleanupUtils.DirectorySurvivesIffItHoldsAFile | server/utils/cleanupUtils.js:4-24 | a directory below the folder survives exactly when some file lies below it |
| UploadMiddleware.AcademicYearOf | server/middleware/upload.js:10 | the request's year when given and non-empty, else 2024-2025 |
| UploadMiddleware.DestinationPath | server/middleware/upload.js:7-26 | no teacher gives `uploads/<year>/temp`; a teacher without a subject id makes `path.join` throw; else `uploads/<year>/<department>/<faculty id>/<subject id>` |
| UploadMiddleware.Destination | server/middleware/upload.js:7-26 | the directory is created with all its prefixes, and resolving succeeds whenever a path exists and no prefix is a file |
| UploadMiddleware.LastDot | server/middleware/upload.js:30 | the index of the last '.', or none when the name has no '.' |
| UploadMiddleware.ExtName | server/middleware/upload.js:30 | definition: `path.extname` of a name without '/' (its shape, in `ExtNameShape`) |
| UploadMiddleware.ExtNameShape | server/middleware/upload.js:30 | `extname` is a suffix of the name, empty or a '.' followed by no other '.', never the whole name |
| UploadMiddleware.UniqueSuffix | server/middleware/upload.js:29 | the suffix `<now>-<random>` holds no '.' |
| UploadMiddleware.StoredName | server/middleware/upload.js:27-31 | definition: `<field>-<now>-<random><extension>` (its extension, in `StoredNameKeepsExtension`) |
| UploadMiddleware.FileFilter | server/middleware/upload.js:35-47 | definition: exactly the PDF, `.doc` and `.docx` MIME types pass |
| UploadMiddleware.WithinLimit | server/middleware/upload.js:53-55 | definition: a file passes when it is at most 10 MiB |
| UploadMiddleware.ExtNameOfAppended | server/middleware/upload.js:30 | appending a name's extension to a non-empty prefix without '.' gives a name with that extension |
| UploadMiddleware.StoredNameKeepsExtension | server/middleware/upload.js:27-31 | the stored name keeps the original file's extension |
| UploadMiddleware.ReceiveFile | server/middleware/upload.js:7-55 | a file is stored exactly when it has an allowed type, is within 10 MiB, its destination can be created and its target is not a directory; a wrong type is refused before anything is done, a file over the limit is refused once the destination is created, and the destination exists afterwards whenever the type passed |
| UploadMiddleware.Store | server/middleware/upload.js:7-31 | for a file past the filter: stored exactly when within the limit with a creatable destination and a free target, the destination created whenever it can be |
| UploadMiddleware.WriteStored | server/middleware/upload.js:53-55 | a file over the limit is refused and nothing is written; otherwise it is written exactly when the target is not a directory |
| UploadMiddleware.Creatable | server/middleware/upload.js:20-23 | definition: the destination resolves and none of its prefixes is a file |
| UploadMiddleware.DirsAfter | server/middleware/upload.js:20-23 | definition: the destination's prefixes are added once a file passed the filter and the destination can be created |
| UploadMiddleware.Accepts | server/middleware/upload.js:7-55 | definition: the conditions under which multer stores the file |
| UploadMiddleware.AuthTeacher | server/middleware/auth.js:13-19 | `req.teacher` is a teacher document, with no `subjectId` |
| UploadMiddleware.SignedInUploadNeverStored | server/middleware/upload.js:20 | as written, a signed-in teacher's destination never resolves, so no file of theirs is ever stored |
| UploadRoutes.DestinationPath | server/routes/uploadRoutes.js:14-27 | an unknown faculty id is an error; otherwise `uploads/<department>/<faculty id>/<subject id>` |
| UploadRoutes.Destination | server/routes/uploadRoutes.js:14-27 | an unknown faculty creates nothing; a known faculty's directory resolves exactly when none of its prefixes is a file, and is then created with every prefix |
| UploadRoutes.BaseName | server/routes/uploadRoutes.js:28-34 | the base name followed by the extension is the original name |
| UploadRoutes.StoredName | server/routes/uploadRoutes.js:28-34 | definition: `<base>-<now>-<random><extension>` (its shape, in `StoredNameKeepsBaseAndExtension`) |
| UploadRoutes.FileFilter | server/routes/uploadRoutes.js:37-45 | definition: exactly the PDF, JPEG and PNG MIME types pass |
| UploadRoutes.WithinLimit | server/routes/uploadRoutes.js:50-52 | definition: a file passes when it is at most 5 MiB |
| UploadRoutes.StoredNameKeepsBaseAndExtension | server/routes/uploadRoutes.js:28-34 | the stored name starts with the original base name and keeps the original extension |
| UploadRoutes.DeleteFile | server/routes/uploadRoutes.js:56-63 | the file is gone afterwards; when it existed, exactly the directories under `uploads` holding no file are pruned; a failed unlink prunes nothing |
| SetupUploads.EnsureDir | server/setup-uploads.js:45-48 | an existing entry is left alone; otherwise every prefix that is not a file is created, and this succeeds whenever no proper prefix is a file |
| SetupUploads.CreateSubjectFolders | server/setup-uploads.js:75-81 | the subject folders of a faculty are added, and nothing outside them |
| SetupUploads.CreateOneFaculty | server/setup-uploads.js:66-81 | one faculty folder and its subject folders are added, and nothing else |
| SetupUploads.CreateFacultyFolders | server/setup-uploads.js:66-72 | the faculty folders of a department, with their subjects, are added, and nothing else |
| SetupUploads.CreateOneDepartment | server/setup-uploads.js:58-81 | one department folder and everything planned below it are added, and nothing else |
| SetupUploads.CreateDepartmentFolders | server/setup-uploads.js:58-63 | every department folder and everything planned below are added, and nothing else |
| SetupUploads.Planned | server/setup-uploads.js:42-80 | definition: `uploads`, the year folder, and each department, faculty and subject folder below it (`DepartmentDirs`, `FacultyDirs`, `SubjectDirs`), the specification the loops are proved against |
| SetupUploads.CreateFolderStructure | server/setup-uploads.js:41-84 | with no planned folder taken by a file it succeeds and adds exactly the planned folders; it never creates an unplanned folder and never touches files |
| SetupUploads.PlannedFolderIsUploadDestination | server/setup-uploads.js:75-81 | each planned subject folder is the directory the section upload middleware stores into for that department, faculty and subject |
| SetupUploads.SeededFolderIsUploadDestination | server/setup-uploads.js:5-39 | every subject folder the script seeds is an upload destination for the default year |
| SetupUploads.RunTwice | server/setup-uploads.js:41-84 | a second run adds nothing: both runs succeed when no planned folder is a file, and the disk is then as after one run |
| AdminRoutes.MapRow | server/routes/admin.js:19-26 | the cells are copied, a blank password falls back to the faculty id, and nobody is made an administrator |
| AdminRoutes.MapRows | server/routes/admin.js:19-26 | one mapped row per spreadsheet row |
| AdminRoutes.MapRowsAt | server/routes/admin.js:19-26 | the k-th mapped row is the mapping of the k-th spreadsheet row |
| AdminRoutes.NoRowBecomesAdmin | server/routes/admin.js:25 | no spreadsheet row yields an administrator |
| AdminRoutes.Public | server/routes/admin.js:43 | definition: the listed teacher has every stored field except the password |
| AdminRoutes.Admissible | server/models/Teacher.js:4-37 | definition: every required path present and not blank once trimmed, a department of the enum, a password of at least six UTF-16 code units |
| AdminRoutes.CastEmail | server/models/Teacher.js:5-11 | definition: the email's `trim` and `lowercase` setters |
| AdminRoutes.IsDepartment | server/models/Teacher.js:26 | definition: the nine departments of the schema's `department` enum |
| AdminRoutes.Cast | server/models/Teacher.js:4-37 | a row is accepted exactly when it is admissible (the password's `minlength` counted in UTF-16 code units), and is then stored lower-cased and trimmed, with the password as given and the creation time |
| AdminRoutes.ShortFacultyIdNeedsPassword | server/routes/admin.js:24 | a row with no password and a faculty id shorter than six UTF-16 code units is refused |
| AdminRoutes.CastAll | server/routes/admin.js:29 | one document per mapped row |
| AdminRoutes.CastAllAt | server/routes/admin.js:29 | the k-th document is the cast of the k-th row |
| AdminRoutes.NotTakenMeansDifferent | server/models/Teacher.js:5-11 | an email not taken differs from every stored one |
| AdminRoutes.InsertAll | server/routes/admin.js:29 | the number of failed documents is at most the number given (the rest, in the lemmas below) |
| AdminRoutes.InsertAllKeepsExisting | server/routes/admin.js:29 | inserting never removes or changes a stored document |
| AdminRoutes.InsertAllKeepsEmailsUnique | server/models/Teacher.js:5-11 | inserting keeps emails unique |
| AdminRoutes.InsertAllAccounts | server/routes/admin.js:29 | every document is either inserted or counted as failed |
| AdminRoutes.InsertAllDistinct | server/routes/admin.js:29 | valid documents with fresh ids and pairwise distinct, fresh emails all go in |
| AdminRoutes.UploadOutcome | server/routes/admin.js:12-36 | no file gives 500 and no change; otherwise the rows are inserted, and the reply is 200 exactly when none failed |
| AdminRoutes.FileSeenAsWritten | server/routes/admin.js:12 | the route as mounted never sees a file |
| AdminRoutes.UploadAsWrittenAlwaysFails | server/routes/admin.js:12-36 | as written, the upload changes nothing and answers 500 |
| AdminRoutes.AdmissibleRowsAllInserted | server/routes/admin.js:19-31 | with the file handed over, admissible rows with fresh ids and distinct fresh emails are all stored and the reply is 200 |
| AdminRoutes.UpdatePayload | server/routes/admin.js:57-62 | the update carries every key of the body except `isAdmin`, with the same values |
| AdminRoutes.StripAdmin | server/routes/admin.js:57-62 | the copy with `isAdmin` deleted is the update payload |
| AdminRoutes.ApplyUpdate | server/routes/admin.js:64-67 | the update fails exactly when the body's `createdAt` does not cast to a date; otherwise each schema path named in the body, `createdAt` included, is replaced, trimmed or lower-cased as on insert, with the password stored unhashed, and the other paths are kept |
| AdminRoutes.UpdateIgnoresAdminFlag | server/routes/admin.js:57-62 | whatever `isAdmin` the body carries, the update is the same as without it |
| AdminRoutes.UpdateWithoutSchemaKeysIsIdentity | server/routes/admin.js:64-67 | a body naming none of the six schema paths (`createdAt` among them) leaves the document as it was |
| AdminRoutes.UpdateSetsCreatedAt | server/models/Teacher.js:33-36 | a body's `createdAt` that casts replaces the creation time; one that does not cast fails the update |
| AdminRoutes.UpdateSkipsDepartmentEnum | server/models/Teacher.js:22-27 | a department outside the enum is refused on insert but stored by the update |
| AdminRoutes.UpdateDepartmentOnly | server/routes/admin.js:64-67 | a body naming only the department replaces the stored department, trimmed, and nothing else |
| AdminRoutes.UpdateKeepsEmailsUnique | server/routes/admin.js:64-67 | an update that clashes with no other teacher's email keeps emails unique |
| AdminRoutes.Listing | server/routes/admin.js:41-49 | the listing has one entry per stored teacher, under its id, with its email |
| AdminRoutes.FacultyDirectory.UploadFaculty | server/routes/admin.js:12-36 | the upload with the file handed over: the collection and the reply are the upload outcome |
| AdminRoutes.FacultyDirectory.ListFaculty | server/routes/admin.js:41-49 | every teacher is listed without the password |
| AdminRoutes.FacultyDirectory.UpdateFaculty | server/routes/admin.js:54-74 | a `createdAt` that does not cast gives 500 before the lookup; then 404 for an unknown id; otherwise the document becomes the update of the stripped body, or 500 with no change when its email is another teacher's |
| AdminRoutes.FacultyDirectory.DeleteFaculty | server/routes/admin.js:79-98 | deleting oneself gives 400, an unknown id 404, otherwise the document is removed |
| App.Home | client/src/App.js:130-153 | a signed-in teacher's home is the dashboard or the year selector |
| App.Render | client/src/App.js:113-154 | definition: the element each route renders for a session (its properties in `Settle` and the lemmas below) |
| App.NavbarShown | client/src/App.js:112 | the navigation bar is shown exactly when the dashboard's path ends on the dashboard, and then every known path but the year selector's ends there too |
| App.RedirectsSettleInOneStep | client/src/App.js:113-154 | following a redirect never meets another one |
| App.Settle | client/src/App.js:113-154 | the page a route ends on is never a redirect |
| App.DashboardNeedsSessionAndYear | client/src/App.js:138-145 | the dashboard renders exactly for a signed-in teacher with a chosen year on the dashboard route, and shows that year |
| App.GuestsLandOnLoginOrSignup | client/src/App.js:113-154 | a visitor who is not signed in lands on the login page, on the signup page exactly for its route, or on nothing |
| App.SignedInLandsHome | client/src/App.js:113-154 | a signed-in teacher lands on the dashboard from every known path once a year is chosen, else on the year selector |
| App.Session.constructor | client/src/App.js:14-17 | the first render is loading with nobody signed in |
| App.Session.Mount | client/src/App.js:19-46 | a stored token the server accepts signs the teacher in and sets the header; one it refuses is forgotten; the stored year is restored; loading ends |
| App.Bearer | client/src/App.js:24 | definition: the `Bearer ${token}` header value (also :52 and :75) |
| App.Session.Authenticate | client/src/App.js:48-85 | an accepted answer stores the token, sets the header and signs the teacher in; a refusal changes nothing and reports the message |
| App.Session.Login | client/src/App.js:48-62 | `login` is `Authenticate` with the login fallback message |
| App.Session.Signup | client/src/App.js:64-85 | `signup` is `Authenticate` with the signup fallback message |
| App.Session.HandleAcademicYearSelect | client/src/App.js:87-90 | the year is chosen and stored; nothing else changes |
| App.Session.HandleBackToYearSelection | client/src/App.js:92-95 | the year is forgotten in state and storage; the session is kept |
| App.Session.Logout | client/src/App.js:97-104 | token, year, header and teacher are all dropped |
| App.LogoutLandsOnLogin | client/src/App.js:97-154 | after a logout every known path but signup ends on the login page |
| App.ChosenYearSurvivesReload | client/src/App.js:35-46 | choosing a year and reloading brings the same year back |
| FormFields.Shown | client/src/components/Login.js:50 | each recorded problem is shown under its field with its message, and no other field has one |
| FormFields.EmailProblem | client/src/components/Login.js:36-40 | no problem exactly when the email matches; an empty one is "required", any other mismatch "invalid" |
| FormFields.EmailLikeUnanchored | client/src/components/Login.js:38 | the unanchored test still matches with text around a match |
| FormFields.EmailLike | client/src/components/Signup.js:46 | definition: the `/\S+@\S+\.\S+/` test (also Login.js:38); its properties are the lemmas beside it |
| FormFields.NoAtNoEmail | client/src/components/Login.js:38 | a string without `@` never passes |
| FormFields.SpaceBeforeAtNoEmail | client/src/components/Login.js:38 | white space just before the only `@` fails the test |
| FormFields.ShortestEmail | client/src/components/Login.js:38 | five non-space characters shaped `a@b.c` pass |
| FormFields.EmailsHaveFiveCharacters | client/src/components/Login.js:38 | nothing shorter than five characters passes |
| FormFields.ClearError | client/src/components/Login.js:25-30 | a keystroke empties the edited field's shown error and keeps the others |
| FormFields.SubmitError | client/src/components/Login.js:64-73 | definition: success clears the form error, a refusal shows its message, a throw shows the generic one |
| LoginForm.WithField | client/src/components/Login.js:19-24 | definition: a keystroke replaces exactly the named field |
| LoginForm.LoginErrors | client/src/components/Login.js:33-52 | an error for the email exactly when it does not match, for the department or faculty id exactly when empty, each with its message |
| LoginForm.LoginValidIff | client/src/components/Login.js:33-52 | the form passes exactly when the email matches and department and faculty id are non-empty |
| LoginForm.Login.constructor | client/src/components/Login.js:5-12 | the form starts with empty fields, no errors and no loading |
| LoginForm.Login.HandleChange | client/src/components/Login.js:19-31 | the field takes the value and its shown error is cleared |
| LoginForm.Login.ValidateForm | client/src/components/Login.js:33-52 | the shown errors are replaced by the new ones, and the result says whether there are none |
| LoginForm.Login.HandleSubmit | client/src/components/Login.js:54-74 | a valid form is handed to `onLogin` as it stands and the outcome decides the error; an invalid one calls nothing |
| SignupForm.WithField | client/src/components/Signup.js:23-28 | definition: a keystroke replaces exactly the named field |
| SignupForm.PasswordProblem | client/src/components/Signup.js:50-54 | "required" exactly when the password is empty, and no problem exactly when its JavaScript length (UTF-16 code units) is at least six |
| SignupForm.ThreeEmojiPasswordPasses | client/src/components/Signup.js:52 | three characters beyond the Basic Multilingual Plane make a password of length six, which passes |
| SignupForm.ConfirmProblem | client/src/components/Signup.js:56-60 | no problem exactly when the confirmation is non-empty and equals the password |
| SignupForm.Blank | client/src/components/Signup.js:40-42 | a problem exactly when the value is all white space |
| SignupForm.Record | client/src/components/Signup.js:40-72 | one `newErrors.field = ...` step adds the field exactly when it has a problem, with that problem, and every other recorded field keeps its problem |
| SignupForm.FieldProblem | client/src/components/Signup.js:37-72 | each field's own rule: name, faculty id and subject id blank once trimmed, email not matching, password under six, confirmation empty or different, department empty |
| SignupForm.SignupErrors | client/src/components/Signup.js:37-76 | the errors are exactly the fields that have a problem, with that problem |
| SignupForm.RecordStep | client/src/components/Signup.js:40-72 | recording one more field extends the recorded map by that field |
| SignupForm.RecordEachField | client/src/components/Signup.js:37-76 | the seven rule-by-rule steps record exactly the fields with a problem |
| SignupForm.SignupValidIff | client/src/components/Signup.js:37-76 | the form passes exactly when every field rule passes |
| SignupForm.Acceptable | client/src/components/Signup.js:37-76 | definition: the whole condition under which the form is submitted (tied to the errors in `SignupValidIff`) |
| SignupForm.BlankFacultyIdOnlyPassesLogin | client/src/components/Signup.js:66-68 | a faculty id of spaces is refused here but passes the login form |
| SignupForm.NewErrors | client/src/components/Signup.js:37-76 | the rule-by-rule filling of `newErrors` gives the signup errors |
| SignupForm.Signup.constructor | client/src/components/Signup.js:5-16 | the form starts with seven empty fields, no errors and no loading |
| SignupForm.Signup.HandleChange | client/src/components/Signup.js:23-35 | the field takes the value and its shown error is cleared |
| SignupForm.Signup.ValidateForm | client/src/components/Signup.js:37-76 | the shown errors are replaced by the new ones, and the result says whether there are none |
| SignupForm.Signup.HandleSubmit | client/src/components/Signup.js:78-105 | a valid form hands six fields, without the confirmation, to `onSignup`, and the outcome decides the error; an invalid one calls nothing |
| Dashboard.WithInput | client/src/components/Dashboard.js:39-44 | definition: an input change replaces exactly the named field |
| Dashboard.EditForm | client/src/components/Dashboard.js:71-82 | editing fills the form from the subject, a missing department as empty |
| Dashboard.ReplaceById | client/src/components/Dashboard.js:108-112 | the list keeps its length (the contents, in the lemmas below) |
| Dashboard.ReplaceByIdAt | client/src/components/Dashboard.js:108-112 | each position holds the updated subject exactly when its id matches, else its old subject |
| Dashboard.ReplaceByIdNoMatch | client/src/components/Dashboard.js:108-112 | with no subject of that id the list is unchanged |
| Dashboard.ReplaceByIdIdempotent | client/src/components/Dashboard.js:108-112 | replacing twice is replacing once |
| Dashboard.ReplaceByIdSettlesId | client/src/components/Dashboard.js:108-112 | afterwards every subject with the updated id is the updated subject |
| Dashboard.Dashboard.constructor | client/src/components/Dashboard.js:5-19 | the dashboard starts loading with an empty list and an empty, hidden form |
| Dashboard.Dashboard.FetchSubjects | client/src/components/Dashboard.js:27-37 | the fetched list replaces the old one or the load error is shown; loading ends either way |
| Dashboard.Dashboard.HandleInputChange | client/src/components/Dashboard.js:39-44 | the named input takes the value |
| Dashboard.Dashboard.HandleSubmit | client/src/components/Dashboard.js:46-69 | a PUT to the edited subject, else a POST, both with the form and the year; success empties and hides the form and refetches; failure shows the error and changes nothing else |
| Dashboard.Dashboard.HandleEdit | client/src/components/Dashboard.js:71-82 | the subject is being edited, its fields fill the form, and the form is shown |
| Dashboard.Dashboard.HandleDelete | client/src/components/Dashboard.js:84-93 | a DELETE only after confirmation; success refetches, failure shows the error |
| Dashboard.Dashboard.HandleCancel | client/src/components/Dashboard.js:95-106 | the form is hidden and emptied and nothing is being edited |
| Dashboard.Dashboard.HandleSubjectUpdate | client/src/components/Dashboard.js:108-112 | the returned subject replaces every subject with its id |
| Dashboard.Dashboard.HandleViewSubject | client/src/components/Dashboard.js:114-116 | the subject's id is selected and every other field is kept |
| Dashboard.Dashboard.HandleBackToDashboard | client/src/components/Dashboard.js:118-120 | no subject is selected and every other field is kept |
| Dashboard.EditThenSave | client/src/components/Dashboard.js:46-82 | editing a subject and saving the unchanged form sends a PUT to that subject with its own fields |
| Dashboard.CancelThenSave | client/src/components/Dashboard.js:46-106 | saving after a cancel sends a POST of an empty form |
| SubjectSections.Position | client/src/components/SubjectSections.js:13-152 | every section has a position in the catalog that holds it |
| SubjectSections.DefaultDescription | client/src/components/SubjectSections.js:13-152 | definition: each catalog entry's `defaultDescription` |
| SubjectSections.Title | client/src/components/SubjectSections.js:13-152 | definition: each catalog entry's `title` |
| SubjectSections.Name | client/src/components/SubjectSections.js:13-152 | definition: each catalog entry's `name` |
| SubjectSections.CatalogListsEverySectionOnce | client/src/components/SubjectSections.js:13-152 | the catalog lists 23 sections, each exactly once |
| SubjectSections.NameFingerprint | client/src/components/SubjectSections.js:13-152 | scaffolding: each key has the length, first and last character listed for its section |
| SubjectSections.FingerprintOwned | client/src/components/SubjectSections.js:13-152 | scaffolding: each listed fingerprint leads back to its section |
| SubjectSections.NamesDistinct | client/src/components/SubjectSections.js:13-152 | scaffolding: distinct sections are kept under distinct keys |
| SubjectSections.CatalogNamesDistinct | client/src/components/SubjectSections.js:13-152 | the keys of the catalog are pairwise distinct |
| SubjectSections.ShownDescription | client/src/components/SubjectSections.js:371 | the subject's own description when present and non-empty, else the section's default |
| SubjectSections.SomeHasFile | client/src/components/SubjectSections.js:295-297 | definition: `sections.some(...)` over the catalog (what it finds, in `SomeHasFileIff`) |
| SubjectSections.SomeHasFileIff | client/src/components/SubjectSections.js:295-297 | `some` is true exactly when a listed section has a non-blank file name |
| SubjectSections.HasFilesToDownloadIff | client/src/components/SubjectSections.js:295-297 | the merged-PDF button is offered exactly when some section has a file |
| SubjectSections.BlankFileNameDoesNotCount | client/src/components/SubjectSections.js:296 | a file name of white space does not count |
| SubjectSections.FromSlot | server/models/Subject.js:40-93 | a slot reaches the client with its description and file name present |
| SubjectSections.FromServer | server/models/Subject.js:4-97 | a subject reaches the client with its id and name, no `subjectId`, and exactly the three schema slots |
| SubjectSections.CatalogNamesAreNotSlots | client/src/components/SubjectSections.js:13-152 | no catalog key is one of the schema's slot names |
| SubjectSections.ServerSubjectShowsOnlyDefaults | client/src/components/SubjectSections.js:295-371 | for a subject as the server sends it, every section shows its default description and no file, and no download is offered |
| SubjectSections.ServerSubjectHasNoFiles | client/src/components/SubjectSections.js:295-297 | no section of a subject as the server sends it holds a file |
| SubjectSections.FileCheck | client/src/components/SubjectSections.js:180-195 | a file passes exactly when its type is PDF or Word and it is at most 10 MB; the type is checked first |
| SubjectSections.RejectionText | client/src/components/SubjectSections.js:187-193 | definition: the editor's two rejection messages |
| SubjectSections.AllowedType | client/src/components/SubjectSections.js:180-186 | definition: the three MIME types the editor accepts |
| SubjectSections.SizeLimitIsInclusive | client/src/components/SubjectSections.js:192 | exactly 10 MiB passes, one byte more does not |
| SubjectSections.Printed | client/src/components/SubjectSections.js:273 | definition: a missing field prints as "undefined" |
| SubjectSections.DefaultDownloadName | client/src/components/SubjectSections.js:273 | definition: `<subjectName>_<subjectId>_merged.pdf`, with absent values printed as `undefined` |
| SubjectSections.RunEnd | client/src/components/SubjectSections.js:276 | the first line terminator at or after a position, or the end |
| SubjectSections.LastQuote | client/src/components/SubjectSections.js:276 | the last `"` in a range, or none |
| SubjectSections.FilenameMatch | client/src/components/SubjectSections.js:276 | definition: the capture of the leftmost match of `/filename="(.+)"/` at or after a position (its properties in the lemmas below) |
| SubjectSections.FilenameMatchSound | client/src/components/SubjectSections.js:276-279 | a capture is non-empty, has no line terminator, and stands between a `filename="` and a later `"` |
| SubjectSections.NoQuoteNoMatch | client/src/components/SubjectSections.js:276-279 | a header with no `"` never matches |
| SubjectSections.AttachmentHeaderRoundTrip | client/src/components/SubjectSections.js:272-280 | reading the name back out of `attachment; filename="<name>"` gives the name, for a non-empty name on one line |
| SubjectSections.AttachmentHeader | server/routes/subjects.js:374 | definition: the `attachment; filename="<name>"` header the download sends for a plain name |
| SubjectSections.NoMatchInDisposition | client/src/components/SubjectSections.js:276 | no match starts inside the leading `attachment; ` |
| SubjectSections.FirstMatchFrom | client/src/components/SubjectSections.js:276 | the search returns the leftmost match |
| SubjectSections.DownloadName | client/src/components/SubjectSections.js:272-280 | the capture when the header is present and matches, else `<name>_<subjectId>_merged.pdf` |
| SubjectSections.SectionEditor.constructor | client/src/components/SubjectSections.js:4-11 | nothing is being edited, the editor is empty, not loading, no error |
| SubjectSections.SectionEditor.HandleEditSection | client/src/components/SubjectSections.js:154-161 | the section is edited from its stored description or empty, with no file and no error |
| SubjectSections.SectionEditor.HandleCancelEdit | client/src/components/SubjectSections.js:163-167 | nothing is being edited, the editor is emptied and the error cleared |
| SubjectSections.SectionEditor.HandleDescriptionChange | client/src/components/SubjectSections.js:169-174 | the description takes the typed value; the editor as rendered (SubjectSections.js:339-367) has no input that calls it |
| SubjectSections.SectionEditor.HandleFileChange | client/src/components/SubjectSections.js:176-203 | a rejected file shows its message and keeps the earlier choice; an accepted one is chosen and clears the error; a dismissed dialog changes nothing |
| SubjectSections.SectionEditor.HandleSaveSection | client/src/components/SubjectSections.js:205-234 | a PUT of the description and the chosen file; success hands the subject on and closes the editor, failure shows the error and keeps it |
| SubjectSections.SectionEditor.HandleDeleteFile | client/src/components/SubjectSections.js:236-247 | a DELETE only after confirmation; success hands the subject on, failure shows the error |
| SubjectSections.SectionEditor.HandleDownloadMergedPdf | client/src/components/SubjectSections.js:254-292 | on success the file is saved under the download name; failure shows the error; loading ends either way |

## Left out

- Rendering and reading PDFs are opaque. Whether jsPDF renders a cover, whether pdf-lib can load a file and whether mammoth extracts text are boolean parameters (`renders`, `loads`, `convert`). Pages hold only their title, font size, subtitle and the order of merged parts, not fonts, coordinates of covers or page content.
- `splitTextToSize` is not modelled: `SubjectRoutes.Paginate` takes the already split lines.
- The timed deletion of converted Word PDFs and of the merged output (`setTimeout`) is recorded as "scheduled" (`SubjectRoutes.Converted`), not carried out.
- `Date.now()` and `Math.random()` are parameters. `SubjectRoutes.MergeSubject` takes one `now` for the two `Date.now()` calls at server/routes/subjects.js:351 and :368; the converted copies and the merged output have different name patterns, so no name they produce depends on the two being equal.
- Express routing and multer's streaming are not modelled. The multer configurations are modelled by what they decide (destination, name, filter, limit).
- SubjectRoutes.SubjectStore.UpdateSection: every failure of the upload middleware is modelled as reaching Express's default error handler, which answers 500 with an error page rather than a JSON `message`. For the filter's rejection and multer's size error this is multer calling `next(err)`. For the destination callback, which throws synchronously when `path.join` is handed an undefined `subjectId` or the directory cannot be made, the same outcome is assumed: whether multer catches that throw, or it escapes the request, is not modelled. The error text is left open in that case (`SubjectRoutes.UploadErrorMessage`).
- Mongoose queries are map lookups. Sorting by `createdAt` in the subject list route (server/routes/subjects.js:16-32) is not modelled. An ill-formed id (a CastError) is not modelled.
- `res.download` streaming, the error branch of the download callback and all console logging are left out.
- Authentication (JWT signing and checking, bcrypt) and the Teacher pre-save hashing hook (server/models/Teacher.js:40-50) are not modelled. The update route is modelled as storing the password unhashed, as `findByIdAndUpdate` does.
- Parsing the spreadsheet (xlsx) is not modelled: rows arrive as records of optional cells.
- How `insertMany` reports partial failures depends on the Mongoose version. The model inserts every admissible document with a fresh id and email, then fails the reply when any document failed.
- server/middleware/admin.js is not part of this model. The admin routes take the caller's id as given.
- The `Faculty` model that server/routes/uploadRoutes.js requires is not part of this model. It is a map from faculty id to department.
- server/routes/uploadRoutes.js:8-11 calls `existsSync` on `fs.promises`, which has no such function, when the module is loaded. As written, requiring the module throws, so none of its handlers ever runs. The model describes the handlers as they would run without those lines.
- The `content-disposition` quoting of `res.download` is not modelled: Express escapes `"` and `\` in the quoted name and rewrites names outside Latin-1. `SubjectSections.AttachmentHeader` is the header for names that need none of that.
- `path.join` normalisation beyond dropping empty segments (`..`, `.`, separators inside names) is not modelled.
- Unicode case mapping and normalisation are not modelled. Case mapping covers ASCII only. String lengths that the source compares (`password.length`, the schema's `minlength`) are JavaScript lengths in UTF-16 code units (`Common.Utf16Length`); lone surrogates cannot occur in a Dafny string.
- A JSON request body is a map from keys to strings; values of other JSON types are not modelled.
- AdminRoutes.ApplyUpdate: Mongoose's cast of a string to a `Date` is a parameter (`castDate`). The empty string, which Mongoose casts to null, is not told apart: the model stores whatever date the parameter gives, or fails the update.
- The client's HTTP layer (axios, CORS exposure of `Content-Disposition`), the blob and link used to save a download, `formatDate`, and the loading screens are left out. `window.confirm` and local storage are parameters or fields.
- Concurrency between requests is not modelled. Each handler runs to completion.
- SubjectRoutes.MergeCandidates: its own contract bounds only the length. Membership and order are stated by `MergeCandidatesMembers` and `MergeCandidatesConcat`. A name counts as blank when it is all white space, which is when `trim()` leaves nothing (`Common.TrimEmptyIffAllSpace`).
- SubjectRoutes.Contributions: its own contract gives only the length. Each part is stated by `ContributionsAt`.
- SubjectRoutes.Appended: its own contract bounds only the length. What is appended is stated by `AppendSections` and `NothingFoundNothingMerged`.
- PdfUtils.SplitBeforeUpper: its own contract says only that there is a piece. What the pieces are is stated by `SplitBeforeUpperRoundTrip` and `SplitBeforeUpperCuts`.
- AdminRoutes.MapRows: its own contract gives only the length. Each row is stated by `MapRowsAt`.
- AdminRoutes.CastAll: its own contract gives only the length. Each document is stated by `CastAllAt`.
- AdminRoutes.InsertAll: its own contract bounds only the failure count. The rest is stated by `InsertAllKeepsExisting`, `InsertAllKeepsEmailsUnique`, `InsertAllAccounts` and `InsertAllDistinct`.
- Dashboard.ReplaceById: its own contract gives only the length. The contents are stated by `ReplaceByIdAt`.

## Findings

| source | as written | input that shows it | evidently intended | confidence | as-written member | corrected member |
|---|---|---|---|---|---|---|
| server/middleware/upload.js:20 | the destination joins `req.teacher.subjectId`, but `req.teacher` is a teacher document and the teacher schema (server/models/Teacher.js:4-37) has no `subjectId`, so `path.join` is handed `undefined` and throws | any section upload carrying a PDF or Word file from a signed-in teacher: no file is stored and the request fails | the file is stored in the subject's folder, the one the recorded URL `/uploads/<year>/<department>/<facultyId>/<subject id>/<name>` names (server/utils/pdfUtils.js:172) | medium, not executed: how multer surfaces the throw is outside the model | UploadMiddleware.SignedInUploadNeverStored | PdfUtils.FileUrlNamesStoredFile |
| server/routes/admin.js:12 | the upload route mounts `auth` and `isAdmin` but no multer middleware, so `req.file` is undefined and reading `req.file.buffer` throws | any request carrying a spreadsheet: the handler answers 500 and inserts nothing | the spreadsheet reaches the handler and its admissible rows are inserted | high, not executed | AdminRoutes.UploadAsWrittenAlwaysFails | AdminRoutes.AdmissibleRowsAllInserted |
