# Face-recognition CRM: a Dafny model of its bookkeeping

The application enrolls contacts with a photo and a face descriptor. It recognises them later through the
webcam and keeps them in a searchable list. This project models the logic the application itself
contributes around the camera, the face model and the database:

- **Contact store** (`Storage`). The contact and interaction lists kept in localStorage, as a class over
  `seq`s. It covers append, merging an update into the first entry with an id, delete by id, lookup by id,
  and interactions by contact.
- **Recognition cycle** (`Recognize`). One `detectFaces` poll: the guards, the 100 ms rescheduling, the
  gallery labelled by contact name, and the per-detection loop. That loop resolves the matcher's label to a
  contact, records it and writes its last-seen time. The cycle also covers clearing the recognised contact
  when no face is found, and stopping the camera's tracks.
- **Enrollment form** (`Enroll`). The capture, retake and submit handlers over the form's state. It covers
  the ordered validation, comma-separated tag parsing, and building the new contact.
- **Contact list** (`ContactList`). The case-insensitive search filter, and deleting a contact with the
  selection update.
- **Database mapping** (`Supabase`). It covers:
  - rows to records with their defaults;
  - the column map `updateContact` sends;
  - the storage key a delete removes;
  - the order of `saveContact`'s upload and insert;
  - the mime-type match and byte-copy loop of `dataURLtoFile`.
  A failure of `dataURLtoFile` throws, so the save's promise rejects; the model returns `SaveRejected` for
  it.
- **Migration runner** (`Migration`). Splitting the SQL file into statements, and the loop that sends them,
  skips notes and gives up on a fatal error.

Supporting modules:

- `Wrappers`: `Option`.
- `Seqs`: `filter`, `findIndex`, `find`, `map` and the subsequence relation.
- `Strings`: JavaScript `trim`, `split` on one character, `join`, ASCII `toLowerCase`, `includes` and
  `startsWith`.
- `Types`: the records of types/index.ts.
- `FaceApi`: the face-api boundary. The detector's output and the matcher are parameters; the threshold
  0.6 is a named constant.

Everything the code reads from outside is a parameter of the operation that reads it:

- the detected faces and the matcher's answers;
- `Date.now()`, `new Date().toISOString()` and `Math.random()`;
- the confirmation dialog;
- the storage and database answers;
- what `atob` decodes;
- what the remote procedure returns.

## Model

| member | source | states |
|---|---|---|
| Storage.ApplyPatchLaws | lib/storage.ts:23 | the merge `{ ...c, ...updates }` with an empty update gives the contact back; merging the same update twice is merging it once |
| Storage.ApplyPatch | lib/storage.ts:23 | the spread `{ ...contacts[index], ...updates }`: each field the update carries replaces the contact's, every other field is kept (its laws are `ApplyPatchLaws` and `LastSeenPatchTouchesOnlyLastSeen`) |
| Storage.LastSeenPatchTouchesOnlyLastSeen | app/recognize/page.tsx:115-117 | the `{ lastSeen }` update changes the last-seen time and no other field |
| Storage.UpdatedContacts | lib/storage.ts:19-26 | same length; the first entry with the id is merged with the update and every other entry is kept; with no entry for the id the list is unchanged |
| Storage.WithoutId | lib/storage.ts:28-32 | drops exactly the entries with the id, keeps every other entry as often as before, and keeps the rest in order |
| Storage.DeleteTwice | lib/storage.ts:28-32 | deleting an id twice is deleting it once |
| Storage.DeleteAbsent | lib/storage.ts:28-32 | deleting an id nobody has keeps the list |
| Storage.ContactWithId | lib/storage.ts:34-36 | none exactly when no entry has the id, otherwise the first entry with it |
| Storage.FirstWithIdUnique | lib/storage.ts:34-36 | the lookup returns the first entry carrying the id |
| Storage.FindAfterDelete | lib/storage.ts:28-36 | after a delete the id is no longer found |
| Storage.FindAfterSave | lib/storage.ts:13-36 | after appending a contact, looking up its id finds it, unless an earlier entry already had that id |
| Storage.InteractionsOf | lib/storage.ts:43 | exactly the interactions with the contact id, each as often as it is stored, in stored order |
| Storage.InteractionsAfterSave | lib/storage.ts:39-52 | appending an interaction extends its own contact's list at the end and leaves every other contact's list alone |
| Storage.ContactStore.AllContacts | lib/storage.ts:7-11 | empty without a window or without stored data, else the stored list |
| Storage.ContactStore.AllInteractions | lib/storage.ts:40-42 | empty without a window or without stored data, else the stored list |
| Storage.ContactStore.SaveContact | lib/storage.ts:13-17 | the list becomes the old list with the contact at the end; without a window the write throws and nothing changes |
| Storage.ContactStore.UpdateContact | lib/storage.ts:19-26 | the list becomes `UpdatedContacts` of the old one; an absent id leaves the store untouched; interactions are never touched |
| Storage.ContactStore.DeleteContact | lib/storage.ts:28-32 | the list becomes the old one without the id's entries; without a window the write throws and nothing changes |
| Storage.ContactStore.ContactById | lib/storage.ts:34-36 | none exactly when no stored entry has the id, otherwise the first stored entry with that id |
| Storage.ContactStore.InteractionsForContact | lib/storage.ts:39-44 | exactly the stored interactions of the contact, each as often as it is stored, in order; empty without a window |
| Storage.ContactStore.SaveInteraction | lib/storage.ts:46-52 | appends the interaction at the end; without a window nothing changes; contacts are never touched |
| Recognize.Gallery | app/recognize/page.tsx:101-106 | one gallery entry per contact, in order, labelled by the contact's name with its one descriptor |
| Recognize.Labels | app/recognize/page.tsx:108-109 | one label per detection: what the matcher with threshold 0.6 says for its descriptor |
| Recognize.Resolve | app/recognize/page.tsx:111-113 | no contact for the label `'unknown'`, otherwise `contacts.find` by name (characterised by `ResolveSpec`) |
| Recognize.RecognizedAfter | app/recognize/page.tsx:108-114 | the recognised contact after the first n detections: that of the last one whose label resolves, else the one before the loop (properties in `LastMatchWins`, `UnmatchedChangesNothing`, `AfterOneMore`) |
| Recognize.ApplyTouches | app/recognize/page.tsx:115-117 | the stored list after the last-seen writes, each applied by `updateContact` in order (properties in `TouchesChangeOnlyLastSeen`, `AfterOneMore`) |
| Recognize.TouchAt | app/recognize/page.tsx:111-117 | the `updateContact(id, { lastSeen })` call of detection k: the resolved contact's id with the time read for it, none when the label does not resolve (characterised by `TouchesAreMatches`) |
| Recognize.TouchesAfter | app/recognize/page.tsx:108-118 | the last-seen writes of the first n detections, in detection order (exactly the resolved ones by `TouchesAreMatches`; one more per resolving detection by `AfterOneMore`) |
| Recognize.ResolveSpec | app/recognize/page.tsx:111-113 | a contact exactly when the label is not `'unknown'` and some contact has that name, and then the first such contact |
| Recognize.UnmatchedChangesNothing | app/recognize/page.tsx:108-126 | detections whose labels resolve to no contact keep the recognised contact and write no last-seen time |
| Recognize.LastMatchWins | app/recognize/page.tsx:108-126 | after several detections the recognised contact is the one from the last detection that resolved |
| Recognize.AfterOneMore | app/recognize/page.tsx:108-118 | one more detection: if its label resolves, its contact becomes the recognised one and gets one more last-seen write at the end; otherwise neither changes |
| Recognize.TouchesAreMatches | app/recognize/page.tsx:111-118 | a write is among the last-seen writes exactly when some detection's label resolves to a contact with that id and the write carries the time read for that detection |
| Recognize.TouchesChangeOnlyLastSeen | app/recognize/page.tsx:115-117 | the last-seen writes keep the list's length and change no field but `lastSeen` |
| Recognize.RecognizePage.DetectFaces | app/recognize/page.tsx:77-133 | a failed guard changes nothing and schedules nothing. A paused or ended video changes nothing and schedules the next cycle after 100 ms. A rejected `detectAllFaces` changes nothing and schedules nothing. Every other cycle schedules one more after 100 ms: a missing canvas context changes nothing, no detections clears the recognised contact, and otherwise the recognised contact and the store follow the per-detection loop. |
| Recognize.RecognizePage.MatchDetections | app/recognize/page.tsx:108-126 | after the loop, the recognised contact is the last resolved one (or the previous one) and the store has every resolved detection's last-seen write applied in order |
| Recognize.RecognizePage.StopWebcam | app/recognize/page.tsx:70-75 | with a video element and a stream, every track of the stream is stopped |
| Recognize.RecognizePage.StopRecognition | app/recognize/page.tsx:201-204 | scanning ends and the model's next cycle fails its guard (in the page the pending cycle's closure still sees scanning on, and its guard fails because the `<video>` of lines 184-190 unmounts and `videoRef.current` becomes null); the tracks are stopped; the recognised contact stays |
| Enroll.ParseTags | app/enroll/page.tsx:87 | no tags for an empty string; otherwise one tag per comma-separated piece, trimmed, so one more tag than commas; no tag contains a comma or surrounding whitespace |
| Enroll.TagsRoundTrip | app/enroll/page.tsx:87 | tags typed without spaces around the commas join back into the typed string |
| Enroll.NewContact | app/enroll/page.tsx:78-91 | the contact carries the captured descriptor and image, the given id and time, no last-seen time, the parsed tags and every form field unchanged; e-mail, phone and notes are stored as typed, `''` included |
| Enroll.EnrollForm.HandleCapture | app/enroll/page.tsx:41-63 | processing ends cleared. No face sets "No face detected…"; an exception sets "Error detecting face…"; neither touches the capture. A face stores the descriptor and the image and clears the error. |
| Enroll.EnrollForm.Retake | app/enroll/page.tsx:134-139 | clears both the descriptor and the captured image |
| Enroll.EnrollForm.HandleSubmit | app/enroll/page.tsx:65-95 | A missing capture is reported first, then an empty name or company; only the first failure is reported and nothing is saved. Otherwise exactly the new contact is appended to the store and the stored interactions stay; without a window the save throws and the store is untouched. |
| ContactList.FilteredContacts | app/contacts/page.tsx:33-38 | a contact is shown exactly when the lower-cased term occurs in its lower-cased name, company or title, as often as it is listed; the result keeps the list's order |
| ContactList.MatchesSearch | app/contacts/page.tsx:34-37 | the filter's predicate: the lower-cased term occurs in the lower-cased name, company or title (case-insensitivity by `SearchIgnoresCase`) |
| ContactList.EmptySearchKeepsAll | app/contacts/page.tsx:33-38 | an empty term shows every contact |
| ContactList.SearchIgnoresCase | app/contacts/page.tsx:35-37 | terms equal up to ASCII case show the same contacts |
| ContactList.SearchIgnoresTermCase | app/contacts/page.tsx:35-37 | upper- or lower-casing the term changes nothing |
| ContactList.ContactsPage.HandleDelete | app/contacts/page.tsx:23-31 | nothing happens unless confirmed; then the id is deleted and the list reloaded; the selection is cleared exactly when it is the deleted contact |
| Supabase.OrEmpty | lib/supabase.ts:25 | `v \|\| ''` for a nullable text column: null and `''` become `''`, other text is kept |
| Supabase.RowToContact | lib/supabase.ts:21-35 | missing title, LinkedIn URL, email, phone and notes become `''`, missing tags become `[]`; id, name, company, descriptor, image URL, creation and last-seen times are copied |
| Supabase.ContactsFromAnswer | lib/supabase.ts:10-36 | an error gives no contacts; otherwise one contact per row, each row mapped, in the rows' order |
| Supabase.ContactFromAnswer | lib/supabase.ts:135-161 | none exactly when the query gave no row, otherwise the mapped row |
| Supabase.RowToInteraction | lib/supabase.ts:176-182 | missing notes and location become `''`; id, contact id and date are copied |
| Supabase.InteractionsFromAnswer | lib/supabase.ts:164-183 | an error gives no interactions; otherwise one per row, mapped, in order |
| Supabase.SavedContactReadsBack | lib/supabase.ts:58-73 | an inserted contact reads back with its own fields, the image's public URL, the database's id and time and no last-seen time |
| Supabase.SavedInteractionReadsBack | lib/supabase.ts:185-197 | an inserted interaction reads back with its contact id and notes, the database's id and date, and `''` for a missing location |
| Supabase.InteractionPayload | lib/supabase.ts:188-192 | the inserted interaction: contact id, notes and location under `contact_id`, `notes`, `location` (read back by `SavedInteractionReadsBack`) |
| Supabase.InsertPayload | lib/supabase.ts:60-71 | the inserted row: the contact's fields under their column names and the public URL as `image_url` (read back by `SavedContactReadsBack`) |
| Supabase.UploadPath | lib/supabase.ts:41 | the upload key `contacts/<timestamp>_<random>.jpg` (removed again by the delete, `RemovesUploadedImage`) |
| Supabase.TextIf | lib/supabase.ts:86-92 | a text column's value is written exactly when the field is present and not empty |
| Supabase.Requested | lib/supabase.ts:86-94 | the value each `if` writes to its column: a text column when its field is truthy, `tags` whenever present, no other column (the update object is proved equal to it by `BuildDbUpdates`) |
| Supabase.ColumnNamesDistinct | lib/supabase.ts:86-94 | every field goes to a column of its own, so no `if` overwrites another's column |
| Supabase.Put | lib/supabase.ts:86-94 | one `if` adds its own column when requested and keeps every column written so far |
| Supabase.BuildDbUpdates | lib/supabase.ts:83-94 | the update object holds exactly the columns whose field is truthy (tags whenever present), each with the field's value. `linkedinUrl` goes to `linkedin_url` and `lastSeen` to `last_seen`; there is no column for id, descriptor, image URL or creation time. |
| Supabase.LastSeenUpdateWritesOneColumn | lib/supabase.ts:94 | a last-seen update writes the `last_seen` column and no other |
| Supabase.RemovalKey | lib/supabase.ts:115-121 | a key exactly when the image URL is present and not empty and its last `/`-segment is not empty; then `contacts/` followed by that segment |
| Supabase.LastSegmentAfter | lib/supabase.ts:116 | the text after a prefix ending in `/`, with no `/` of its own, is the URL's last segment |
| Supabase.KeyOfLastSegment | lib/supabase.ts:116-120 | a URL whose last segment is a non-empty file name has the key `contacts/` plus that name |
| Supabase.RemovesUploadedImage | lib/supabase.ts:116-120 | for a public URL ending in `/` plus the upload path `contacts/<time>_<random>.jpg` of line 41, a delete removes exactly that path |
| Supabase.SemicolonFrom | lib/supabase.ts:202 | finds the first `;` at or after a position when no line terminator comes before it, and nothing otherwise |
| Supabase.SemicolonAt | lib/supabase.ts:202 | a `;` reached without a line terminator or an earlier `;` is the one found |
| Supabase.MimeMatchFrom | lib/supabase.ts:202 | a match needs a `:`; the captured text has no `;` and no line terminator, and occurs between a `:` and a `;` |
| Supabase.MimeSkipsToColon | lib/supabase.ts:202 | start positions before the first `:` do not change the match |
| Supabase.MimeBetweenColonAndSemicolon | lib/supabase.ts:201-202 | for a header without line terminators, the mime type is the text between the first `:` and the next `;` |
| Supabase.MimeType | lib/supabase.ts:202 | the mime regex on the text before the first comma, none where it fails (properties in `MimeMatchFrom` and `MimeBetweenColonAndSemicolon`) |
| Supabase.FileFrom | lib/supabase.ts:200-212 | the file `dataURLtoFile` returns: none where the mime match or `atob` fails, otherwise one byte per decoded character with the name and mime type (the loop is proved equal to it by `DataUrlToFile`) |
| Supabase.DataUrlToFile | lib/supabase.ts:200-212 | no file when the mime match or the decoding fails. Otherwise the bytes have the decoded string's length, byte k is character k's code modulo 256, and the name and mime type are set. |
| Supabase.SaveContact | lib/supabase.ts:38-81 | A file that cannot be built rejects before any upload. The upload goes to the generated path with the built file. A failed upload inserts nothing and gives null. Otherwise the contact is inserted with the public URL, and the result is the new id, or null when the insert fails. |
| Migration.SplitStatements | scripts/run-migration.js:29-32 | every statement is trimmed, non-empty, not a `--` comment and free of `;`; exactly the trimmed pieces that pass the filter are kept, a repeated piece as often as it occurs, in file order |
| Migration.KeepStatement | scripts/run-migration.js:32 | the split's filter: a non-empty statement not starting with `--` (the kept pieces are stated by `SplitStatements`) |
| Migration.TrimmedPieces | scripts/run-migration.js:30-31 | each trimmed piece of the split is trimmed and free of `;` |
| Migration.StatementsRoundTrip | scripts/run-migration.js:29-32 | clean statements joined by `;` split back into themselves |
| Migration.Skipped | scripts/run-migration.js:40 | the skip test: starts with `--`, or contains `note:` after ASCII lower-casing |
| Migration.IsFatal | scripts/run-migration.js:53 | the give-up test: the error message contains `function` or `does not exist` |
| Migration.Classify | scripts/run-migration.js:40-62 | the branch the loop body takes for one statement, in the body's test order (linked to the loop by `RunMigration`) |
| Migration.Outcomes | scripts/run-migration.js:40-62 | one outcome per statement, statement k's being `Classify` of it and the k-th answer (by `OutcomeAt`) |
| Migration.Step | scripts/run-migration.js:40-56 | the requests of one statement: none when skipped, the `exec_sql` call with `;` appended, and after a reported error the probe query (its queries by `StepQueries`) |
| Migration.Run | scripts/run-migration.js:36-66 | the requests from statement i on: each statement's own (none, the call, or the call and the probe), stopping after the first fatal one (properties in `NothingAfterFatal`, `FatalEndsWithProbe`, `SentUpToFatal`) |
| Migration.RunMigration | scripts/run-migration.js:36-66 | the requests made are those of `Run` over the statements' outcomes. Each outcome is the branch the loop body takes: skipped, sent without error, failed (the probe follows), or failed fatally (the probe follows and the loop ends) |
| Migration.NoFatalSendsAll | scripts/run-migration.js:36-66 | without a fatal error, every statement not skipped is sent, in order, with `;` appended, and nothing else is sent; skipped statements are those starting with `--` or containing `note:` in any case, and errors and exceptions do not stop the loop |
| Migration.SentUpToFatal | scripts/run-migration.js:36-66 | with or without a fatal error: the queries sent are, in order and each with `;` appended, the statements not skipped among those up to and including the first fatal one (all of them when there is none) |
| Migration.NothingAfterFatal | scripts/run-migration.js:53-56 | after a fatal error (one mentioning `function` or `does not exist`), no later statement or answer affects what is sent |
| Migration.FirstFatalSpec | scripts/run-migration.js:53-56 | `FirstFatal` is the first statement whose call failed fatally, or the end when there is none |
| Migration.FatalEndsWithProbe | scripts/run-migration.js:47-56 | the first fatal error ends the run: its call and the probe query after it are the last two requests |
| Seqs.Filter | lib/storage.ts:30 | `filter` keeps exactly the elements that satisfy the predicate, never lengthening the list |
| Seqs.FirstIndex | lib/storage.ts:21 | `findIndex`: -1 exactly when no element satisfies the predicate, else the first one that does |
| Seqs.Find | lib/storage.ts:35 | `find`: none exactly when no element satisfies the predicate, else the first one that does |
| Strings.Trim | scripts/run-migration.js:31 | `trim` gives a slice of the text with no whitespace at either end and only whitespace outside it |
| Strings.Split | scripts/run-migration.js:30 | `split` on one character gives one more piece than occurrences of it, none of which contains it |
| Strings.JoinSplit | app/enroll/page.tsx:87 | joining the pieces of a split by the same character gives the text back |
| Strings.ContainsIffOccurs | app/contacts/page.tsx:35-37 | `includes` holds exactly when the text occurs at some position |
| Strings.Contains | app/contacts/page.tsx:35-37 | `includes`, by recursion on the text (characterised by `ContainsIffOccurs`) |
| Strings.ToLower | app/contacts/page.tsx:35-37 | `toLowerCase`: same length, each character lower-cased on ASCII letters |
| Strings.LastSegmentIsLastPiece | lib/supabase.ts:116 | the text after the last `/` is the last element of the split |
| Strings.LastSegment | lib/supabase.ts:116 | `split('/').pop()`: a `/`-free suffix of the text, preceded by `/` or by nothing (unique by `LastSegmentUnique`) |

## Left out

- The face model: detection, descriptors, Euclidean distance and `FaceMatcher`'s tie-breaking and threshold
  test are the library's. The detections and the matcher are parameters, and 0.6 is passed to the matcher as
  a named constant.
- The camera, canvas drawing (`DrawBox`, `resizeResults`, `matchDimensions`), `startWebcam`, `loadModels`
  and every React effect. These are browser I/O.
- Timing and asynchrony. A cycle is one atomic step, and the rescheduling is its result (the delay of the
  next cycle). React's stale closures are not modelled: the cycle reads the page's current state.
- localStorage JSON serialisation. The store holds the parsed lists directly.
- The network calls of lib/supabase.ts and scripts/run-migration.js (select, insert, update, delete, upload,
  `getPublicUrl`, `rpc`, the `from('_')` probe). Their answers are parameters. The probe is a request in the
  model, and its answer, which the script ignores, is left out.
- `deleteContact` in lib/supabase.ts: the model covers the key it removes (`RemovalKey`). The image-URL query
  and the row delete, both always issued, are network calls.
- A `findBestMatch` that throws part-way through the `forEach` (app/recognize/page.tsx:109): the matcher is
  a total function, so the model has no cycle that rejects after some last-seen writes are already done and
  schedules nothing. A rejecting `detectAllFaces` is modelled (`found` is none).
- `atob` and base-64 decoding. The decoded text is a parameter, and none stands for `atob` throwing.
- JavaScript strings are UTF-16 code units, while the model's strings are sequences of characters. The
  difference is invisible here, since `atob` only yields characters below 256.
- `toLowerCase` is modelled on ASCII letters only. Unicode case mapping is not modelled.
- In `Migration.Outcomes`, `answers(k)` is the answer the remote procedure gives statement `k`. Answers are
  drawn for skipped statements too and ignored there. The console output and the printed instructions are
  left out.
- Behaviour one might expect but the code does not have is not modelled:
  - stopping recognition does not clear the recognised contact;
  - submit reports only the first failed check, the capture before the required fields;
  - the gallery has an entry for every contact, not only those with a descriptor;
  - last-seen writes are not throttled.
