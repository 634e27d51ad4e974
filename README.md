# Video notes: note store and Markdown export

A Dafny model of the note-keeping core of a browser extension for taking
timestamped notes (prose or code) on an online video. The model covers:

- the popup's collection of notes for the open video, kept in
  `NotesController`. It loads the collection from a key-value store under
  `"notes_" + videoId` and writes the whole collection back on every change.
- the operations on that collection: add, delete by id, clear after
  confirmation, and export.
- the Markdown export. It sorts a copy of the notes stably by timestamp,
  writes a `# Notes – <title>` header, then one `## ⏱ mm:ss` section per
  note. A code note is fenced as `js`.
- the background worker's second copy of the export. That copy sorts the
  caller's array in place.

Files:

- `note_model.dfy`, module `NoteModel`: the `Note` record and the stable
  sort by timestamp. The sort is written as an insertion sort. Stability is
  stated as "for every timestamp `t`, the notes with timestamp `t` keep their
  relative order" (`FilterTs`, `SameTies`). `SortedStableUnique` proves that a
  sorted sequence is determined by these tie subsequences. So every stable
  sort gives the same result, whichever algorithm the JavaScript engine runs.
- `popup.dfy`, module `Popup` (`popup/popup.js`): trimming,
  `formatTimestamp`, `sanitizeFilename`, `truncateText`, storage keys,
  delete-by-id, and the Markdown document as a specification function.
  `NotesController` is a class whose fields are the script's module-level
  state: `video` (`currentVideoInfo`), `isCodeMode`, `notes`, and `store`
  (`chrome.storage.local` as a map).
- `background.dfy`, module `Background` (`background.js`): its own
  `formatTimestamp` and `sanitizeFilename`, proved equal to the popup's. It
  also has the in-place sort of an `array<Note>` and `generateMarkdown`,
  proved to build the popup's document from the same notes. The
  `exportNotes` response is modelled too.

Two behaviours of the code worth knowing:

- The file-name sanitizer replaces each non-alphanumeric character with its
  own `-`. It does not collapse runs: the regular expression has no `+`.
  `"C++ Tutorial: Pointers!"` gives `c---tutorial--pointers-`
  (`Popup.SanitizeFilenameExample`).
- Deleting an absent id still writes to storage. The collection is always
  written back, so a store with no entry for the video
  gains one holding no notes. What loads for every key stays the same
  (`Popup.DeleteAbsentKeepsStore`).

The notes in memory are not always those of the open video. A video-info
reply that names another video replaces the context but does not reload the
notes (popup/popup.js:40-41); the one-second poll at popup/popup.js:252-256
sends such replies. The next add or delete then writes the previous video's
notes, with the one note added or removed, under the new video's key. A
confirmed clear writes no notes under the new key, which erases whatever that
video had stored. `NotesController` keeps that
behaviour: its invariant only says that notes exist while some video context
is set.

Environment inputs become parameters:

- the playback second of a new note (`now`);
- the note's `Date.now()` id and ISO `createdAt`;
- the answer to the confirm dialog (`confirmed`);
- the video-info reply (`ReceiveVideoInfo`).

## Model

| member | source | states |
|---|---|---|
| NoteModel.StableSort | popup/popup.js:211 | the sorted copy has exactly as many notes as the input; its order, contents and stability are the lemmas below |
| NoteModel.Insert | popup/popup.js:211 | inserting one note adds exactly that note (length + 1, multiset grows by it) |
| NoteModel.StableSortSorted | popup/popup.js:211 | the sorted copy is non-decreasing by timestamp |
| NoteModel.StableSortPermutation | popup/popup.js:211 | the sorted copy is a permutation of the notes |
| NoteModel.StableSortStable | popup/popup.js:140 | notes with equal timestamps keep their insertion order |
| NoteModel.SortedStableUnique | background.js:49 | two sorted sequences with the same tie subsequences are equal, so any stable sort yields the same order |
| NoteModel.StableSortIdempotent | popup/popup.js:211 | sorting an already sorted copy changes nothing |
| NoteModel.SortedSameTiesIsStableSort | background.js:49 | any sorted, tie-preserving reordering equals the popup's sorted copy |
| NoteModel.SwapKeepsTies | background.js:49 | swapping adjacent notes with different timestamps keeps every tie subsequence |
| NoteModel.StableSortAppendLatest | popup/popup.js:115 | a note appended with the latest timestamp ends up last in the sorted copy, the rest unchanged |
| Popup.TrimStart | popup/popup.js:101 | result is a suffix of the input; everything dropped is white space; it starts with non-white space |
| Popup.TrimEnd | popup/popup.js:101 | result is a prefix of the input; everything dropped is white space; it ends with non-white space |
| Popup.Trim | popup/popup.js:101-102 | trimmed content is a slice of the input with only white space before and after it; it is empty exactly when the input is all white space; otherwise no white space at either end |
| Popup.TrimIdempotent | popup/popup.js:101 | trimming twice equals trimming once |
| Popup.NatToDecimal | popup/popup.js:268 | toString of a non-negative integer is never empty |
| Popup.NatToDecimalSpec | popup/popup.js:268 | toString of a non-negative integer: digits only, value n, a single digit exactly when n < 10, no leading zero |
| Popup.PadStart | popup/popup.js:268 | padStart(width, '0') has length max(len, width) |
| Popup.PadStartSpec | popup/popup.js:268 | padStart(width, '0'): length max(len, width), original text at the end, zeros in front |
| Popup.FormatTimestamp | popup/popup.js:265-269 | the text has at least 5 characters, with ':' just before the last two |
| Popup.FormatTimestampSpec | popup/popup.js:265-269 | text is minutes, ':', two seconds digits; minutes field reads s / 60 (at least two digits, uncapped, no leading zero from ten minutes on), seconds field reads s % 60 |
| Popup.FormatTimestampRoundTrip | popup/popup.js:265-269 | reading the two fields back gives minutes * 60 + seconds == s |
| Popup.FormatTimestampWidth | popup/popup.js:266-268 | the text is exactly 5 characters iff s < 6000 (no hour field; minutes grow beyond two digits) |
| Popup.FormatTimestampExamples | popup/popup.js:265-269 | 125 gives "02:05" and 59 gives "00:59" |
| Popup.FormatTimestampHundredMinutes | popup/popup.js:265-269 | 6000 gives "100:00": the minutes field grows, unpadded beyond two digits |
| Popup.ReplaceNonAlnum | popup/popup.js:279 | replace(/[^a-z0-9]/gi, '-'): same length; position k keeps the input's character when it is an ASCII letter or digit and is '-' otherwise |
| Popup.ToLowerCase | popup/popup.js:279 | toLowerCase(): same length; position k is the lower case of the input's character (ASCII letters only), so no upper-case ASCII letter remains |
| Popup.Prefix | popup/popup.js:279 | substring(0, n): the first min(len, n) characters of the input |
| Popup.SanitizeFilename | popup/popup.js:278-280 | length min(len, 50); position k is '-' exactly when input k is not an ASCII letter or digit, otherwise its lower case; every character in [a-z0-9-] |
| Popup.SanitizeFilenameIdempotent | popup/popup.js:278-280 | sanitizing a sanitized name changes nothing |
| Popup.SanitizeFilenameExample | popup/popup.js:279 | "C++ Tutorial: Pointers!" gives "c---tutorial--pointers-" (no collapsing of runs) |
| Popup.TruncateText | popup/popup.js:272-275 | text within the limit is kept; longer text is its first maxLength characters followed by "..." |
| Popup.StorageKey | popup/popup.js:56 | the key is "notes_" followed by the whole video id |
| Popup.StorageKeyInjective | popup/popup.js:56 | "notes_" + a == "notes_" + b iff a == b |
| Popup.Lookup | popup/popup.js:57-58 | a missing entry loads as no notes; a present one as stored |
| Popup.SaveIsolated | popup/popup.js:66-67 | saving video A's notes leaves what loads for any other video B unchanged, and A then loads exactly what was saved |
| Popup.RemoveId | popup/popup.js:189 | no remaining note has the id; result no longer than the input and contained in it |
| Popup.RemoveIdAbsent | popup/popup.js:189 | deleting an id no note carries returns the notes unchanged |
| Popup.RemoveIdAppend | popup/popup.js:189 | filtering distributes over concatenation, so the kept notes stay in relative order |
| Popup.RemoveIdKeepsOthers | popup/popup.js:189 | every note with a different id keeps its multiplicity |
| Popup.DeleteAbsentKeepsStore | popup/popup.js:188-190 | after loading, deleting an absent id and saving leaves what loads for every key unchanged |
| Popup.Markdown | popup/popup.js:208-222 | the document starts with the header "# Notes – <title>" and blank line (Header); no notes give just that header, which is also what the unguarded background.js:47-53 produces. Each section is Heading (the formatted timestamp) then Body (a js fence for code, a paragraph for prose) |
| Popup.SectionsAppend | popup/popup.js:213-222 | the sections of a concatenation are the concatenation of the sections |
| Popup.MarkdownSameTies | popup/popup.js:211 | the document depends only on the order among notes with equal timestamps, not on storage order |
| Popup.MarkdownAppendLatest | popup/popup.js:208-225 | a note with the latest timestamp adds exactly its section at the end of the document |
| Popup.ExportScenario | popup/popup.js:208-225 | a prose note at 65 s added before a code note at 10 s exports as header, code section, prose section |
| Popup.NotesController.Key | popup/popup.js:64-66 | a key exists exactly when a video with a non-empty id is open, and it is "notes_" + videoId |
| Popup.NotesController.constructor | popup/popup.js:15-17 | no video, prose mode, no notes, the given store; invariant holds |
| Popup.NotesController.ReceiveVideoInfo | popup/popup.js:40-41 | only a reply naming a video replaces the context, and the notes are not reloaded; the invariant (notes only while a video context is set) is kept |
| Popup.NotesController.ToggleCodeMode | popup/popup.js:73-74 | code mode flips |
| Popup.NotesController.LoadNotes | popup/popup.js:53-58 | with a key, notes become what is stored under it (none if absent); without one nothing changes; the store is not touched |
| Popup.NotesController.SaveNotes | popup/popup.js:63-67 | with a key, only that entry is overwritten with the whole collection; without one the store is unchanged |
| Popup.NotesController.AddNote | popup/popup.js:100-116 | empty trimmed input or no video: nothing changes; otherwise exactly one note (trimmed content, now, current mode) is appended and the entry rewritten |
| Popup.NotesController.DeleteNote | popup/popup.js:188-190 | notes become RemoveId(old notes, id) and the entry is rewritten |
| Popup.NotesController.ClearNotes | popup/popup.js:239-247 | on no notes or no confirmation nothing changes; otherwise notes and the entry become empty, the key stays |
| Popup.NotesController.GenerateMarkdown | popup/popup.js:208-225 | the loop builds Markdown(title, notes): header, then one section per note of the stably sorted copy |
| Popup.NotesController.ExportNotes | popup/popup.js:196-204 | no file exactly when there are no notes; otherwise the document and "notes-" + SanitizeFilename(title) + ".md" |
| Background.FormatTimestamp | background.js:66-70 | the worker's copy gives the same text as the popup's |
| Background.SanitizeFilename | background.js:73-75 | the worker's copy gives the same name as the popup's |
| Background.SortByTimestamp | background.js:49 | the array ends sorted, a permutation of its old contents, ties in original order, equal to the popup's sorted copy |
| Background.InsertLast | background.js:49 | one pass grows the sorted prefix by one, keeps ties and leaves the rest of the array alone |
| Background.GenerateMarkdown | background.js:46-63 | the caller's array is stably sorted in place and the result is the popup's document for the same notes and title |
| Background.ExportNotes | background.js:34-42 | the response holds that document and "notes-" + SanitizeFilename(videoTitle) + ".md" |

## Left out

- content.js is not part of this model. It reads the page's video element and URL, floors the playback position and shows a visual acknowledgement. Its only contribution here is natural-number timestamps and a title string, taken as inputs.
- The message relay in background.js (lines 4-32): tab lookup, forwarding and keeping the response channel open. This is asynchronous transport with no logic to state.
- getVideoInfo's messaging and error display. Only its state update (lines 40-41) is modelled, as `ReceiveVideoInfo`.
- Popup.NotesController.AddNote: addNote refreshes the video info before it builds the note (line 105). The model takes the refreshed playback second as the input `now`. A refresh that swaps in a different video at that moment is not modelled.
- renderNotes, escapeHtml, showToast, disableControls, setupEventListeners beyond the mode toggle, the one-second polling, downloadFile, copyToClipboard and jumpToTimestamp: DOM, timer, clipboard and download glue.
- The "note added" notification sent to the page after addNote. It is fire-and-forget and its result is ignored.
- chrome.storage.local is asynchronous and may fail. Here it is a map field written synchronously, and storage failures are not modelled.
- Id generation. `Date.now()` ids and ISO `createdAt` strings are parameters. The source does not make ids unique, so the model does not prove it.
- Popup.Trim: removes only ASCII white space (space, tab, line feed, carriage return, vertical tab, form feed). JavaScript's trim also removes other Unicode white space.
- Popup.SanitizeFilename: strings are sequences of Unicode scalar values, while JavaScript works on UTF-16 code units. The regular expression has no `u` flag, so it replaces each code unit: a character outside the Basic Multilingual Plane becomes two `-` in the source and one in the model (`"🌸 Tips"` gives `notes----tips.md` there and `notes---tips.md` here). `substring(0, 50)` also counts code units, so the cut differs on such titles. Lower-casing covers ASCII letters only. That is exact here, because every other character has already become `-`.
- Popup.TruncateText: counts Unicode scalar values. JavaScript's `length` and `substring` count UTF-16 code units, so on titles with characters outside the Basic Multilingual Plane the source cuts at a different place and may split a surrogate pair.
- Popup.FormatTimestamp: takes natural numbers only. Negative or fractional seconds never reach it, because content.js floors a non-negative position.
- Concurrent popups on the same video (lost updates) are not modelled. The model has one controller.
- Interleaving inside one popup is not modelled: each handler is one atomic method. In the source, addNote awaits getVideoInfo (line 105) before the input is cleared (line 120), so a second Ctrl+Enter during that wait adds the same content twice. The poll's getVideoInfo can also run between a handler's awaits.
