# pagemarks in Dafny

pagemarks keeps bookmarks as one JSON file each in a git repository and renders them into
a static HTML page. Two independent implementations share the storage format: a browser
client (`pagemarks/js`), which edits and deletes bookmarks through the GitLab API, and a
Python command line (`pagemarks/framework`, `pagemarks/commands`), which adds bookmarks and
generates the page. This project models the deterministic core of both and proves what
they promise:

- **Addressing** (`urls.dfy`, `base32.dfy`, `addressing.dfy`, `locate.dfy`): URL
  normalisation in both languages, with each regular expression engine modelled; the
  streaming base-32 encoder of `base32.js` proved equal to section 6 of RFC 4648
  (lower-cased, unpadded); the big-endian unpacking of the SHA-1 words; and the storage
  path `NN/<hash>.json`, the same in JavaScript and Python for the same digest.
- **Records** (`records.dfy`, `recordtext.dfy`, `json.dfy`, `jsvalue.dfy`, `add.dfy`):
  `normalizeBookmark`, `normalizeDate`, the text written by `bookmarkToBase64`, and the
  record, `clean_nones` and `to_json` of `pagemarks add`.
- **Diff** (`diff.dfy`): `keyCheck` and `bookmarkDiff`.
- **Queries** (`query.dfy`): the tokenizer `pq`, `isClosingQuote`, `parseQuery`,
  `shuffleFilter` and `query2String`.
- **Browser flows** (`edit.dfy`, `delete.dfy`, `gitlab.dfy`): the edit dialog as a class
  over its card map and dialog state, with the save decisions; the delete/undo card state
  machine; the GitLab request descriptors, status dispatch and conflict classification.
  The backend is an abstract result handed to the callbacks.
- **Python helpers** (`pyutil.dfy`, `repo.dfy`, `render.dfy`, `sorting.dfy`, `text.dfy`):
  tag normalisation, the prompt loop over a sequence of input lines, `Bookmark` validation,
  `sanitize_url`, the date ordering, timestamp parsing, the `Collection` class and its
  checks, and the rendering contexts.

SHA-1, base64, slug generation, the clock and console input are parameters of the
operations that use them.

A final `/` of a URL without query or fragment is dropped, a lone root `/` included:
`normalizeUrl` and `normalize_url` both turn `http://a.com/` into `http://a.com`, so the
two addresses share one file (`UrlNormalize.DropSlash`).

## Model

| member | source | states |
|---|---|---|
| Addressing.ComputeSha1 | pagemarks/js/globals.js:260-268 | the bytes filled in are the digest words unpacked big-endian, `sigBytes` of them |
| Addressing.UnpackPack | pagemarks/js/globals.js:263-265 | unpacking the packed words gives every byte sequence back: the big-endian order is undone exactly |
| Addressing.PackUnpack | pagemarks/js/globals.js:263-265 | packing the unpacked bytes of a full word array gives the words back |
| Addressing.Url2Filename | pagemarks/js/globals.js:271-285 | the file name is that of the SHA-1 digest of the normalised URL, and the reserved invalid name for a non-string |
| Addressing.FolderPrefixShape | pagemarks/js/globals.js:280-283 | the folder prefix is two decimal digits whose value is the folder number, then `/` |
| Addressing.FilenameShape | pagemarks/js/globals.js:277-284 | a file name is 30 characters: the folder `last byte mod 32` in two digits, `/`, the first 22 characters of the RFC 4648 base-32 encoding of the digest, `.json` |
| Addressing.InvalidFilenameReserved | pagemarks/js/globals.js:273-275 | the reserved name is given exactly for the values that are not strings |
| Base32.Encoder.constructor | pagemarks/js/base32.js:37-41 | a fresh encoder has consumed nothing and holds no output |
| Base32.Encoder.ReadByte | pagemarks/js/base32.js:45-69 | each call either consumes the next byte or emits the next 5-bit group of the input, keeping the encoder state consistent with the bytes consumed |
| Base32.Encoder.Finish | pagemarks/js/base32.js:72-76 | the pending output plus exactly one more group when a carry is pending, and `$` when asked for; the buffer is emptied |
| Base32.Encoder.ReadInput | pagemarks/js/base32.js:89-91 | the loop ends with every byte of the input consumed |
| Base32.Encoder.Update | pagemarks/js/base32.js:88-99 | the output handed out is the next groups of all bytes fed so far; with a flush it completes the whole encoding |
| Base32.Encoder.Feed | pagemarks/js/base32.js:89-94 | feeding the input byte by byte hands out exactly the next complete groups of all bytes fed so far and empties the pending output |
| Base32.Encode | pagemarks/js/base32.js:112-116 | `encode` is the lower-case, unpadded encoding of section 6 of RFC 4648, of length ceil(8n/5) |
| Base32.EncodeChunks | pagemarks/js/base32.js:28-35 | feeding the input in chunks to one encoder and flushing on the last gives pieces that together are the encoding of the whole input |
| Base32.GroupsReference | pagemarks/js/base32.js:45-76 | the groups the encoder emits, the zero fill included, are the RFC 4648 encoding by 40-bit quanta |
| Base32.GroupsPrefix | pagemarks/js/base32.js:88-99 | groups already handed out do not change however the stream goes on |
| Base32.PaddedReference | pagemarks/commands/locate.py:72 | `base64.b32encode`: the upper-case RFC 4648 encoding padded with `=` to whole 8-character quanta, never shorter than the unpadded one |
| Locate.PaddedAgrees | pagemarks/commands/locate.py:72 | for a 20-byte digest the padded encoding has no `=` and, lower-cased, is the browser's unpadded encoding |
| Locate.DigestFilenamesAgree | pagemarks/commands/locate.py:71-77 | for the same digest, the Python file name is exactly the browser's |
| Locate.UrlToFilename | pagemarks/commands/locate.py:64-77 | `url_to_filename` gives two digits naming folder `last byte mod 32`, `/`, the first 22 base-32 characters of the digest of the normalised URL, `.json` |
| Locate.FilenamesAgree | pagemarks/commands/locate.py:64-77 | with the browser's pattern anchored, both sides store a URL without JavaScript line terminators and without U+017F at the same path, given the same digest |
| Locate.FilenamesAgreeAtStart | pagemarks/commands/locate.py:64-77 | where the browser's unanchored search matches at the start, `url2filename` as written agrees with `url_to_filename` |
| Locate.InvalidArgsRejects | pagemarks/commands/locate.py:44-47 | the URL argument is rejected exactly when it is missing or only Python white space |
| Locate.Found | pagemarks/commands/locate.py:53-59 | nothing is reported exactly when no selected collection holds the file, and at most one line per collection |
| Locate.Execute | pagemarks/commands/locate.py:50-61 | the hits are reported in collection order, and `not found` is raised exactly when the file must exist and no hit was reported |
| DeleteCard.ThemeBorder | pagemarks/js/delete.js:75-79 | the theme border is `border-dark` or `border-light`, never the primary border of a live card |
| DeleteCard.Card.ToggleUndoLink | pagemarks/js/delete.js:95-103 | the undo link is shown exactly when the card is deleted; nothing else on the card changes |
| DeleteCard.Card.ToggleToolboxIcons | pagemarks/js/delete.js:106-116 | the toolbox icons are hidden exactly when the card is deleted; nothing else changes |
| DeleteCard.Card.MarkCardDeleted | pagemarks/js/delete.js:119-157 | border, link and `onclick` attributes are swapped into the deleted or the live look |
| DeleteCard.Card.ErrorHandler | pagemarks/js/delete.js:164-169 | a failed call puts the card back in the look it had before the attempt |
| DeleteCard.Card.GetBookmarkUrl | pagemarks/js/delete.js:31-38 | the link's `href`, else its `href-save`; found exactly when one of the two is set |
| DeleteCard.Card.Request | pagemarks/js/delete.js:41-72 | a backend call is appended to the calls made, and nothing else changes |
| DeleteCard.Card.DeleteBookmark | pagemarks/js/delete.js:172-189 | the new card state and result are those of `deleteBookmark` for the way each backend call ends: answered, error handler called, or thrown before either continuation |
| DeleteCard.Card.UndoDeleteBookmark | pagemarks/js/delete.js:192-206 | the new card state and result are those of `undoDeleteBookmark` for the way the create call ends: answered, error handler called, or thrown |
| DeleteCard.DeleteOf | pagemarks/js/delete.js:172-188 | deleting never returns `true`; it returns `false` and makes no call exactly in demo mode or without write access; otherwise its first call fetches the card's id |
| DeleteCard.UndoOf | pagemarks/js/delete.js:192-205 | undoing never returns `true`; it returns `false` and makes no call exactly in demo mode or without write access; otherwise it makes one create call with the card's id and the kept blob |
| DeleteCard.MarkKeepsUrl | pagemarks/js/delete.js:119-157 | marking keeps the bookmark's URL findable (under `href` when live, `href-save` when deleted) and marking twice is marking once |
| DeleteCard.DemoDelete | pagemarks/js/delete.js:174-178 | in demo mode deleting makes no backend call, greys the card, keeps its URL and returns `false` |
| DeleteCard.DemoUndo | pagemarks/js/delete.js:194-198 | in demo mode undoing makes no backend call and restores a live card |
| DeleteCard.NoWriteAccess | pagemarks/js/delete.js:179-183 | without write access deleting and undoing leave the card untouched and return `false` |
| DeleteCard.CallsNeedAccess | pagemarks/js/gitlab.js:27-34 | a delete or undo reaches the backend only outside demo mode with a string branch, a positive project id and a stored token |
| DeleteCard.DeleteCalls | pagemarks/js/delete.js:184-188 | deleting fetches first and deletes the record under the card's URL only when the fetch answered, keeping the fetched blob on the card; a fetch that fails or throws deletes nothing and keeps no blob |
| DeleteCard.DeleteOutcome | pagemarks/js/delete.js:184-188 | a successful delete leaves a greyed card whose URL is kept in `href-save`; a fetch or delete whose error handler runs leaves a live card with its URL; one that throws leaves the card greyed, its icons hidden and its undo link as it was |
| DeleteCard.UndoOutcome | pagemarks/js/delete.js:204-205 | undoing re-creates the record under the same id from exactly the kept blob; success shows a live card, a called error handler a deleted one, and a throw a live link with the undo link hidden and the icons left as they were |
| DeleteCard.DeleteThenUndo | pagemarks/js/delete.js:172-206 | deleting a live card and undoing, every call succeeding, gives back the same card apart from the kept blob and the three calls |
| BookmarkDiffs.CheckEntryMeaning | pagemarks/js/globals.js:174-188 | a property is reported as the sentinel exactly on a type, `Date` or array mismatch with the other side present, and by name exactly when the other side lacks it |
| BookmarkDiffs.KeyCheck | pagemarks/js/globals.js:167-191 | the loop over the own properties of the first bookmark collects what `keyCheck` collects, or raises the `TypeError` of reading a property of `null`/`undefined` |
| BookmarkDiffs.CheckProperty | pagemarks/js/globals.js:174-188 | one property adds its name when the second bookmark lacks it, the sentinel when the two values differ in type, in being a `Date` or in being an array, and nothing otherwise |
| BookmarkDiffs.KeyCheckSuccess | pagemarks/js/globals.js:170-174 | the loop raises exactly when it reads a property of `null` or `undefined` |
| BookmarkDiffs.KeyCheckMembers | pagemarks/js/globals.js:167-191 | on two readable values the set holds exactly what some key reports |
| BookmarkDiffs.KeyChecksClash | pagemarks/js/globals.js:206-209 | the union of both key checks holds the sentinel exactly when some property clashes in either direction |
| BookmarkDiffs.KeyChecksMissing | pagemarks/js/globals.js:206 | without a clash the union holds exactly the keys one side lacks |
| BookmarkDiffs.FieldDiffMembers | pagemarks/js/globals.js:211-225 | the field comparison adds `name`, `url`, `notes` when they differ strictly, and `tags` when both are arrays holding different values |
| BookmarkDiffs.BookmarkDiff | pagemarks/js/globals.js:194-229 | the result is that of `bookmarkDiff`: a `TypeError` or a list without repeats |
| BookmarkDiffs.DiffFailure | pagemarks/js/globals.js:196-206 | `bookmarkDiff` raises exactly when both values are objects and one of them is `null` |
| BookmarkDiffs.DiffInconsistent | pagemarks/js/globals.js:196-209 | the sentinel comes alone, and exactly when the two values cannot be compared |
| BookmarkDiffs.DiffChanges | pagemarks/js/globals.js:206-228 | between two comparable bookmarks the list holds exactly the changed fields, each once |
| BookmarkDiffs.DiffSymmetric | pagemarks/js/globals.js:194-229 | swapping the two versions changes the order of the list, never whether it fails or what it holds |
| BookmarkDiffs.DateAddedNotCompared | pagemarks/js/globals.js:226 | `date_added` is reported only when one version lacks it; its value is never compared |
| EditDialog.ReplaceFirst | pagemarks/js/edit.js:430 | replacing a one-character pattern keeps the length and changes only the first occurrence, nothing when there is none |
| EditDialog.DropLast | pagemarks/js/edit.js:419 | `slice(0, -n)` leaves the text minus its last `n` characters, the empty text when it is shorter |
| EditDialog.SourceOfNewId | pagemarks/js/edit.js:419-431 | for every file name of the id shape, the location rebuilt from its card id is the file's own location |
| EditDialog.NewIdOfSource | pagemarks/js/edit.js:419-431 | for every card id of the id shape, the id rebuilt from its location is the same id |
| EditDialog.DigestIdFilename | pagemarks/js/edit.js:419 | every digest file name (`xx/....json`) has the shape the id conversion can take apart |
| EditDialog.InvalidIdFilename | pagemarks/js/edit.js:419 | the reserved `invalid` file name has that shape too |
| EditDialog.FilenameIdFilename | pagemarks/js/edit.js:419 | whatever URL value the dialog yields, its file name converts to an id |
| EditDialog.ShownName | pagemarks/js/edit.js:136 | a card title is the name when it has at most 90 characters, otherwise its first 86 characters and ` ...`, 90 in all |
| EditDialog.UrlTerm | pagemarks/js/edit.js:116-119 | the URL pattern, compiled from a string literal so that its `\.` is any character, or as evidently intended with a literal dot, finds a match exactly when the text holds no line terminator |
| EditDialog.ProtocolFound | pagemarks/js/edit.js:117 | the protocol taken is one the text starts with, and no other protocol starts the text |
| EditDialog.ProtocolNotHttp | pagemarks/js/edit.js:117 | a text starting with `f` matches neither HTTP alternative, so the FTP ones are tried |
| EditDialog.ExtensionFound | pagemarks/js/edit.js:116-117 | the ending left by the lazy group is empty or one leading character (any character but a line terminator as compiled, a dot as intended) followed by `htm`, `html`, `shtm` or `shtml` in any case, and no longer remainder is such an ending |
| EditDialog.UrlTermMatch | pagemarks/js/edit.js:116-119 | for either reading of the pattern, the search term is the captured group: the URL splits into protocol, group and ending, the group is the shortest that leaves such an ending, lower-cased |
| EditDialog.StrValues | pagemarks/js/edit.js:84-88 | the tag strings become string values one for one, in order |
| EditDialog.ReadBookmarkFromDialog | pagemarks/js/edit.js:68-103 | the dialog record has the trimmed name, URL and notes, the parsed tags and the card's date in milliseconds when present |
| EditDialog.DialogEntriesShape | pagemarks/js/edit.js:68-103 | the dialog record holds `name`, `url`, `tags`, `notes` and, only when the card has a date, `date_added`, in this order, each once |
| EditDialog.DialogTagsShape | pagemarks/js/edit.js:84-88 | the dialog tags are lower-case, sorted and a rearrangement of the lower-cased tags entered; none when the field is blank |
| EditDialog.DialogEntriesRecord | pagemarks/js/edit.js:68-103 | every property of a dialog record is a string, a string list or a date |
| EditDialog.NewRecord | pagemarks/js/edit.js:457 | the normalized dialog record is still a dialog record |
| EditDialog.NormalizedDialog | pagemarks/js/globals.js:58-83 | `normalizeBookmark` keeps every dialog record a dialog record |
| EditDialog.BuildSearchText | pagemarks/js/edit.js:106-123 | the search text of the card, or a `decodeURI` error exactly when the record has a URL that does not decode; without a URL it is the lower-cased trimmed name and the tags; with one, the URL term is the compiled pattern's |
| EditDialog.SearchTextOf | pagemarks/js/edit.js:106-123 | building the search text throws exactly when the record has a non-empty URL string that `decodeURI` rejects |
| EditDialog.SearchTextNoUrl | pagemarks/js/edit.js:106-114 | without a URL the search text is the lower-cased trimmed name and the tags, and building it never throws |
| EditDialog.SearchTextUrl | pagemarks/js/edit.js:115-120 | with a decodable URL, the decoded text splits into an optional protocol, a middle part and an ending of any character followed by `s?html?` (so `/html` and `xhtml` are stripped too), no shorter middle part leaves such an ending, and the search text ends with a space and the lower-cased middle part |
| EditDialog.SlashHtmlEnding | pagemarks/js/edit.js:116-119 | as compiled, the term of `https://<host>/html` is the lower-cased host alone; with a literal dot it keeps `/html` |
| EditDialog.DotEndingOnly | pagemarks/js/edit.js:116-119 | with a literal dot, the pattern strips only an ending that lower-cases to `.htm`, `.html`, `.shtm` or `.shtml` |
| EditDialog.AsWrittenStripsMore | pagemarks/js/edit.js:116-119 | the compiled pattern's term is always a prefix of the intended pattern's term: it strips everything the intended one strips |
| EditDialog.WrittenCard | pagemarks/js/edit.js:126-185 | writing a card sets its full name, shown name, title, tags and notes; when the search text is built it also sets the search text and link and, for a record with a URL, moves the card to the new id; when `decodeURI` throws the card keeps its id, search text and link |
| EditDialog.Page.constructor | pagemarks/js/edit.js:321-344 | a page showing the given cards with the dialog open after `editBookmark` has loaded it: Save enabled, no error, no "URL exists" message, no backend calls yet |
| EditDialog.Page.EnableSaveButton | pagemarks/js/edit.js:390-398 | only the Save button's state changes, to the one asked for |
| EditDialog.Page.DisplayUrlExistsMessage | pagemarks/js/edit.js:367-387 | only the "URL exists" message's visibility changes, to the one asked for |
| EditDialog.Page.DisplayErrorMsgInModal | pagemarks/js/edit.js:192-203 | only the dialog's error changes: shown for a message, hidden without one |
| EditDialog.Page.ErrorHandler | pagemarks/js/edit.js:206-210 | the dialog shows the out-of-sync message naming the card id, nothing else changes |
| EditDialog.Page.HideModal | pagemarks/js/edit.js:347-357 | the dialog is closed and cleared, the cards and the calls made are kept |
| EditDialog.Page.WriteBookmarkToHtmlCard | pagemarks/js/edit.js:126-185 | the page after writing the card, and whether the write ran to its end (false exactly when `decodeURI` throws); a missing card leaves the page as it was |
| EditDialog.Page.Request | pagemarks/js/edit.js:222-239 | exactly one backend call is appended, nothing else changes |
| EditDialog.Page.UpdateBookmarkSameUrl | pagemarks/js/edit.js:401-413 | the page after an in-place update: in demo mode the card is rewritten without a call, otherwise one update call and, on success, the card rewritten and the dialog closed unless writing the card throws, on failure the error shown |
| EditDialog.Page.UpdateBookmarkUrlChanged | pagemarks/js/edit.js:416-446 | the page after a URL change: "URL exists" when the new file's card is on the page, otherwise a move whose three answers have their own outcome, the dialog staying open when writing the card throws |
| EditDialog.Page.SaveBookmark | pagemarks/js/edit.js:449-478 | the page after Save on the dialog's fields against the record it was opened with, a card write stopped by `decodeURI` included (its outcomes are stated by `SaveUnchanged`, `SaveSameUrl`, `UrlAlreadyOnPage` and `MoveOutcomes`) |
| EditDialog.Page.SaveRecord | pagemarks/js/edit.js:460-475 | the page after Save once the new record is known, a card write stopped by `decodeURI` included |
| EditDialog.SaveUnchanged | pagemarks/js/edit.js:460-475 | an unchanged record closes the dialog and makes no backend call |
| EditDialog.SaveSameUrl | pagemarks/js/edit.js:461-470 | a change that leaves the URL alone makes, outside demo mode, exactly one update call with the record's base64 text, never shows "URL exists", and leaves the dialog open exactly when the call fails or writing the card throws |
| EditDialog.UrlAlreadyOnPage | pagemarks/js/edit.js:420-423 | a new URL whose file's card is already shown only shows "URL exists" and enables Save, without a call |
| EditDialog.MoveOutcomes | pagemarks/js/edit.js:429-444 | one move call from the card's location to the new file; success closes the dialog and re-ids the card when writing the card completes and otherwise leaves the dialog and the card ids alone, "exists" shows the message, failure shows the error |
| EditDialog.MovedIdLocatesTarget | pagemarks/js/edit.js:419-431 | after a move the card's new id locates exactly the file the move wrote |
| GitLab.ReplaceFirstBy | pagemarks/js/gitlab.js:38 | `replace('-', '%2F')` changes only the first `-`, and nothing when there is none |
| GitLab.EscapedAppend | pagemarks/js/gitlab.js:37-39 | percent-encoding a path works piece by piece |
| GitLab.EscapedPlain | pagemarks/js/gitlab.js:37-39 | a segment without separators is left alone by the encoding |
| GitLab.ReplaceIdDash | pagemarks/js/gitlab.js:38 | in the id `folder-hash` the dash replaced is the one after the folder |
| GitLab.EscapedLocation | pagemarks/js/gitlab.js:37-39 | encoding `/folder/hash.json` changes only its two slashes and its dot |
| GitLab.Id2PathOfFile | pagemarks/js/gitlab.js:37-39 | `id2path` of `folder-hash` is the encoded location of `folder/hash.json` |
| GitLab.DigestFileParts | pagemarks/js/gitlab.js:37-39 | every digest file name is `folder/hash.json` with separator-free parts |
| GitLab.NewIdOfFile | pagemarks/js/edit.js:419 | the id of `folder/hash.json` is `folder-hash` |
| GitLab.Id2PathOfParts | pagemarks/js/gitlab.js:37-39 | a record file with separator-free parts is reached again through its card id |
| GitLab.Id2PathOfDigest | pagemarks/js/gitlab.js:37-39 | for every file `url2filename` names, the card id the edit dialog derives from it leads `id2path` back to that very file |
| GitLab.FetchRequest | pagemarks/js/gitlab.js:99-108 | the fetch is a GET of the record's file URL on the branch, expecting 200 |
| GitLab.UpdateRequest | pagemarks/js/gitlab.js:123-137 | the update is a PUT of the base-64 content to the record's file URL, expecting 200 |
| GitLab.DeleteRequest | pagemarks/js/gitlab.js:141-153 | the removal is a DELETE of the record's file URL, expecting 204 |
| GitLab.MoveRequest | pagemarks/js/gitlab.js:157-176 | the move is one commit POSTed to `/commits`, expecting 201 |
| GitLab.ValidateRequest | pagemarks/js/gitlab.js:206-214 | the token check is a GET of `/personal_access_tokens` with no data, expecting 200, and its header carries the trimmed token under test whatever token is stored |
| GitLab.RequestsShape | pagemarks/js/gitlab.js:81-176 | create, fetch, update, delete and move send their verbs and expect their codes, each with the stored token as its header; every commit message names the URL and ends with ` [pagemarks]`; the move carries one `move` action from source to target with the base-64 content; the four file operations address the same URL |
| GitLab.PrivateToken | pagemarks/js/gitlab.js:43-52 | the header is `NOT-SET` for a missing or empty token, else the token trimmed |
| GitLab.PerformCall | pagemarks/js/gitlab.js:42-77 | success runs exactly on the expected status with the response; any other answer goes to the error continuation with its status, except that an unexpected status with a `null` response throws |
| GitLab.FetchAnswerMeaning | pagemarks/js/gitlab.js:110-119 | the fetch yields the content exactly when the answer is a 200 whose encoding is `base64` |
| GitLab.MoveClassified | pagemarks/js/gitlab.js:176-186 | a move succeeds exactly on 201; it is the "URL exists" case exactly when the status is 400 with a text containing `name already exists`; every other failure keeps its status |
| GitLab.NameAlreadyExists | pagemarks/js/gitlab.js:178-181 | a failed 400 whose text reports the name exists is classified as "URL exists" |
| GitLab.ScopeSearch | pagemarks/js/gitlab.js:194-200 | the only error the loop can raise is a `TypeError` |
| GitLab.ApiFirstStep | pagemarks/js/gitlab.js:194-200 | a readable token without the scope lets the search pass on to the next one |
| GitLab.ScopeSearchMeaning | pagemarks/js/gitlab.js:194-200 | the loop answers true exactly when a token with the `api` scope comes before any `null` token, and throws exactly when a `null` token comes first |
| GitLab.ResponseContainsApiScope | pagemarks/js/gitlab.js:191-203 | the loop with its flag and `break` computes that search on a list, `false` on anything else |
| GitLab.ValidateToken | pagemarks/js/gitlab.js:206-227 | a token is valid exactly when the answer is a 200 list in which an `api`-scoped token comes before any `null` one |
| JsonText.EscapeChar | pagemarks/js/globals.js:136 | a character is written as itself unless it is `"`, `\` or a control character, which get a backslash escape |
| JsonText.Escape | pagemarks/js/globals.js:136 | support: escaping never shortens a text (`UnescapeEscape` is its round trip) |
| JsonText.Quote | pagemarks/js/globals.js:136 | a string is written between double quotes |
| JsonText.EscapeAppend | pagemarks/js/globals.js:136 | escaping works piece by piece |
| JsonText.EscapePlain | pagemarks/js/globals.js:136 | a text with no character to escape is written unchanged |
| JsonText.UnescapeChar | pagemarks/js/globals.js:117 | a recognised escape consumes at least one and at most the remaining characters |
| JsonText.UnescapeEscapeChar | pagemarks/js/globals.js:117 | reading back one escaped character gives that character |
| JsonText.UnescapeEscape | pagemarks/js/globals.js:117-136 | `JSON.parse` reads back exactly the string `JSON.stringify` wrote, for every string |
| JsonText.ToJson | pagemarks/js/globals.js:136 | support: `toJSON` leaves the size of a value unchanged, which the termination of the writer uses |
| JsonText.Replacer | pagemarks/js/globals.js:136-149 | support: the replacer never returns a value larger than the one it was given, which the termination of the writer uses |
| JsonText.Elements | pagemarks/js/globals.js:136 | support: an array is written with one text per element |
| JsonText.Members | pagemarks/js/globals.js:136 | support: an object is written with at most one member per property (`MembersKeys` states which) |
| JsonText.IndexOfFrom | pagemarks/js/globals.js:151 | the search from a position answers -1 or a position at or after it where the pattern occurs |
| JsonText.IndexOfText | pagemarks/js/globals.js:151 | `indexOf` answers -1 or a position where the pattern occurs |
| JsonText.IndexOfFromFinds | pagemarks/js/globals.js:151 | the search from a position finds something exactly when the pattern occurs there or later |
| JsonText.IndexOfTextFinds | pagemarks/js/globals.js:151 | `indexOf` is not -1 exactly when the pattern occurs in the text |
| JsonText.LastIndexOfFrom | pagemarks/js/globals.js:152 | the backward search answers -1 or a position at or before its start where the pattern occurs |
| JsonText.LastIndexOfText | pagemarks/js/globals.js:152 | `lastIndexOf` answers -1 or a position where the pattern occurs |
| JsonText.Slice | pagemarks/js/globals.js:154-156 | `slice` within bounds is the sub-text between them |
| JsonText.CompactTotal | pagemarks/js/globals.js:138 | the compact form of the tag list never throws |
| JsonText.ValueTotal | pagemarks/js/globals.js:138 | the compact text of any value never throws |
| JsonText.VisibleKeys | pagemarks/js/globals.js:140-141 | the written keys never include `id` |
| JsonText.PropertyOmitted | pagemarks/js/globals.js:136-149 | a property is left out exactly when it is `id`, or undefined and not `tags` |
| JsonText.MembersKeys | pagemarks/js/globals.js:136-149 | `bookmarkToBase64` writes exactly the visible keys, in property order |
| JsonText.Stringify | pagemarks/js/globals.js:136-149 | compact `JSON.stringify` never throws; with the record replacer the root record that is not a date is written as it is, the replacer returning it unchanged |
| JsonText.RecordLayout | pagemarks/js/globals.js:136-149 | a record is written as `{`, its visible members one per line indented by four spaces, and `}` |
| JsonText.TagsKeepLineFeed | pagemarks/js/globals.js:151-159 | the tag rewrite keeps a final line feed |
| JsonText.BookmarkText | pagemarks/js/globals.js:133-159 | the text `bookmarkToBase64` encodes is produced exactly when `JSON.stringify` does not throw, carries its error otherwise, and always ends with a line feed |
| JsValues.TypeOf | pagemarks/js/globals.js:174 | `typeof` is `undefined` exactly for undefined and `string` exactly for strings |
| JsValues.Keys | pagemarks/js/globals.js:60 | the keys of a record, one per property, in order |
| JsValues.Lookup | pagemarks/js/globals.js:62 | a property read gives the value of a property with that key, `undefined` when there is none |
| JsValues.LookupAt | pagemarks/js/globals.js:62 | in a record with distinct keys, reading a key gives its own value |
| JsValues.IndexKey | pagemarks/js/globals.js:60 | a key read as an array index is the decimal form of that index |
| JsValues.DecimalOfDigits | pagemarks/js/globals.js:60 | a digit string without a leading zero is the decimal form of its value |
| JsValues.DigitsBound | pagemarks/js/globals.js:60 | such a digit string of two or more digits has a value of at least 10 |
| JsValues.DecimalLeading | pagemarks/js/globals.js:60 | only zero is written with a leading `0` |
| JsValues.IndexKeyOfDecimal | pagemarks/js/globals.js:60 | every array index reads back as itself |
| JsValues.OwnKeys | pagemarks/js/globals.js:60 | `for…in` visits an object's keys in order and an array's indices `0`…`n-1` |
| JsValues.IndexNames | pagemarks/js/globals.js:60 | the names of the indices of an array of length `n` |
| JsValues.Get | pagemarks/js/globals.js:174 | a property read throws exactly on `null` and `undefined`, and reads an object's own property |
| JsValues.GetArrayIndex | pagemarks/js/globals.js:62 | every index key of an array reads its own element |
| JsValues.StrictEqualsSymmetric | pagemarks/js/globals.js:211-217 | `===` is symmetric |
| JsValues.Strings | pagemarks/js/globals.js:221-222 | the strings of a list are exactly its string elements |
| PyUtil.Split | pagemarks/framework/util.py:84 | `split(',')` gives at least one piece and no piece holds the separator |
| PyUtil.JoinCons | pagemarks/framework/util.py:84 | joining a list with a first element is that element, the separator and the rest joined |
| PyUtil.SplitJoin | pagemarks/framework/util.py:84 | splitting loses nothing: the pieces joined with the separator give the text back |
| PyUtil.NormalizeTags | pagemarks/framework/util.py:78-91 | the first tag that is not a string raises its error; otherwise the result is sorted, without repeats, and holds exactly the collected slugs |
| PyUtil.AddSubtags | pagemarks/framework/util.py:85-90 | the set gains exactly the slugs of the non-blank stripped pieces |
| PyUtil.SlugsStep | pagemarks/framework/util.py:81-90 | one more string tag adds exactly the slugs of its pieces |
| PyUtil.FailureStays | pagemarks/framework/util.py:82-83 | once a tag that is not a string is met, the rest of the list does not change the error |
| PyUtil.SortedList | pagemarks/framework/util.py:91 | `list(sorted(s))` is sorted, without repeats and holds exactly the set's elements |
| PyUtil.DistinctOfSet | pagemarks/framework/util.py:91 | a sequence with the multiset of a set holds each of its elements once |
| PyUtil.PieceSlugsMeaning | pagemarks/framework/util.py:85-90 | a slug is collected exactly when it is the slug of a non-blank stripped piece |
| PyUtil.SlugsFirstOther | pagemarks/framework/util.py:82-83 | the error message names the first tag that is not a string, whatever follows it |
| PyUtil.IsSlugOfSomeSnoc | pagemarks/framework/util.py:81-90 | a slug of a longer tag list comes from the shorter list or from the last tag |
| PyUtil.SlugsOfStrings | pagemarks/framework/util.py:78-91 | a list of strings always normalises, and collects exactly the slugs of the non-blank stripped comma-separated pieces of its tags |
| PyUtil.NormalizedTagsMeaning | pagemarks/framework/util.py:78-91 | a tag is in the result exactly when it is the slug of a non-blank stripped piece of one of the input tags |
| PyUtil.Dedup | pagemarks/framework/util.py:80 | dropping repeats keeps exactly the elements, each once |
| PyUtil.NormalizedTags | pagemarks/framework/util.py:78-91 | the normalised tags exist exactly when no tag fails, and are then sorted, without repeats and exactly the collected slugs |
| PyUtil.DistinctCount | pagemarks/framework/util.py:80 | in a list without repeats every element occurs once |
| PyUtil.TagsDetermined | pagemarks/framework/util.py:91 | a sorted list without repeats is fixed by its elements, so the result of `normalize_tags` is determined |
| PyUtil.NormalizeDate | pagemarks/framework/util.py:103-106 | a date gives a text, `None` gives `None` |
| PyUtil.NormalizeTimestamp | pagemarks/framework/util.py:95-99 | a text results exactly when the timestamp is present and all digits |
| PyUtil.DigitsValueOf | pagemarks/framework/util.py:26 | a zero-padded field reads back as its number |
| PyUtil.TwoDigits | pagemarks/framework/util.py:26 | a number below 100 is written in two digits that read back as it |
| PyUtil.FourDigitYear | pagemarks/framework/util.py:26 | a year from 1000 to 9999 is written in four digits that read back as it |
| PyUtil.DateFormatRoundTrip | pagemarks/framework/util.py:26 | for years 1000 to 9999 the date format has 19 characters and reads back to the same date and time, so no two dates share a text |
| PyUtil.YearDigits | pagemarks/framework/util.py:26 | a four-digit year padded to four is its decimal form |
| PyUtil.UtcParts | pagemarks/js/globals.js:86-98 | the browser's date and time parts are the UTC fields written with their widths |
| PyUtil.FormatHalves | pagemarks/framework/util.py:26 | the Python format is the date part, a space and the time part |
| PyUtil.JsPyDates | pagemarks/framework/util.py:103-106 | the browser's `normalizeDate` and Python's `normalize_date` give the same text, except at midnight, where the browser drops ` 00:00:00` |
| PyUtil.Letter | pagemarks/framework/util.py:110-114 | every answer's value is a lower-case letter |
| PyUtil.AnswerOf | pagemarks/framework/util.py:146 | `PromptAnswer(c)` gives the answer whose value is `c` exactly when there is one |
| PyUtil.Offered | pagemarks/framework/util.py:118-130 | a prompt offers yes, then no, then all and quit when enabled, each once and nothing else |
| PyUtil.BuildSelectionDesc | pagemarks/framework/util.py:118-130 | the selection is `[`, the letters of the offered answers separated by `/`, and `]`, each letter upper-case only for the default |
| PyUtil.SelectionDefault | pagemarks/framework/util.py:118-130 | exactly one letter is upper-case when the default is offered, the default's, and none otherwise; no answer is listed twice |
| PyUtil.PromptMethod | pagemarks/framework/util.py:134-156 | the loop returns what the prompt returns on the lines typed |
| PyUtil.PromptAnswers | pagemarks/framework/util.py:140-155 | the answer is an offered one, the default, or QUIT at the end of input: a letter not offered is never returned |
| PyUtil.PromptStopsAtDecision | pagemarks/framework/util.py:143-150 | the first blank line or offered letter decides the answer; no later line is read |
| Queries.BackslashRun | pagemarks/js/pagemarks.js:229-236 | the count is the run of backslashes right before the quote: all of them are backslashes and the character before the run is not |
| Queries.BackslashRunIs | pagemarks/js/pagemarks.js:229-236 | any maximal run of backslashes before the position is the one counted |
| Queries.IsClosingQuote | pagemarks/js/pagemarks.js:226-249 | a quote closes a phrase exactly when an even run of backslashes precedes it and it is last or followed by a space or tab |
| Queries.Close | pagemarks/js/pagemarks.js:189-211 | ending a term returns to the neutral state and adds the term to the words or tags only when it is non-empty |
| Queries.Finish | pagemarks/js/pagemarks.js:219-221 | a pending non-empty term at the end goes to the words |
| Queries.Pq | pagemarks/js/pagemarks.js:166-223 | the tokenizer loop yields the terms of the state machine run over the whole text |
| Queries.PqNonEmpty | pagemarks/js/pagemarks.js:189-221 | the tokenizer never yields an empty term |
| Queries.TagSegment | pagemarks/js/pagemarks.js:179-211 | `[t]` read from the neutral state adds the tag `t` |
| Queries.WordSegment | pagemarks/js/pagemarks.js:181-187 | a word read from the neutral state runs on to the next blank, quotes and brackets inside it included |
| Queries.QuotedSegment | pagemarks/js/pagemarks.js:177-204 | `"q"` followed by a blank or the end adds the phrase `q` as one word |
| Queries.UnterminatedTag | pagemarks/js/pagemarks.js:205-221 | an unclosed `[t` gives the word `t`, no tag |
| Queries.UnterminatedQuote | pagemarks/js/pagemarks.js:195-221 | an unclosed `"q` gives the word `q` |
| Queries.ParseQuery | pagemarks/js/pagemarks.js:145-163 | the query is the terms of the trimmed text, lower-cased, with `isEmpty` set |
| Queries.ParseQueryBlank | pagemarks/js/pagemarks.js:150-151 | `undefined`, `null`, a non-string or a blank string is the empty query |
| Queries.ParseQueryShape | pagemarks/js/pagemarks.js:145-163 | every term is non-empty and lower-case, and `isEmpty` holds exactly when there is none |
| Queries.ParseQueryOfTrimmed | pagemarks/js/pagemarks.js:151-158 | a query with nothing to trim and nothing to lower-case parses to its tokens |
| Queries.PqTagWordPhrase | pagemarks/js/pagemarks.js:166-223 | worked example: a tag, a word and a quoted phrase separated by spaces give that tag and those two words |
| Queries.PqTagWordPhraseText | pagemarks/js/pagemarks.js:166-223 | the same with the query text written out |
| Queries.ParseQueryExample | pagemarks/js/pagemarks.js:145-163 | worked example: `[news] market "interest rate"` parses to the tag `news` and the words `market` and `interest rate` |
| Queries.ShuffleFilter | pagemarks/js/pagemarks.js:123-134 | a card is shown exactly when it has every tag of the query and its search text contains every word |
| Queries.ShuffleFilterEmpty | pagemarks/js/pagemarks.js:123-134 | the empty query shows every card |
| Queries.Query2String | pagemarks/js/pagemarks.js:96-110 | the loop builds the bracketed tags, then the words joined by spaces, without the final space |
| Queries.TokenSegment | pagemarks/js/pagemarks.js:166-223 | a plain token read from the neutral state adds its term |
| Queries.ScanTokens | pagemarks/js/pagemarks.js:166-223 | plain tokens joined by single spaces are read token by token |
| Queries.PqOfTokens | pagemarks/js/pagemarks.js:166-223 | plain tokens joined by single spaces tokenize back to their terms |
| Queries.TermsOfTokens | pagemarks/js/pagemarks.js:96-110 | the tokens `query2String` writes stand for exactly the query's tags and words |
| Queries.QueryTextTokens | pagemarks/js/pagemarks.js:96-110 | unless the last word ends with a space, `query2String` joins the tokens with single spaces |
| Queries.PlainTextEnds | pagemarks/js/pagemarks.js:96-110 | the text of a non-empty plain query has nothing to trim |
| Queries.ParseQueryString | pagemarks/js/pagemarks.js:96-163 | `parseQuery(query2String(q))` gives back `q` for every query of non-empty lower-case tags without `]` and words without blanks that do not start with `"` or `[` |
| Queries.QueryTextNoTrailingBlank | pagemarks/js/pagemarks.js:106-108 | when the last word does not end with a space, the text never ends with one |
| Records.TrimmedStrings | pagemarks/js/globals.js:72 | the filtered list keeps one trimmed string per string element and nothing else |
| Records.Survivor | pagemarks/js/globals.js:61-74 | a property is kept under its own key or deleted |
| Records.Bookmark.constructor | pagemarks/js/globals.js:58 | the record holds the given properties |
| Records.Bookmark.Normalize | pagemarks/js/globals.js:58-78 | the loop over the keys leaves exactly the normalised properties, in their order |
| Records.Bookmark.NormalizeProperty | pagemarks/js/globals.js:61-74 | one turn of the loop replaces the property at the current position by its normalised form or deletes it, and nothing else changes |
| Records.NormalizedStep | pagemarks/js/globals.js:60-76 | one more property through the pass appends its survivor |
| Records.NormalizedValues | pagemarks/js/globals.js:58-78 | afterwards every string field is trimmed and non-empty and every array holds trimmed strings only |
| Records.NormalizedKeys | pagemarks/js/globals.js:58-78 | a field survives exactly when it is not a blank string and not an empty array |
| Records.ValueTwice | pagemarks/js/globals.js:58-78 | a second pass changes a value only when the first left an empty array |
| Records.NormalizeTwice | pagemarks/js/globals.js:58-78 | normalising twice equals normalising once exactly when no array field is non-empty without a string in it |
| Records.Digits | pagemarks/js/globals.js:88 | a field written with its width is that many digits |
| Records.TwoDigitsZero | pagemarks/js/globals.js:91 | two digits read `00` exactly for zero |
| Records.YearString | pagemarks/js/globals.js:88 | the year of `toISOString` holds no `T` and no `.` |
| Records.DatePart | pagemarks/js/globals.js:88-89 | the date part is non-empty and holds no `T` and no `.` |
| Records.SecondOfDay | pagemarks/js/globals.js:91 | the second of the UTC day is below 86400 |
| Records.TimePart | pagemarks/js/globals.js:88-89 | the time part has eight characters, none of them `T` or `.` |
| Records.DateTimeSplit | pagemarks/js/globals.js:89 | the regular expression splits `date T time . rest` at the first `T` and the next `.` |
| Records.IsoMatch | pagemarks/js/globals.js:88-90 | on every ISO string the expression matches and yields its date and its time up to the seconds |
| Records.TimePartZero | pagemarks/js/globals.js:91 | the time reads `00:00:00` exactly at a whole-second midnight |
| Records.NormalizeDateShape | pagemarks/js/globals.js:86-98 | `normalizeDate` never throws for a date and gives `YYYY-MM-DD` at midnight, `YYYY-MM-DD HH:MM:SS` otherwise |
| Records.MidnightIsDate | pagemarks/js/globals.js:91-92 | the date alone is given exactly within the first second of the UTC day |
| RecordText.CompactStrings | pagemarks/js/globals.js:138 | the compact form of a list of strings is their quoted forms |
| RecordText.RawMemberTexts | pagemarks/js/globals.js:136-149 | the member texts of the record form are its raw lines |
| RecordText.TagsProperty | pagemarks/js/globals.js:137-138 | the `tags` field is written as the marked compact list, quoted as a string |
| RecordText.DateProperty | pagemarks/js/globals.js:143-144 | the `date_added` field is written as the normalised date of its ISO string |
| RecordText.OtherProperty | pagemarks/js/globals.js:146-147 | any other field is passed through, and left out when undefined |
| RecordText.FieldProperty | pagemarks/js/globals.js:136-149 | every field of a bookmark is left out or written as its raw text |
| RecordText.StringifyFlat | pagemarks/js/globals.js:136-149 | the indented text of a bookmark is `{`, its raw lines one per line, `}` and a line feed |
| RecordText.RawLinesNoTags | pagemarks/js/globals.js:136-149 | without a `tags` field the raw lines are the final lines |
| RecordText.LineNoDouble | pagemarks/js/globals.js:151-152 | a line the rewrite does not touch cannot hold the marker |
| RecordText.FirstMarker | pagemarks/js/globals.js:151 | the search for the opening marker finds the one before the tag list |
| RecordText.MarkerOverlap | pagemarks/js/globals.js:152 | the closing marker does not overlap itself |
| RecordText.LastMarker | pagemarks/js/globals.js:152 | the backward search finds the closing marker after the tag list |
| RecordText.NoMarker | pagemarks/js/globals.js:153 | a text without the marker is not rewritten |
| RecordText.Rewrite | pagemarks/js/globals.js:151-159 | the text around one marked string is kept and the string loses its markers and escapes and gets a space after each comma |
| RecordText.UnescapeQuotes | pagemarks/js/globals.js:157 | removing `\` before `"` undoes the escaping of a text without backslashes and control characters |
| RecordText.TagListRewrite | pagemarks/js/globals.js:157 | the escaped compact tag list becomes the one-line list `["a", "b"]` |
| RecordText.TagLineRewrite | pagemarks/js/globals.js:151-159 | the rewrite turns the marked tag line into the one-line list and leaves every other line alone |
| RecordText.FlatRecordText | pagemarks/js/globals.js:133-159 | for a bookmark of plain fields, the text encoded is its visible members one per line in property order, without `id`, the tags on one line, and a final line feed |
| Render.RemoveProtocolMeaning | pagemarks/framework/render.py:96-104 | exactly one leading `https://`, `http://` or `ftp://` is removed, and a text starting with none of them is left alone |
| Render.RemoveExtensionMeaning | pagemarks/framework/render.py:108-114 | exactly one trailing `.html` or `.shtml` is removed, and a text ending with neither is left alone |
| Render.FtpsDivergence | pagemarks/framework/render.py:96-104 | the generator keeps an `ftps://` that the browser's search-text pattern strips |
| Render.HtmDivergence | pagemarks/framework/render.py:108-114 | the generator keeps a `.htm` ending that the browser's pattern strips (the browser also strips endings such as `/html` and `xhtml`, which the generator keeps) |
| Render.TagDataOf | pagemarks/framework/render.py:117-123 | one tag entry per tag, in order, each linking to the index page with the tag as query |
| Render.BuildTagData | pagemarks/framework/render.py:117-123 | the loop builds exactly those tag entries |
| Render.BuildSearchtext | pagemarks/framework/render.py:83-92 | the method builds the search text of the bookmark |
| Render.SearchTextLayout | pagemarks/framework/render.py:83-92 | the search text is the escaped lower-cased name, a blank and the tags when there are any, then always a blank and the URL part |
| Render.ReplaceSlashes | pagemarks/framework/render.py:66 | the card id is the bookmark id with every `/` turned into `-` and nothing else changed |
| Render.CardContextMeaning | pagemarks/framework/render.py:54-80 | a fresh card context has an id without slashes, the date seconds exactly when the bookmark has a date, a name and notes exactly when the bookmark has them, a shortened name exactly for names over 90 characters, and one tag entry per tag |
| Render.BookmarkContext.constructor | pagemarks/framework/render.py:54-62 | a new context is the defaults updated from the bookmark |
| Render.BookmarkContext.FromBookmark | pagemarks/framework/render.py:65-80 | the context is updated from the bookmark, and a field the bookmark leaves empty keeps its value |
| Render.BookmarkContext.SetTextFields | pagemarks/framework/render.py:66-77 | the id, the tag string, the search text and the URL fields are set from the bookmark |
| Render.BookmarkContext.SetLinkFields | pagemarks/framework/render.py:66-77 | the id with `/` replaced by `-`, the joined tag string and the raw and escaped URL are set, and no other field changes |
| Render.BookmarkContext.SetOptionalFields | pagemarks/framework/render.py:67-79 | the date, the name, its shortened form and the notes are set only when the bookmark has them |
| Render.OtherIconToggles | pagemarks/framework/render.py:187 | support: between the two icons the switch goes back and forth |
| Render.CollectionContext.constructor | pagemarks/framework/render.py:178-195 | the context holds the collection's title and name, one theme entry per theme in order, offering `moon-fill` for a `sun` theme and `sun` for any other, one filter entry per pinned filter, the Git branch or `''` without one, and the file base name |
| Repository.NewBookmark | pagemarks/framework/repo.py:45-56 | a bookmark is made exactly when the URL has at least three characters and the id the expected length; the URL is checked first; nothing else is set |
| Repository.Encoded | pagemarks/framework/repo.py:194-198 | the encoding of a character holds no `<`, `>` or `"`, and leaves any other character alone |
| Repository.SanitizeUrl | pagemarks/framework/repo.py:193-202 | the three replacement passes encode every character on its own |
| Repository.ReplaceAllAppend | pagemarks/framework/repo.py:201 | `replace` works piece by piece |
| Repository.ReplaceAllAbsent | pagemarks/framework/repo.py:201 | a text without the character is left alone by `replace` |
| Repository.ReplaceAllOne | pagemarks/framework/repo.py:201 | `replace` on one character |
| Repository.ReplaceEachDirty | pagemarks/framework/repo.py:194-201 | the dictionary is applied in its order: `<`, then `>`, then `"` |
| Repository.OneChar | pagemarks/framework/repo.py:194-201 | the three passes on one character give its encoding |
| Repository.ThreePasses | pagemarks/framework/repo.py:199-202 | the passes one after the other encode each character independently, so no encoding is re-encoded |
| Repository.SanitizedMeaning | pagemarks/framework/repo.py:193-202 | the result holds no `<`, `>` or `"`, a URL without them comes back unchanged, and each of them lengthens the URL by two |
| Repository.CompareByDateAddedDesc | pagemarks/framework/repo.py:211-224 | the comparison answers -1, 0 or 1 |
| Repository.CompareMeaning | pagemarks/framework/repo.py:211-224 | later dates come first, a missing date counting as 0; on equal dates the URLs ascend; only equal dates and URLs tie |
| Repository.CompareAntisymmetric | pagemarks/framework/repo.py:211-224 | swapping the arguments negates the comparison |
| Repository.CompareTransitive | pagemarks/framework/repo.py:211-224 | the comparison is transitive, so sorting by it is well defined |
| Repository.FirstParsedMeaning | pagemarks/framework/repo.py:158-163 | the result is that of the first format that parses, and there is none exactly when no format parses |
| Repository.ParseTimestamp | pagemarks/framework/repo.py:158-164 | the date is the first format's parse that succeeds; when none does, the error names the text and the first format |
| Repository.StrippedString | pagemarks/framework/repo.py:179-186 | a member is used exactly when it is a string |
| Repository.BookmarkOfMeaning | pagemarks/framework/repo.py:170-187 | a bookmark read from a file has an id of the expected length built from folder and file name, a URL of at least three characters without `<`, `>` or `"`, sorted distinct tags, and a date or name exactly when the file has a string one |
| Repository.ShortUrlFails | pagemarks/framework/repo.py:178 | the length check sees the sanitised URL: a URL refused as empty is one shorter than three after stripping and encoding |
| Repository.ReadBookmark | pagemarks/framework/repo.py:171-187 | the loop body yields the bookmark of the file or what reading it raises |
| Repository.CollectedCount | pagemarks/framework/repo.py:169-187 | every file but the configuration yields exactly one bookmark, from that file |
| Repository.CollectedStays | pagemarks/framework/repo.py:169-187 | once a file fails to read, the walk's result is that failure |
| Repository.InsertByDate | pagemarks/framework/repo.py:188 | inserting keeps the order newest first and adds exactly the one bookmark |
| Repository.InsertAfterFirst | pagemarks/framework/repo.py:188 | a bookmark that comes before all others may go first |
| Repository.SortByDateAddedDesc | pagemarks/framework/repo.py:188 | the sorted list is ordered by the comparison and a rearrangement of the input |
| Repository.ReadBookmarks | pagemarks/framework/repo.py:167-189 | the bookmarks of all walked files but the configuration, ordered newest first, or the first error |
| Repository.BaseStart | pagemarks/framework/repo.py:75 | the base name starts after the last `/` |
| Repository.Basename | pagemarks/framework/repo.py:75 | a base name holds no `/` |
| Repository.NameRuleMeaning | pagemarks/framework/repo.py:266 | a collection name has at least two characters and starts with a lower-case letter; a name with a single trailing newline passes as well |
| Repository.FileBasename | pagemarks/framework/repo.py:117-118 | the file base name is `index` exactly for the default collection and a collection named `index` |
| Repository.FileNamesDistinct | pagemarks/framework/repo.py:117-126 | different collections get different page and tag files, except `default` and `index`, which the name rule both admits and which share them |
| Repository.TitleOf | pagemarks/framework/repo.py:83-86 | a title is stored exactly when it is a string that is not blank, and it is stored stripped |
| Repository.FirstOtherAt | pagemarks/framework/repo.py:88-92 | the first filter that is not a string is where the strings end |
| Repository.ClassLists.constructor | pagemarks/framework/repo.py:68 | the class-level list starts empty |
| Repository.ClassLists.AppendPinned | pagemarks/framework/repo.py:87-92 | the stripped filters before the first one that is not a string are appended, and it raises exactly when there is one |
| Repository.Collection.constructor | pagemarks/framework/repo.py:73-76 | a new collection knows its directory, shares the class-level lists and has not read its bookmarks |
| Repository.Collection.ReadCollectionConfig | pagemarks/framework/repo.py:80-95 | a missing or blank title raises and changes nothing; otherwise the title is stored and the pinned filters appended, raising at a non-string filter after appending those before it |
| Repository.Collection.Populate | pagemarks/framework/repo.py:112-114 | the collection holds the bookmarks read and is marked read; a read that raises changes nothing |
| Repository.Collection.IsEmpty | pagemarks/framework/repo.py:129-133 | whether the collection has no bookmarks, an error before it has been populated |
| Repository.NewCollection | pagemarks/framework/repo.py:73-77 | a collection is made exactly when its configuration reads without raising, with the directory, the title of its configuration and nothing read yet; a bad title raises the title's error, a non-string pinned filter raises "Pinned filter is not a string in <config path>"; the shared list grows by the filters read before the check stops |
| Repository.SharedPinnedFilters | pagemarks/framework/repo.py:68-90 | after two collections are read, the second's `pinned_filters` holds the first one's filters followed by its own |
| Repository.NewOwnCollection | pagemarks/framework/repo.py:73-92 | with a list of its own, a new collection holds exactly the filters of its configuration |
| Repository.SeparatePinnedFilters | pagemarks/framework/repo.py:68-90 | with a list per collection, each of two collections holds exactly its own filters |
| Repository.Repo.constructor | pagemarks/framework/repo.py:241-247 | `Repo(None)` has no collections |
| Repository.Repo.AddCollection | pagemarks/framework/repo.py:275-281 | a directory already present is refused with "already exists" and nothing changes; otherwise exactly the new collection, with its configured title and nothing read yet, is appended when its configuration reads, a bad title raises the title's error, and the shared list grows by the filters read |
| UrlNormalize.SchemeLength | pagemarks/js/globals.js:238 | group 1 is absent or three to five characters followed by `://` |
| UrlNormalize.SchemeIsScheme | pagemarks/js/globals.js:238 | where group 1 matches, it is one of `http`, `https`, `ftp`, `ftps` in any case, followed by `://` |
| UrlNormalize.SchemeOf | pagemarks/js/globals.js:238 | a scheme word followed by `://` is exactly what group 1 takes |
| UrlNormalize.MatchShape | pagemarks/js/globals.js:238 | a match has the shape of the pattern and covers the input from its start to the end |
| UrlNormalize.ShapeMatches | pagemarks/js/globals.js:238 | input of the pattern's shape is matched with exactly those groups |
| UrlNormalize.FirstMatch | pagemarks/js/globals.js:239 | `exec` finds the first position at which the pattern matches, and none when it matches nowhere |
| UrlNormalize.DropSlash | pagemarks/js/globals.js:247-254 | group 4 is kept unless it holds no `?` or `#` and ends with `/`, which is then dropped, a lone `/` included |
| UrlNormalize.Rebuild | pagemarks/js/globals.js:242-254 | the result is the matched groups with scheme and host lower-cased and the final slash dropped |
| UrlNormalize.MatchOf | pagemarks/framework/util.py:59-74 | a URL that does not match is returned unchanged; a matching one is rebuilt from its match |
| UrlNormalize.NormalizedShaped | pagemarks/framework/util.py:64-73 | the rebuilt groups have the pattern's shape again |
| UrlNormalize.RebuildMatches | pagemarks/framework/util.py:64-73 | a rebuilt URL matches again at its start with the rebuilt groups |
| UrlNormalize.DropSlashTwice | pagemarks/framework/util.py:70-73 | dropping the slash twice equals dropping it once exactly when group 4 does not end in `//` without `?` or `#` |
| UrlNormalize.NormalizeTwice | pagemarks/framework/util.py:59-74 | normalising is idempotent except for URLs whose path ends in `//` without `?` or `#`, where each pass drops one more slash |
| UrlNormalize.ShapedJsPy | pagemarks/framework/util.py:61 | whatever the browser's pattern accepts, Python's accepts too |
| UrlNormalize.ShapedPyJs | pagemarks/js/globals.js:238 | without U+017F in the scheme and without a JavaScript line terminator in the path, Python's shape is the browser's |
| UrlNormalize.JsAgreesAtZero | pagemarks/js/globals.js:236-257 | where the browser's match starts at the beginning, both functions give the same URL |
| UrlNormalize.PyMatchIsJsMatch | pagemarks/framework/util.py:61-62 | without line terminators and U+017F, a Python match at the start is the browser's match |
| UrlNormalize.AnchoredAgrees | pagemarks/js/globals.js:236-257 | anchored at the start, the browser function agrees with the Python one on every URL without line terminators and U+017F |
| UrlNormalize.NoLaterMatch | pagemarks/js/globals.js:239 | input that fails at position 0 and has no later `h` or `f` is not matched anywhere and comes back unchanged |
| UrlNormalize.PlainUrl | pagemarks/js/globals.js:242-254 | `http://a` is its own normal form |
| UrlNormalize.TextBeforeScheme | pagemarks/js/globals.js:239 | `x http://a` becomes `http://a` in the browser and stays `x http://a` in Python |
| UrlNormalize.JsMatchIsPyMatch | pagemarks/js/globals.js:238-239 | a browser match at the start is a Python match with the same groups, covering the whole URL |
| UrlNormalize.PyOnly | pagemarks/framework/util.py:61-62 | text of Python's shape but not the browser's is normalised by Python only |
| UrlNormalize.LineTerminatorInPath | pagemarks/framework/util.py:61 | a CR, U+2028 or U+2029 in the path is taken by Python's `.` and not by the browser's |
| UrlNormalize.LongSInScheme | pagemarks/framework/util.py:61 | U+017F in the scheme matches Python's case-insensitive `s` but not the browser's |
| UrlNormalize.FinalLineFeed | pagemarks/framework/util.py:61 | a final line feed after a non-empty path: Python normalises as if it were absent, the browser does not match |
| UrlNormalize.TextBeforeUrl | pagemarks/js/globals.js:239 | text before a URL that cannot start a scheme is dropped by the browser's search and keeps Python from matching at all |
| Sorting.BelowTotal | pagemarks/framework/util.py:91 | any two different strings are ordered one way or the other |
| Sorting.BelowTransitive | pagemarks/framework/util.py:91 | the string order is transitive |
| Sorting.Insert | pagemarks/js/edit.js:87 | inserting into a sorted list keeps it sorted and adds exactly the one string |
| Sorting.InsertAbove | pagemarks/js/edit.js:87 | a string at most every other one may go first |
| Sorting.Sort | pagemarks/js/edit.js:87 | the sorted list is in ascending order and a rearrangement of the input |
| Sorting.SortedTail | pagemarks/js/edit.js:87 | the tail of a sorted list is sorted |
| Sorting.SameHead | pagemarks/js/edit.js:87 | two sorted arrangements of the same strings start with the same one |
| Sorting.SortedUnique | pagemarks/framework/util.py:91 | two sorted arrangements of the same strings are the same list, so any correct sort gives this result |
| Sorting.SortOfPermutation | pagemarks/framework/util.py:91 | the sorted list depends only on the strings, not on their order |
| Text.Trim | pagemarks/framework/util.py:86 | trimming never lengthens a text |
| Text.TrimShape | pagemarks/framework/util.py:86 | the trimmed text is a contiguous part of the text with only white space cut off around it, and it neither starts nor ends with white space |
| Text.TrimIdempotent | pagemarks/framework/util.py:86 | trimming twice is trimming once |
| Text.TrimEmpty | pagemarks/framework/util.py:87 | a text trims to nothing exactly when it is all white space |
| Text.IndexOf | pagemarks/js/edit.js:419 | `indexOf` of a character answers the first position holding it, or -1 when there is none |
| Text.Decimal | pagemarks/js/globals.js:280 | the decimal form of a number is one or more digits |
| Text.DecimalValue | pagemarks/js/globals.js:280 | the decimal form reads back as the number |
| Text.LowerOfLowerCase | pagemarks/js/edit.js:87 | lower-casing a text without upper-case letters changes nothing |
| Text.LowerIdempotent | pagemarks/js/edit.js:87 | lower-casing twice is lower-casing once |
| AddCommand.CommandLineTags | pagemarks/commands/add.py:78 | the tags given on the command line, all strings, always normalise without an error |
| AddCommand.CommandLineTagsMeaning | pagemarks/commands/add.py:78 | the tags of a new bookmark are sorted, without repetitions, and are exactly the slugs of the non-blank comma-separated pieces of the given tags |
| AddCommand.RecordMeaning | pagemarks/commands/add.py:74-82 | the record holds `url` and `date_added` always, `tags` only when the list is not empty, `name` and `notes` only when the page gave them, each key once, each with its value and none of them `None` |
| AddCommand.BuildRecord | pagemarks/commands/add.py:71-84 | the record built for a page is the record of its title, URL, normalised tags, the formatted time of adding and its description |
| AddCommand.FieldOrderDiffers | pagemarks/commands/add.py:74-82 | the command line writes `date_added` before `notes`, while the browser's edit dialog puts `notes` before `date_added` |
| AddCommand.CleanNones | pagemarks/commands/add.py:99-106 | exactly the entries whose value is not `None` remain, and a record without `None` values is left as it is |
| AddCommand.CleanNonesKeys | pagemarks/commands/add.py:99-106 | the keys that remain keep their order |
| AddCommand.EncodedSlugs | pagemarks/commands/add.py:47-51 | a list of slugs is encoded as the browser's tag text `["a", "b"]` between the `##<` and `>##` markers |
| AddCommand.ToJson | pagemarks/commands/add.py:109-119 | the document is the JSON dump of the record without its `None` values, rewritten line by line |
| AddCommand.BookmarkFileLayout | pagemarks/commands/add.py:109-119 | for a record of plain strings and slug tags the document is the bookmark file's layout: one member per line, indented by four, the tag list on one line |
| AddCommand.MarkerInTitle | pagemarks/commands/add.py:111 | a page title starting with `##<` loses the marker and its quote, so the document differs from the bookmark file's layout |
| AddCommand.FixedLayout | pagemarks/commands/add.py:109-119 | the corrected rewriting, which removes the markers only on the line of the tags, gives the bookmark file's layout for every record |
| AddCommand.PySlice | pagemarks/commands/add.py:179 | a Python slice `s[:n]` is a prefix of `s` |
| AddCommand.CommitMessageFits | pagemarks/commands/add.py:176-182 | for a collection name of at most 52 characters the commit subject fits in 72 characters; a URL that fits is shown whole, a longer one cut and ended with an ellipsis so that the subject is exactly 72 characters |
| AddCommand.CommitMessage | pagemarks/commands/add.py:176-182 | the commit subject starts with `Add `, ends with ` (collection: <name>)`, and holds the shown URL in between |
| AddCommand.LongCollectionName | pagemarks/commands/add.py:178-179 | with a collection name of 54 characters or more the length left for the URL is negative and the subject is longer than 72 characters |
| AddCommand.SkipOutcome | pagemarks/commands/add.py:185-204 | an existing file is skipped exactly when there is no `--yes`, no earlier ALL and the prompt answers NO; QUIT aborts; every other case overwrites |
| AddCommand.AddConfig.constructor | pagemarks/framework/cmdline.py:30-38 | a new configuration keeps its `yes` and commit flags and has not been told to overwrite all bookmarks |
| AddCommand.AddConfig.SkipExistingFile | pagemarks/commands/add.py:185-204 | the answer is that outcome, and `overwrite_all_bookmarks` becomes set exactly when the prompt answered ALL and stays set once set |
| AddCommand.EofIsMissedBranch | pagemarks/commands/add.py:149-155 | end of input at the "Still create the bookmark?" prompt raises "Bug: missed branch" |
| AddCommand.StillCreate | pagemarks/commands/add.py:149-155 | the intended prompt: the bookmark is created without the page exactly when the answer is YES, otherwise the command aborts |
| AddCommand.StillCreateAgrees | pagemarks/commands/add.py:149-155 | the code as written reports the missed branch exactly when the prompt sees end of input, and otherwise agrees with the intended prompt |
| AddCommand.StillCreateAsWritten | pagemarks/commands/add.py:149-155 | the prompt as written creates the bookmark exactly on YES and aborts exactly on NO; any other answer is the missed-branch bug |
| AddCommand.FetchPage | pagemarks/commands/add.py:139-155 | a response with status 200 gives the page text; any other response or an I/O error leads to the prompt, which continues without a page on YES, ends with "Bug: missed branch" exactly at end of input, and otherwise aborts |
| AddCommand.FetchPageFixed | pagemarks/commands/add.py:139-155 | with the prompt as intended, a failed fetch continues without a page exactly on YES and aborts on every other answer, end of input included |
| AddCommand.FetchPageAgrees | pagemarks/commands/add.py:149-155 | the two versions of `fetch_page` give the same result except where the code as written reports the missed branch, where the intended one aborts |

## Left out

- SHA-1 and base64 are functions given as parameters; only what happens to their results is modelled.
- The DOM, jQuery and `$.ajax` are not modelled: cards are a map from id to card state, and a request is a descriptor plus an abstract outcome.
- `setTimeout` and the loading animation are not modelled.
- The clock is a parameter: `new Date()`, `datetime.now()` and `time.time()` values are passed in.
- `slugify`, HTML escaping, `quote`/`unquote` and `JSON.parse` are function parameters.
- `strRepr` stands for Python's `repr` of a string in `str(tag_list)`. Only slugs are assumed to print as `'slug'`.
- Upper and lower case are mapped for ASCII letters only, so Unicode case folding is not modelled.
- The `sort` calls are specified by their result: ascending order and a permutation. The stability of Python's sort is not modelled, and it cannot be observed on distinct strings.
- The string coercion in `Encoder.readByte` (base32.js 47-48) is not modelled, because `url2filename` always passes bytes.
- A pinned-filter value or tag list that is not a list is treated as absent.
- The order in which `os.walk` lists files is a sequence parameter.
- `add_file` is not modelled: it writes the file and runs git.
- `parse_page` and the BeautifulSoup HTML parsing are not modelled; the page's title and description are parameters.
- The HTTP request of `fetch_page` is a response parameter, and git commands are not executed.
- `read_analytics_config`, `get_analytics_ctx`, `scan_collections` and `get_name` are not modelled: they read configuration files and walk directories.
- The command-line plumbing (`main.py`, `PagemarksCommand`) is not part of this model.
- `spi.js` is not part of this model.
- These edit.js functions only move values between the DOM and the model and are not modelled: `addTagToList`, `readBookmarkFromHtmlCard`, `populateDialog`, `toggleLoadingAnimation`, `enterButtonHandler`, `git_fetch_bookmark`, `bindEventHandlersEdit`.
- `bookmarkPresentOnPage` is a lookup in the card map.
- These pagemarks.js page-wiring functions are not modelled: `pagemarksMain`, `updateFilter`, `getValueFromInput`, `getQueryStringParameters`, `bindEventHandlers`.
- Render.CollectionContext.constructor: the application version and the themes JSON are not modelled.
- AddCommand.LongCollectionName: the 72-character bound is stated only for collection names of at most 52 characters (`CommitMessageFits`); this lemma shows what happens at 54 and more.
- ShownName (EditDialog): names are sequences of characters, while `String.length` and `slice` count UTF-16 code units; for a name with characters outside the Basic Multilingual Plane the client cuts at a different place and can split a surrogate pair.
- CardContextMeaning (Render): Python counts code points and JavaScript counts UTF-16 units, so the shortened name agrees with the client's only for names without characters outside the Basic Multilingual Plane.
- Sort (Sorting): strings are compared character by character; JavaScript's default `sort` compares UTF-16 units, which orders characters outside the Basic Multilingual Plane differently from code-point order.
- FlatRecordText (RecordText): stated only for records whose keys and string values have no two underscores in a row (`NoDouble`) and whose tags have no `"`, `\`, control character or comma (`PlainTag`); the text of other records is written by `BookmarkText` but not characterised.
- BookmarkFileLayout (AddCommand): stated only for a name, notes, URL and date without `"`, `\` or control characters (`JsonText.Plain` inside `ValueOk`); strings that need escaping are written by `Dumps` but the layout lemma does not describe them. It also needs strings that neither start with `##<` nor end with `>##`; `MarkerInTitle` shows what goes wrong otherwise.
- NormalizeTimestamp (PyUtil): `str.isdigit` is modelled as ASCII digits only. Python also accepts other Unicode digits: for some, such as `²`, `int()` raises, and others are parsed as numbers. `datetime.fromtimestamp` also raises on values out of range. The model gives no date where Python accepts such digits or raises, and a date where `fromtimestamp` would raise.
- Num (JsValues): JavaScript numbers are integers here. Fractions, `NaN` and `Infinity` are not modelled; `JSON.stringify` writes numbers as integers (`NumberText`).

## Findings

| source | as written | input that shows it | evidently intended | confidence | as-written member | corrected member |
|---|---|---|---|---|---|---|
| pagemarks/js/globals.js:238-239 | the URL pattern is searched with `exec` and no `^`, so any text before the scheme is dropped from the result | `x http://a` gives `http://a` in JavaScript but stays `x http://a` in Python | match at the start only, as `re.match` does, so both sides store the URL at the same path | not executed | UrlNormalize.TextBeforeScheme | UrlNormalize.AnchoredAgrees |
| pagemarks/commands/add.py:149-155 | the "Still create the bookmark?" prompt offers no QUIT; end of input answers QUIT, which reaches "Bug: missed branch" | end of input when the page cannot be fetched | end of input aborts like NO | not executed | AddCommand.FetchPage | AddCommand.FetchPageFixed |
| pagemarks/commands/add.py:111 | the markers `"##<` and `>##"` are removed everywhere in the document, not just around the tag list | a page title starting with `##<`, such as `##<x` | remove the markers only around the tag list | not executed | AddCommand.MarkerInTitle | AddCommand.FixedLayout |
| pagemarks/framework/repo.py:68-90 | `pinned_filters` is a class-level list that `read_collection_config` extends through `self`, so every collection shares it | two collections that both have pinned filters | each collection has its own list | not executed | Repository.SharedPinnedFilters | Repository.SeparatePinnedFilters |
| pagemarks/js/edit.js:116 | the pattern is written as a string literal, in which `\.` is just `.`, so any character followed by `s?html?` is stripped from the end of the URL | `https://example.com/html` gives the search term `example.com` | strip only a `.htm`, `.html`, `.shtm` or `.shtml` extension | not executed | EditDialog.SlashHtmlEnding | EditDialog.DotEndingOnly |
