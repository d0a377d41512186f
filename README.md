# BirdTag forms: client-side validation

BirdTag is a bird-media cataloguing web application. This project models
what four of its React forms decide before anything is sent:

- **Bulk tag updater** (`ManualTagging.js`). It parses URLs (one per line)
  and `tag,count` pairs. It refuses a missing login, a bad shape or a
  count that `isNaN` rejects. Otherwise it builds the
  `{url, tags, operation}` request.
- **Subscribe** (`Subscribe.js`). It refuses a blank field or any digit,
  then cleans the species tags (trimmed, lower-cased, empties dropped). It
  refuses an input that cleans to nothing. Otherwise it builds the
  `{email, tags}` request.
- **Delete files** (`DeleteFiles.js`). This is the list of URL fields
  (add, remove, edit, clear) plus the delete validation. Submitting drops the
  blank fields and refuses the batch if any remaining entry is not a URL
  naming one of the two storage buckets. Otherwise it builds
  `{urls: validUrls}`.
- **Search by file** (`FileUploadSearch.js`). It sorts the picked file by
  MIME prefix into image, video, audio or unsupported. Submit is gated on
  that result, and the file type picks the endpoint. The payload content
  is the second comma-separated piece of the file's data URL.

The modules are:

- `JsString`: the JavaScript string built-ins the forms use, written out
  over `seq<char>`. These are `split` on one character, `trim` over the
  ECMAScript whitespace set, `toLowerCase`, `includes`, `startsWith`,
  `/\d/`, and `.map(f).filter(Boolean)`.
- `Requests`: the shared outcome type. A handler either shows a message
  and stops (`Rejected`) or goes on to send a request (`Accepted`). It
  also holds the `Bearer ${token}` header.
- `ManualTagging`, `Subscribe`, `DeleteFiles`, `FileUploadSearch`: one
  module per form.

The pure parts are functions, and the properties about them are lemmas.
React state that handlers update is a class: the bulk tag form's fields and
operation switch, the delete form's URL list, and the file form's
file/type/status. Each handler is a method whose `ensures` gives the new
state in terms of the decision function.

`isNaN(count)` in the bulk tag updater is modelled exactly, not
abstractly. It is the ECMAScript `StringToNumber` grammar written as an
automaton:

- surrounding whitespace;
- an optional sign on decimals;
- `Infinity`;
- fractions and exponents;
- prefix-only `0x`/`0o`/`0b` literals.

So it accepts `"1e3"`, `"-1.5"`, `".5"`, `"0x1f"`, `"Infinity"` and a blank
string, and rejects `"1_000"`, `"0x"`, `"-0x1"` and `"1 2"`.

The form therefore lets through any count `isNaN` accepts (`"1.5"`,
`"1e3"`, `"0x1f"`), not only whole numbers. The receiving lambda
(`Lambda Functions/Lambda Files/ManualBulkTagging.js`, lines 66 and 79)
reads each count with `parseInt`; that side is not part of this model.

## Model

| member | source | states |
|---|---|---|
| JsString.IsWhitespace | birdtag-ui/src/components/ManualTagging.js:22 | the ECMAScript WhiteSpace and LineTerminator characters, the set that `trim` strips at line 22 and that `isNaN` skips around a number at line 37 |
| JsString.TrimStart | birdtag-ui/src/components/ManualTagging.js:22 | the start of `trim`: what is kept is no longer than `s` and does not start with whitespace |
| JsString.TrimStartSplit | birdtag-ui/src/components/ManualTagging.js:22 | `s` is an all-whitespace prefix followed by what TrimStart keeps |
| JsString.TrimEnd | birdtag-ui/src/components/ManualTagging.js:22 | the end of `trim`: what is kept is no longer than `s`, does not end with whitespace, and when non-empty starts with the first character of `s` |
| JsString.TrimEndSplit | birdtag-ui/src/components/ManualTagging.js:22 | `s` is what TrimEnd keeps followed by an all-whitespace suffix |
| JsString.Trim | birdtag-ui/src/components/ManualTagging.js:22 | `s.trim()` has no whitespace at either end; with TrimStartSplit and TrimEndSplit it is what lies between the leading and trailing whitespace |
| JsString.TrimmedIsFixed | birdtag-ui/src/components/ManualTagging.js:22 | trimming a string with no whitespace at either end changes nothing |
| JsString.TrimIdempotent | birdtag-ui/src/components/ManualTagging.js:22 | `trim` is idempotent |
| JsString.TrimEmptyIff | birdtag-ui/src/components/Subscribe.js:15 | `s.trim()` is empty exactly when `s` is all whitespace |
| JsString.TrimChars | birdtag-ui/src/components/Subscribe.js:27 | `trim` adds no character |
| JsString.LowerChar | birdtag-ui/src/components/Subscribe.js:27 | lower-casing one character leaves no capital, keeps every uncased character, turns each capital into its own small letter (which UpperChar maps back to it), and neither makes nor removes whitespace or a digit |
| JsString.UpperChar | birdtag-ui/src/components/Subscribe.js:27 | upper-casing over the same range, the partner of LowerChar: a small letter becomes a capital, anything else is kept |
| JsString.CaseRoundTrip | birdtag-ui/src/components/Subscribe.js:27 | a small letter lower-cases back from its capital, and two characters lower-case alike exactly when they are equal or one is the other's capital |
| JsString.ToLower | birdtag-ui/src/components/Subscribe.js:27 | `toLowerCase` keeps the length and lower-cases each position |
| JsString.ToLowerIsLowerCase | birdtag-ui/src/components/Subscribe.js:27 | `toLowerCase` gives a lower-case string and is idempotent |
| JsString.ToLowerKeeps | birdtag-ui/src/components/Subscribe.js:27 | `toLowerCase` keeps a trimmed string trimmed and adds or removes no digit |
| JsString.Split | birdtag-ui/src/components/ManualTagging.js:21 | `split(sep)` gives one more piece than there are separators, none holding a separator |
| JsString.JoinSplit | birdtag-ui/src/components/ManualTagging.js:21 | joining the pieces with the separator gives the input back |
| JsString.SplitJoin | birdtag-ui/src/components/ManualTagging.js:21 | splitting a join of separator-free pieces gives the pieces back |
| JsString.SplitWithoutSeparator | birdtag-ui/src/components/ManualTagging.js:21 | a separator-free string splits into itself alone |
| JsString.SplitAppend | birdtag-ui/src/components/ManualTagging.js:21 | the pieces of `a + sep + b` are those of `a` followed by those of `b` |
| JsString.OccurrencesPositive | birdtag-ui/src/components/FileUploadSearch.js:43 | `split` has a second piece exactly when the separator occurs |
| JsString.SplitPieceChars | birdtag-ui/src/components/Subscribe.js:26 | every character of a piece occurs in the split string |
| JsString.Filter | birdtag-ui/src/components/DeleteFiles.js:42 | `filter` never grows the list |
| JsString.FilterMembers | birdtag-ui/src/components/DeleteFiles.js:42 | an element is kept exactly when it is in the list and satisfies the predicate |
| JsString.FilterAppend | birdtag-ui/src/components/DeleteFiles.js:42 | `filter` keeps relative order: the filter of `a + b` is the filter of `a` followed by that of `b` |
| JsString.FilterEmptyIff | birdtag-ui/src/components/DeleteFiles.js:44 | the filter keeps nothing exactly when no element satisfies the predicate |
| JsString.TokensOfPiece | birdtag-ui/src/components/ManualTagging.js:20-23 | a separator-free text gives its mapped piece as its one token, or none if that is empty |
| JsString.TokensAppend | birdtag-ui/src/components/ManualTagging.js:20-23 | the tokens of `a + sep + b` are those of `a` followed by those of `b` |
| JsString.TokenOrigin | birdtag-ui/src/components/ManualTagging.js:20-23 | every token is non-empty and is the mapped image of some piece |
| JsString.TokensEmptyIff | birdtag-ui/src/components/Subscribe.js:25-30 | when the map empties exactly the all-whitespace pieces, there are no tokens exactly when the text holds only separators and whitespace |
| JsString.HasDigit | birdtag-ui/src/components/Subscribe.js:20 | `/\d/.test(s)`: some character is an ASCII digit; ToLowerKeeps and Subscribe.CleanTagsClean state how it survives cleaning |
| JsString.StartsWith | birdtag-ui/src/components/FileUploadSearch.js:20-24 | `s.startsWith(p)`: `p` is a prefix of `s`; FileUploadSearch.ClassifyTable states the classification it drives |
| JsString.Includes | birdtag-ui/src/components/DeleteFiles.js:53 | `s.includes(p)`: `p` occurs somewhere in `s`; DeleteFiles.RefusedUrlsMembers states the bucket test it drives |
| JsString.Tokens | birdtag-ui/src/components/ManualTagging.js:20-23 | `split(sep).map(f).filter(Boolean)`; TokensOfPiece, TokensAppend, TokenOrigin and TokensEmptyIff state its pieces, order, origin and emptiness |
| ManualTagging.DigitsAreNumeric | birdtag-ui/src/components/ManualTagging.js:37 | every non-empty run of decimal digits passes `isNaN` |
| ManualTagging.InfinityIsNumeric | birdtag-ui/src/components/ManualTagging.js:37 | `isNaN` lets through `"Infinity"` |
| ManualTagging.PaddedCountIsNumeric | birdtag-ui/src/components/ManualTagging.js:37 | `isNaN` lets through a count with blanks around it (`" 12 "`) |
| ManualTagging.BlankIsNumeric | birdtag-ui/src/components/ManualTagging.js:37 | `isNaN` lets through a lone blank, which is 0 as a number |
| ManualTagging.ExponentIsNumeric | birdtag-ui/src/components/ManualTagging.js:37 | `isNaN` lets through an exponent (`"1e3"`) |
| ManualTagging.SignedFractionIsNumeric | birdtag-ui/src/components/ManualTagging.js:37 | `isNaN` lets through a signed fraction (`"-1.5"`) |
| ManualTagging.BareFractionIsNumeric | birdtag-ui/src/components/ManualTagging.js:37 | `isNaN` lets through a fraction with no integer part (`".5"`) |
| ManualTagging.HexIsNumeric | birdtag-ui/src/components/ManualTagging.js:37 | `isNaN` lets through a hexadecimal literal (`"0x1f"`) |
| ManualTagging.OctalIsNumeric | birdtag-ui/src/components/ManualTagging.js:37 | `isNaN` lets through an octal literal (`"0o17"`) |
| ManualTagging.BinaryIsNumeric | birdtag-ui/src/components/ManualTagging.js:37 | `isNaN` lets through a binary literal (`"0b101"`) |
| ManualTagging.WordIsNotNumeric | birdtag-ui/src/components/ManualTagging.js:37 | `isNaN` rejects a word (`"two"`) |
| ManualTagging.BadBinaryDigitIsNotNumeric | birdtag-ui/src/components/ManualTagging.js:37 | `isNaN` rejects a digit outside the literal's base (`"0b2"`) |
| ManualTagging.SeparatorIsNotNumeric | birdtag-ui/src/components/ManualTagging.js:37 | `isNaN` rejects digit separators (`"1_000"`) |
| ManualTagging.BarePrefixIsNotNumeric | birdtag-ui/src/components/ManualTagging.js:37 | `isNaN` rejects a radix prefix with no digits (`"0x"`) |
| ManualTagging.LonePointIsNotNumeric | birdtag-ui/src/components/ManualTagging.js:37 | `isNaN` rejects a lone point |
| ManualTagging.SignedHexIsNotNumeric | birdtag-ui/src/components/ManualTagging.js:37 | `isNaN` rejects a signed hexadecimal literal (`"-0x1"`) |
| ManualTagging.InnerBlankIsNotNumeric | birdtag-ui/src/components/ManualTagging.js:37 | `isNaN` rejects a blank inside a number (`"1 2"`) |
| ManualTagging.Step | birdtag-ui/src/components/ManualTagging.js:37 | one character of the ECMAScript StringNumericLiteral grammar by which `isNaN` judges a string; the lemmas on IsNumeric state what it accepts |
| ManualTagging.Accepts | birdtag-ui/src/components/ManualTagging.js:37 | the rest of a string read from one state of the grammar is a complete literal; NumericIgnoresPadding states that whitespace after it changes nothing |
| ManualTagging.IsNumeric | birdtag-ui/src/components/ManualTagging.js:37 | `!isNaN(s)`: `Number(s)` is a number exactly when `s` is a StringNumericLiteral; DigitsAreNumeric, NumericIgnoresPadding and the per-string lemmas state which strings pass |
| ManualTagging.NumericIgnoresPadding | birdtag-ui/src/components/ManualTagging.js:37 | a string passes `isNaN` exactly when its trimmed text does, so trimming the tokens does not change which counts pass |
| ManualTagging.ParsedUrlsClean | birdtag-ui/src/components/ManualTagging.js:20-23 | every parsed URL is non-empty, trimmed and a single line |
| ManualTagging.ParseUrlsInLineOrder | birdtag-ui/src/components/ManualTagging.js:20-23 | URLs keep line order: two blocks give the first block's URLs then the second's, and one line gives its trimmed text unless that is empty |
| ManualTagging.NoUrlsIff | birdtag-ui/src/components/ManualTagging.js:20-23 | there are no URLs exactly when every line is blank |
| ManualTagging.ParseUrls | birdtag-ui/src/components/ManualTagging.js:20-23 | the URL field split at newlines, each line trimmed, blank lines dropped; ParsedUrlsClean, ParseUrlsInLineOrder and NoUrlsIff state what it gives |
| ManualTagging.ParseTags | birdtag-ui/src/components/ManualTagging.js:25-28 | the tag field split at commas, each piece trimmed, empty pieces dropped; ParsedTagsClean and ParseTagsInOrder state what it gives |
| ManualTagging.TrimTokensClean | birdtag-ui/src/components/ManualTagging.js:25-28 | every trimmed token is non-empty, trimmed and free of its separator |
| ManualTagging.ParsedTagsClean | birdtag-ui/src/components/ManualTagging.js:25-28 | every tag token is non-empty, trimmed and comma-free |
| ManualTagging.ParseTagsInOrder | birdtag-ui/src/components/ManualTagging.js:25-28 | tag tokens keep input order, piece by piece |
| ManualTagging.FirstBadCount | birdtag-ui/src/components/ManualTagging.js:36-41 | it is the least odd position whose token fails `isNaN`; it is None exactly when every odd position passes |
| ManualTagging.CheckCounts | birdtag-ui/src/components/ManualTagging.js:36-41 | the loop over `i = 1, 3, 5, …` stops at exactly the first count that fails `isNaN`, or finds none |
| ManualTagging.LoginChecksFirst | birdtag-ui/src/components/ManualTagging.js:15-18 | without a truthy access token the form is refused with the login message, whatever the fields hold |
| ManualTagging.HasToken | birdtag-ui/src/components/ManualTagging.js:15 | `auth?.user?.access_token` is truthy: present and not the empty string |
| ManualTagging.AcceptedIff | birdtag-ui/src/components/ManualTagging.js:15-56 | a request is built exactly when there is a token, at least one URL, an even number (at least two) of tag tokens and every count passes `isNaN`; it then carries the parsed URLs, the tokens unchanged and the operation |
| ManualTagging.BadShapeRejected | birdtag-ui/src/components/ManualTagging.js:30-33 | with a token, no URLs or a tag list that is not whole pairs gives the format message |
| ManualTagging.BadCountNamesItsTag | birdtag-ui/src/components/ManualTagging.js:36-41 | the first count failing `isNaN` gives the message naming the tag just before it |
| ManualTagging.CountNotNumber | birdtag-ui/src/components/ManualTagging.js:38 | the message holds the tag's text verbatim, right after the fixed lead `Count value for tag "` |
| ManualTagging.Evaluate | birdtag-ui/src/components/ManualTagging.js:14-56 | the submit decision: login, then shape, then the first non-numeric count, then the request; LoginChecksFirst, BadShapeRejected, BadCountNamesItsTag and AcceptedIff state each outcome |
| ManualTagging.BulkTagForm.constructor | birdtag-ui/src/components/ManualTagging.js:7-10 | empty fields and status, operation 1 (add) |
| ManualTagging.BulkTagForm.SetUrls | birdtag-ui/src/components/ManualTagging.js:79 | the URL field takes the typed text |
| ManualTagging.BulkTagForm.SetTags | birdtag-ui/src/components/ManualTagging.js:89 | the tag field takes the typed text |
| ManualTagging.BulkTagForm.SelectAdd | birdtag-ui/src/components/ManualTagging.js:96-101 | the operation becomes 1 and stays add-or-remove |
| ManualTagging.BulkTagForm.SelectRemove | birdtag-ui/src/components/ManualTagging.js:105-110 | the operation becomes 0 and stays add-or-remove |
| ManualTagging.BulkTagForm.HandleSubmit | birdtag-ui/src/components/ManualTagging.js:14-56 | the status and the request are those the decision function gives, and the operation stays add-or-remove |
| Subscribe.CleanTagEmptyIff | birdtag-ui/src/components/Subscribe.js:27-28 | a cleaned piece is empty exactly when the piece is all whitespace |
| Subscribe.CleanTagChars | birdtag-ui/src/components/Subscribe.js:27 | a comma or digit in a cleaned tag was in the raw tag |
| Subscribe.LowerCaseExample | birdtag-ui/src/components/Subscribe.js:27 | `"Crow".toLowerCase()` is `"crow"` |
| Subscribe.CleanTagsClean | birdtag-ui/src/components/Subscribe.js:25-28 | every cleaned tag is non-empty, trimmed, lower-case and comma-free, and holds a digit only if the input does |
| Subscribe.CleanTagsEmptyIff | birdtag-ui/src/components/Subscribe.js:25-33 | the input cleans to no tag exactly when it is only commas and whitespace |
| Subscribe.CleanTagsInOrder | birdtag-ui/src/components/Subscribe.js:25-28 | cleaned tags keep input order, piece by piece |
| Subscribe.BlankRejected | birdtag-ui/src/components/Subscribe.js:15-18 | an all-whitespace field gives the "at least one tag" message |
| Subscribe.DigitRejected | birdtag-ui/src/components/Subscribe.js:20-23 | a non-blank field with any ASCII digit gives the "no numbers" message |
| Subscribe.OnlySeparatorsRejected | birdtag-ui/src/components/Subscribe.js:30-33 | a non-blank, digit-free field of only commas and whitespace gives the "valid tags" message |
| Subscribe.CommasOnlyExample | birdtag-ui/src/components/Subscribe.js:30-33 | `", ,"` gives the "valid tags" message |
| Subscribe.AcceptedIff | birdtag-ui/src/components/Subscribe.js:14-53 | a request is built exactly when the field has no digit and some character that is neither comma nor whitespace; it carries the bearer ID token, the e-mail and the cleaned tags |
| Requests.Bearer | birdtag-ui/src/components/Subscribe.js:48 | the `Bearer ${token}` header (also DeleteFiles.js:71 and ManualTagging.js:50): the prefix `Bearer ` followed by the token's text, or by `undefined` when there is no token |
| Subscribe.CleanTag | birdtag-ui/src/components/Subscribe.js:27 | `tag.trim().toLowerCase()`; CleanTagEmptyIff and CleanTagChars state when it is empty and what characters it keeps |
| Subscribe.CleanTags | birdtag-ui/src/components/Subscribe.js:25-28 | the field split at commas, each piece cleaned, empties dropped; CleanTagsClean, CleanTagsEmptyIff and CleanTagsInOrder state what it gives |
| Subscribe.HandleSubscribe | birdtag-ui/src/components/Subscribe.js:14-53 | the subscribe decision: blank, then digits, then no tags, then the request; BlankRejected, DigitRejected, OnlySeparatorsRejected and AcceptedIff state each outcome |
| Subscribe.StatusOf | birdtag-ui/src/components/Subscribe.js:15-41 | the status line after the decision: the rejection message, or "Subscribing..." when the request goes out |
| DeleteFiles.WithoutIndex | birdtag-ui/src/components/DeleteFiles.js:23 | with an index in range, that one element is removed and the rest shift down in order; otherwise the list is unchanged |
| DeleteFiles.RefusedUrls | birdtag-ui/src/components/DeleteFiles.js:50-57 | the refused entries never outnumber the checked ones |
| DeleteFiles.RefusedUrlsMembers | birdtag-ui/src/components/DeleteFiles.js:50-57 | an entry is among the refused exactly when it is checked and fails to parse or names neither bucket |
| DeleteFiles.NonBlankUrlsInOrder | birdtag-ui/src/components/DeleteFiles.js:42 | the kept entries are the non-blank ones, untrimmed, in list order |
| DeleteFiles.SomeNonBlankIff | birdtag-ui/src/components/DeleteFiles.js:42-47 | some entry is kept exactly when some field is non-blank |
| DeleteFiles.NoneRefusedIff | birdtag-ui/src/components/DeleteFiles.js:50-62 | no kept entry is refused exactly when every non-blank field parses as a URL and names a bucket |
| DeleteFiles.AllBlankRejected | birdtag-ui/src/components/DeleteFiles.js:42-47 | only blank fields give the "at least one URL" message |
| DeleteFiles.RefusedEntryRejectsBatch | birdtag-ui/src/components/DeleteFiles.js:50-62 | one non-blank field that fails to parse, or names neither bucket, refuses the whole batch |
| DeleteFiles.AcceptedIff | birdtag-ui/src/components/DeleteFiles.js:42-72 | a request is built exactly when some field is non-blank and every non-blank field passes; it carries the bearer ID token and exactly the non-blank fields |
| DeleteFiles.NonBlankUrls | birdtag-ui/src/components/DeleteFiles.js:42 | the fields whose trimmed text is non-empty, untrimmed and in order; NonBlankUrlsInOrder and SomeNonBlankIff state what it keeps |
| DeleteFiles.IsNonBlank | birdtag-ui/src/components/DeleteFiles.js:42 | `url.trim().length > 0`: the trimmed field is non-empty, which TrimEmptyIff makes the same as not all whitespace |
| DeleteFiles.IsRefused | birdtag-ui/src/components/DeleteFiles.js:50-57 | `new URL(url)` throws, or the text names neither bucket; RefusedUrlsMembers and RefusedEntryRejectsBatch state its effect |
| DeleteFiles.PreFlight | birdtag-ui/src/components/DeleteFiles.js:40-72 | the delete decision: nothing kept, then a refused entry, then the request; PreFlightCases, AllBlankRejected, RefusedEntryRejectsBatch and AcceptedIff state each outcome |
| DeleteFiles.DeleteForm.constructor | birdtag-ui/src/components/DeleteFiles.js:6-9 | one empty field, no results, empty status, not loading |
| DeleteFiles.DeleteForm.AddUrlField | birdtag-ui/src/components/DeleteFiles.js:17-19 | an empty field is appended |
| DeleteFiles.DeleteForm.RemoveUrlField | birdtag-ui/src/components/DeleteFiles.js:21-26 | with more than one field the given one is removed; the last remaining field is never removed |
| DeleteFiles.DeleteForm.UpdateUrl | birdtag-ui/src/components/DeleteFiles.js:28-32 | the given field takes the new text and every other field is kept |
| DeleteFiles.DeleteForm.ClearAll | birdtag-ui/src/components/DeleteFiles.js:34-38 | one empty field, no results, empty status; the busy flag is left alone |
| DeleteFiles.DeleteForm.HandleDelete | birdtag-ui/src/components/DeleteFiles.js:40-72 | a refusal sets only the status; acceptance clears the status and the results and sets the busy flag; the request is the pre-flight decision's |
| DeleteFiles.DeleteForm.HandleKeyPress | birdtag-ui/src/components/DeleteFiles.js:96-102 | Enter in the last field submits as HandleDelete does; any other key or field changes nothing |
| FileUploadSearch.FileType.Label | birdtag-ui/src/components/FileUploadSearch.js:5 | the file type string is empty exactly for the unsupported kind |
| FileUploadSearch.Classify | birdtag-ui/src/components/FileUploadSearch.js:18-29 | the file kind from the MIME prefix, tested image, video, audio in turn; ClassifyTable states which prefix gives which kind |
| FileUploadSearch.ClassifyTable | birdtag-ui/src/components/FileUploadSearch.js:18-29 | image, video and audio exactly for their MIME prefixes, no kind for anything else |
| FileUploadSearch.Endpoint | birdtag-ui/src/components/FileUploadSearch.js:51 | audio goes to the audio endpoint; image, video and no type go to the image/video endpoint |
| FileUploadSearch.EndpointByLabel | birdtag-ui/src/components/FileUploadSearch.js:51 | testing the `fileType` string against `'audio'`, as the source does, picks the same endpoint as the kind test |
| FileUploadSearch.Base64Content | birdtag-ui/src/components/FileUploadSearch.js:43 | the content, when there is one, holds no comma |
| FileUploadSearch.ContentIffComma | birdtag-ui/src/components/FileUploadSearch.js:43 | there is content exactly when the data URL has a comma |
| FileUploadSearch.ContentBetweenCommas | birdtag-ui/src/components/FileUploadSearch.js:43 | the content is exactly the text between the first comma and the next comma or the end |
| FileUploadSearch.ContentExample | birdtag-ui/src/components/FileUploadSearch.js:43 | the content of `data:audio/wav;base64,UklGR` is `UklGR` |
| FileUploadSearch.Submission | birdtag-ui/src/components/FileUploadSearch.js:32-51 | the submit decision on file, kind and data URL; SubmissionIff and UnsupportedNeverSent state its outcomes |
| FileUploadSearch.SubmissionIff | birdtag-ui/src/components/FileUploadSearch.js:33-51 | a query is built exactly when there is a file with a kind, otherwise the "valid file" message; it carries the file name, the kind, the content and the endpoint for the kind: Endpoint(fileType), so audio goes to the audio endpoint and image and video to the image/video endpoint |
| FileUploadSearch.UnsupportedNeverSent | birdtag-ui/src/components/FileUploadSearch.js:18-36 | a file with none of the three MIME prefixes can never be submitted |
| FileUploadSearch.FileTagSearch.constructor | birdtag-ui/src/components/FileUploadSearch.js:4-7 | no file, no type, empty status |
| FileUploadSearch.FileTagSearch.HandleFileChange | birdtag-ui/src/components/FileUploadSearch.js:13-30 | no selection changes nothing; a selection is kept and classified, and an unsupported one sets the status while a supported one leaves it |
| FileUploadSearch.FileTagSearch.HandleSubmit | birdtag-ui/src/components/FileUploadSearch.js:32-51 | the status and the query are those the submit decision gives, and the type stays that of the file |

## Left out

- Network calls (`fetch`), the responses and the statuses set from them are not modelled. This includes `setLoading(false)`, the delete results, the search results list and the success and error messages. They are I/O; each handler is modelled up to the request it would send.
- Authentication (`react-oidc-context`) is not modelled. The access or ID token and the profile e-mail are parameters, with an absent value as `None`.
- Logging is not modelled: the `console.log` calls at Subscribe.js:35-39 and the `console.error` calls at Subscribe.js:63, ManualTagging.js:67, DeleteFiles.js:90 and FileUploadSearch.js:72 are output only and change no state.
- The browser's `FileReader` is not modelled. The data URL it would produce is a parameter of `FileTagSearch.HandleSubmit`, and the asynchronous gap between reading and sending is not modelled.
- The WHATWG URL parser behind `new URL(url)` is the parameter `parses`.
- JsString.ToLower: lower-cases only Basic Latin and Latin-1 letters, through JsString.LowerChar and JsString.IsUpper. Any other capital, such as U+0100, is kept, where JavaScript lower-cases it. Full Unicode case mapping needs the Unicode tables.
- JsString.LowerChar: maps only the capitals JsString.IsUpper names (A-Z and Latin-1), for the same reason.
- Strings are sequences of Unicode scalar values, while JavaScript strings are UTF-16 code units. A string holding a lone surrogate cannot be represented. No modelled behaviour depends on the difference: every separator and whitespace character is a single code unit, and lengths are only compared with 0.
- DeleteFiles.DeleteForm.UpdateUrl: requires an existing field index. In JavaScript an index past the end would extend the array, but the form only calls this for rendered fields.
- The "Delete Files" button is disabled while loading, but the Enter key is not. HandleKeyPress models the code, which submits anyway.
- Rendering, styling, the menu in `App.js`, and the other components (`SpeciesSearch.js`, `ThumbnailSearch.js`, `TagBasedSearch.js`, `UploadingFiles.js`) are not modelled. They are UI with no validation beyond a one-line guard.
- The server side is not part of this model: tag and count reconciliation, idempotency, URL normalisation, search matching and delete fan-out. Only the requests the forms build are modelled.
- The `accept` attribute of the file input is not modelled, because the browser does not enforce it. Any MIME type can reach the classifier.
- The subscribe form's status line is not a separate state-changing member. `Subscribe.StatusOf` gives it from the decision.
