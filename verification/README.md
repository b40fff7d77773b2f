# CV manager: list queries, uploads, filters and validators

This project models the decision and transformation rules of a CV-management application. It has a FastAPI backend and a Next.js frontend. Each rule is written as a pure Dafny function over immutable datatypes.

**Backend**
- `get_cvs` is the list endpoint. It escapes LIKE terms, builds conjunctive optional filters and array "contains all" filters, applies a sort whitelist with a default, and turns a page into a row range. The FastAPI decoding of its query string is modelled too.
- `convert_date_format` and the per-file rules of `upload_cv`.
- The `CV` model's `parse_date` validator and its field defaults.
- The parser's `validate_file_type`, `clean_text` and `parse_file` dispatch.

**Frontend**
- The `getCVs` query-string builder and the `updateCV` payload normaliser.
- The range-slider and time-range filter codecs and their edit rules.
- The array type guards and `isColumnSchema`.
- The password policy and the order of checks on submit.
- The route guard of the middleware.
- The filter-field wiring and the column menu.

**Integration**
- Lemmas connect the frontend encoder to the backend decoder and filters. They show what a list request built by the frontend means to the backend.

**How effects are modelled**
- Calls the model cannot see are parameters:
  - the text extractor;
  - the analyser;
  - the storage;
  - `toISOString`;
  - `datetime` parsing of query values;
  - the authentication results.
- A PostgREST filter is a predicate over a row whose meaning is stated: `gte`/`lte` are inclusive, `contains` is a superset test, and `ilike` is case-insensitive LIKE.

**Behaviour worth noting:**
- The array filters keep a row only if it has every selected token, not any of them (`contains`).
- Text filters are case-insensitive substring searches (`ilike`), not case-sensitive ones.
- A token containing the item separator `,` is joined without complaint. It is not rejected. The `contains` filter sends its list as the array literal `{t1,t2,...}` without quoting, so PostgreSQL splits such a token at its commas again.
- Numeric ranges are sent as two parameters, `_min` and `_max`, not as one delimited value.
- A malformed scalar query value makes the backend refuse the whole request. It does not drop just that one filter.

Module layout:
- One module per source file.
- Shared modules:
  - `Wrappers` (Option/Result);
  - `Strings` (prefixes, split/join, decimals);
  - `PyText` (Python `str.split()`, `strip`, `int`, `isprintable` as used);
  - `Calendar`;
  - `JsValues` (loosely typed JS values);
  - `QueryString` (`URLSearchParams`).

## Model

| member | source | states |
|---|---|---|
| LikePattern.EscapedWildcardsArePreceded | backend/app/api/cv.py:54 | in the escaped search term every `%` and `_` is immediately preceded by a backslash |
| LikePattern.EscapeWildcardsIdentity | backend/app/api/cv.py:62 | a term with no `%` or `_` is left unchanged by the escaping |
| LikePattern.EscapeWildcardsOnePass | backend/app/api/cv.py:54 | the two chained `replace` calls equal one pass that prefixes each wildcard with a backslash (the second replace does not touch backslashes the first inserted) |
| LikePattern.UnescapeEscape | backend/app/api/cv.py:54 | escaping loses nothing: removing the inserted backslashes gives back the original term |
| LikePattern.LikePercentMatchesAll | backend/app/api/cv.py:63 | the pattern `%` matches every string |
| LikePattern.LikeWrappedContains | backend/app/api/cv.py:63 | LIKE with `%` + fully escaped term + `%` holds exactly when the value contains the term as a substring |
| LikePattern.ILikeWrappedContains | backend/app/api/cv.py:66 | the ILIKE form holds exactly when the lower-cased value contains the lower-cased term |
| LikePattern.TextFilterIsSubstringSearch | backend/app/api/cv.py:61-69 | for a term without backslashes the name/surname/city filter is a case-insensitive substring search |
| LikePattern.BackslashTermMatchesWithoutOccurrence | backend/app/api/cv.py:54 | as written: a term `a\b` is not escaped for its backslash, and its filter matches the value `ab`, which does not contain the term |
| LikePattern.EscapeLikeTermOnePass | backend/app/api/cv.py:54 | corrected escaping (backslash first, then the wildcards) prefixes each of `\`, `%`, `_` with one backslash |
| LikePattern.EscapedTermFilterIsSubstringSearch | backend/app/api/cv.py:61-69 | with the corrected escaping, every term's filter is exactly a case-insensitive substring search |
| LikePattern.TrailingBackslashEscapesClosingPercent | backend/app/api/cv.py:54-63 | as written: for a term `a\` the closing `%` is escaped, so the filter misses the value `a\` that contains the term and matches `a%`, which does not |
| LikePattern.CorrectedPatternEndsInWildcard | backend/app/api/cv.py:63 | with the corrected escaping the closing `%` stays a wildcard: a value that matches still matches with any text around it |
| CvQuery.TermFilter | backend/app/api/cv.py:61-69 | one text filter on a column holds iff the column's text contains the term, ignoring case |
| CvQuery.SearchFilter | backend/app/api/cv.py:53-59 | the global search holds iff nome, cognome or competenze contains the term, ignoring case |
| CvQuery.OptionalHolds | backend/app/api/cv.py:53-93 | a filter added only under a condition constrains a row only when that condition holds |
| CvQuery.TextFiltersMeaning | backend/app/api/cv.py:53-69 | the text filters hold iff every given (non-empty) text parameter is contained in its column(s) |
| CvQuery.NumberFiltersMeaning | backend/app/api/cv.py:72-75 | the numeric filters hold iff the row's years of experience lie within each bound that is not None, bounds included |
| CvQuery.ContainsAllMeaning | backend/app/api/cv.py:78-87 | a `contains` filter keeps a row iff its column is an array holding every comma-separated part of the joined tokens; the empty literal `{}` keeps every array, and an empty part keeps no row |
| CvQuery.PlainListRead | backend/app/api/cv.py:78-87 | for tokens that are non-empty and comma-free, the filter keeps a row iff its array contains every token |
| CvQuery.JoinedTokenRequiresEach | backend/app/api/cv.py:78-87 | one comma-joined token of plain items is split again by PostgreSQL, so the filter requires every item |
| CvQuery.PlainTokenRequired | backend/app/api/cv.py:78-87 | whatever else the list holds, a row kept by the filter contains each of its plain tokens |
| CvQuery.ArrayFiltersMeaning | backend/app/api/cv.py:78-87 | for lists of plain tokens the array filters hold iff, for each non-empty list parameter, the row's list contains every selected token |
| CvQuery.DateFiltersMeaning | backend/app/api/cv.py:90-93 | the date filters hold iff created_at lies within each given bound, bounds included |
| CvQuery.FiltersWithMeaning | backend/app/api/cv.py:53-93 | all the filters together hold iff the row satisfies the conjunction of the per-parameter meanings |
| CvQuery.QueryMeaning | backend/app/api/cv.py:53-93 | a row is selected exactly when it meets the conjunctive specification, for terms the escaping handles and lists of plain tokens |
| CvQuery.CorrectedQueryMeaning | backend/app/api/cv.py:53-93 | with corrected escaping the query equals the conjunctive specification for every term and all lists of plain tokens |
| CvQuery.EscapedTermsInFilters | backend/app/api/cv.py:54 | the filters carry the escaped term: every wildcard is preceded by `\`, and a term without wildcards is unchanged |
| CvQuery.SalaryBoundsIgnored | backend/app/api/cv.py:35-36 | the `stipendio_attuale_min/max` parameters are accepted but never change the query |
| CvQuery.MissingTokenRejects | backend/app/api/cv.py:78-79 | a row whose tools list lacks one selected non-empty, comma-free tool is not selected, whatever the other tools |
| CvQuery.LanguagesRequired | backend/app/api/cv.py:86-87 | a selected row's `linguaggi_programmazione` is an array containing every requested plain language, and every language when all of them are plain |
| CvQuery.LanguagesFilterAdded | backend/app/api/cv.py:86-87 | adding a languages list to parameters without one selects exactly the rows selected before whose array meets the new `contains` filter |
| CvQuery.BoundsInclusive | backend/app/api/cv.py:72-75 | a row whose years equal the lower or the upper bound passes the numeric filters |
| CvQuery.NoParametersMatchAll | backend/app/api/cv.py:53-93 | with no filter parameter given every row is selected |
| CvQuery.OrderOf | backend/app/api/cv.py:96-100 | the ordering column is always one of the whitelisted sort fields |
| CvQuery.SortHonouredIffWhitelisted | backend/app/api/cv.py:96-100 | a requested column and direction are honoured exactly when the column is whitelisted |
| CvQuery.UnlistedSortIgnoresDirection | backend/app/api/cv.py:97-100 | without a whitelisted `sort_by`, `sort_desc` has no effect and the order is created_at descending |
| CvQuery.PageRangeShape | backend/app/api/cv.py:103-105 | for valid paging the range starts at or after 0, holds exactly page_size rows, and the next page starts right after it |
| CvQuery.PagesPartitionRows | backend/app/api/cv.py:103-105 | every row index lies in exactly one page's range, page `i / page_size + 1` |
| CvQuery.UniquePage | backend/app/api/cv.py:103-105 | a row index in page q's range determines q |
| QueryString.ValuesSet | frontend/src/lib/api.ts:29 | after `set(name, v)` the name has exactly the value v and every other name keeps its values |
| QueryString.ValuesAppendParam | frontend/src/lib/api.ts:26 | `append` adds one value at the end of its name and changes no other name |
| QueryString.ValuesAppendAll | frontend/src/lib/api.ts:26 | appending a list of values adds exactly those values, in order, to that name only |
| QueryString.RemoveName | frontend/src/lib/api.ts:29 | removing a name leaves no pair with that name |
| QueryDecode.Bounded | backend/app/api/cv.py:19-20 | a bounded integer parameter is either refused or lies within its `ge`/`le` bounds |
| QueryDecode.LastValueWins | backend/app/api/cv.py:19-36 | a scalar parameter given several times takes its last value |
| QueryDecode.ListCollectsAll | backend/app/api/cv.py:39-43 | a list parameter collects all of its repeated values in order |
| QueryDecode.EmptyQueryDefaults | backend/app/api/cv.py:19-47 | an empty query decodes to page 1, page_size 10, sort_desc false, and every other parameter None |
| QueryDecode.UnknownNameIgnored | backend/app/api/cv.py:17-48 | a parameter the endpoint does not declare does not change the decoding |
| QueryDecode.RawOfKnownNames | backend/app/api/cv.py:17-48 | two queries with the same values for the declared names decode alike |
| QueryDecode.DecodeAcceptsIff | backend/app/api/cv.py:19-47 | the request is accepted iff each present page, page_size, sort_desc, number and date value parses and meets its bounds |
| QueryDecode.ProblemsInOrder | backend/app/api/cv.py:19-47 | the refusal lists at most nine problems in declaration order, page before page_size, data_al last |
| QueryDecode.DecodedValues | backend/app/api/cv.py:19-47 | an accepted request carries the defaults or the parsed last values, and non-empty lists exactly as sent |
| QueryDecode.PyIntOfDecimal | backend/app/api/cv.py:19-20 | an integer's decimal text is read back as that integer iff it has at most 4300 digits, and is refused otherwise |
| QueryDecode.IntValueOfDecimal | backend/app/api/cv.py:33-34 | a number parameter sent once is that number iff its text has at most 4300 digits, and invalid otherwise |
| QueryDecode.PyIntMinusDigits | backend/app/api/cv.py:33-34 | a minus sign before digits reads as the negation of what the digits read as, and is refused when they are |
| QueryDecode.ShortIntFits | backend/app/api/cv.py:20 | every number of at most three digits, page sizes included, is within the digit limit |
| QueryDecode.PagingBoundsEnforced | backend/app/api/cv.py:19-20 | `page` below 1 makes the request fail, and `page_size` outside 1..100 makes it fail naming `page_size` |
| QueryDecode.PageBelowOneRefused | backend/app/api/cv.py:19 | a `page` below 1 appended to any query makes the request fail |
| QueryDecode.PageSizeOutsideRefused | backend/app/api/cv.py:20 | a `page_size` outside 1..100 appended to any query makes the request fail, naming `page_size` |
| QueryDecode.LastNumberRefused | backend/app/api/cv.py:19-20 | a page below 1 or page size outside 1..100 sent last is refused, naming that parameter |
| QueryDecode.ProblemNamed | backend/app/api/cv.py:19-20 | a refused page or page size makes the request fail with that parameter's name in the error |
| QueryDecode.PyBoolIgnoresCase | backend/app/api/cv.py:24 | the boolean words of `sort_desc` are read case-insensitively |
| QueryDecode.SortDescWords | backend/app/api/cv.py:24 | "true" and "false" are read as the booleans they name |
| QueryDecode.EmptyWordRefused | backend/app/api/cv.py:24 | an empty `sort_desc` value is not a boolean |
| QueryDecode.LowerIdempotent | backend/app/api/cv.py:24 | lower-casing twice is lower-casing once |
| ApiClient.EncodePagingMeaning | frontend/src/lib/api.ts:29-32 | the paging step sends page, page_size and sort_by only when truthy, sort_desc whenever defined, and changes no other name |
| ApiClient.EncodeListsMeaning | frontend/src/lib/api.ts:35-39 | the array step sends each non-empty array once, comma-joined, and changes no other name |
| ApiClient.EncodeRangesMeaning | frontend/src/lib/api.ts:42-57 | the range step sends the experience bounds, data_dal/data_al and created_at_dal as specified, and changes no other name |
| ApiClient.NamesDisjoint | frontend/src/lib/api.ts:29-57 | the three steps set disjoint parameter names |
| ApiClient.EncodeGetCVsMeaning | frontend/src/lib/api.ts:25-57 | for every name, the values sent are exactly those the per-field rule prescribes |
| ApiClient.OnlyEncodedNamesSent | frontend/src/lib/api.ts:25-57 | no parameter outside the encoded names is ever sent |
| ApiClient.NothingExpected | frontend/src/lib/api.ts:18-22 | the salary ranges and every other undeclared field produce no parameter |
| ApiClient.PagingAndSortSent | frontend/src/lib/api.ts:29-32 | page 0 is omitted; sort_desc false is sent as "false"; an undefined sort_desc is not sent |
| ApiClient.ArrayParamJoined | frontend/src/lib/api.ts:35 | a non-empty array is one comma-joined value, and splitting it on ',' gives back the list iff no token contains ',' |
| ApiClient.ExperienceRangeSent | frontend/src/lib/api.ts:42-45 | `anni_esperienza [lo, hi]` becomes `anni_esperienza_min=lo` and `anni_esperienza_max=hi`, and nothing when absent |
| ApiClient.DatesSent | frontend/src/lib/api.ts:48-53 | data_dal comes from element 0 of a non-empty ultimo_contatto, and data_al is absent iff there is a single element |
| ApiClient.CreationDateSent | frontend/src/lib/api.ts:54-57 | only the first created_at element is sent, as created_at_dal |
| ApiClient.EncodeGetCVsCorrectedMeaning | frontend/src/lib/api.ts:37-38 | the corrected encoder sends the languages under `linguaggi` and leaves every other parameter as before |
| ApiClient.ExpectedOtherThanLanguages | frontend/src/lib/api.ts:37-38 | the languages field affects no parameter other than its own |
| ApiClient.Prefix10 | frontend/src/lib/api.ts:108 | `slice(0, 10)` is the prefix of length min(10, length) |
| ApiClient.UpdatePayloadShape | frontend/src/lib/api.ts:101-119 | the payload has no created_at, has the three date keys normalised, keeps every other key unchanged, and adds nothing else |
| ApiClient.NormaliseDateCases | frontend/src/lib/api.ts:105-119 | a falsy date becomes null, a string its first 10 characters, and a Date the date part of its ISO text |
| ApiClient.NormaliseStringIdempotent | frontend/src/lib/api.ts:105-109 | normalising an already normalised string date changes nothing |
| Integration.EncoderCarries | frontend/src/lib/api.ts:25-57 | every parameter the backend reads receives exactly the values the frontend encoder sets for it |
| Integration.CarriedArrives | backend/app/api/cv.py:17-48 | a query carrying those values is read by the backend as the expected raw request |
| Integration.EncodedArrives | backend/app/api/cv.py:17-48 | the raw request the backend sees for a frontend query is exactly the expected one, with nothing under `linguaggi` |
| Integration.PagingArrives | frontend/src/lib/api.ts:29-30 | page and page_size arrive as their defaults when not sent, as sent when in range (for the page: also within 4300 digits), and are refused otherwise |
| Integration.SortArrives | frontend/src/lib/api.ts:31-32 | sort_desc arrives true only when the frontend's was true; sort_by arrives iff it was non-empty |
| Integration.NumbersRefused | backend/app/api/cv.py:19-34 | an invalid page, page size or experience bound makes the request fail |
| Integration.ExperienceArrives | frontend/src/lib/api.ts:42-45 | the experience bounds arrive as the two elements of the frontend's range when each has at most 4300 digits, and are invalid otherwise |
| Integration.DatesArrive | frontend/src/lib/api.ts:48-53 | data_dal and data_al arrive as elements 0 and 1 of ultimo_contatto when they exist |
| Integration.ArrivingDecoded | backend/app/api/cv.py:19-47 | the backend accepts the request iff the frontend's numbers are accepted (paging in range, page and experience bounds within 4300 digits), and then decodes it to the received parameters |
| Integration.ListRequestReceived | backend/app/api/cv.py:19-47 | a frontend list request succeeds iff its numbers are accepted, and the backend then sees exactly the received parameters |
| Integration.CreationDatesIgnored | frontend/src/lib/api.ts:54-57 | the created_at filter never affects what the backend decodes, because `created_at_dal` is never read |
| Integration.LastContactBoundsCreation | backend/app/api/cv.py:90-91 | the "last contact" date range sent by the frontend becomes a lower bound on created_at at the backend |
| Integration.ListsArriveJoined | backend/app/api/cv.py:39 | a selected tools list arrives as one comma-joined token, not as the individual tools; for plain tools, PostgreSQL's splitting of that token makes the filter require every tool |
| Integration.LanguagesFilterDropped | backend/app/api/cv.py:43 | as written: the languages selection sent as `linguaggi_programmazione` never reaches the backend, whose query then selects every row |
| Integration.CorrectedCarries | frontend/src/lib/api.ts:37-38 | the corrected encoder carries the languages to the `linguaggi` parameter and everything else as before |
| Integration.CorrectedRequestReceived | backend/app/api/cv.py:43 | with the corrected encoder a request succeeds iff its numbers are accepted, and it arrives with the languages set |
| Integration.CorrectedLanguagesApplied | backend/app/api/cv.py:86-87 | with the corrected encoder and plain languages, a row is selected iff it is selected without the languages and its array contains every requested language |
| Upload.ConvertDateFormat | backend/app/api/cv.py:120-128 | a converted date comes from a string with exactly three slash-separated parts |
| Upload.ConvertDateFormatParts | backend/app/api/cv.py:125-126 | "D/M/Y" becomes "Y-M-D", with the parts copied and not checked |
| Upload.ConvertDateFormatIff | backend/app/api/cv.py:120-128 | the result is not None iff the value is a string with exactly two slashes |
| Upload.ConvertDateFormatIsFullDate | backend/app/api/cv.py:125-126 | a real calendar date in "DD/MM/YYYY" becomes an RFC 3339 full-date |
| Upload.DropNulls | backend/app/api/cv.py:199 | the None-stripping keeps exactly the non-null entries, with their values |
| Upload.ProfileDataFixedEntries | backend/app/api/cv.py:181-199 | the profile has only the known keys, no null value, and always file_name and process_status "processing" |
| Upload.ProfileDataLists | backend/app/api/cv.py:191-195 | a list field the analysis lacks becomes the empty list |
| Upload.ProfileDataCopied | backend/app/api/cv.py:184-190 | each scalar field is copied when non-null and absent when the analysis lacks it |
| Upload.NullListDropped | backend/app/api/cv.py:191-199 | a list field that the analysis gives as null is dropped |
| Upload.ProfileBirthDate | backend/app/api/cv.py:187 | data_nascita is present iff its conversion succeeds, and then holds the converted text |
| Upload.ProcessFile | backend/app/api/cv.py:141-231 | each file's result keeps its filename, has status success or error, and carries a cv_id iff it succeeded |
| Upload.UploadBatch | backend/app/api/cv.py:133-243 | as written: the batch completes iff it has at most ten files |
| Upload.TooManyFilesIsServerError | backend/app/api/cv.py:135-139 | as written: more than ten files yields a 500 whose detail is "400: Maximum 10 files allowed per upload" |
| Upload.UploadBatchChecked | backend/app/api/cv.py:135-139 | corrected: the batch completes iff it has at most ten files |
| Upload.TooManyFilesIsClientError | backend/app/api/cv.py:135-139 | corrected: more than ten files yields the intended 400, and smaller batches are unchanged |
| Upload.OneResultPerFile | backend/app/api/cv.py:141-239 | up to ten files, each file yields exactly one result, in input order, depending on that file only |
| Upload.InvalidTypeReported | backend/app/api/cv.py:146-152 | a name not ending in .pdf/.doc/.docx, ignoring case, gets "error"/"Invalid file type" |
| Upload.ProcessFileOutcomes | backend/app/api/cv.py:166-223 | after a successful parse: an analysis error gives its message; an analysis that is not a JSON object gives "Error storing CV: '<type>' object has no attribute 'get'"; a storage error gives "Error storing CV: " and its message; a stored id gives success with that id |
| Upload.DocPassesUploadCheckButFails | backend/app/api/cv.py:146 | as written: a `.doc` name passes the upload check, and the file always ends as a parser error |
| Upload.SupportedUploadIsParsed | backend/app/api/cv.py:146 | corrected: a name passing the pdf/docx upload check also passes the parser's type check |
| CvModel.SlashAttempt | backend/app/models/cv.py:63-64 | a date built from the "D/M/Y" split is a valid calendar date |
| CvModel.Strptime | backend/app/models/cv.py:67-69 | a date parsed by a format is a valid calendar date |
| CvModel.FirstFormat | backend/app/models/cv.py:67-71 | the fallback loop succeeds iff some format parses, and returns that format's date |
| CvModel.ParseDate | backend/app/models/cv.py:59-73 | as written: non-strings pass through unchanged; a rejection carries "Formato data non valido"; an accepted string gives a date |
| CvModel.ParseDateChecked | backend/app/models/cv.py:59-73 | corrected: never overflows, non-strings pass through, and rejections carry the message |
| CvModel.SlashAttemptOfDigits | backend/app/models/cv.py:63-64 | on digit fields the split attempt raises ValueError when a field has more than 4300 digits, else OverflowError when a number is beyond the C int range, else gives the date when it is real and ValueError when not |
| CvModel.ItalianDateAccepted | backend/app/models/cv.py:63-64 | a "DD/MM/YYYY" whose fields have at most 4300 digits and name a real date yields that date |
| CvModel.ImpossibleDateRejected | backend/app/models/cv.py:64-72 | a digit triple in C int range that names no real date, such as 31/02/2020, is rejected with the message, whatever the fields' length |
| CvModel.OverlongFieldRejected | backend/app/models/cv.py:63-72 | a "D/M/Y" in digits with a field of more than 4300 digits, leading zeros included, is rejected with the message, whatever its numbers |
| CvModel.SlashFormRejected | backend/app/models/cv.py:65-72 | once the split attempt raised ValueError, a digit triple matches no fallback format and is rejected with the message |
| CvModel.DashDateAccepted | backend/app/models/cv.py:67-69 | "DD-MM-YYYY" naming a real date is accepted by the fallback |
| CvModel.IsoDateAccepted | backend/app/models/cv.py:67-69 | "YYYY-MM-DD" naming a real date is accepted by the fallback |
| CvModel.LastFallbackReads | backend/app/models/cv.py:62-72 | a string without '/' that `%d-%m-%Y` rejects is accepted with the date `%Y-%m-%d` reads, and rejected with the message when that format fails too |
| CvModel.OverflowEscapesParseDate | backend/app/models/cv.py:63-65 | as written: with fields of at most 4300 digits, a year beyond the C int range raises OverflowError, which `except ValueError` does not catch |
| CvModel.ParseDateCheckedAgrees | backend/app/models/cv.py:59-73 | corrected: the checked parser agrees with the original wherever the original does not overflow, and rejects otherwise |
| CvModel.OutOfRangeFieldsFail | backend/app/models/cv.py:63-71 | when the slash split overflows, no fallback format succeeds either |
| CvModel.DashFormatsNeedNoSlash | backend/app/models/cv.py:67 | a string with a slash never matches the dash formats |
| CvModel.SlashFallbackRedundant | backend/app/models/cv.py:67 | whenever the `%d/%m/%Y` fallback parses, the slash split already produced the same date |
| CvModel.Collect | backend/app/models/cv.py:12-73 | the constructed fields are exactly those the validator as written accepts, with their values, and the failures are exactly the rest (rejected or overflowed) |
| CvModel.ConstructDefaults | backend/app/models/cv.py:13-47 | with no input the five lists are [], process_status is "processing", and every other field is None |
| CvModel.ValidatorOnlyOnDateFields | backend/app/models/cv.py:58 | only data_nascita and scadenza_contratto pass through the validator as written; other given fields are kept |
| CvModel.FailedFieldsAreBadDates | backend/app/models/cv.py:58-72 | the fields that fail are exactly the date fields given an unparsable string or one whose numbers overflow |
| CvModel.ConstructFailsOnBadDates | backend/app/models/cv.py:58-72 | construction raises iff some date field's numbers overflow; otherwise it fails iff some date field is given a bad date string, and lists exactly those fields |
| CvModel.OverflowRaisesConstruction | backend/app/models/cv.py:58-65 | as written: a birth date "D/M/Y" whose fields have at most 4300 digits and whose year is beyond the C int range makes the whole construction raise |
| CvModel.ExtraKeysIgnored | backend/app/models/cv.py:12-47 | a key that is not a field does not affect the constructed record |
| CvParser.ValidateFileType | backend/app/services/cv_parser.py:15-20 | an accepted extension is "." plus the lower-cased last segment and is a supported format; a refusal carries the fixed message |
| CvParser.LastSegmentShape | backend/app/services/cv_parser.py:17 | the last segment is a dot-free suffix of the name that is preceded by a dot or is the whole name |
| CvParser.AcceptsByLastSegment | backend/app/services/cv_parser.py:17-18 | a name is accepted iff its lower-cased last segment is "pdf" or "docx" |
| CvParser.FormatSuffixIsAccepted | backend/app/services/cv_parser.py:9-20 | a name ending, ignoring case, in the extension of either supported format is accepted |
| CvParser.SuffixIsAccepted | backend/app/services/cv_parser.py:9-20 | a name ending in .pdf or .docx, ignoring case, is accepted |
| CvParser.ValidateFileTypeAccepts | backend/app/services/cv_parser.py:9-20 | a name is accepted iff it ends in .pdf/.docx (ignoring case), or is a bare "pdf"/"docx" without a dot |
| CvParser.DocIsRejected | backend/app/services/cv_parser.py:9 | a name ending in .doc is rejected |
| CvParser.KeepCharsKept | backend/app/services/cv_parser.py:44 | the filter keeps exactly the printable or listed accented characters |
| CvParser.CleanText | backend/app/services/cv_parser.py:41-45 | every output character is printable or a listed accented letter, so no tab or newline survives |
| CvParser.CleanTextOfPrintable | backend/app/services/cv_parser.py:43-44 | for printable text, the result is its words joined by single spaces, and cleaning again changes nothing |
| CvParser.CleanTextDropsControl | backend/app/services/cv_parser.py:43-44 | a non-printable character between two words is dropped after the join, leaving two spaces |
| CvParser.CleanTextOfDoubleSpace | backend/app/services/cv_parser.py:43 | a double space between words is collapsed to one |
| CvParser.CleanTextNotIdempotent | backend/app/services/cv_parser.py:43-44 | when a control character is dropped the result is not stable: cleaning twice differs from cleaning once |
| CvParser.ParseFile | backend/app/services/cv_parser.py:64-95 | the result keeps the filename; an unsupported type is a ValueError; success iff supported, extracted, and not blank; success carries the format and the cleaned text |
| CvParser.BlankTextIsError | backend/app/services/cv_parser.py:75-76 | empty or whitespace-only extracted text gives the "no text" ValueError |
| CvParser.SuccessTextMayBeEmpty | backend/app/services/cv_parser.py:75-87 | the blank check runs before cleaning, so a success may carry empty text |
| PyText.WordsAreWords | backend/app/services/cv_parser.py:43 | `split()` gives non-empty pieces without whitespace |
| PyText.WordsOfJoin | backend/app/services/cv_parser.py:43 | splitting words joined by single spaces gives back the words |
| PyText.Strip | backend/app/models/cv.py:64 | stripping never lengthens the text, and a non-empty result neither starts nor ends with white space |
| PyText.StripMeaning | backend/app/models/cv.py:64 | the stripped text is a slice of the input with only white space before and after it |
| PyText.PyIntOfDigits | backend/app/models/cv.py:64 | `int` of a digit string is its decimal value when it has at most 4300 digits, and a ValueError otherwise |
| PyText.ReadGroupsOfDigits | backend/app/models/cv.py:64 | unsigned plain digits read as their value when there are at most 4300 of them, and are refused otherwise |
| PyText.PyIntOfMinus | backend/app/api/cv.py:33-34 | a stripped text starting with a minus sign reads as the negation of what the rest reads as, and is refused when the rest is |
| PyText.SpaceIsPrintableOnlyForBlank | backend/app/services/cv_parser.py:44 | among whitespace characters only the space is printable |
| PyText.FormatAndPrivateUseNotPrintable | backend/app/services/cv_parser.py:44 | format characters such as U+0600 and U+E0001 and private-use ones such as U+F0000 are not printable; letters and the space are |
| Strings.Lower | backend/app/services/cv_parser.py:17 | lower-casing keeps the length and maps each character |
| Strings.LowerAppend | backend/app/api/cv.py:146 | lower-casing distributes over concatenation |
| Strings.Split | backend/app/models/cv.py:63 | splitting gives at least one part |
| Strings.SplitJoinIff | frontend/src/lib/api.ts:35 | splitting joined parts gives them back iff no part contains the separator |
| Strings.JoinSplit | backend/app/api/cv.py:125-126 | joining the split parts gives back the text |
| Strings.DecimalRoundTrip | frontend/src/lib/api.ts:43-44 | an integer's `toString` is parsed back to the same integer |
| Strings.NatToDecimalValue | frontend/src/lib/api.ts:29 | the decimal digits of a natural number denote that number |
| FilterSlider.TrimStart | frontend/src/components/data-table/data-table-filter-slider.tsx:67 | what `parseInt` reads is a suffix of the text that does not start with white space |
| FilterSlider.TrimStartSkipsBlanks | frontend/src/components/data-table/data-table-filter-slider.tsx:67 | everything skipped before that suffix is white space |
| FilterSlider.DigitPrefix | frontend/src/components/data-table/data-table-filter-slider.tsx:67 | the digits read are a prefix of the text, and the character after them is not a digit |
| FilterSlider.DigitPrefixDigits | frontend/src/components/data-table/data-table-filter-slider.tsx:67 | every character of that prefix is a digit of the radix |
| FilterSlider.ParseIntOfDecimal | frontend/src/components/data-table/data-table-filter-slider.tsx:67 | typing an integer, possibly followed by non-digits, stores that integer |
| FilterSlider.NonNumericIsZero | frontend/src/components/data-table/data-table-filter-slider.tsx:67 | text not starting with a digit or sign is read as 0 |
| FilterSlider.NumbersOf | frontend/src/components/data-table/data-table-filter-slider.tsx:35 | a number array is read element by element |
| FilterSlider.DegenerateRanges | frontend/src/components/data-table/data-table-filter-slider.tsx:30-34 | a scalar v is read as [v, v], and a one-element array [a] as [a, a] |
| FilterSlider.NumberArrayPassesThrough | frontend/src/components/data-table/data-table-filter-slider.tsx:32-35 | a number array of any other length passes through unchanged |
| FilterSlider.OtherValuesShowDefaults | frontend/src/components/data-table/data-table-filter-slider.tsx:36-107 | any other value reads as no filter, and min, max and the slider fall back to [min, max] |
| FilterSlider.EmptyArrayFilter | frontend/src/components/data-table/data-table-filter-slider.tsx:32-107 | an empty number array is a filter: the inputs show min and max, but the slider gets the empty array |
| FilterSlider.OnMinEdit | frontend/src/components/data-table/data-table-filter-slider.tsx:66-72 | a min edit stores the typed value as the lower bound; the upper bound is the existing one when there is one and it is larger, and max otherwise |
| FilterSlider.OnMaxEdit | frontend/src/components/data-table/data-table-filter-slider.tsx:93-99 | a max edit stores the typed value as the upper bound; the lower bound is the existing one when there is one and it is smaller, and min otherwise |
| FilterSlider.EditsKeepOtherBound | frontend/src/components/data-table/data-table-filter-slider.tsx:66-99 | on a [lo, hi] filter the edits keep the other bound exactly when the order is kept |
| FilterSlider.EditsAreNotClamped | frontend/src/components/data-table/data-table-filter-slider.tsx:66-99 | a typed value above max is stored unclamped |
| FilterSlider.NonNumericEditStoresZero | frontend/src/components/data-table/data-table-filter-slider.tsx:67-94 | non-numeric text stores 0 as the edited bound |
| FilterTimerange.DecodeCases | frontend/src/components/data-table/data-table-filter-timerange.tsx:23-31 | a Date gives from only; a non-empty Date array gives elements 0 and 1; anything else, including [], gives undefined |
| FilterTimerange.SetDateUntouched | frontend/src/components/data-table/data-table-filter-timerange.tsx:34-41 | undefined, or a range with `to` but no `from`, leaves the filter value untouched |
| FilterTimerange.SetDateStores | frontend/src/components/data-table/data-table-filter-timerange.tsx:35-40 | from only is stored as [from]; from and to as [from, to] |
| FilterTimerange.RangeRoundTrip | frontend/src/components/data-table/data-table-filter-timerange.tsx:23-41 | a range with `from` written by setDate decodes back to the same range |
| IsArray.Every | frontend/src/lib/is-array.ts:3 | `every` holds iff each element has the kind |
| IsArray.GuardsMeaning | frontend/src/lib/is-array.ts:1-22 | each guard holds iff the value is an array all of whose elements have its type, the Date guard also needing a non-empty array |
| IsArray.NonArrayFailsAll | frontend/src/lib/is-array.ts:2-20 | all four guards are false for a non-array |
| IsArray.EmptyArrayGuards | frontend/src/lib/is-array.ts:3-21 | on [] the number, string and boolean guards hold and the Date guard does not |
| IsArray.OneWrongElement | frontend/src/lib/is-array.ts:3-10 | one element of the wrong type falsifies the guard |
| IsArray.AtMostOneGuard | frontend/src/lib/is-array.ts:1-22 | a non-empty array satisfies at most one guard |
| TypeGuards.OnlyPlainObjects | frontend/src/lib/type-guards.ts:3-11 | only objects can be accepted |
| TypeGuards.NullRejected | frontend/src/lib/type-guards.ts:6 | `null` is rejected |
| TypeGuards.NonObjectRejected | frontend/src/lib/type-guards.ts:5 | a primitive value is rejected |
| TypeGuards.ObjectAcceptedIff | frontend/src/lib/type-guards.ts:7-9 | an object is accepted iff it has the keys id, nome and cognome |
| TypeGuards.OnlyKeyPresenceMatters | frontend/src/lib/type-guards.ts:7-9 | values and extra keys do not matter, only the presence of the three keys |
| JsValues.ItemTexts | frontend/src/lib/api.ts:108 | an array's string form has one text per element |
| JsValues.JsStringRendering | frontend/src/lib/api.ts:108 | `String` of a number parses back to it; `String([s])` is s and `String([])` is empty |
| Password.MessageOf | frontend/src/app/impostazioni/password/page.tsx:15-48 | every failed check has a non-empty message |
| Password.FirstFailing | frontend/src/app/impostazioni/password/page.tsx:15-48 | the first failing check is None iff all pass, and otherwise it fails while every check before it passes |
| Password.FirstFailureReported | frontend/src/app/impostazioni/password/page.tsx:14-51 | the result is valid with an empty message when all checks pass, else it carries the first failing check's message |
| Password.ValidIff | frontend/src/app/impostazioni/password/page.tsx:14-50 | valid iff length ≥ 8 and there is an ASCII uppercase letter, an ASCII lowercase letter, a digit and one of `!@#$%^&*` |
| Password.MessageEmptyIffValid | frontend/src/app/impostazioni/password/page.tsx:15-50 | the message is empty exactly when the password is valid |
| Password.AccentedCapitalsDoNotCount | frontend/src/app/impostazioni/password/page.tsx:22-29 | without ASCII capitals a long password fails the uppercase check; accented letters are not ASCII |
| Password.AppendKeepsValid | frontend/src/app/impostazioni/password/page.tsx:14-50 | appending characters to a valid password keeps it valid |
| Password.UpdateOnlyAfterAllChecks | frontend/src/app/impostazioni/password/page.tsx:62-115 | the password is updated iff a user exists, the policy passes, the confirmation matches and sign-in succeeds |
| Password.ChecksInOrder | frontend/src/app/impostazioni/password/page.tsx:74-110 | policy failure, then mismatch, then wrong current password are reported in that order, regardless of the later results |
| Middleware.PublicRoutesByPrefix | frontend/src/middleware.ts:14-17 | a path is public iff it starts with /login or /auth/confirm, so "/login-x" is public too |
| Middleware.AnonymousProtectedRedirects | frontend/src/middleware.ts:20-25 | an anonymous request to a non-public path redirects to /login with redirectTo set to the path |
| Middleware.SignedInLoginRedirectsHome | frontend/src/middleware.ts:28-31 | a signed-in request to a /login path redirects to "/" |
| Middleware.OthersPass | frontend/src/middleware.ts:28-35 | every other case passes through, including a signed-in /auth/confirm |
| Middleware.NoRedirectLoop | frontend/src/middleware.ts:14-31 | deciding again on the redirect target, with the same auth state, passes through |
| FilterControls.ListFor | frontend/src/components/data-table/data-table-filter-controls.tsx:73-128 | a fetched list is chosen exactly for the six checkbox keys |
| FilterControls.OptionsOf | frontend/src/components/data-table/data-table-filter-controls.tsx:79-82 | the options keep the fetched strings' count and order, with label = value = the string |
| FilterControls.UpdateAll | frontend/src/components/data-table/data-table-filter-controls.tsx:73 | the output has the input's length and order, each field updated on its own |
| FilterControls.UpdateFieldMeaning | frontend/src/components/data-table/data-table-filter-controls.tsx:73-131 | a checkbox-key field becomes a checkbox with the matching options, keeping its label, value and flags; any other field is unchanged |
| FilterControls.ListsByKey | frontend/src/components/data-table/data-table-filter-controls.tsx:75-128 | each of the six keys takes its own fetched list, or [] when nothing is fetched |
| FilterControls.NothingFetchedNoOptions | frontend/src/components/data-table/data-table-filter-controls.tsx:42-70 | before the data arrives an overridden field has zero options |
| FilterControls.DefaultOpenMembership | frontend/src/components/data-table/data-table-filter-controls.tsx:154-156 | a value is open by default iff some field with defaultOpen has it |
| FilterControls.UpdateKeepsDefaultOpen | frontend/src/components/data-table/data-table-filter-controls.tsx:73-156 | the option update does not change the default-open values or their order |
| FilterControls.ShowReset | frontend/src/components/data-table/data-table-filter-controls.tsx:139-148 | Reset is shown iff some column filter is active |
| FilterControls.SecondaryLabelRule | frontend/src/components/data-table/data-table-filter-controls.tsx:168-169 | a key holding an upper-case letter is shown exactly when the command input is enabled, and a key equal to the lower-cased label is never shown |
| ViewOptions.IndexOf | frontend/src/components/data-table/data-table-view-options.tsx:50 | `indexOf` is -1 iff the id is absent, otherwise its first position |
| ViewOptions.ListedIsFilter | frontend/src/components/data-table/data-table-view-options.tsx:46-48 | exactly the columns with an accessor are kept, each as often as in the table |
| ViewOptions.SortPermutes | frontend/src/components/data-table/data-table-view-options.tsx:49-51 | the sort is a permutation of its input |
| ViewOptions.SortIsSorted | frontend/src/components/data-table/data-table-view-options.tsx:49-51 | the result is ascending by position in columnOrder |
| ViewOptions.SortIsStable | frontend/src/components/data-table/data-table-view-options.tsx:49-51 | columns with equal position keep their table order |
| ViewOptions.MenuColumnsMeaning | frontend/src/components/data-table/data-table-view-options.tsx:42-53 | the menu lists a permutation of the accessor columns, sorted by position, with the columns missing from columnOrder first |
| ViewOptions.OnSelectFlips | frontend/src/components/data-table/data-table-view-options.tsx:88-92 | selecting a hideable column flips its visibility only; a non-hideable one changes nothing |
| ViewOptions.IdsOf | frontend/src/components/data-table/data-table-view-options.tsx:77 | the stored order is the id of each item, in order |
| ViewOptions.ReorderPositions | frontend/src/components/data-table/data-table-view-options.tsx:76-78 | after a reorder each column's position in columnOrder is its dragged position |

## Left out

**Backend execution**
- Supabase/PostgREST execution, the `count` and `total` of the response, and the insert/update calls (backend/app/api/cv.py:50, 107-114, 202-208). Only the predicate, the order and the range are modelled; the storage is a parameter.
- The second storage call that marks a profile "completed" (backend/app/api/cv.py:206-208). It is part of the storage parameter.
- The `except Exception` around `get_cvs` (backend/app/api/cv.py:116-118). It only wraps database failures, and those are not modelled.
- `update_cv` and `delete_cv` (backend/app/api/cv.py:245-271). They are storage calls with a 404 check.
- PostgREST's own reading of filter strings. Its `*` alias for `%` and its splitting of the `or_` argument at commas inside a term are not modelled; the `or_` search is modelled as a disjunction of three ILIKE filters.
- The LLM analysis in cv_analyzer.py. It is an external model call, so the analyser is a parameter.

**Parsing and extraction**
- PDF/DOCX text extraction and the regex-based `extract_basic_info`. They are foreign libraries and a regex engine, so the extractor is a parameter.
- `parse_file` catches every exception. The extractor's own exceptions are a `Raised` outcome of that parameter.
- The upload's per-file `except Exception` (backend/app/api/cv.py:225-231). The modelled steps that raise are the `.get` on an analysis that is not a JSON object and the storage calls; both sit inside the inner `try` and are reported as "Error storing CV: …". What is left for the outer handler are exceptions of `parse_file` and `analyze_cv` themselves, which are parameters here.
- `Upload.Json`: JSON numbers are integers or finite reals. Python's `NaN` and `Infinity` extensions are not modelled.

**Validation details**
- Pydantic's validation pipeline:
  - by default a `field_validator` runs after the `date` type coercion;
  - pydantic's own date and int coercion.
  `CvModel.ParseDate` models the validator function itself on the raw value, and the record construction applies it to the date fields only.
- `CvModel.Strptime`: the fields follow the regular expressions of Python's `_strptime` for `%d`, `%m` and `%Y` (four digits) with ASCII digits only. Python's `\d` also matches other Unicode decimal digits, such as Arabic-Indic ones; these are not modelled. strptime's general whitespace folding in the format is not modelled.
- `PyText.PyInt`: reads ASCII digits only. Python's `int()` also accepts any Unicode decimal digit (`int("٢") == 2`); the model rejects those. It refuses more than 4300 digits, as `int()` does by default since Python 3.11 (`sys.int_info.default_max_str_digits`); a raised or lifted limit is not modelled.
- `QueryDecode`: FastAPI reads query integers with pydantic's own parser, not with `int()`. It is modelled by `PyText.PyInt`, whose 4300-digit limit that parser shares. The two parsers differ in details that are not modelled: which underscores, signs and white space they allow, exactly which characters count towards the limit, non-ASCII digits, and pydantic's extra acceptances such as "1.0". Booleans are the listed words, and `datetime` parsing is a parameter.
- `Strings.Lower`: models ASCII-only lower-casing. Python's and JavaScript's Unicode case mapping of non-ASCII letters is not modelled.
- `PyText.IsPrintable` rejects the control (Cc), separator (Zs other than the space, Zl, Zp), format (Cf) and private-use (Co) characters of Unicode 15. Unassigned code points (Cn), which Python also rejects, are not distinguished, because the Unicode database is not modelled.
- PostgreSQL's reading of the `contains` array literal: double-quoted elements, backslash escapes, trimming of white space around elements and the `NULL` element are not modelled. A literal with an empty element is an error for the whole request; the model lets that filter keep no row.

**JavaScript values**
- JS numbers are modelled as integers. NaN, Infinity, fractions and `-0` are not modelled.
- `FilterSlider.ParseIntOrZero`: `parseInt` is exact here. Precision loss above 2^53 is not modelled.
- JS `Date`, `toISOString` and `String(date)` are parameters (`iso`, `dateText`), with dates as integers. `isDateString` (frontend/src/lib/type-guards.ts:13-17) and `formatCompactNumber` are not part of this model.
- URLSearchParams percent-encoding. It is transparent between `set` and `getAll`.
- Inherited properties in `'id' in obj`, and key order in the JSON payload.

**Frontend glue**
- All fetch/async code, toasts, router navigation and loading state. In the password page, `getUser`, `signInWithPassword` and `updateUser` become booleans.
- The middleware `matcher` regex (frontend/src/middleware.ts:39-49).
- The `Sortable` drag component itself. Only the order it reports is modelled.
- `getCittaFilters` and the checkbox, input and reset filter components, which are referenced but not shown.
- `useMemo` caching.
- Pure presentation and configuration files: layout, header, loading states, error boundary, toolbar, the upload UI, the filter-command stub, next.config, main.py, config.py.

## Findings

| source | as written | input that shows it | evidently intended | confidence | as-written member | corrected member |
|---|---|---|---|---|---|---|
| backend/app/api/cv.py:54 | only `%` and `_` are escaped before the term is put into an ILIKE pattern; a backslash stays a LIKE escape character | search term `a\b`: the pattern `%a\b%` matches the value `ab`, which does not contain `a\b`; search term `a\`: the pattern `%a\%` ends in a literal `%`, so it misses the value `a\` and matches `a%` | escape `\` first, so every term is matched literally | not executed | LikePattern.BackslashTermMatchesWithoutOccurrence, LikePattern.TrailingBackslashEscapesClosingPercent | LikePattern.EscapedTermFilterIsSubstringSearch |
| backend/app/api/cv.py:135-139, 241-243 | the 400 for more than ten files is raised inside the outer `try`, whose `except Exception` re-raises it as a 500 with detail `str(e)` | eleven files: answer 500 "400: Maximum 10 files allowed per upload" | answer 400 "Maximum 10 files allowed per upload" | not executed | Upload.TooManyFilesIsServerError | Upload.TooManyFilesIsClientError |
| backend/app/api/cv.py:146, backend/app/services/cv_parser.py:9 | the upload check admits `.doc`, which the parser does not support | `cv.doc`: passes the upload check, then always fails with "Formato file non supportato…" | the upload check admits exactly the parser's formats | not executed | Upload.DocPassesUploadCheckButFails | Upload.SupportedUploadIsParsed |
| backend/app/models/cv.py:63-65 | `date(int(year), …)` raises OverflowError for a field of at most 4300 digits whose number is beyond the C int range (so of 10 to 4300 digits), and `except ValueError` does not catch it; a longer field makes `int()` raise ValueError and is rejected with the message (CvModel.OverlongFieldRejected) | `"01/01/99999999999"`: OverflowError escapes the validator instead of the "Formato data non valido" message | every unparsable date string is reported as an invalid date | not executed; reached only if the validator sees the raw string, since in pydantic's default after mode the date coercion runs first | CvModel.OverflowEscapesParseDate, CvModel.OverflowRaisesConstruction | CvModel.ParseDateCheckedAgrees |
| frontend/src/lib/api.ts:37-38, backend/app/api/cv.py:43 | the frontend sends the languages as `linguaggi_programmazione`, but the backend reads `linguaggi` | any list request with languages selected: the backend applies no languages filter and returns rows without them | send the selection under `linguaggi` | not executed | Integration.LanguagesFilterDropped | Integration.CorrectedLanguagesApplied |
