# hw7 blog platform API — a verified Dafny model of its core

The hw7 service is a REST API over MongoDB for blogs, posts, comments and
users, with registration by confirmation code and two authentication gates.
This project models, in Dafny, the logic under the HTTP and database
plumbing:

- the query normaliser (`validatePageNumber`, `validatePageSize`,
  `validateSortBy`, `validateSortDirection`) and the paginator;
- the shaping of error lists (`transformJoiError`, `joinErrorMessages`);
- the request schemas, evaluated as the Joi string rules they declare
  (trim, then required / string / empty / min / max / pattern), with the
  e-mail and website-URL regular expressions run as automata;
- the five repositories, over an in-memory `Db` class with one sequence per
  collection. MongoDB's `insertOne`, `findOne`, `updateOne $set`,
  `deleteOne`, `countDocuments` and `find → sort → skip → limit` are
  functions over those sequences in module `Mongo`;
- the blogs, posts, comments and users services. Each operation is a
  specification function from the tables to an `Effect` (the reply and the
  tables afterwards). A method over `Db` is proved to have exactly that
  effect, and lemmas state the status-code rules and what is written;
- the auth service: `login`, `register`, `confirm`, `resend` and
  `createConfirmationToken`, i.e. the state machine over the users and
  tokens tables;
- the authentication gates: HTTP Basic (section 2 of RFC 7617, with the
  Base64 of section 4 of RFC 4648) for the fixed `admin:qwerty` pair, and
  Bearer (section 2.1 of RFC 6750).

Things outside the program become parameters:

- the clock is an `Instant` (milliseconds and ISO text);
- identifiers the driver generates are an `ObjectId`;
- the 16 random bytes are a parameter, and so is bcrypt (a `Hasher`).
- JWT signing and verification are functions (`sign`, `verify`).
- The MongoDB `$regex` search with option `i` is a `RegexTest`.
- A letter handed to the mail transport is appended to `Mailer.sent`.

A reply is one of:

- `Bare(code)`, a status without a body;
- `Errors(code, errorsMessages)`;
- `Data(code, value)`;
- `Unhandled`, a rejected promise: an exception the service does not catch,
  which Express turns into a server error.

Decisions where the code was followed literally:

- Page numbers. The API description asks for the page number to come back
  as the text that was sent. The code instead compares `parseInt(value)`
  with `Number(original)`, so `" 7"`, `"07"` and `"1.0"` pass as 7, 7 and 1.
  The model follows the code (`ValidationFunctions.ValidateCount`).
- Zero passes through as a page number and as a page size.
  - A page size of 0 is `limit(0)`, which means no limit, and its page
    count is not finite (`pagesCount` is `None`).
  - Page number 0 with a positive size gives a negative `skip`, which the
    driver rejects (`Unhandled`).
- Identifiers follow bson 6.
  - `new ObjectId(s)` accepts exactly 24 hexadecimal digits, in either case,
    and throws otherwise.
  - `isValidMongoId` therefore holds of exactly 24 lowercase hex digits.
  - `new ObjectId(undefined | null | number)` generates a fresh id, which
    matches no stored record.
  - An object with an `id` key is unwrapped: a string `id` is parsed as
    above, any other `id` throws. An object without `id`, a boolean or an
    array throws.
- `commentSchema` spells its required-message key `any:required`, so Joi's
  default `"content" is required` is what a missing content reports.
- `createPost` and `updatePostById` look the blog up whatever the
  validation found, with the untrimmed `blogId`.
  - A malformed string `blogId` makes `new ObjectId` throw (`Unhandled`).
  - When `blogId` is missing, `null` or a number, it generates an id that
    names no blog, so its error is reported twice.
  - An object `blogId` holding a stored blog's id as its `id` finds that
    blog, and only the validation's error is reported.
- `readUserById` uses `findViewUserById`, which has no projection. Its
  answer therefore carries the salt and the hash.
- `resend` reports an invalid e-mail with field `""`: `transformJoiError`
  gets no field name and the detail path of a bare value is empty.
- `login` reports `loginOrEmail` twice when it fails both rules, because
  `joinErrorMessages` does not deduplicate.
- `updatePostById` answers 204 only when `modifiedCount` is 1. Sending a
  post's current values back is answered 404.

## Model

| member | source | states |
|---|---|---|
| `ValidationFunctions.ValidateCount` | src/utils/validationFunctions.ts:3-20 | the result is the default or the parsed input; no parse, a parse that disagrees with `Number` of the text, or a negative value gives the default; a clean count is kept |
| `ValidationFunctions.ValidatePageNumber` | src/utils/validationFunctions.ts:3-12 | the result is 1 or the parsed input, never negative; exactly the clean counts are kept, everything else is 1 |
| `ValidationFunctions.ValidatePageSize` | src/utils/validationFunctions.ts:14-20 | the result is 10 or the parsed input, never negative; exactly the clean counts are kept, everything else is 10 |
| `ValidationFunctions.ValidateSortBy` | src/utils/validationFunctions.ts:22-28 | the result is in the whitelist or is "createdAt"; the value is kept exactly when it is in the whitelist (or is "createdAt") |
| `ValidationFunctions.ValidateSortDirection` | src/utils/validationFunctions.ts:30-38 | the result is "asc" or "desc"; the value is kept exactly when it is one of them |
| `ValidationFunctions.CountOfDecimalString` | src/utils/validationFunctions.ts:3-20 | the decimal text of any count is read back as that count |
| `ValidationFunctions.ValidateCountIdempotent` | src/utils/validationFunctions.ts:3-20 | feeding the decimal text of a result back in gives the same result |
| `ValidationFunctions.ParseIntOfDigitRun` | src/utils/validationFunctions.ts:7 | `parseInt` of text starting with a digit (and no `0x`) is the value of its leading digit run |
| `ValidationFunctions.FractionFallsBack` | src/utils/validationFunctions.ts:3-20 | digits, a dot and a fraction that is not zero ("2.5") parse to the integer part but `Number` reads more, so page number and page size both take their defaults |
| `ValidationFunctions.ParseIntOfDigitsThen` | src/utils/validationFunctions.ts:7 | `parseInt` of digits followed by a non-digit (not an `x`) is the value of the digits |
| `ValidationFunctions.ToNumberOfFraction` | src/utils/validationFunctions.ts:9 | `Number` of digits, a dot and digits is the integer part plus the fraction over its power of ten |
| `ValidationFunctions.ToNumberOfExponent` | src/utils/validationFunctions.ts:9 | `Number` of digits, an "e" and digits is the integer part times ten to the exponent |
| `ValidationFunctions.ExponentFallsBack` | src/utils/validationFunctions.ts:3-20 | a positive number with a positive exponent ("1e2") parses to the digits before the "e" but `Number` reads a larger value, so both counts take their defaults |
| `ValidationFunctions.TrailingLettersFallBack` | src/utils/validationFunctions.ts:3-20 | digits followed by a lower-case letter other than e, o, b and x ("3abc") parse to the digits but are NaN for `Number`, so both counts take their defaults |
| `ValidationFunctions.NegativeFallsBack` | src/utils/validationFunctions.ts:3-20 | a minus sign and digits of positive value ("-3") is negative, so both counts take their defaults |
| `ValidationFunctions.ParseIntOfNegative` | src/utils/validationFunctions.ts:16 | `parseInt` of a minus sign and digits is the negated value of the digits |
| `ValidationFunctions.ZeroPassesThrough` | src/utils/validationFunctions.ts:10-11 | "0" is kept as 0 for both page number and page size |
| `ValidationFunctions.ValidateQuery` | src/resources/blogs/blogs.service.ts:65-71 | a missing page number or size takes its default; sortBy is whitelisted or "createdAt"; the direction is "asc" or "desc" |
| `ValidationFunctions.ValidateQueryIdempotent` | src/resources/blogs/blogs.service.ts:65-71 | validating the text of a validated query gives the same query |
| `Js.TrimStart` | src/resources/users/users.service.ts:29 | the result is a suffix of the input, does not start with white space, and only white space was removed |
| `Js.TrimEnd` | src/resources/users/users.service.ts:29 | the result is a prefix of the input, does not end with white space, and only white space was removed |
| `Js.TrimIdempotent` | src/resources/users/users.service.ts:29 | a trimmed text has no white space at either end, and trimming it again changes nothing |
| `Js.TrimOfPadded` | src/resources/users/users.service.ts:29 | a word padded by white space trims back to the word |
| `Js.JsLength` | src/resources/users/users.service.ts:39-40 | the UTF-16 length is between the code-point count and twice it, and equals it for text inside the Basic Multilingual Plane |
| `Js.Split` | src/middlewares/authentication.ts:21 | `split` gives at least one part, none containing the separator |
| `Js.JoinOfSplit` | src/middlewares/authentication.ts:21 | joining the parts of a split with the separator gives the input back |
| `Js.SplitOfJoin` | src/middlewares/authentication.ts:21 | splitting parts joined by the separator gives the parts back, when no part holds the separator |
| `Js.SplitWhole` | src/middlewares/authentication.ts:49 | text without the separator splits into itself alone |
| `Js.SplitAt` | src/middlewares/authentication.ts:49 | the first part ends at the first separator, the rest is the split of what follows it |
| `Js.RadixPrefix` | src/utils/validationFunctions.ts:7 | the leading run of digits of the radix: a prefix, all digits, followed by a non-digit or the end |
| `Js.DecimalString` | src/utils/validationFunctions.ts:3-20 | the decimal text of a number is non-empty and all digits |
| `Js.ValueOfDecimalString` | src/utils/validationFunctions.ts:3-20 | the digits of the decimal text have the number as value |
| `Js.ParseIntOfDecimalString` | src/utils/validationFunctions.ts:7 | `parseInt` of a number's decimal text is that number |
| `Js.ToNumberOfDecimalString` | src/utils/validationFunctions.ts:9 | `Number` of a number's decimal text is that number |
| `Js.UnsignedDecimalOfInfinity` | src/utils/validationFunctions.ts:9 | "Infinity" is read as no finite number |
| `UtilityFunctions.MapDetails` | src/utils/utilityFunctions.ts:20-25 | one entry per detail, in order, with its message and the given field name or else the joined path |
| `UtilityFunctions.KeepFirst` | src/utils/utilityFunctions.ts:26-32 | the filter keeps at most the n entries it looks at (which ones: `KeepFirstFields`, `KeepFirstIsDedup`) |
| `UtilityFunctions.KeepFirstFields` | src/utils/utilityFunctions.ts:26-32 | the kept entries have pairwise distinct fields, and every field of the prefix survives |
| `UtilityFunctions.KeepFirstIsDedup` | src/utils/utilityFunctions.ts:26-32 | the filter equals an independent left-to-right walk that keeps an entry exactly when its field was not seen yet |
| `UtilityFunctions.TransformJoiError` | src/utils/utilityFunctions.ts:13-34 | no more entries than details; pairwise distinct fields; exactly the fields of the mapped details |
| `UtilityFunctions.DedupOfPrefix` | src/utils/utilityFunctions.ts:26-32 | that walk over a list is its walk over a prefix followed by the walk over the rest, given the prefix's fields |
| `UtilityFunctions.TransformJoiErrorWithFieldName` | src/utils/utilityFunctions.ts:23-32 | with a field name the output is empty for no details and otherwise the single first message under that field |
| `UtilityFunctions.OneFieldKeepsFirst` | src/utils/utilityFunctions.ts:26-32 | when every entry has one field, only the first is kept |
| `UtilityFunctions.JoinErrorMessagesAppend` | src/utils/utilityFunctions.ts:36-42 | joining two lists of results is joining each and concatenating, and the lengths add |
| `UtilityFunctions.JoinErrorMessages` | src/utils/utilityFunctions.ts:36-42 | the joined list is as long as all non-null lists together: no deduplication |
| `UtilityFunctions.JoinErrorMessagesFrom` | src/utils/utilityFunctions.ts:36-42 | every joined entry comes from one of the non-null lists |
| `UtilityFunctions.MapMongoToView` | src/utils/utilityFunctions.ts:44-74 | the view keeps every other field and its id is 24 lowercase hex digits |
| `UtilityFunctions.MapMongoToViewId` | src/utils/utilityFunctions.ts:44-74 | the view's id parses back to the record's `_id`, and passes `isValidMongoId` |
| `UtilityFunctions.MapMongoToViewInjective` | src/utils/utilityFunctions.ts:44-74 | distinct records have distinct views |
| `UtilityFunctions.MapViews` | src/utils/utilityFunctions.ts:44-74 | mapping a list views each record in order |
| `UtilityFunctions.IsValidMongoIdIff` | src/utils/utilityFunctions.ts:76-78 | an id is valid exactly when it is 24 lowercase hexadecimal digits |
| `UtilityFunctions.CeilDiv` | src/utils/utilityFunctions.ts:87 | the ceiling of the quotient: the least count of pages that holds every item, 0 only for 0 items |
| `UtilityFunctions.MakePaginator` | src/utils/utilityFunctions.ts:80-93 | page, pageSize, totalCount and items are copied; the page count is finite exactly when pageSize is positive |
| `UtilityFunctions.PagesCountBounds` | src/utils/utilityFunctions.ts:86-87 | for a positive pageSize: (pagesCount-1)·pageSize < totalCount ≤ pagesCount·pageSize when there are items, and pagesCount is 0 exactly when there are none |
| `ObjectIds.Hex` | src/resources/auth/auth.service.ts:72 | the hex text of n bytes has 2n lowercase hex digits |
| `ObjectIds.ParseHexOfHex` | src/resources/auth/auth.service.ts:72 | reading the hex text of bytes gives the bytes back |
| `ObjectIds.HexOfParseHex` | src/utils/utilityFunctions.ts:77 | printing parsed hex gives the text back exactly when it was lowercase |
| `ObjectIds.HexOfLowerHex` | src/utils/utilityFunctions.ts:77 | lowercase hex text is printed back unchanged |
| `ObjectIds.IdString` | src/utils/utilityFunctions.ts:47-48 | an id prints as 24 lowercase hex digits |
| `ObjectIds.ParseObjectId` | src/resources/blogs/blogs.repository.ts:38 | `new ObjectId` of a text succeeds exactly for 24 hex digits |
| `ObjectIds.ParseObjectIdOfIdString` | src/utils/utilityFunctions.ts:76-78 | parsing an id's text gives the id |
| `ObjectIds.IdStringInjective` | src/utils/utilityFunctions.ts:76-78 | distinct ids print differently |
| `ObjectIds.ObjectIdOfValue` | src/resources/posts/posts.service.ts:92 | a string parses exactly when it is 24 hex digits (else throws); an object with a string `id` is read as that string, with any other `id` or none it throws; undefined, null or a number generate a fresh id |
| `Patterns.EmailNeedsAt` | src/resources/users/users.service.ts:30 | every text the e-mail pattern accepts contains `@` |
| `Patterns.EmailIsNotLogin` | src/resources/users/users.service.ts:28-42 | no text matches both the e-mail pattern and the login pattern |
| `Patterns.EmailAccepted` | src/resources/users/users.service.ts:30 | "a.b@x-y.com" matches the e-mail pattern |
| `Patterns.EmailLongTldRefused` | src/resources/users/users.service.ts:30 | a last label of five characters is refused |
| `Patterns.UrlHasNoLineTerminator` | src/resources/blogs/blogs.service.ts:41-45 | no accepted URL contains a line terminator |
| `Patterns.UrlDotIsAnyCharacter` | src/resources/blogs/blogs.service.ts:43 | the unescaped `.` accepts any code unit that is not a line terminator: "https://a", c, "b" passes exactly for such a c |
| `Patterns.UrlRefused` | src/resources/blogs/blogs.service.ts:43 | "https://ab" (too short) and "http://a.b" (no https) are refused |
| `Base64.Encode` | src/middlewares/authentication.ts:50-52 | encoded text has a length divisible by four and only alphabet characters or padding |
| `Base64.EncodeLength` | src/middlewares/authentication.ts:50-52 | n bytes encode to 4·⌈n/3⌉ characters |
| `Base64.DecodeSextets` | src/middlewares/authentication.ts:50-52 | the number of bytes decoded from k sextets is 3 per full group plus k mod 4 − 1 |
| `Base64.DecodeEncodeSextets` | src/middlewares/authentication.ts:50-52 | decoding the sextets of bytes gives the bytes back |
| `Base64.SextetsOfDigits` | src/middlewares/authentication.ts:50-52 | reading back alphabet characters followed by padding gives their sextets |
| `Base64.GroupRoundTrip` | src/middlewares/authentication.ts:50-52 | three bytes split into four sextets recombine into the same bytes |
| `Base64.DecodeEncode` | src/middlewares/authentication.ts:50-52 | `Buffer.from(s, "base64")` of the encoding of any bytes gives those bytes |
| `Joi.RuleMessages` | src/resources/users/users.service.ts:38-51 | no message exactly when the trimmed text meets the min, max and pattern constraints; at most three |
| `Joi.CheckString` | src/resources/users/users.service.ts:27-59 | valid exactly when the rule accepts; the value is the trimmed text; undefined reports the required message, a non-string the base message, blank text the empty message |
| `Joi.ValidateObject` | src/resources/blogs/blogs.service.ts:98-101 | only schema keys are kept (stripUnknown) and every detail's path is one schema key |
| `Joi.AllAcceptCons` | src/resources/blogs/blogs.service.ts:25-54 | a schema accepts a body exactly when its first key and the rest accept |
| `Joi.ValidateObjectPasses` | src/resources/blogs/blogs.service.ts:98-103 | no details exactly when every key accepts (abortEarly false) |
| `Joi.ValidateObjectValues` | src/resources/blogs/blogs.service.ts:98-101 | after a pass every key holds the trimmed text of the body's value |
| `Joi.ValidateObjectErrorFields` | src/resources/blogs/blogs.service.ts:102-104 | transformed errors are empty exactly when there were no details, have distinct fields, each a schema key |
| `Joi.BareDetails` | src/resources/auth/auth.service.ts:92-107 | the details of a bare value have the messages and an empty path |
| `Joi.PassedKey` | src/resources/blogs/blogs.service.ts:98-101 | a passed key's value is a string and its field is its trimmed text |
| `Joi.AllAcceptThree` | src/resources/users/users.service.ts:27-59 | a three-key schema accepts exactly when all three keys accept |
| `Joi.AllAcceptFour` | src/resources/posts/posts.service.ts:26-50 | a four-key schema accepts exactly when all four keys accept |
| `Joi.RefusedKeyReported` | src/resources/blogs/blogs.service.ts:98-104 | a refused key has a detail with its path |
| `Mongo.InsertOne` | src/resources/blogs/blogs.repository.ts:26-32 | the insertion succeeds exactly when the id is new, and then appends the one record |
| `Mongo.InsertOneKeepsDistinct` | src/resources/blogs/blogs.repository.ts:26-32 | inserting keeps ids distinct and adds exactly the new id |
| `Mongo.FindIndex` | src/resources/blogs/blogs.repository.ts:34-40 | the index of the first match, or none when nothing matches |
| `Mongo.FindOne` | src/resources/blogs/blogs.repository.ts:34-40 | `findOne` gives a stored match, and none exactly when nothing matches |
| `Mongo.FindById` | src/resources/blogs/blogs.repository.ts:34-40 | the record with that id, none exactly when the id is not stored |
| `Mongo.FindByIdOfStored` | src/resources/blogs/blogs.repository.ts:34-40 | with distinct ids every stored record is found by its id |
| `Mongo.DeleteOne` | src/resources/blogs/blogs.repository.ts:50-56 | `deleteOne` removes the first match and nothing else, or nothing when there is no match |
| `Mongo.DeletedCount` | src/resources/blogs/blogs.repository.ts:50-56 | at most one record is deleted |
| `Mongo.DeleteOneRemovesOne` | src/resources/blogs/blogs.repository.ts:50-56 | one record goes exactly when something matches, and it is a matching one; otherwise nothing changes |
| `Mongo.DeleteOneKeepsDistinct` | src/resources/blogs/blogs.repository.ts:50-56 | deleting keeps ids distinct and adds none |
| `Mongo.DeleteByIdRemoves` | src/resources/blogs/blogs.repository.ts:50-56 | deleting by id removes exactly that id, counts 1 exactly when it was stored, and keeps every other record |
| `Mongo.UpdateOne` | src/resources/blogs/blogs.repository.ts:42-48 | the length is kept; matchedCount is 1 exactly when the id is stored; modifiedCount ≤ matchedCount ≤ 1 |
| `Mongo.UpdateOneChangesOne` | src/resources/blogs/blogs.repository.ts:42-48 | only the record with the id is merged; modifiedCount is 1 exactly when the merge changes it; ids are kept |
| `Mongo.Filter` | src/resources/blogs/blogs.repository.ts:16-18 | the filtered records are stored records that match |
| `Mongo.FilterMembers` | src/resources/blogs/blogs.repository.ts:16-18 | a record is kept exactly when it is stored and matches |
| `Mongo.Count` | src/resources/blogs/blogs.repository.ts:58-66 | a count is at most the number of records |
| `Mongo.FilterAll` | src/resources/posts/posts.repository.ts:14 | the empty filter keeps every record |
| `Mongo.TextLeTotal` | src/resources/blogs/blogs.repository.ts:19 | text order is total |
| `Mongo.TextLeTransitive` | src/resources/blogs/blogs.repository.ts:19 | text order is transitive |
| `Mongo.KeyLeTotal` | src/resources/blogs/blogs.repository.ts:19 | the order of sort keys is total |
| `Mongo.KeyLeTransitive` | src/resources/blogs/blogs.repository.ts:19 | the order of sort keys is transitive |
| `Mongo.InOrderTotal` | src/resources/blogs/blogs.repository.ts:19 | ascending or descending, any two records are in order one way |
| `Mongo.InOrderTransitive` | src/resources/blogs/blogs.repository.ts:19 | ascending or descending, the order is transitive |
| `Mongo.Insert` | src/resources/blogs/blogs.repository.ts:19 | inserting into a sorted list adds one element |
| `Mongo.Sort` | src/resources/blogs/blogs.repository.ts:19 | sorting keeps the length |
| `Mongo.InsertPermutes` | src/resources/blogs/blogs.repository.ts:19 | inserting adds exactly that element |
| `Mongo.InsertSorted` | src/resources/blogs/blogs.repository.ts:19 | inserting into a sorted list keeps it sorted |
| `Mongo.SortSorted` | src/resources/blogs/blogs.repository.ts:19 | `sort` gives a sorted permutation of its input (ascending iff "asc") |
| `Mongo.Window` | src/resources/blogs/blogs.repository.ts:20-21 | skip/limit fails exactly for a negative skip; otherwise at most pageSize items (0 is no limit) and at most the input |
| `Mongo.WindowIsSlice` | src/resources/blogs/blogs.repository.ts:20-21 | the window is the slice that starts after (pageNumber-1)·pageSize records, of pageSize records or what remains |
| `Mongo.Find` | src/resources/blogs/blogs.repository.ts:13-23 | the filter → sort → skip → limit pipeline fails exactly for a negative skip |
| `Mongo.FirstPageEmpty` | src/resources/blogs/blogs.repository.ts:13-23 | the first page is empty exactly when nothing matches |
| `Mongo.FindProperties` | src/resources/blogs/blogs.repository.ts:13-23 | a page is sorted, holds only stored matches, at most the count of matches and at most pageSize |
| `Mongo.SortedMatches` | src/resources/blogs/blogs.repository.ts:13-19 | the matches sorted by the key: as many as match, sorted, a permutation of the filtered records |
| `Mongo.FindIsWindow` | src/resources/blogs/blogs.repository.ts:13-23 | a found page is, entry by entry, the (pageNumber-1)·pageSize-th onward of the matches sorted by sortBy, pageSize of them or all that remain (all for pageSize 0) |
| `Mongo.FindMembersMapped` | src/resources/users/users.repository.ts:24-36 | a found page seen through a projection is at most the count and pageSize, each entry the projection of a match |
| `Mongo.FindWindowMapped` | src/resources/users/users.repository.ts:24-36 | a found page seen through a projection is that projection of the window of the sorted matches |
| `Store.Db.constructor` | src/db/db.ts:23 | a fresh store has five empty collections |
| `Store.Mailer.constructor` | src/resources/auth/auth.manager.ts:3-11 | a fresh mailer has sent nothing |
| `Store.Mailer.Send` | src/resources/auth/auth.manager.ts:4-10 | sending appends exactly one letter |
| `Authentication.HeaderParts` | src/middlewares/authentication.ts:21 | the header splits into a scheme and a token; there is no token exactly when the header has no space |
| `Authentication.AdminBasicAuth` | src/middlewares/authentication.ts:39-58 | a missing or empty header is refused with 401 |
| `Authentication.AdminBasicAuthPasses` | src/middlewares/authentication.ts:49-57 | the gate passes exactly when the first word is "Basic" and the decoded token names admin:qwerty |
| `Authentication.SplitNamesAdmin` | src/middlewares/authentication.ts:50-53 | comparing the first two ":"-parts with admin and qwerty is the same as the decoded bytes starting with admin:qwerty followed by the end or a ":" |
| `Authentication.SplitComparisonNamesAdmin` | src/middlewares/authentication.ts:50-53 | parts admin and qwerty mean the bytes name the pair |
| `Authentication.NamesAdminSplit` | src/middlewares/authentication.ts:50-53 | bytes naming the pair split into admin and qwerty |
| `Authentication.HeaderPartsOfBasicHeader` | src/middlewares/authentication.ts:21 | a header built from a scheme and encoded credentials splits back into them |
| `Authentication.EncodeHasNoSpace` | src/middlewares/authentication.ts:21 | Base64 text has no space |
| `Authentication.AdminCredentialsPass` | src/middlewares/authentication.ts:49-53 | "Basic" with admin:qwerty, alone or followed by ":" and anything, passes |
| `Authentication.AdminBasicAuthRefusals` | src/middlewares/authentication.ts:49-57 | the scheme word is case-sensitive, "Bearer" is refused, a longer password is refused, and a header without a token throws |
| `Authentication.ExtractUserId` | src/resources/auth/auth.service.ts:62-69 | without a token there is no user id |
| `Authentication.ResolveUser` | src/middlewares/authentication.ts:22-26 | a resolved user is stored and is the one the token's id names |
| `Authentication.BearerAuth` | src/middlewares/authentication.ts:11-37 | the gate never throws, and refuses a missing or empty header with 401 |
| `Authentication.BearerAuthPasses` | src/middlewares/authentication.ts:21-33 | the gate passes exactly when the scheme is "Bearer" and the token resolves to a stored user; it then sets exactly that user's id, login and e-mail |
| `Authentication.BearerAcceptsSignedToken` | src/middlewares/authentication.ts:21-33 | a "Bearer" header whose token verifies to a stored user's id passes with that user |
| `UsersRepository.Summary` | src/resources/users/users.repository.ts:31 | the projection keeps id, login, e-mail, createdAt and isConfirmed and drops salt and hash |
| `UsersRepository.Summaries` | src/resources/users/users.repository.ts:31 | the projection of each record, in order |
| `UsersRepository.CountUsers` | src/resources/users/users.repository.ts:72-87 | the count is at most the number of users |
| `UsersRepository.FindUsers` | src/resources/users/users.repository.ts:11-38 | fails exactly for a negative skip; at most pageSize and at most the count of matches; each item is the projection of a user that matches the "or"/"and" filter; the page is the projection of the (pageNumber-1)·pageSize-th onward of the matches sorted by sortBy, pageSize of them or all that remain (all for pageSize 0) |
| `UsersRepository.UsersWindow` | src/resources/users/users.repository.ts:24-36 | the summaries of a found page are the projection of the window of the sorted matching users |
| `UsersRepository.CountUsersWithEmptyTerm` | src/resources/users/users.repository.ts:26-29 | with "or" and an empty term every user is counted |
| `UsersRepository.FindUserById` | src/resources/users/users.repository.ts:40-46 | the user with that id, none exactly when it is not stored |
| `UsersRepository.InsertUser` | src/resources/users/users.repository.ts:56-62 | appends the one user when its id is new, else changes nothing |
| `UsersRepository.DeleteUserById` | src/resources/users/users.repository.ts:64-70 | removes the user with that id and reports how many went |
| `AuthRepository.Authenticate` | src/resources/auth/auth.repository.ts:13-25 | the first user the filter finds, exactly when the password's hash with that user's salt is the stored hash |
| `AuthRepository.EmailAuth` | src/resources/auth/auth.repository.ts:13-25 | a returned user has exactly that e-mail and a matching hash |
| `AuthRepository.LoginAuth` | src/resources/auth/auth.repository.ts:27-39 | a returned user has exactly that login and a matching hash |
| `AuthRepository.AuthenticateIff` | src/resources/auth/auth.repository.ts:13-39 | when at most one user has the e-mail or login, the check succeeds exactly when some such user's hash matches |
| `AuthRepository.FindTokenInfo` | src/resources/auth/auth.repository.ts:41-51 | the server rejects the filter exactly when the code is an operator document it refuses; a found token is stored and matches the filter; none exactly when no token matches; for a string code: never rejected, a found token has exactly that code, none exactly when no token has it |
| `AuthRepository.CodeFilter` | src/resources/auth/auth.repository.ts:46-48 | `{token: code}`: a string code is equality, an operator document is the server's reading of it (none when refused), anything else matches no string token |
| `AuthRepository.DeleteTokenInfo` | src/resources/auth/auth.repository.ts:53-63 | removes the first token the code's filter matches and no other |
| `AuthRepository.InsertConfirmationToken` | src/resources/auth/auth.repository.ts:65-71 | appends exactly that token |
| `AuthRepository.UpdateUser` | src/resources/auth/auth.repository.ts:73-79 | `$set` of the whole record on the user with its `_id`; the counts are those of the update |
| `AuthRepository.UpdateUserReplaces` | src/resources/auth/auth.repository.ts:73-79 | only the user with that id is replaced by the input; ids stay distinct |
| `AuthRepository.FindUserByEmail` | src/resources/auth/auth.repository.ts:81-91 | a found user is stored with exactly that e-mail; none exactly when no user has it |
| `BlogsRepository.CountBlogs` | src/resources/blogs/blogs.repository.ts:58-66 | the count is at most the number of blogs |
| `BlogsRepository.FindBlogs` | src/resources/blogs/blogs.repository.ts:10-24 | fails exactly for a negative skip; the page is sorted by sortBy, at most pageSize and the count, and holds only blogs whose name matches the term; it is the (pageNumber-1)·pageSize-th onward of the matches sorted by sortBy, pageSize of them or all that remain (all for pageSize 0) |
| `BlogsRepository.FindBlogById` | src/resources/blogs/blogs.repository.ts:34-40 | the blog with that id, none exactly when it is not stored |
| `BlogsRepository.InsertBlog` | src/resources/blogs/blogs.repository.ts:26-32 | appends the one blog when its id is new, else changes nothing |
| `BlogsRepository.MergeBlog` | src/resources/blogs/blogs.repository.ts:46 | `$set` sets name, description and websiteUrl, keeping createdAt and isMembership |
| `BlogsRepository.UpdateBlogById` | src/resources/blogs/blogs.repository.ts:42-48 | the blogs become the update's result and the counts are reported |
| `BlogsRepository.DeleteBlogById` | src/resources/blogs/blogs.repository.ts:50-56 | removes the blog with that id and reports how many went |
| `PostsRepository.PostsPage` | src/resources/posts/posts.repository.ts:9-20 | fails exactly for a negative skip; the page is sorted, at most pageSize and the count, and holds only matching posts; it is the (pageNumber-1)·pageSize-th onward of the matches sorted by sortBy, pageSize of them or all that remain (all for pageSize 0) |
| `PostsRepository.FindPosts` | src/resources/posts/posts.repository.ts:9-20 | a page of all posts, at most pageSize and the count of all posts, sorted; it is the (pageNumber-1)·pageSize-th onward of the posts sorted by sortBy, pageSize of them or all that remain (all for pageSize 0) |
| `PostsRepository.FindPostsByBlogId` | src/resources/posts/posts.repository.ts:79-90 | a page of the posts with that blogId, at most pageSize and their count, sorted; it is the (pageNumber-1)·pageSize-th onward of the blog's posts sorted by sortBy, pageSize of them or all that remain (all for pageSize 0) |
| `PostsRepository.CountAllPosts` | src/resources/posts/posts.repository.ts:71-77 | every post is counted |
| `PostsRepository.CountPostsByBlogId` | src/resources/posts/posts.repository.ts:63-69 | the count is at most the number of posts |
| `PostsRepository.FindPostById` | src/resources/posts/posts.repository.ts:30-36 | the post with that id, none exactly when it is not stored |
| `PostsRepository.InsertPost` | src/resources/posts/posts.repository.ts:22-28 | appends the one post when its id is new, else changes nothing |
| `PostsRepository.MergePost` | src/resources/posts/posts.repository.ts:48-50 | `$set` sets title, shortDescription, content, blogId and blogName, keeping createdAt |
| `PostsRepository.MergePostUnchanged` | src/resources/posts/posts.repository.ts:48-50 | the merge leaves a post unchanged exactly when all five fields already hold the input's values |
| `PostsRepository.UpdatePostById` | src/resources/posts/posts.repository.ts:38-52 | the posts become the update's result and the counts are reported |
| `PostsRepository.DeletePostById` | src/resources/posts/posts.repository.ts:54-60 | removes the post with that id and reports how many went |
| `CommentsRepository.WithoutPostId` | src/resources/comments/comments.repository.ts:19-26 | the view keeps id, content, commentatorInfo and createdAt and drops postId |
| `CommentsRepository.WithoutPostIds` | src/resources/comments/comments.repository.ts:52-63 | the projection of each comment, in order |
| `CommentsRepository.InsertComment` | src/resources/comments/comments.repository.ts:11-17 | appends the one comment, with its postId, when its id is new |
| `CommentsRepository.FindCommentById` | src/resources/comments/comments.repository.ts:19-26 | the comment with that id without its postId, none exactly when it is not stored |
| `CommentsRepository.CountCommentsByPostId` | src/resources/comments/comments.repository.ts:44-50 | the count is at most the number of comments |
| `CommentsRepository.FindCommentsByPostId` | src/resources/comments/comments.repository.ts:52-63 | fails exactly for a negative skip; at most pageSize and the count; each item is a comment of that post without its postId; the page is that projection of the (pageNumber-1)·pageSize-th onward of the post's comments sorted by sortBy, pageSize of them or all that remain (all for pageSize 0) |
| `CommentsRepository.CommentsWindow` | src/resources/comments/comments.repository.ts:52-63 | the projections of a found page are the projection of the window of the post's sorted comments |
| `CommentsRepository.MergeComment` | src/resources/comments/comments.repository.ts:28-34 | `$set` sets the content only, keeping commentatorInfo, createdAt and postId |
| `CommentsRepository.UpdateCommentById` | src/resources/comments/comments.repository.ts:28-34 | the comments become the update's result and the counts are reported |
| `CommentsRepository.DeleteCommentById` | src/resources/comments/comments.repository.ts:36-42 | removes the comment with that id and reports how many went |
| `BlogsService.BlogSchemaNames` | src/resources/blogs/blogs.service.ts:25-54 | the schema's keys are distinct |
| `BlogsService.BlogSchemaAccepts` | src/resources/blogs/blogs.service.ts:25-54 | the schema accepts exactly: trimmed name 1-15, description 1-500, websiteUrl at most 100 and matching the pattern |
| `BlogsService.BlogSchemaValue` | src/resources/blogs/blogs.service.ts:98-101 | an accepted body's value is its trimmed fields |
| `BlogsService.BlogSchemaErrors` | src/resources/blogs/blogs.service.ts:102-104 | a refused body gives at least one error, at most one per field, each on name, description or websiteUrl |
| `BlogsService.ReadBlogs` | src/resources/blogs/blogs.service.ts:74-91 | 200 with the counted matches of the name term (a negative skip fails); items are views of matching blogs, namely the views of the (pageNumber-1)·pageSize-th onward of the matches sorted by sortBy, pageSize of them or all that remain (all for pageSize 0) |
| `BlogsService.FoundBlogViews` | src/resources/blogs/blogs.service.ts:84-85 | each view of a found page is the view of a blog whose name matches the term |
| `BlogsService.BlogViewsWindow` | src/resources/blogs/blogs.service.ts:84-85 | the views of a found page are the views of the window of the sorted matching blogs |
| `BlogsService.CreateBlog` | src/resources/blogs/blogs.service.ts:93-120 | the reply and the new tables are exactly `BlogsService.CreateBlogEffect` of the old tables |
| `BlogsService.CreateBlogEffect` | src/resources/blogs/blogs.service.ts:93-120 | only the blogs can change, and the tables change only when the answer is 201 with a view |
| `BlogsService.InsertNewBlog` | src/resources/blogs/blogs.service.ts:107-116 | the reply and the new tables are exactly `BlogsService.InsertBlogEffect` of the old tables |
| `BlogsService.InsertBlogStores` | src/resources/blogs/blogs.service.ts:107-116 | under a fresh id the blog is appended, `_id` stays unique, and the answer is 201 with its view |
| `BlogsService.CreateBlogRejects` | src/resources/blogs/blogs.service.ts:102-104 | an invalid body is 400 with distinct-field errors and nothing is written |
| `BlogsService.CreateBlogStores` | src/resources/blogs/blogs.service.ts:105-117 | a valid body appends the trimmed blog, not a member, created now, and answers 201 with its view |
| `BlogsService.ReadBlogById` | src/resources/blogs/blogs.service.ts:122-130 | 200 with the view exactly when the id is valid and stored, else 404 |
| `BlogsService.CreatedBlogIsRead` | src/resources/blogs/blogs.service.ts:93-130 | a created blog is read back by its view's id as created |
| `BlogsService.UpdateBlogById` | src/resources/blogs/blogs.service.ts:132-157 | the reply and the new tables are exactly `BlogsService.UpdateBlogByIdEffect` of the old tables |
| `BlogsService.UpdateBlogByIdEffect` | src/resources/blogs/blogs.service.ts:132-157 | only the blogs can change, and the tables change only when the answer is 204 |
| `BlogsService.UpdateBlogByIdAnswers` | src/resources/blogs/blogs.service.ts:132-157 | an invalid body is 400 whatever the id; 204 exactly for a valid body and a valid stored id; otherwise 404; only 204 writes |
| `BlogsService.UpdateBlogByIdWrites` | src/resources/blogs/blogs.service.ts:148-156 | an accepted update merges the trimmed input into that blog only |
| `BlogsService.UpdateStoredBlogAnswers` | src/resources/blogs/blogs.service.ts:148-156 | with checked values and a canonical id: 204 exactly when the blog is stored, else 404 with nothing written; only that blog is merged |
| `BlogsService.DeleteBlogById` | src/resources/blogs/blogs.service.ts:159-170 | the reply and the new tables are exactly `BlogsService.DeleteBlogByIdEffect` of the old tables |
| `BlogsService.DeleteBlogByIdEffect` | src/resources/blogs/blogs.service.ts:159-170 | only the blogs can change, and the tables change only when the answer is 204 |
| `BlogsService.DeleteBlogByIdRemoves` | src/resources/blogs/blogs.service.ts:159-170 | 204 exactly for a valid stored id, else 404 without writing; the others are kept and the blog is gone |
| `PostsService.PostSchemaNames` | src/resources/posts/posts.service.ts:26-50 | the schema's keys are distinct |
| `PostsService.PostSchemaAccepts` | src/resources/posts/posts.service.ts:26-50 | the schema accepts exactly: trimmed title 1-30, shortDescription 1-100, content 1-1000, blogId non-empty |
| `PostsService.PostSchemaValue` | src/resources/posts/posts.service.ts:88-91 | an accepted body's value is its trimmed fields |
| `PostsService.PostSchemaErrors` | src/resources/posts/posts.service.ts:93-112 | a refused body gives at least one error, at most one per field, each a schema key |
| `PostsService.LookupBlog` | src/resources/posts/posts.service.ts:92 | the lookup throws exactly when `new ObjectId` does, and finds exactly a stored blog with the parsed id |
| `PostsService.InsertNewPost` | src/resources/posts/posts.service.ts:113-125 | the reply and the new tables are exactly `PostsService.InsertPostEffect` of the old tables |
| `PostsService.InsertPostStores` | src/resources/posts/posts.service.ts:120-124 | under a fresh id the post is appended, `_id` stays unique, and the answer is 201 with its view |
| `PostsService.ReadPosts` | src/resources/posts/posts.service.ts:69-81 | 200 counting every post (a negative skip fails); items are the views of the (pageNumber-1)·pageSize-th onward of the posts sorted by sortBy, pageSize of them or all that remain (all for pageSize 0) |
| `PostsService.PostViewsWindow` | src/resources/posts/posts.service.ts:69-81 | the views of a found page are the views of the window of the sorted matching posts |
| `PostsService.ReadPostsOfBlog` | src/resources/posts/posts.service.ts:131-161 | 404 exactly for a malformed or unknown blog id; else 200 counting only that blog's posts; items are the views of the (pageNumber-1)·pageSize-th onward of the blog's posts sorted by sortBy, pageSize of them or all that remain (all for pageSize 0) |
| `PostsService.CreatePost` | src/resources/posts/posts.service.ts:83-128 | the reply and the new tables are exactly `PostsService.CreatePostEffect` of the old tables |
| `PostsService.CreatePostEffect` | src/resources/posts/posts.service.ts:83-128 | only the posts can change, and the tables change only when the answer is 201 with a view |
| `PostsService.CreatePostMalformedBlogId` | src/resources/posts/posts.service.ts:92 | a malformed string blogId makes the creation throw, writing nothing |
| `PostsService.CreatePostRejects` | src/resources/posts/posts.service.ts:93-112 | an invalid body or missing blog is 400: the deduplicated errors, then a blogId error when the blog is absent; nothing is written |
| `PostsService.CreatePostReportsBlogIdTwice` | src/resources/posts/posts.service.ts:93-112 | a blogId that is missing, null or a number is answered 400 with two errors on "blogId" and nothing written |
| `PostsService.ObjectBlogIdFound` | src/resources/posts/posts.service.ts:92 | an object blogId whose `id` is the text of a stored blog's id finds that blog |
| `PostsService.CreatePostObjectBlogId` | src/resources/posts/posts.service.ts:88-112 | such an object blogId is answered 400 with the shaped validation errors alone, which include "blogId" once, and nothing is written |
| `PostsService.TwiceReported` | src/resources/posts/posts.service.ts:104-112 | a blogId validation error followed by the missing-blog error gives two blogId entries |
| `PostsService.BlogIdReported` | src/resources/posts/posts.service.ts:26-50 | a non-string blogId has a validation error on "blogId" |
| `PostsService.CreatePostStores` | src/resources/posts/posts.service.ts:113-125 | a valid body with a found blog appends the trimmed post with that blog's name, created now, and answers 201 with its view |
| `PostsService.CreatePostOfBlog` | src/resources/posts/posts.service.ts:163-195 | the reply and the new tables are exactly `PostsService.CreatePostOfBlogEffect` of the old tables |
| `PostsService.CreatePostOfBlogEffect` | src/resources/posts/posts.service.ts:163-195 | only the posts can change, and the tables change only when the answer is 201 with a view |
| `PostsService.CreatePostOfBlogAnswers` | src/resources/posts/posts.service.ts:163-195 | a malformed blog id throws, an unknown blog is 404 before validation, only 201 writes, and the post carries the blog's name |
| `PostsService.ReadPostById` | src/resources/posts/posts.service.ts:197-203 | a malformed id throws; 200 with the view exactly when stored; else 404 |
| `PostsService.CreatedPostIsRead` | src/resources/posts/posts.service.ts:197-203 | a created post is read back by its view's id as created |
| `PostsService.UpdatePostById` | src/resources/posts/posts.service.ts:205-247 | the reply and the new tables are exactly `PostsService.UpdatePostByIdEffect` of the old tables |
| `PostsService.UpdatePostByIdEffect` | src/resources/posts/posts.service.ts:205-247 | only the posts can change, and the tables change only when the answer is 204 |
| `PostsService.UpdatePostObjectBlogId` | src/resources/posts/posts.service.ts:211-235 | updatePostById answers such an object blogId as createPost does: 400 with the validation errors alone, "blogId" among them once, and nothing written |
| `PostsService.UpdateValuesTrimmed` | src/resources/posts/posts.service.ts:211-236 | the update proceeds exactly for a valid body with a found blog, with the trimmed values and the blog's name |
| `PostsService.UpdatePostByIdAnswers` | src/resources/posts/posts.service.ts:205-247 | 204 exactly when the input is valid, the post is stored and the merge changes it; nothing else writes |
| `PostsService.StorePostUpdate` | src/resources/posts/posts.service.ts:237-245 | for checked values: the reply and new tables are those of the update step's specification |
| `PostsService.UpdateStoredPostAnswers` | src/resources/posts/posts.service.ts:237-245 | 204 exactly when the id is canonical and names a post the merge changes; otherwise nothing is written, and only that post is merged |
| `PostsService.UpdatePostByIdWrites` | src/resources/posts/posts.service.ts:237-244 | an accepted update merges the values into that post only |
| `PostsService.UpdatePostWithSameValuesIsNotFound` | src/resources/posts/posts.service.ts:237-244 | sending a stored post's own values is answered 404 although the post exists |
| `PostsService.DeletePostById` | src/resources/posts/posts.service.ts:249-260 | the reply and the new tables are exactly `PostsService.DeletePostByIdEffect` of the old tables |
| `PostsService.DeletePostByIdEffect` | src/resources/posts/posts.service.ts:249-260 | only the posts can change, and the tables change only when the answer is 204 |
| `PostsService.DeletePostByIdRemoves` | src/resources/posts/posts.service.ts:249-260 | 204 exactly for a valid stored id, else 404 without writing; the others are kept and the post is gone |
| `CommentsService.CommentSchemaAccepts` | src/resources/comments/comments.service.ts:30-38 | the schema accepts exactly a content whose trimmed length is 20-300, and its value is the trimmed content |
| `CommentsService.CommentSchemaErrors` | src/resources/comments/comments.service.ts:30-38 | a refused body gives exactly one error, on "content", with the first message |
| `CommentsService.ReadCommentsOfPost` | src/resources/comments/comments.service.ts:50-85 | 404 exactly for a malformed or unknown post; else 200 counting that post's comments; items are the views without postId of the (pageNumber-1)·pageSize-th onward of the post's comments sorted by sortBy, pageSize of them or all that remain (all for pageSize 0) |
| `CommentsService.CommentViewsWindow` | src/resources/comments/comments.service.ts:50-85 | the views of a found page are the views without postId of the window of the post's sorted comments |
| `CommentsService.CreateCommentOfPost` | src/resources/comments/comments.service.ts:87-136 | the reply and the new tables are exactly `CommentsService.CreateCommentOfPostEffect` of the old tables |
| `CommentsService.CreateCommentOfPostEffect` | src/resources/comments/comments.service.ts:87-136 | only the comments can change, and the tables change only when the answer is 201 with a view |
| `CommentsService.InsertNewComment` | src/resources/comments/comments.service.ts:124-132 | the reply and the new tables are exactly `CommentsService.InsertCommentEffect` of the old tables |
| `CommentsService.InsertCommentStores` | src/resources/comments/comments.service.ts:124-132 | under a fresh id the comment is appended, `_id` stays unique, and the answer is 201 with its view without postId |
| `CommentsService.CreateCommentOfPostAnswers` | src/resources/comments/comments.service.ts:87-136 | 404 exactly for a missing post, before validation; else 400 with one content error exactly for an invalid body; else the comment is stored with the user as author and answered 201 |
| `CommentsService.ReadCommentById` | src/resources/comments/comments.service.ts:138-151 | 200 with the view exactly for a valid stored id, else 404 |
| `CommentsService.CreatedCommentIsRead` | src/resources/comments/comments.service.ts:87-151 | a created comment is read back by its view's id as created |
| `CommentsService.AuthorOf` | src/resources/comments/comments.service.ts:171-174 | the author is known exactly for a valid stored id, and is that comment's commentator |
| `CommentsService.UpdateCommentById` | src/resources/comments/comments.service.ts:153-183 | the reply and the new tables are exactly `CommentsService.UpdateCommentByIdEffect` of the old tables |
| `CommentsService.UpdateCommentByIdEffect` | src/resources/comments/comments.service.ts:153-183 | only the comments can change, and the tables change only when the answer is 204 |
| `CommentsService.UpdateCommentByIdAnswers` | src/resources/comments/comments.service.ts:153-183 | 404 missing, then 403 another user's, then 400 invalid, else 204; only 204 writes |
| `CommentsService.AuthorOfStored` | src/resources/comments/comments.service.ts:171-174 | the stored comment with the id has the author AuthorOf reports |
| `CommentsService.UpdateCommentByIdWrites` | src/resources/comments/comments.service.ts:176-181 | an accepted update was the author's and sets the trimmed content of that comment only |
| `CommentsService.DeleteCommentById` | src/resources/comments/comments.service.ts:185-206 | the reply and the new tables are exactly `CommentsService.DeleteCommentByIdEffect` of the old tables |
| `CommentsService.DeleteCommentByIdEffect` | src/resources/comments/comments.service.ts:185-206 | only the comments can change, and the tables change only when the answer is 204 |
| `CommentsService.DeleteCommentByIdRemoves` | src/resources/comments/comments.service.ts:185-206 | 404 missing, then 403 another user's, else 204 removing that comment only; the comment is then not found |
| `UsersService.UserSchemaNames` | src/resources/users/users.service.ts:27-59 | the schema's keys are distinct |
| `UsersService.UserSchemaAccepts` | src/resources/users/users.service.ts:27-59 | the schema accepts exactly: trimmed e-mail matching the pattern, login 3-10 from [a-zA-Z0-9_-], password 6-20 |
| `UsersService.UserSchemaValue` | src/resources/users/users.service.ts:122-126 | an accepted body's value is its trimmed fields |
| `UsersService.UserSchemaErrors` | src/resources/users/users.service.ts:128-130 | a refused body gives at least one error, at most one per field, each on email, login or password |
| `UsersService.UniquenessQuery` | src/resources/users/users.service.ts:72-96 | the uniqueness checks validate a query whose page is the first |
| `UsersService.NoneFoundIff` | src/resources/users/users.service.ts:72-96 | the first page of the "and" search is empty exactly when no user matches both terms |
| `UsersService.UniquenessIff` | src/resources/users/users.service.ts:72-96 | an e-mail (login) is unique exactly when no stored e-mail (login) matches it as a case-insensitive regex: containment, not equality |
| `UsersService.ReadUsers` | src/resources/users/users.service.ts:99-117 | 200 counting the "or" matches of both terms (a negative skip fails); items are the projected views of the (pageNumber-1)·pageSize-th onward of the matches sorted by sortBy, pageSize of them or all that remain (all for pageSize 0) |
| `UsersService.UserViewsWindow` | src/resources/users/users.service.ts:99-117 | the views of a found page are the projected views of the window of the sorted matching users |
| `UsersService.NewUser` | src/resources/users/users.service.ts:136-150 | the stored record has the e-mail, the login, the salt, the password's hash, createdAt, and is unconfirmed |
| `UsersService.UniquenessError` | src/resources/users/users.service.ts:159-169 | the error is on "login" when the e-mail was unique, else on "email", with "<field> should be unique" |
| `UsersService.StoreUser` | src/resources/users/users.service.ts:131-169 | the reply and the new tables are exactly `UsersService.StoreUniqueUser` of the old tables |
| `UsersService.StoreUniqueUser` | src/resources/users/users.service.ts:131-169 | only the users can change, and the tables change only when the answer is 201 with a view |
| `UsersService.CreateUser` | src/resources/users/users.service.ts:119-173 | the reply and the new tables are exactly `UsersService.CreateUserEffect` of the old tables |
| `UsersService.CreateUserEffect` | src/resources/users/users.service.ts:119-173 | only the users can change, and the tables change only when the answer is 201 with a view |
| `UsersService.CreateUserValidates` | src/resources/users/users.service.ts:122-130 | an invalid body is 400 with distinct-field errors and nothing is written; a valid one continues with its trimmed fields |
| `UsersService.StoreUniqueUserRefuses` | src/resources/users/users.service.ts:159-169 | a taken e-mail is one "email" error; else a taken login is one "login" error; nothing is written |
| `UsersService.StoreUniqueUserStores` | src/resources/users/users.service.ts:136-158 | a unique input appends the new unconfirmed user and answers 201 with id, login, e-mail and createdAt only |
| `UsersService.StoreUniqueUserKeepsAccountsDistinct` | src/resources/users/users.service.ts:131-169 | when each term matches itself, a creation keeps e-mails and logins pairwise distinct |
| `UsersService.ReadUserById` | src/resources/users/users.service.ts:175-183 | 200 with the full stored record exactly for a valid stored id, else 404 |
| `UsersService.CreatedUserIsRead` | src/resources/users/users.service.ts:119-183 | a created user is read back by its view's id, with the same e-mail, login and createdAt, unconfirmed |
| `UsersService.DeleteUserById` | src/resources/users/users.service.ts:185-194 | the reply and the new tables are exactly `UsersService.DeleteUserByIdEffect` of the old tables |
| `UsersService.DeleteUserByIdEffect` | src/resources/users/users.service.ts:185-194 | only the users can change, and the tables change only when the answer is 204 |
| `UsersService.DeleteUserByIdRemoves` | src/resources/users/users.service.ts:185-194 | 204 exactly for a valid stored id, else 404 without writing; the others are kept and the user is gone |
| `AuthService.ErrorsOfOne` | src/resources/auth/auth.service.ts:129-131 | a failed bare validation reported under a field name is one entry with the first message |
| `AuthService.EmailAndLoginDisjoint` | src/resources/auth/auth.service.ts:92-103 | no value passes both the e-mail and the login rule |
| `AuthService.LoginAnswer` | src/resources/auth/auth.service.ts:111-117 | no user is a bare 401; a user is 200, with the signed token as body exactly when the token is not empty |
| `AuthService.Login` | src/resources/auth/auth.service.ts:81-135 | 400 exactly when the password fails or loginOrEmail fails both the e-mail and the login rule; otherwise a bare 401 or a 200 |
| `AuthService.LoginChecked` | src/resources/auth/auth.service.ts:92-135 | the same answer shape once the three validations are done |
| `AuthService.LoginErrorsShape` | src/resources/auth/auth.service.ts:126-133 | one entry per failed validation, each on loginOrEmail or password, "password" present exactly when the password failed |
| `AuthService.LoginRefuses` | src/resources/auth/auth.service.ts:82-135 | 400 exactly when the password fails or loginOrEmail fails both rules, with the joined errors of the three validations |
| `AuthService.LoginAuthenticates` | src/resources/auth/auth.service.ts:110-125 | with valid input, e-mail first: 401 exactly when the first user with that trimmed e-mail (else login) is missing or its hash differs; otherwise 200 with its signed id |
| `AuthService.NewToken` | src/resources/auth/auth.service.ts:71-79 | the token names the user and expires one minute from now; from 16 random bytes its code is 32 lowercase hex digits |
| `AuthService.CreateConfirmationToken` | src/resources/auth/auth.service.ts:71-79 | appends exactly the new token and returns its code |
| `AuthService.TokensOf` | src/resources/auth/auth.service.ts:169-171 | the tokens of one account are exactly the stored tokens naming it |
| `AuthService.RegisterInput` | src/resources/auth/auth.service.ts:150-187 | the reply and the new tables are `AuthService.RegisterUser` of the old tables, and the letters sent are its letters |
| `AuthService.Register` | src/resources/auth/auth.service.ts:137-190 | the reply and the new tables are `AuthService.RegisterEffect` of the old tables, and the letters sent are its letters |
| `AuthService.RegisterEffect` | src/resources/auth/auth.service.ts:137-190 | only the users and the tokens can change, and tables change or a letter is sent only when the answer is 204 |
| `AuthService.RegisterValidates` | src/resources/auth/auth.service.ts:140-149 | an invalid body is 400 with distinct-field errors, writes and sends nothing; a valid one is registered with its trimmed fields |
| `AuthService.RegisterUserRefuses` | src/resources/auth/auth.service.ts:177-187 | a taken e-mail is one "email" error, else a taken login one "login" error; nothing is written or sent |
| `AuthService.RegisterUserStores` | src/resources/auth/auth.service.ts:154-176 | success stores the unconfirmed user, appends one token for it expiring in one minute, sends one letter with its code to the e-mail, and answers 204 |
| `AuthService.NewAccountOwnsToken` | src/resources/auth/auth.service.ts:166-171 | a new account stored with a token for it keeps every token owned and has that token only |
| `AuthService.RegisterUserOwnsToken` | src/resources/auth/auth.service.ts:154-176 | after a successful registration every token has an account and the new account has exactly one token |
| `AuthService.Confirm` | src/resources/auth/auth.service.ts:192-243 | the reply and the new tables are exactly `AuthService.ConfirmEffect` of the old tables |
| `AuthService.ConfirmEffect` | src/resources/auth/auth.service.ts:192-243 | only the users and the tokens can change, and the tables change only when the answer is 204 |
| `AuthService.ConfirmOutcomes` | src/resources/auth/auth.service.ts:197-240 | unknown code, expired (strictly after), a rejected filter or a missing account (throws), confirmed account, or success: each exactly in its case, and only success writes |
| `AuthService.ConfirmSucceeds` | src/resources/auth/auth.service.ts:235-240 | success sets isConfirmed of the token's account only and removes that one token, the first the filter matches, only |
| `AuthService.ConfirmTwiceRefused` | src/resources/auth/auth.service.ts:197-209 | when the code's filter matches at most one token, confirming again with the same code is refused as incorrect or already applied |
| `AuthService.OperatorCodeConfirms` | src/resources/auth/auth.service.ts:197-240 | the code `{"$ne": ""}` finds the first token and confirms its unconfirmed account without knowing its code |
| `AuthService.ConfirmStringCodeNeedsCode` | src/resources/auth/auth.service.ts:197-240 | the string-only confirm ignores the operator reading, refuses exactly non-strings and codes no token has, succeeds only with a stored unexpired code, and writes only on success |
| `AuthService.Resend` | src/resources/auth/auth.service.ts:245-294 | the reply and the new tables are `AuthService.ResendEffect` of the old tables, and the letters sent are its letters |
| `AuthService.ResendEffect` | src/resources/auth/auth.service.ts:245-294 | only the tokens can change, and they change or a letter is sent only when the answer is 204 |
| `AuthService.ResendTo` | src/resources/auth/auth.service.ts:260-292 | for an e-mail that passed: the reply and the new tables are `AuthService.ResendToAddress` of the old tables, and the letters sent are its letters |
| `AuthService.ResendOutcomes` | src/resources/auth/auth.service.ts:250-292 | invalid e-mail is 400 with one error on ""; unknown or confirmed account is 400 on "email"; else one token is appended, old ones kept, one letter sent; users never change |
| `AuthService.ResendKeepsTokensOwned` | src/resources/auth/auth.service.ts:285 | a resend keeps every token owned by a stored account |

## Left out

- Routers, `app.ts`, `index.ts`: the Express glue that sends a status or a status with a body. The `/me` route is part of that glue.
- The database connection, the test wipe, SMTP delivery and `console.log`: these are I/O. A letter is recorded in `Mailer.sent` instead of being delivered.
- bcrypt, JWT, `crypto.randomBytes`, the clock and driver-generated ids are parameters. Nothing is assumed of them beyond being functions of their inputs.
- The `$regex` search is the `RegexTest` parameter. Invalid patterns, escaping and Unicode case folding are not modelled; lemmas that need it assume only that the empty term matches everything.
- `Joi` itself is modelled only for the string rules the schemas use. `alternatives().match("one")` in `authSchema` is left out because `login` validates the three values separately and never calls that schema. The order in which Joi reports details within one key is not pinned beyond the rule order used.
- Arrays and objects as query-string values are left out. The normaliser takes text.
- MongoDB's query-operator language is a `QueryParser` parameter: it reads an operator document (a key starting with `$`) as a test on the stored code, or refuses it. Which operators exist and how the server evaluates them is not modelled.
- A JSON body value is a missing key, `null`, a number, a string, an object, or other (a boolean or an array). Numbers keep no value, because no modelled operation reads one.
- The `_id` of token records is not modelled: no code reads it.
- Records are compared with all their fields: MongoDB's field order and extra stored fields are not modelled.
- The users' sort key set and record ordering within equal keys: the sort is stable on the order of insertion.
- Text in bodies is `seq<char>`; lengths are UTF-16 lengths (`Js.JsLength`), and the regular expressions read UTF-16 code units.
- Concurrency: two requests interleaving (for example a double confirmation) are out of scope for a sequential model.
- Deleting a blog, post or user leaves its posts, comments or tokens in place, as the code does; no cascade is modelled because there is none.
- `AuthService.Register`: the user's createdAt and the token's expiry are taken from one instant, where the code reads the clock twice.
- `AuthService.ConfirmTwiceRefused`: states the repeat refusal given that the code's filter matches at most one token. For a string code this means no two tokens share it. Codes are 128 random bits, but their uniqueness is not something the code checks; an operator code can match many tokens.
- `UsersService.StoreUniqueUserKeepsAccountsDistinct`: assumes that every e-mail and login matches itself as a pattern. The assumption is needed only because the `$regex` search is the abstract `RegexTest`: a validated e-mail or login holds only characters from `[\w.@-]`, where the one metacharacter `.` matches any character, so each matches itself.
- `ValidationFunctions.ValidateCount`, and with it `ValidationFunctions.ValidatePageNumber` and `ValidationFunctions.ValidatePageSize`: `parseInt` and `Number` are read as exact integers and rationals, not as IEEE doubles. Text that rounds to an integer ("5.0000000000000001") or overflows to Infinity (a digit run of 309 or more digits) is refused or kept by its exact value, where the code compares the rounded doubles.
- `auth.service.ts` imports `emailSchema` and `loginSchema`, which `users.service.ts` does not export, so the code as written does not type-check, and `Joi.alternatives().try(emailSchema, loginSchema)` at auth.service.ts:51 would be handed two undefined schemas when the module loads; the model uses the evidently intended rules, the `email` and `login` rules of `userSchema`.
- `AuthService.LoginRefuses`: states the error list as the join of the three validations' errors; its count and fields are in `AuthService.LoginErrorsShape`.

## Findings

| source | as written | input that shows it | evidently intended | confidence | as-written member | corrected member |
|---|---|---|---|---|---|---|
| src/resources/auth/auth.repository.ts:41-63 | `confirm` passes the body's `code` unchecked into `findOne({token: code})` and `deleteOne({token: code})`, so an object code is read by the server as a query operator | body `{"code": {"$ne": ""}}` while an unconfirmed account has an unexpired token | only the string code of a stored token confirms an account | not executed | `AuthService.OperatorCodeConfirms` | `AuthService.ConfirmStringCodeNeedsCode` |
