# vagasprajr-api-v2 core, modelled in Dafny

A model of the decision logic of the vagasprajr job-board API, a Go service
(gin, the MongoDB driver, golang-jwt and Redis).

**Listing queries**
- The client filter groups of `FilterRequest.GetFilter` compile to a MongoDB
  query tree (`FilterCompiler`, over the `Query` evaluator).
- Title words are escaped with `regexp.QuoteMeta` (`RegexEscape`).
- The page clamp, skip/limit and sort rules are in `Pagination`.
- The repositories are `AdReferences`, `JobRepository` and the older
  `JobRepo`.

**Tokens and sessions**
- The token is taken from the cookie, or else from the header with its first
  seven characters dropped unchecked. Section 2.1 of RFC 6750 expects those
  characters to be `Bearer `; the code never looks at them.
- The JWS compact form has three segments (section 7.1 of RFC 7515).
- The `exp` comparison is modelled against section 4.1.4 of RFC 7519.
- Claim decoding is `Claims`, `UserTokens`, `UserTokensLegacy` and
  `TokenService`.
- The refresh-record upsert is modelled on the `users_tokens` collection.
- The authentication middleware is `AuthMiddleware`.

**Roles**
- The required-roles intersection rule of the authorization middleware is
  `AuthorizationMiddleware`.
- The role-id to role-name join is `UserRepository.JoinRoles`.
- The read-through role cache is `RolesRepository`.

**Users**
- Sign-up and the initial user record.
- The `IsAuthenticated` decision.
- The lookups and the `Update` defaults (`UserRepository`).

**Controllers**
- The decision trees of the users controller, the tokens controller and the
  short-URL controller (`UsersController`, `TokensController`,
  `ShortUrlController`).
- Short-URL codes and the "last six bytes" fallback.

Conventions:
- An instant is an integer count of nanoseconds (`Clock`).
- A stored `primitive.DateTime` is an integer count of milliseconds.
- Go panics are an explicit `Panic`/`Panicked`/`Recovered` outcome. gin's
  Recovery middleware turns them into a 500.
- The database, the cache, the signing key, the password hash, the random
  source and the clock are all parameters:
  - a collection is a function from filter to result, with `Store.Honest` as
    the promise MongoDB makes about it, `Store.RefusesMalformed` as its
    refusal of an empty `$and`/`$or`/`$nor` array, and
    `Store.RefusesUnaccepted` as its refusal of any query it cannot answer;
  - the regex engine is a `Query.Regexes`: `compiles` says whether MongoDB
    accepts a `$regex` pattern (it refuses "(" as an invalid regular
    expression), and `search` says whether a compiled, case-insensitive
    pattern occurs in a text;
  - JWT signing and parsing are a `Codec`, with `Claims.Sound` as the promise
    of a signature scheme;
  - random strings are sequences of draws;
  - each clock reading is its own parameter.

## Model

| member | source | states |
|---|---|---|
| FilterCompiler.StringAndUnknownTypes | models/commons/common_types.go:45-46 | type "string" and every type without its own case compile to a single case-insensitive regex on the raw, unescaped value |
| FilterCompiler.DateField | models/commons/common_types.go:47-60 | a date that does not parse as YYYY-MM-DD drops the field; otherwise a document matches iff its millisecond date falls on that calendar day |
| FilterCompiler.ArrayObjectField | models/commons/common_types.go:61-65 | one regex per comma-separated piece, with no trimming; there is one more piece than there are commas, and the pieces joined by commas give back the value |
| FilterCompiler.ArrayStringField | models/commons/common_types.go:66-68 | exactly one `$in` whose list is the comma split of the value, which joins back to the value |
| FilterCompiler.BooleanField | models/commons/common_types.go:69-75 | "boolean"/"checkbox" compare with true exactly for the spellings strconv.ParseBool reads as true; anything else, unparseable values included, compares with false |
| FilterCompiler.NumberFieldDefault | models/commons/common_types.go:76-81 | a "number" value that does not parse as a base-10 int64 (including overflow) compiles as if it were "0" |
| FilterCompiler.NumberFieldExact | models/commons/common_types.go:76-81 | the decimal text of any int64 compiles to `$eq` on that same integer |
| FilterCompiler.NumberRangeField | models/commons/common_types.go:82-92 | a failed min parse gives 0 and a failed max parse gives 9223372036854775807; a document matches iff min <= field <= max, with no check that min <= max |
| FilterCompiler.CompileGroupsAppend | models/commons/common_types.go:41-101 | groups are compiled in input order: compiling a concatenation of groups concatenates the results |
| FilterCompiler.CompiledPosition | models/commons/common_types.go:41-101 | every contributing group appears, as its single compiled condition, somewhere in the compiled filter |
| FilterCompiler.CompileGroupsShape | models/commons/common_types.go:98-101 | there is one entry per group that yields at least one condition, and it is `{"$"+operator: items}` with the operator unvalidated |
| FilterCompiler.GetFilterShape | models/commons/common_types.go:104-106 | no `$and` key iff no group contributes; otherwise one `$and` entry per contributing group |
| FilterCompiler.GetFilterWellFormed | models/commons/common_types.go:36-117 | the compiled filter never holds an empty `$and`/`$or` array, whatever the request |
| FilterCompiler.GroupEvaluates | models/commons/common_types.go:41-101 | a contributing group is accepted by the server iff its operator is "comment", or it is "and", "or" or "nor" and every raw `$regex` pattern among its compiled fields compiles |
| FilterCompiler.CompileFieldsAccepted | models/commons/common_types.go:41-97 | a group's compiled fields are accepted iff every `$regex` among them compiles; dates, numbers, booleans and `$in` lists are never refused |
| FilterCompiler.CommentGroupIgnored | models/commons/common_types.go:98-101 | a "comment" group compiles to `$comment`, which the server accepts and which holds for every document |
| FilterCompiler.CompileGroupsAccepted | models/commons/common_types.go:98-101 | the compiled group list is accepted iff every contributing group is |
| FilterCompiler.GetFilterAccepted | models/commons/common_types.go:98-106 | the whole query is accepted iff every contributing group is accepted |
| FilterCompiler.GetFilterMatches | models/commons/common_types.go:98-106 | a document matches the query iff it matches every compiled group |
| FilterCompiler.GroupsAreAnded | models/commons/common_types.go:98-106 | the query is accepted iff every contributing group is, and a document matches it iff it matches every contributing group |
| FilterCompiler.UnknownOperatorRefused | models/commons/common_types.go:99 | one contributing group whose operator is none of "and", "or", "nor" and "comment" makes the server refuse the whole query |
| Dates.ParseFormatDate | models/commons/common_types.go:48 | every valid calendar date is accepted in its canonical YYYY-MM-DD form and parses back to itself |
| Dates.FormatParseDate | models/commons/common_types.go:48 | only the canonical form is accepted: an accepted text is the formatting of the date it parses to |
| Dates.DayRangeCoversDay | models/commons/common_types.go:53-58 | the stored range from 00:00:00 to 23:59:59.999999999, truncated to milliseconds, holds an instant iff the instant falls on that day |
| Dates.March5th2024 | models/commons/common_types.go:53-58 | "2024-03-05" becomes the millisecond range 1709596800000 to 1709683199999 |
| Numbers.ParseFormatInt | models/commons/common_types.go:77 | strconv.ParseInt reads the decimal text of every int64 back as that int64 |
| Numbers.Wrap64 | models/shopping/shopping_repository.go:39 | Go's 64-bit arithmetic: the identity inside the int64 range, and congruent to the exact value modulo 2^64 |
| RegexEscape.QuoteMetaLength | models/commons/utils.go:5-10 | the output length is the input length plus the number of metacharacters |
| RegexEscape.QuoteMetaIdentity | models/commons/utils.go:5-10 | a value without metacharacters is returned unchanged |
| RegexEscape.QuoteMetaFixedPoint | models/commons/utils.go:5-10 | conversely, a value the escaping leaves unchanged has no metacharacter |
| RegexEscape.QuoteMetaLiteral | models/commons/utils.go:5-10 | every metacharacter in the output is preceded by a backslash, so the pattern matches only literal text |
| RegexEscape.UnquoteQuoteMeta | models/commons/utils.go:5-10 | removing one backslash before each escaped character gives back the input |
| RegexEscape.QuoteMetaUnquote | models/commons/utils.go:5-10 | every literal pattern is the escaping of the text it matches, so escaping is onto the literal patterns |
| RegexEscape.QuoteMetaInjective | models/commons/utils.go:5-10 | two different values never escape to the same pattern |
| Pagination.ClampPage | models/shopping/shopping_repository.go:35-37 | the intended clamp: the result is at least 1, equal to the page or to 1, and equal to the page when the page is at least 1 |
| Pagination.ClampPageAgrees | models/shopping/shopping_repository.go:35-37 | the clamp as written agrees with the intended clamp on every int64 except the smallest |
| Pagination.Skip | models/shopping/shopping_repository.go:39 | skip is (page-1)*pageSize whenever that product fits in an int64 |
| Pagination.SkipTiles | models/jobs/job_repository.go:332 | page 1 starts at 0, and each next page starts pageSize after the previous one |
| Pagination.SortField | models/shopping/shopping_repository.go:41-43 | an empty sort field becomes "created_at"; a given field is kept |
| Pagination.Direction | models/shopping/shopping_repository.go:45-49 | the direction is 1 exactly when ascending order is asked for, and -1 otherwise |
| Pagination.OptionsCorrected | models/shopping/shopping_repository.go:51 | the find options keep the sort and limit = pageSize; a page below 1 reads from 0; otherwise skip = (page-1)*pageSize |
| Query.EvalAllIff | models/commons/common_types.go:104-106 | a server `$and` is refused iff some item is refused, and holds iff every item holds |
| Query.EvalAnyIff | models/commons/common_types.go:99 | a server `$or` is refused iff some item is refused, and otherwise holds iff some item holds |
| Query.AcceptedIff | models/commons/common_types.go:41-106 | the server answers a condition iff it accepts it: every `$regex` pattern compiles, every logical array is non-empty and every operator is `$and`, `$or`, `$nor` or `$comment`; acceptance does not depend on the document |
| Query.AllAcceptedAppend | models/jobs/job_repository.go:305-321 | a concatenated condition list is accepted iff both parts are |
| Query.FilterAcceptedIff | models/jobs/job_repository.go:316-321 | a non-empty top-level `$and` is answered iff every condition in it is accepted |
| Query.AllWellFormedAppend | models/jobs/job_repository.go:305-321 | appending conditions keeps the list free of empty logical arrays iff both parts are free of them |
| AdReferences.GetFilteredAdReferences | models/shopping/shopping_repository.go:53-72 | a find error is returned; a count error is dropped and reported as total 0 with no error; the result carries the clamped page and the requested page size |
| AdReferences.ListingMatchesFilter | models/shopping/shopping_repository.go:53-72 | against an honest collection, every listed ad is stored and matches the compiled filter, at most a positive page size are listed, and a successful total counts exactly the matching ads, because find and count use the same filter |
| AdReferences.ActiveFilterSelectsActive | models/shopping/shopping_repository.go:92-94 | the active query selects a stored ad iff the ad is active |
| AdReferences.GetAdReferencesActive | models/shopping/shopping_repository.go:75-115 | against an honest collection, every ad returned is stored and active |
| AdReferences.GetAdReference | models/shopping/shopping_repository.go:135-153 | an id that is not 24 hex digits is ObjectIDFromHex's own error (ErrInvalidHex when it is not 24 bytes long); otherwise the answer is the lookup of that object id |
| AdReferences.DeleteAdReference | models/shopping/shopping_repository.go:202-218 | an id that is not 24 hex digits is ObjectIDFromHex's own error (ErrInvalidHex when it is not 24 bytes long); otherwise the answer is the deletion's own error |
| AdReferences.MalformedIdNeverQueries | models/shopping/shopping_repository.go:135-139 | for a malformed id, neither get nor delete depends on the collection, so no query is issued |
| AdReferences.IdCaseInsensitive | models/shopping/shopping_repository.go:135 | the upper- and lower-case spellings of a hex id read the same document |
| ObjectIds.FromHex | models/shopping/shopping_repository.go:135-139 | ObjectIDFromHex succeeds iff the text is 24 hex digits, and the id it gives is the lower-cased text |
| ObjectIds.FromHexOfHex | models/users/tokens/user_tokens.go:220-231 | reading back the Hex() text of an object id gives the same id |
| ObjectIds.ObjectIdFromHex | models/shopping/shopping_repository.go:135-139 | ObjectIDFromHex with its error: success iff 24 hex digits, with the same id as FromHex; ErrInvalidHex when the text is not 24 bytes long; otherwise hex.Decode's "invalid byte" error for the first byte that is not a hex digit |
| ObjectIds.Utf8LengthBounds | models/shopping/shopping_repository.go:135 | Go's byte length is at least the character count, and equal to it for a text of hex digits |
| ObjectIds.FirstNonHex | models/shopping/shopping_repository.go:135 | the position found holds a non-hex character and every character before it is a hex digit |
| ObjectIds.HeadThenZerosLength | models/shopping/shopping_repository.go:135 | one character then n zero digits is that character's UTF-8 width plus n bytes long |
| ObjectIds.ShortTextIsInvalidHex | models/shopping/shopping_repository.go:135-139 | the id "abc" gives ErrInvalidHex |
| ObjectIds.LetterZIsInvalidByte | models/shopping/shopping_repository.go:135-139 | "z" then 23 zeros gives "encoding/hex: invalid byte: U+007A 'z'" |
| ObjectIds.AccentIsItsLeadByte | models/shopping/shopping_repository.go:135-139 | "é" then 22 zeros (24 bytes) names its first UTF-8 byte: "encoding/hex: invalid byte: U+00C3 'Ã'" |
| JobRepository.TitleRegexes | models/jobs/job_repository.go:296-299 | one title regex per word, in word order |
| JobRepository.TitlePatternsAreWords | models/jobs/job_repository.go:288-303 | each title word becomes one case-insensitive title regex on its escaped text; the word is already trimmed, and the escaping is literal and reverses to the word |
| JobRepository.TitleHasWords | models/jobs/job_repository.go:290 | a title has words iff it has a non-space character |
| JobRepository.TitleConditionsAgree | models/jobs/job_repository.go:288-303 | the title block as written and the intended block agree except on a non-empty title made only of white space |
| JobRepository.BlankTitleIsRefused | models/jobs/job_repository.go:288-303 | a title of one space yields `{"$and": []}`, which the server refuses |
| JobRepository.TitleConditionsWellFormed | models/jobs/job_repository.go:288-303 | the intended title block never holds an empty logical array |
| JobRepository.EscapedTitleCompiles | models/jobs/job_repository.go:296-299 | with an engine that compiles every literal pattern, every escaped title word compiles, whatever the title |
| JobRepository.TitleConditionsAccepted | models/jobs/job_repository.go:288-303 | the intended title block is accepted iff every escaped title word compiles |
| JobRepository.TitleConditionsAsWrittenAccepted | models/jobs/job_repository.go:288-303 | the title block as written is accepted iff the title is not a non-empty all-blank string and every escaped word compiles |
| JobRepository.AppendCondition | models/jobs/job_repository.go:430-435 | a raw regex is appended exactly when the value is non-empty; otherwise the list is unchanged; the existing prefix is kept |
| JobRepository.AppendInCondition | models/jobs/job_repository.go:437-444 | a one-element `$and` around an `$in` is appended exactly when the list is non-empty; otherwise the list is unchanged |
| JobRepository.FlagConditions | models/jobs/job_repository.go:316-321 | the fixed approval flags, plus the creator condition, give at least two well-formed conditions |
| JobRepository.AppendedConditions | models/jobs/job_repository.go:305-314 | the optional field and list conditions are always well formed |
| JobRepository.TitleConditionsAsWrittenWellFormed | models/jobs/job_repository.go:288-303 | the title block as written is well formed iff the title is not a non-empty all-blank string |
| JobRepository.JobsFilterAsWrittenWellFormed | models/jobs/job_repository.go:285-323 | the query as written holds no empty logical array iff the title is not a non-empty all-blank string |
| JobRepository.JobsFilterWellFormed | models/jobs/job_repository.go:285-323 | the corrected query never holds an empty logical array |
| JobRepository.AppendConditionAccepted | models/jobs/job_repository.go:430-435 | appending a raw regex keeps the list accepted iff the value is empty or compiles as a pattern |
| JobRepository.AppendInConditionAccepted | models/jobs/job_repository.go:437-444 | appending an `$in` block never changes whether the list is accepted |
| JobRepository.AppendedConditionsAccepted | models/jobs/job_repository.go:305-314 | the optional conditions are accepted iff each non-empty company, location, salary and provider value, sent unescaped, compiles |
| JobRepository.OtherConditionsAccepted | models/jobs/job_repository.go:305-321 | everything after the title block is accepted iff the raw company, location, salary and provider patterns compile |
| JobRepository.JobsFilterAccepted | models/jobs/job_repository.go:285-323 | the corrected query is accepted iff every escaped title word and every raw company, location, salary and provider value compiles; a company of "(" is refused |
| JobRepository.JobsFilterAsWrittenAccepted | models/jobs/job_repository.go:285-323 | the query as written is accepted iff the title is not a non-empty all-blank string and every escaped title word and raw pattern compiles |
| JobRepository.JobsFilterSelects | models/jobs/job_repository.go:285-323 | a job the corrected query selects is approved, not closed, by the creator when one is given, and its title matches every escaped title word |
| JobRepository.GetJobs | models/jobs/job_repository.go:286-360 | the query as written is sent; a find or count error is returned; a success carries the clamped page and the requested page size |
| JobRepository.BlankTitleListingFails | models/jobs/job_repository.go:288-303 | on a server that refuses empty `$and` arrays, a listing whose title is non-empty white space fails |
| JobRepository.GetJobsNeedsCompilingPatterns | models/jobs/job_repository.go:316-345 | on a server that refuses what it cannot compile, a listing succeeds only if every escaped title word and raw company, location, salary and provider value compiles |
| JobRepository.UncompilableCompanyListingFails | models/jobs/job_repository.go:305-345 | a non-empty company the engine cannot compile, such as "(", makes the listing fail |
| JobRepository.JobsFiltersAgree | models/jobs/job_repository.go:286-323 | wherever the query as written is accepted, it is the corrected query |
| JobRepository.GetJobsListsOpenJobs | models/jobs/job_repository.go:316-360 | against an honest collection that refuses malformed queries, every listed job is stored, approved and open; the sort is created_at descending and the limit is pageSize |
| JobRepository.KeepStrings | models/jobs/job_repository.go:94-107 | the result is an error iff some distinct value is not a string, and then it is "unexpected type for company name: " followed by the Go type of the first such value; otherwise it holds exactly the non-empty strings among the values |
| JobRepository.KeepStringsNamesType | models/jobs/job_repository.go:103-106 | a number after a company name makes the answer "unexpected type for company name: int64" |
| JobRepository.FilterDistinct | models/jobs/job_repository.go:94-109 | the filtering loop computes the same result as KeepStrings |
| JobRepository.AggregatedJobsValues | models/jobs/job_repository.go:45-59 | the intended version reports an error iff one of the four lookups fails, and otherwise returns the four filtered lists |
| JobRepository.AggregatedJobsValuesAgree | models/jobs/job_repository.go:45-59 | when the company lookup fails both versions fail; when both succeed they return the same options |
| JobRepository.LocationFailureSwallowed | models/jobs/job_repository.go:50-51 | as written, a failing location lookup comes back as success with empty options |
| JobRepository.Letter | models/jobs/job_repository.go:223 | each of the 62 alphabet positions is an ASCII letter or digit |
| JobRepository.AlphabetIndex | models/jobs/job_repository.go:223 | every alphanumeric character sits at some position of the alphabet |
| JobRepository.RandomString | models/jobs/job_repository.go:228-233 | one alphabet character per draw below 62, so the length equals the number of draws and every character is alphanumeric |
| JobRepository.RandomStringOnto | models/jobs/job_repository.go:228-233 | every alphanumeric string can be drawn |
| JobRepository.GenerateCode | models/jobs/job_repository.go:219-236 | a code is 6 alphanumeric characters |
| JobRepository.ValidationToken | models/jobs/job_repository.go:245-260 | a validation token is 32 alphanumeric characters |
| JobRepository.GetOriginalUrl | models/jobs/job_repository.go:389-396 | a found job gives its URL and no error; a failed lookup gives base+"/vagas/" plus the last 6 characters (Go cuts 6 bytes; see Left out) and the error, and panics when the short URL is shorter than 6 |
| JobRepository.FallbackRecoversCode | models/jobs/job_repository.go:238-243 | the fallback for a short URL this service made leads to the listing page of the same 6-character code |
| JobRepository.CreateJob | models/jobs/job_repository.go:155-183 | a created job carries the first available code, with short URL base+"/go/"+code and detail URL base+"/v/"+code; an empty provider becomes "vagasprajr"; running out of codes means every drawn code was taken |
| JobRepo.UntitledListingRefused | models/jobs/job_repo.go:37-57 | with no title the query is `{"$and": []}`, which the server refuses for every document |
| JobRepo.LegacyFilter | models/jobs/job_repo.go:37-57 | the intended query never holds an empty logical array |
| JobRepo.LegacyFilterAccepted | models/jobs/job_repo.go:37-57 | the query as written is accepted iff the title has a non-space character and every escaped word compiles |
| JobRepo.LegacyFiltersAgree | models/jobs/job_repo.go:37-57 | the query as written equals the intended one iff the title has a non-space character |
| JobRepo.OnlyTitleConditions | models/jobs/job_repo.go:37-57 | this revision adds nothing but the title block: no approval, closed, company or in-list conditions |
| JobRepo.LegacyFilterMeaning | models/jobs/job_repo.go:40-55 | a job matches the intended query iff every escaped title word compiles and the job's title matches each of them |
| JobRepo.TitleRegexesMeaning | models/jobs/job_repo.go:48-54 | the `$and` of the title regexes holds iff every word's escaped pattern compiles and matches the title |
| JobRepo.GetJobs | models/jobs/job_repo.go:37-94 | the query as written is sent; the result is Ok iff both find and count succeed; it reports the clamped page and the requested page size |
| JobRepo.GetJobsNeedsTitle | models/jobs/job_repo.go:37-94 | on a server that refuses empty `$and` arrays, a listing succeeds only for a title with a non-space character |
| JobRepo.GetJobsNeedsCompilingTitle | models/jobs/job_repo.go:37-94 | on a server that refuses what it cannot parse or compile, a listing succeeds only for a title with a non-space character whose escaped words all compile |
| JobRepo.GetJobsListsMatchingTitles | models/jobs/job_repo.go:37-94 | a successful listing against an honest collection holds only stored jobs whose titles match every escaped title word |
| Strings.SplitShape | models/commons/common_types.go:62 | strings.Split gives one more piece than there are separators, and no piece holds the separator |
| Strings.JoinSplit | models/commons/common_types.go:62 | joining the pieces back with the separator gives back the input |
| Strings.FieldsAreWords | models/jobs/job_repository.go:290 | every field of strings.Fields is a non-empty run without white space |
| Strings.FieldsConcat | models/jobs/job_repository.go:290 | the fields hold exactly the non-space characters of the input, in order |
| Strings.FieldsEmptyIff | models/jobs/job_repository.go:290 | a string has at least one field iff it has a non-space character |
| Strings.TrimSpaceSqueeze | models/jobs/job_repository.go:290 | TrimSpace removes only white space |
| Strings.TrimSpaceOfWord | models/jobs/job_repository.go:297 | a word without white space is its own trim |
| Strings.ToLower | models/users/user_repository.go:188 | lower-casing keeps the length and maps each character |
| Strings.ToLowerIdempotent | models/users/user_repository.go:266 | lower-casing twice is lower-casing once |
| Strings.DropPrefix | middlewares/authentication/middleware.go:31 | `s[n:]` exists iff n <= len(s), and then s is the first n characters followed by the result |
| Strings.LastN | models/jobs/job_repository.go:392 | `s[len(s)-n:]` exists iff n <= len(s), and then it is the last n characters (Go counts bytes; see Left out) |
| Store.FirstMatch | models/users/user_repository.go:188-197 | FindOne decodes the first matching document, and finds none iff no document matches |
| Clock.Unix | models/users/tokens/user_tokens.go:82 | Unix() is the whole number of seconds at or before the instant |
| Clock.Millis | models/users/tokens/user_tokens.go:85 | NewDateTimeFromTime is the whole number of milliseconds at or before the instant |
| Clock.FromMillis | controllers/users/users_controller.go:200 | DateTime.Time() of a stored date reads back as that same millisecond value |
| Clock.UnixShift | models/users/tokens/user_tokens.go:39-49 | adding whole seconds to an instant adds them to its Unix() value |
| Clock.UnixOfMillis | models/users/tokens/user_tokens.go:82-85 | a token's exp claim and the stored expiration date taken from the same instant agree to the second |
| Clock.FromMillisOfMillis | controllers/users/users_controller.go:200 | reading a stored date back gives an instant no later than the one stored and less than a millisecond before it |
| Claims.Str | models/users/tokens/user_tokens.go:214-220 | the string assertion succeeds iff the claim is present and is a string |
| Claims.Num | middlewares/authentication/middleware.go:77 | the float64 assertion succeeds iff the claim is present and is a number |
| Claims.DecodeLink | models/users/tokens/user_tokens.go:237-240 | a link decodes iff it is an object with string name and url and a number id |
| Claims.DecodeItems | models/users/tokens/user_tokens.go:234-241 | the links decode iff every element decodes, one link per element |
| Claims.DecodeEncodeLinks | models/users/tokens/user_tokens.go:233-244 | links written into a token read back unchanged, and a nil list reads back as an empty one |
| AuthMiddleware.Bearer | middlewares/authentication/middleware.go:20-37 | a non-empty cookie is the token; otherwise a header longer than seven characters gives everything after its seventh character, unchecked, and any other header gives "Token not found" |
| AuthMiddleware.Handle | middlewares/authentication/middleware.go:18-84 | every abort is a 401 |
| AuthMiddleware.CookieTakesPrecedence | middlewares/authentication/middleware.go:20-22 | with a non-empty cookie the header is never read |
| AuthMiddleware.ShortHeaderNotFound | middlewares/authentication/middleware.go:24-36 | with no cookie, a header of at most seven characters gives 401 "Token not found" |
| AuthMiddleware.SchemeNotChecked | middlewares/authentication/middleware.go:31 | two headers that agree after their seventh character are treated alike, whatever their scheme |
| AuthMiddleware.MalformedBeforeParsing | middlewares/authentication/middleware.go:53-57 | a token without exactly three dot-separated segments is refused as "Malformed token" whatever the parser would say |
| AuthMiddleware.DecodeErrorBeforeExpiry | middlewares/authentication/middleware.go:68-75 | a verified token whose id is bad is refused with the decode error, even if it has expired |
| AuthMiddleware.NextIff | middlewares/authentication/middleware.go:59-83 | the next handler runs with identity u iff the token was found, verifies, decodes to u and has not passed its exp second |
| AuthMiddleware.ExpiryBoundary | middlewares/authentication/middleware.go:77-80 | a token is accepted in the second of exp itself and refused as "Token expired" after it |
| AuthMiddleware.IssuedTokenPasses | middlewares/authentication/middleware.go:18-84 | a token signed by SetAuthenticationToken and sent as the cookie lets the request through with the user's identity until it expires |
| AuthorizationMiddleware.FirstHeld | middlewares/authorization/middleware.go:28-34 | the first required role the user holds, in required order; none iff no required role is held |
| AuthorizationMiddleware.Gate | middlewares/authorization/middleware.go:8-40 | an empty requirement runs only the next handler; a missing session panics; otherwise the run ends in Next or an abort |
| AuthorizationMiddleware.StoredRole | middlewares/authorization/middleware.go:31 | the stored role is the first one set, and there is one iff some effect sets one |
| AuthorizationMiddleware.EmptyRequirementPasses | middlewares/authorization/middleware.go:11-14 | with no required roles the handler runs, without any role lookup |
| AuthorizationMiddleware.PassesIff | middlewares/authorization/middleware.go:11-40 | the handler runs iff nothing is required, or the session id is non-zero, the lookup succeeds and some required role equals some held role |
| AuthorizationMiddleware.StoredRoleIsFirstHeld | middlewares/authorization/middleware.go:28-34 | the role stored is the first required role the user holds |
| AuthorizationMiddleware.ZeroIdAbortDoesNotReturn | middlewares/authorization/middleware.go:18-36 | a zero id writes the 401 abort but control goes on: the role is still set and Next is still called, though no handler runs |
| RolesRepository.GetRolesFromCache | models/roles/roles_repository.go:88-114 | an error iff the cache connection or read fails or the bytes do not decode; a missing key is an empty list |
| RolesRepository.SetCacheRoles | models/roles/roles_repository.go:66-86 | on success the cache holds exactly the list under the roles key; on failure the cache is unchanged |
| RolesRepository.GetRoles | models/roles/roles_repository.go:15-64 | the collection is never changed, and a successful answer is either the collection or the cached list |
| RolesRepository.CacheErrorReturned | models/roles/roles_repository.go:17-21 | a cache error is returned, with no change and no collection read |
| RolesRepository.CacheHitSkipsStore | models/roles/roles_repository.go:23-25 | a non-empty cached list is the answer, whatever the collection holds |
| RolesRepository.MissReadsStore | models/roles/roles_repository.go:23-63 | a missing or empty entry reads the collection, and the cache holds it afterwards unless writing it failed; a write failure is ignored |
| RolesRepository.ReadThrough | models/roles/roles_repository.go:15-64 | once a non-empty catalogue is cached, a later call answers from the cache |
| UserRepository.CreateUser | models/users/user_repository.go:55-91 | a failed insert leaves the collection unchanged; a successful one appends exactly one record |
| UserRepository.NewUserInitialState | models/users/user_repository.go:72-82 | a new user is unconfirmed, not deleted, not public, with 0 views, last login 0 and empty links and experience lists; the salted password is stored unless salting failed |
| UserRepository.SignUp | models/users/user_repository.go:32-53 | a password rejected by validation writes nothing; a successful sign-up stores the lower-cased email, the validation token and an unconfirmed user, and mails that email |
| UserRepository.FindByEmail | models/users/user_repository.go:188-189 | the lookup compares against the lower-cased email, and finds nothing iff no record has it |
| UserRepository.GetUserByEmail | models/users/user_repository.go:170-198 | an error iff connecting fails; a non-zero user returned is stored and has the lower-cased email |
| UserRepository.FindOne | models/users/user_repository.go:188-197 | an error iff connecting fails; with no lookup error, no match gives the zero user and the first match is returned |
| UserRepository.GetUserByEmailIgnoresCase | models/users/user_repository.go:188 | two emails equal up to case find the same user |
| UserRepository.GetUserById | models/users/user_repository.go:319-350 | a non-zero user returned is stored and has that id |
| UserRepository.GetUserByValidationToken | models/users/user_repository.go:405-431 | a non-zero user returned is stored and has that validation token |
| UserRepository.UpdateValidationToken | models/users/user_repository.go:433-458 | an error iff connecting or writing fails, and then nothing changes; otherwise the first record with that id gets the new token, every other record is unchanged, and a missing id changes nothing |
| UserRepository.UpdateThenFindByValidationToken | models/users/user_repository.go:405-458 | after the update, looking the token up finds the updated record when no other user holds that token |
| UserRepository.ConfirmEmail | models/users/user_repository.go:289-317 | an error iff connecting or writing fails, and then nothing changes; otherwise the first record with the id becomes confirmed and every other record is unchanged |
| UserRepository.ConfirmEmailThenGetById | models/users/user_repository.go:289-350 | a confirmed user reads back confirmed by id, and confirming again changes nothing |
| UserRepository.IsAuthenticated | models/users/user_repository.go:117-168 | (false, nil) exactly when the lookups succeed and no user has the email |
| UserRepository.IsAuthenticatedDecision | models/users/user_repository.go:135-167 | true iff a user with the email exists and the salted hash of the password equals the stored one; a hash mismatch is an error, not false |
| UserRepository.SignUpThenAuthenticate | models/users/user_repository.go:32-168 | after a sign-up, the same password authenticates under any capitalisation of the email |
| UserRepository.Update | models/users/user_repository.go:229-287 | an error iff connecting or writing fails, and then nothing changes; otherwise only the first record with the user's id is rewritten, it keeps that id, and a missing id changes nothing |
| UserRepository.UpdateDefaults | models/users/user_repository.go:247-283 | the record takes the user's names, city, state, links, experiences, tech experiences, visibility and non-empty job locations; empty job locations become the city and state with priority 1; the user name is lower-cased; the email, password, roles, confirmation, views and token are kept |
| UserRepository.NamesOf | models/users/user_repository.go:388-400 | the names of the catalogue roles whose valid hex id equals the role id |
| UserRepository.JoinRolesMembership | models/users/user_repository.go:388-400 | a name is joined iff some user role id equals the valid id of a catalogue role with that name |
| UserRepository.JoinRolesAppend | models/users/user_repository.go:388-400 | names come out ordered by user role and then catalogue order |
| UserRepository.GetUserRoles | models/users/user_repository.go:352-403 | an error only from connecting or from the catalogue; a missing user or a nil role list gives `[]` with no error; a stored user's roles give the join of those roles with the catalogue, or the catalogue's error |
| UserRepository.GetUserRolesNames | models/users/user_repository.go:378-402 | for a stored user, a name is returned iff a catalogue role with a valid id among the user's roles carries it |
| UserTokens.GetUserInfo | models/users/tokens/user_tokens.go:211-247 | the only error is "Invalid ObjectID", given exactly when the four names are strings and the id is missing or not hex; a decoded identity carries the claim's id and nothing outside the claims |
| UserTokens.GetUserInfoOfClaims | models/users/tokens/user_tokens.go:75-83 | the claims signed for a user decode back to that user's claim fields, with nil links as an empty list |
| UserTokens.SetAuthenticationToken | models/users/tokens/user_tokens.go:65-97 | the record's expiration date is the expiry in milliseconds and its ids are kept; an error iff signing fails, and then the token is kept |
| UserTokens.SetToken | models/users/tokens/user_tokens.go:43-62 | an access token's record expires 3600000 ms after now |
| UserTokens.IssuedTokenReadsBack | models/users/tokens/user_tokens.go:65-97 | an issued token has three segments, verifies until its exp second, decodes to the user, and its exp equals the record's expiration date in seconds |
| UserTokens.ExtractUserInfoFromTokenString | models/users/tokens/user_tokens.go:118-134 | the verification verdict is dropped: any readable token is decoded, and an unreadable one panics |
| UserTokens.RejectedTokenStillDecoded | models/users/tokens/user_tokens.go:127-133 | a token with a forged signature or past expiry still yields its identity |
| UserTokens.GetUserInfoFromTokenString | models/users/tokens/user_tokens.go:137-161 | an identity is returned only for a verified token, and a verified token past its exp is "Token expired" |
| UserTokens.IssuedTokenAccepted | models/users/tokens/user_tokens.go:137-161 | an issued token gives its identity back before its exp second and an error from then on |
| UserTokens.AfterPrefix | models/users/tokens/user_tokens.go:175 | `token[7:]` exists iff the header has at least 7 characters |
| UserTokens.ExtractUserInfoForTokenRefresh | models/users/tokens/user_tokens.go:163-183 | no cookie and no header give the zero identity with no error; a header of 1 to 6 characters panics; exactly 7 gives "Token not found" |
| UserTokens.GetUserInfoFromContext | models/users/tokens/user_tokens.go:185-209 | an absent cookie is "Token not found"; an empty cookie and no header give the zero identity with no error |
| UserTokens.FindByUser | models/users/tokens/user_tokens.go:306-310 | the first record of that user, and none iff no record has the user id |
| UserTokens.SaveRefreshToken | models/users/tokens/user_tokens.go:280-346 | a failure changes nothing; success means no lookup and no write error |
| UserTokens.SaveRefreshTokenKeepsOnePerUser | models/users/tokens/user_tokens.go:306-343 | at most one record per user is kept, and after success the user's record holds the new refresh token |
| UserTokens.SaveRefreshTokenUpdatesInPlace | models/users/tokens/user_tokens.go:331-343 | an existing record keeps its ids and creation date, and every other record is unchanged |
| UserTokens.SignFailureStoresEmptyToken | models/users/tokens/user_tokens.go:282-287 | the signing error is ignored, so the saved record holds an empty token |
| UserTokens.SetRefreshToken | models/users/tokens/user_tokens.go:348-378 | an error iff the lookup fails; no record gives an empty token and no error; otherwise the user's stored record |
| UserTokens.SaveThenSetRefreshToken | models/users/tokens/user_tokens.go:280-378 | after a successful save, SetRefreshToken reads back the refresh token just saved |
| UserTokensLegacy.SetToken | models/users/user_tokens.go:21-53 | the record expires at the given time in milliseconds, and on success holds the signature of the same claim set |
| UserTokensLegacy.SetUserInfo | models/users/user_tokens.go:123-156 | an error is "Invalid ObjectID" and leaves the id and links as they were |
| UserTokensLegacy.SetUserInfoAgrees | models/users/user_tokens.go:123-156 | the in-place decoder panics, fails and succeeds exactly when the newer GetUserInfo does, with the same identity |
| UserTokensLegacy.InvalidIdIsPartialUpdate | models/users/user_tokens.go:123-140 | with good names and a bad id, the names and email are written before the error |
| UserTokensLegacy.SetUserInfoFromTokenString | models/users/user_tokens.go:74-100 | a token that does not verify leaves the receiver unchanged with an error |
| UserTokensLegacy.ExpiredTokenStillFills | models/users/user_tokens.go:91-97 | an expired token reports "Token expired" with the identity already written |
| UserTokensLegacy.GetUserInfoFromContext | models/users/user_tokens.go:102-121 | the token cookie is used when set; otherwise a header shorter than 7 characters panics and exactly 7 gives "Token not found" |
| UserTokensLegacy.SaveRefreshToken | models/users/user_tokens.go:189-261 | a failure changes nothing |
| UserTokensLegacy.SaveRefreshTokenOneExpiry | models/users/user_tokens.go:195-259 | the user keeps one record, signed and stamped with the same expiry 24 hours on, and a new record has equal creation and update stamps |
| TokenService.GetToken | services/authentication/token.go:70-102 | success iff signing the claims with the 7-day or 60-minute expiry succeeds |
| TokenService.GetUserInfoFromClaims | services/authentication/token.go:149-172 | a decoded identity has a link list and the claim's id |
| TokenService.GetUserInfoFromClaimsOfClaims | services/authentication/token.go:149-172 | issued claims decode back to the user, with nil links as an empty list |
| TokenService.GetTokenReadsBack | services/authentication/token.go:79-95 | a token verifies to the user with exp = Unix(now) + 604800 for a refresh token and + 3600 otherwise |
| TokenService.ValidateToken | services/authentication/token.go:104-147 | an identity is returned only when the token cookie is present |
| TokenService.ValidateTokenVerdicts | services/authentication/token.go:104-147 | with a non-empty cookie the header is never read; an unreadable or rejected token is a parse error; a verified token is "Token expired" iff the current second is past its exp, and otherwise yields its identity |
| TokenService.LibraryValidBeforeExp | services/authentication/token.go:142-144 | while the library accepts a token, the current Unix second is below its exp, so the service's own expiry check passes |
| TokenService.IssuedTokenValidates | services/authentication/token.go:70-147 | a token GetToken issued, sent as the cookie before it expires, yields the identity it was issued for |
| TokenService.HeaderAloneRefused | services/authentication/token.go:106-120 | with no cookie the request is refused as "Token not found" for a header of 7 or more characters and panics for a shorter one |
| TokenService.GetRefreshToken | services/authentication/token.go:34-68 | a new token is given only for a verified refresh token |
| TokenService.GetRefreshTokenVerdicts | services/authentication/token.go:34-68 | an unreadable or rejected token is a parse error; a verified token past its exp second is "Token expired"; otherwise the answer is a 60-minute token for the carried identity, or the signing error |
| TokenService.RefreshGivesAccessToken | services/authentication/token.go:34-68 | a valid refresh token is exchanged for a 60-minute access token for the same user |
| TokenService.FindByUser | services/authentication/token.go:234-236 | the first record of that user, and none iff no record has the user id |
| TokenService.SaveRefreshTokenAsWritten | services/authentication/token.go:200-268 | a non-hex user id is refused before any store access, with ObjectIDFromHex's error once the token is signed, and a failure changes nothing |
| TokenService.SavedRecordNeverRotates | services/authentication/token.go:236-258 | as written, an existing record keeps its stored token and expiry |
| TokenService.StaleRefreshTokenExample | services/authentication/token.go:236-258 | a user whose record holds "old" signs in again with "new" and still gets "old" |
| TokenService.SaveRefreshToken | services/authentication/token.go:200-268 | the intended save: a non-hex user id is refused, with ObjectIDFromHex's error once the token is signed, and a failure changes nothing |
| TokenService.SaveRefreshTokenRotates | services/authentication/token.go:200-268 | after the intended save the user has one record, holding the new token and the 7-day expiry |
| TokenService.SaveRefreshTokenAgreesOnInsert | services/authentication/token.go:238-249 | both versions store the same new record for a user without one |
| Http.FirstStatusWins | controllers/users/users_controller.go:241-247 | once a handler has written a status, later writes do not change what the client sees, so a 400 that is not followed by a return still answers 400; no write answers 200 |
| UsersController.TokenCookie | models/users/tokens/user_tokens.go:249-265 | the cookie holds the token, with the expiry's Unix time as max-age |
| UsersController.SessionInfo | controllers/users/users_controller.go:127-135 | the session identity carries the user's id and lower-cased email, and no links |
| UsersController.Login | controllers/users/users_controller.go:86-166 | one write; a 200 only after authentication succeeds, the user is found and the email is confirmed; any other status leaves the token store as it was |
| UsersController.LoginRefusals | controllers/users/users_controller.go:96-123 | an unknown email gives 401; a wrong password comes back from IsAuthenticated as an error and so gives 500; an unconfirmed email gives 401 |
| UsersController.LoginIssuesSession | controllers/users/users_controller.go:125-165 | on success the identity has the lower-cased email, the cookie carries the access token, the token reads back to the identity until it expires, and the saved refresh token can be looked up again |
| UsersController.RefreshSession | controllers/users/users_controller.go:168-230 | no cookie and no header give 401; a 200 needs a non-zero decoded id with a stored record; the cookie is cleared only on a 401 |
| UsersController.ExpiredRecordClearsCookie | controllers/users/users_controller.go:199-204 | a stored expiry before now clears the cookie and gives 401 |
| UsersController.UnverifiedTokenRefreshes | controllers/users/users_controller.go:170-212 | a cookie whose signature fails verification still refreshes the session of the user it names |
| UsersController.AnyRolePasses | controllers/users/users_controller.go:599-606 | true iff some requested role passes the user check |
| UsersController.IsAuthorized | controllers/users/users_controller.go:564-609 | no session gives 500; a 200 answers for a stored user whether some requested role passes |
| UsersController.NoRolesNotAuthorized | controllers/users/users_controller.go:599-608 | an empty role list is answered false |
| UsersController.UpdateUserName | controllers/users/users_controller.go:611-679 | a 400 changes nothing and means an empty, invalid or taken name; a 200 means every check passed and the rename was applied |
| UsersController.UserNameChecksInOrder | controllers/users/users_controller.go:637-664 | the checks come in order: empty, then invalid, then taken, each with its own message |
| UsersController.ProfileOf | controllers/users/users_controller.go:423-440 | the public profile omits the email and the view count and keeps the id, user name and visibility |
| UsersController.GetPublicUserProfile | controllers/users/users_controller.go:400-443 | a view is counted iff the answer is 200; a 200 is for a public profile without email; a private profile gives 401 |
| UsersController.RequestPasswordReset | controllers/users/users_controller.go:302-333 | an empty email gets 400 first; mail is sent only with no other write, unless the email was empty; with no mail the users are unchanged |
| UsersController.PasswordResetRequestIff | controllers/users/users_controller.go:302-333 | an unknown email gets success with nothing stored or sent; a known one gets a new 32-character token and a recovery mail |
| UsersController.ResetWithToken | controllers/users/users_controller.go:249-275 | a password is changed only for a stored user holding that validation token |
| UsersController.ResetPasswordAsWritten | controllers/users/users_controller.go:237-276 | an empty token writes 400 "Token não informado" first |
| UsersController.EmptyTokenResetsAnotherAccount | controllers/users/users_controller.go:241-259 | as written, an empty token answers 400 yet changes the password of a user whose validation token is empty |
| UsersController.ResetPassword | controllers/users/users_controller.go:237-276 | the corrected handler writes exactly one answer |
| UsersController.ResetPasswordNeedsToken | controllers/users/users_controller.go:241-275 | the corrected handler changes a password only for a non-empty token and password held by that user; 200 iff both are given and the reset succeeds; it agrees with the original whenever both are given |
| TokensController.SessionCookieAsWritten | services/authentication/token.go:174-185 | the cookie holds the token value |
| TokensController.CookieLivesTwelveHours | services/authentication/token.go:179 | the max-age 60*24*30 is read as seconds, so it is 12 hours and not the 30 days meant |
| TokensController.SessionCookie | services/authentication/token.go:174-185 | the corrected cookie lives 30 days |
| TokensController.GetRefreshToken | controllers/tokens/tokens_controller.go:13-70 | a 200 returns the validated identity with the stored refresh token and its expiry, and sets the cookie `SetTokenCookie` writes: an empty value with the 43200-second max-age as written; any other answer leaves the cookie alone |
| TokensController.RefusedBeforeLookup | controllers/tokens/tokens_controller.go:17-29 | a failed validation or a non-hex id gives 500 without consulting the refresh store; for a non-hex id the body is ObjectIDFromHex's error |
| TokensController.StoredTokenDecision | controllers/tokens/tokens_controller.go:35-68 | the stored token is validated first (500 on error), then a past expiry gives 401 "Token expirado", then the emails must match for a 200 |
| ShortUrlController.JobShortUrl | controllers/shorturls/shorturl_controller.go:70 | the job short URL is the one CreateShortUrl builds |
| ShortUrlController.AdShortUrl | controllers/shorturls/shorturl_controller.go:42 | the ad short URL is base, then "/r/", then the code |
| ShortUrlController.GetOriginalUrl | controllers/shorturls/shorturl_controller.go:13-32 | an empty code gives 400; a found URL gives 200; the lookup error is ignored and the answer is still 200 with the fallback built from the last 6 characters (Go cuts 6 bytes; see Left out) |
| ShortUrlController.UnknownCodeAnswersListingPage | controllers/shorturls/shorturl_controller.go:22-31 | an unknown 6-character code answers 200 with the listing page of that code (Go: a 6-byte code; the two agree on ASCII codes) |
| ShortUrlController.RedirectToOriginalAdUrl | controllers/shorturls/shorturl_controller.go:34-60 | an empty code gives 400; the redirect happens iff the lookup and the click count succeed, to the stored URL with 307; clicks are counted only then |
| ShortUrlController.RedirectToOriginalJobUrl | controllers/shorturls/shorturl_controller.go:62-90 | an empty code gives 400; the redirect happens iff the lookup and the click count succeed; clicks are keyed by the job short URL |
| ShortUrlController.LookupFailureDiverges | controllers/shorturls/shorturl_controller.go:22-85 | for an unknown code, GetOriginalURL answers 200 with the fallback (its last 6 characters, where Go cuts 6 bytes) while the job redirect answers 500 |

## Left out

- Connections, `Disconnect` and its panic, context timeouts, logging,
  `fmt.Println` and JSON marshalling of the debug filter are not modelled. A
  connection error is folded into the collection's own error.
- `log.Fatalf` ends the process; `JobRepository.CreateJob` models it as an
  outcome of its own.
- The JWT library is not modelled:
  - HS256 and the secret key are behind the `Codec` parameter;
  - golang-jwt v5 checks `exp` itself inside `Parse`, and that check is part
    of the codec's verdict.
- Password hashing, `ValidatePassword`, `IsUserNameValid`,
  `UserNameAlreadyExists`, `User.UpdateUserName`, `User.IsAuthorized`,
  `GetUserByUserName`, `IncrementProfileViews`, `UpdatePassword`,
  `ResetValidationToken`, `ValidateStringToken`, `GetAdOriginalURL` and
  `UpdateAdvertisementClicks` are not part of this model. The code calls
  them but they are not defined in the modelled files, so they are
  parameters.
- `math/rand` is modelled as the sequence of `Intn(62)` draws. `uuid.New`
  and new object ids are parameters.
- `time.Now` and `GetBrasiliaTime` are parameters, one per reading.
- Email sending (the goroutines and the SMTP broker) is not modelled. The
  model records only the address the mail goes to.
- `UpdateLastLogin` is not modelled: Login ignores its error and it only
  writes a timestamp.
- Strings.ToLower: lower-cases ASCII letters only, not all of Unicode.
- JSON numbers are integers, not float64. A link id and an `exp` claim are
  whole numbers here.
- `users.UserTokenInfo` is not part of this model. The users controller
  passes it where `SetToken` expects a `users.UserInfo`; the model uses
  `UserInfo`.
- The key the authorization middleware reads is not modelled. It reads
  `userInfo`, but the authentication middleware stores `userTokenInfo`.
  `AuthorizationMiddleware.Gate` takes the session as an `Option` and
  panics on `None`, as the type assertion would.
- The zero-date check in `SetTokenCookie` is not modelled: a date set by
  `SetAuthenticationToken` is never zero.
- The type-only files are not part of this model:
  - `user_types.go`, `job_types.go` and `shopping_types.go`;
  - the email, OAuth, promotions and cache files;
  - `main.go` and the routes.
- UserRepository.Update: the `User` datatype holds only the fields the modelled code reads.
  The `$set` keys `last_update`, `about_me`, `educations`, `certifications`,
  `diversity_info`, `idioms_info` and `is_public_for_recruiter` are not
  modelled. Of `job_preferences`, only the job locations are.
- `context.BindJSON` failures are not modelled. The users handlers (Login,
  IsAuthorized, UpdateUserName, RequestPasswordReset, ResetPassword) call it
  without checking the result. On a malformed body gin writes 400 at once,
  and the handler runs on with zero-valued fields. The model starts each
  handler from an already decoded body. For ResetPassword this means the
  empty-token reset of the findings is also reachable through a malformed
  body.
- Go slices strings by byte, and the model slices by character. This affects
  the seven-character `Bearer ` cut (`token[7:]` and the `len < 7` tests in
  `TokenService.ValidateToken`, `UserTokens.AfterPrefix` and
  `AuthMiddleware.Bearer`). The two agree on ASCII headers. On a header with
  multi-byte characters, the cut and the panic boundary differ.
- Strings.LastN: takes the last n characters, where Go's `s[len(s)-n:]` takes
  the last n bytes. They agree on ASCII text, and every code the service
  makes is ASCII (`GenerateCode` draws from 62 ASCII letters and digits).
  They differ on multi-byte text: for "ção123" Go keeps "ão123" where the
  model keeps all six characters; for "ç12345" Go keeps a lone continuation
  byte before "12345"; and "ééé" is 6 bytes, so Go does not panic where the
  model, with 3 characters, does.
- JobRepository.GetOriginalUrl: the fallback uses `Strings.LastN`, so it is a
  character cut where Go cuts 6 bytes (models/jobs/job_repository.go:392);
  the same on ASCII short URLs.
- ShortUrlController.GetOriginalUrl: the fallback is the character cut of
  `JobRepository.GetOriginalUrl`, not Go's byte cut; the same on ASCII codes.
- ShortUrlController.UnknownCodeAnswersListingPage: stated for a code of 6
  characters; Go needs 6 bytes, which is the same for ASCII codes.
- ShortUrlController.LookupFailureDiverges: the fallback is the character
  cut, as above.
- JobRepository.GoTypeName: a BSON integer prints as `int64`, the driver's
  type for a 64-bit integer; a value stored as a 32-bit BSON integer would
  print `int32`, and a double `float64`, which the model's integer values
  do not tell apart.
- FilterCompiler.ArrayObjectField: a stored document is a map from field to
  scalar (`Query.Doc`), so array-valued fields are not modelled. MongoDB
  matches a `$regex` or `$eq` on an array field when some element matches;
  the evaluation lemmas speak of scalar fields only.
- FilterCompiler.ArrayStringField: the same; the `$in` of the compiled list
  is evaluated against a scalar field, and the any-element match of an `$in`
  on an array field is not modelled.
- Query.Regexes: the regex dialect MongoDB uses (PCRE) is not modelled.
  Whether a pattern compiles and where it matches are the two parameters of
  `Query.Regexes`; the lemmas hold for every such engine, and "(" failing to
  compile is a premise of `JobRepository.UncompilableCompanyListingFails`,
  not something derived.
- FilterCompiler.UnknownOperatorRefused: every operator other than `$and`,
  `$or`, `$nor` and `$comment` is taken as refused. Of the other top-level
  operators MongoDB knows, `$text`, `$where` and `$jsonSchema` take no array;
  `$expr` would read the compiled fields as aggregation expressions, and the
  model does not evaluate those.
- `middlewares/auth.go` is not part of this model. It is the superseded
  middleware.
- UsersController.TokenCookie: uses the absolute Unix time as max-age, as
  the code does. The cookie's real lifetime is therefore far in the future;
  this is stated, not corrected.
- TokensController.GetRefreshToken: the cookie value is always "", because
  the code writes it from an empty `Token{}`, and its max-age is the
  43200 seconds `SetTokenCookie` writes. The model keeps both.

## Findings

| source | as written | input that shows it | evidently intended | confidence | as-written member | corrected member |
|---|---|---|---|---|---|---|
| models/shopping/shopping_repository.go:35-37 | `if (page - 1) < 0 { page = 1 }` in 64-bit arithmetic | page = -9223372036854775808: `page - 1` wraps to the largest int64, so the page stays negative (the same clamp is at models/jobs/job_repository.go:328-330 and models/jobs/job_repo.go:62-64) | every page below 1 becomes 1 | not executed | Pagination.ClampPageAsWrittenMissesMinInt64 | Pagination.ClampPageAgrees |
| models/jobs/job_repository.go:288-303 | the title block is added whenever the title is non-empty | title " ": `strings.Fields` gives no words and the query holds `{"$and": []}`, which MongoDB refuses | add the title block only when there are words | not executed | JobRepository.BlankTitleIsRefused | JobRepository.TitleConditionsWellFormed |
| models/jobs/job_repo.go:37-57 | `filter["$and"] = andConditions` even when the list is empty | title "": the query is `{"$and": []}`, which MongoDB refuses | the empty filter when there is no title word | not executed | JobRepo.UntitledListingRefused | JobRepo.LegacyFilter |
| models/jobs/job_repository.go:45-52 | a failure is detected through any of four errors, but only the first is returned | company lookup succeeds and location lookup fails: the result is empty options with a nil error | return the first error that occurred | not executed | JobRepository.LocationFailureSwallowed | JobRepository.AggregatedJobsValues |
| services/authentication/token.go:236-258 | `FindOne(...).Decode(&tk)` overwrites the freshly signed token with the stored one before the update | a user whose record holds "old" signs in and is issued "new": the record keeps "old" | store the new token and expiry | not executed | TokenService.StaleRefreshTokenExample | TokenService.SaveRefreshTokenRotates |
| controllers/users/users_controller.go:241-247 | the 400 answers for a missing token or password do not return | token "" and a user whose validation token is "": the answer is 400, but that user's password is changed | return after each 400 | not executed | UsersController.EmptyTokenResetsAnotherAccount | UsersController.ResetPasswordNeedsToken |
| services/authentication/token.go:174-185 | max-age `60*24*30`, commented "30 days", but gin's max-age is in seconds | any token cookie: it lives 43200 seconds, which is 12 hours | 30*24*60*60 seconds | not executed | TokensController.CookieLivesTwelveHours | TokensController.SessionCookie |
