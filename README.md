# InoreaderCs core in Dafny

This project models the core of InoreaderCs, a .NET client for the Inoreader
RSS reader's Google-Reader-style HTTP API. It covers:

- **Stream ids and stream states.** These are the text ids of system streams, folders and tags (both called labels) and feeds, and the typed entries of the `tag/list` answer.
- **The label name cache.** This is the set of folder names and the set of tag names. The cache rebuilds them from a `tag/list` answer once it is stale, and edits them after renames, deletes, tagging and subscribing.
- **Articles.** This covers the short id decoded from the long item id, the split of an article's categories into folders and tags, and the state flags. It also covers the brief articles of the id listing.
- **The request layer.** This covers:
  - the query and form of every request the client sends;
  - the mapping of HTTP failures to Inoreader errors;
  - the tag/untag/mark requests and their count of articles;
  - the folder, tag, subscription and newsfeed operations and what each does to the label name cache;
  - the three unread-count views built from the `unread-count` answer.
- **Authentication.** This covers:
  - the persisted token record and its merge rules;
  - the credential headers;
  - the OAuth2 authorization-code and refresh flow with its load/refresh/authorize/save decisions;
  - the password (ClientLogin) flow with its parsing of the `key=value` answer.
- **The JSON timestamp readers.** These turn a Unix time of unknown unit into an instant.

Each module says what it models in its own doc comments. The modules are:

| module | file | covers |
|---|---|---|
| Wrappers | wrappers.dfy | Option and Result |
| Text | text.dfy | String.Split with a count, Trim, decimal and hexadecimal text |
| StreamIds | stream_id.dfy | StreamId |
| StreamStates | stream_state.dfy | StreamState and LabelState.Name |
| LabelNameCaches | label_name_cache.dfy | LabelNameCache (a class) |
| Articles | article.dfy | Article (a class) and its ShortId |
| BriefArticles | brief_articles.dfy | BriefArticle |
| Timestamps | timestamps.dfy | the three timestamp readers |
| AuthTokens | auth_tokens.dfy | PersistedAuthTokens (a class) and the token persister |
| UserAuthTokens | user_auth_token.dfy | the two IUserAuthToken credentials |
| Oauth2 | oauth2_client.dfy | Oauth2Client (a class) |
| PasswordAuth | password_auth_client.dfy | PasswordAuthClient (a class) |
| ClientRequests | client_requests.dfy | the request builders, error mapping and unread-count views |
| Clients | client.dfy | the client's operations over the label name cache (a class) |

The network, the clock, the consent page and the random CSRF token are
inputs. An HTTP exchange is an `HttpOutcome`: the decoded answer, or the
failure with its status code and body. Each request operation returns a
`Call`: the request it sent, if any, and its result or error. Instants are
.NET ticks, stored as `int`.

## Model

| member | source | states |
|---|---|---|
| StreamIds.StreamId.ForState | InoreaderCs/Entities/StreamId.cs:51-54 | no state gives no stream; Read and Starred give the read and starred system streams |
| StreamIds.StreamId.FeedUri | InoreaderCs/Entities/StreamId.cs:85-93 | a URI exactly when the id starts with "feed/", and the id is "feed/" followed by it |
| StreamIds.StreamId.LabelName | InoreaderCs/Entities/StreamId.cs:98-106 | a name exactly when the id starts with "user/-/label/", and the id is the label id of that name |
| StreamIds.Parse | InoreaderCs/Entities/StreamId.cs:69-77 | a feed id parses to itself; any other id parses exactly when its first segment is "user" and it has three segments, to "user/-/" and the third segment; a bare "feed" is the missing-URI error, a short user id the missing-segment error, any other prefix the unsupported one |
| StreamIds.ParseShortUser | InoreaderCs/Entities/StreamId.cs:70-74 | "user" and "user/<n>" fail for want of a third segment |
| StreamIds.NotFeed | InoreaderCs/Entities/StreamId.cs:72-73 | a separator-free first segment other than "feed" does not start a feed id |
| StreamIds.ParseUnsupported | InoreaderCs/Entities/StreamId.cs:70-75 | a first segment other than "feed" or "user" fails, whatever follows it |
| StreamIds.JoinHead | InoreaderCs/Entities/StreamId.cs:70 | the first segment of a split, and then the separator, start the text |
| StreamIds.ParseUserStream | InoreaderCs/Entities/StreamId.cs:74 | a user stream of any user number parses to the same stream of user "-" |
| StreamIds.ParseIdempotent | InoreaderCs/Entities/StreamId.cs:69-77 | parsing the text of a parsed id gives the same id |
| StreamIds.ParseLabel | InoreaderCs/Entities/StreamId.cs:39 | every label id parses to itself |
| StreamIds.LabelRoundTrip | InoreaderCs/Entities/StreamId.cs:39-45 | tag and folder ids of a name coincide, and LabelName reads the name back (FeedUri is null) |
| StreamIds.FeedRoundTrip | InoreaderCs/Entities/StreamId.cs:57 | FeedUri reads back the URI of a feed id, and LabelName is null |
| StreamIds.LabelOrFeed | InoreaderCs/Entities/StreamId.cs:85-106 | no id is both a label and a feed |
| StreamIds.SystemStreamsAreNotLabels | InoreaderCs/Entities/StreamId.cs:16-37 | the read, starred and reading-list streams have no label name, and read and starred have no feed URI |
| StreamStates.KindOf | InoreaderCs/Entities/StreamState.cs:10-14 | "folder", "tag" and "active_search" select those records; no discriminator selects the plain record (each as an if-and-only-if) |
| StreamStates.Name | InoreaderCs/Entities/StreamState.cs:32 | a name exactly when the id holds at least three "/", and it is a suffix of the id |
| StreamStates.NameAfterThirdSlash | InoreaderCs/Entities/StreamState.cs:32 | the name is everything after the third "/", whatever it holds |
| StreamStates.JoinTail | InoreaderCs/Entities/StreamState.cs:32 | the last part of a split is the suffix of the text |
| StreamStates.SplitLabelId | InoreaderCs/Entities/StreamState.cs:32 | a label id splits in four into "user", "-", "label" and the name, whatever the name holds |
| StreamStates.NameOfLabel | InoreaderCs/Entities/StreamState.cs:32 | the Name of a folder or tag entry is the LabelName of its id |
| Text.IndexOf | InoreaderCs/Auth/PasswordAuthClient.cs:81 | the first position of the separator |
| Text.IndexOfAfter | InoreaderCs/Auth/PasswordAuthClient.cs:81 | the first separator follows a separator-free prefix |
| Text.Split | InoreaderCs/Entities/StreamId.cs:70 | at least one and at most `limit` parts; no separator in any part but the last; the last part has none when fewer than `limit` parts come out |
| Text.SplitJoin | InoreaderCs/Entities/StreamId.cs:70 | the parts joined back with the separator give the text |
| Text.SplitLength | InoreaderCs/Entities/StreamState.cs:32 | one part more than the text has separators, capped at the count |
| Text.SplitCons | InoreaderCs/Entities/StreamState.cs:32 | a separator-free head is split off first |
| Text.SplitThree | InoreaderCs/Entities/StreamId.cs:70 | two separator-free pieces and any tail split in three into exactly those parts |
| Text.SplitFour | InoreaderCs/Entities/StreamState.cs:32 | three separator-free pieces and any tail split in four into exactly those parts |
| Text.SplitAll | InoreaderCs/Auth/PasswordAuthClient.cs:80 | at least one part, none with a separator |
| Text.SplitAllJoin | InoreaderCs/Auth/PasswordAuthClient.cs:80 | the parts joined back with the separator give the text |
| Text.SplitAllCons | InoreaderCs/Auth/PasswordAuthClient.cs:80 | a separator-free first piece is split off a full split |
| Text.SplitAllUnique | InoreaderCs/Auth/PasswordAuthClient.cs:80 | the only separator-free parts that join to the text are the split |
| Text.TrimStart | InoreaderCs/Requests/ClientRequests.cs:226 | a suffix, all white space removed before it, and it does not start with white space |
| Text.TrimEnd | InoreaderCs/Requests/ClientRequests.cs:226 | a prefix, all white space removed after it, and it does not end with white space |
| Text.TrimIdentity | InoreaderCs/Auth/PasswordAuthClient.cs:79 | text without white space at either end is unchanged by Trim |
| Text.DigitChar | InoreaderCs/Requests/ClientRequests.cs:121 | the decimal digit of a value |
| Text.NatToString | InoreaderCs/Requests/ClientRequests.cs:30 | decimal digits without a leading zero |
| Text.DecimalRoundTrip | InoreaderCs/Requests/ClientRequests.cs:121 | the digits of a number read back as the number |
| Text.IntToString | InoreaderCs/Requests/ClientRequests.cs:121 | a minus sign exactly for negatives, then the digits of the magnitude |
| Text.IntToStringInjective | InoreaderCs/Entities/Article.cs:43 | different numbers give different texts |
| Text.Pow | InoreaderCs/Entities/Article.cs:43 | a positive base gives a positive power |
| Text.HexDigitValue | InoreaderCs/Entities/Article.cs:43 | a hexadecimal digit is worth less than 16 |
| Text.HexValue | InoreaderCs/Entities/Article.cs:43 | the value of k hexadecimal digits is below 16^k |
| Text.HexLeadingZero | InoreaderCs/Entities/Article.cs:43 | a leading "0" does not change the value |
| Text.HexDigitChar | InoreaderCs/Entities/Article.cs:43 | the digit written for a value has that value |
| Text.ToHex | InoreaderCs/Entities/Article.cs:43 | exactly `width` hexadecimal digits |
| Text.HexRoundTrip | InoreaderCs/Entities/Article.cs:43 | hexadecimal digits of a number read back as the number |
| Articles.HexRun | InoreaderCs/Entities/Article.cs:43 | the longest run of hexadecimal digits at the start |
| Articles.ToSigned64 | InoreaderCs/Entities/Article.cs:43 | the 64-bit two's-complement reading of an unsigned value |
| Articles.ParseHex64 | InoreaderCs/Entities/Article.cs:43 | Convert.ToInt64(s, 16): a long; empty text fails; a leading minus fails (each an if-and-only-if) |
| Articles.ShortIdOf | InoreaderCs/Entities/Article.cs:43 | an id shorter than the item prefix fails, and a decoded short id is never empty |
| Articles.ParseDigits | InoreaderCs/Entities/Article.cs:43 | hexadecimal digits parse to their signed value below 2^64 and overflow from 2^64 |
| Articles.ShortIdOfRendered | InoreaderCs/Entities/Article.cs:43 | the long id of a 16-digit hexadecimal number below 2^63 decodes to that number in decimal |
| Articles.ShortIdInjective | InoreaderCs/Entities/Article.cs:43 | different item numbers give different short ids |
| Articles.PrefixUnchecked | InoreaderCs/Entities/Article.cs:43 | the prefix is cut by length only and never compared |
| Articles.LeadingZeroVanishes | InoreaderCs/Entities/Article.cs:43 | an extra leading zero digit gives the same short id |
| Articles.HighBitNegative | InoreaderCs/Entities/Article.cs:43 | an item number from 2^63 decodes to a negative short id |
| Articles.MinusRejected | InoreaderCs/Entities/Article.cs:43 | a minus sign after the prefix fails |
| Articles.EditTagTestId | Tests/Requests/EditTagTest.cs:17-21 | long id ...00000000148b9369 has short id 344691561 |
| Articles.EditTagSecondTestId | Tests/Requests/EditTagTest.cs:17-27 | long id ...00000000148b383e has short id 344668222 |
| Articles.Partition | InoreaderCs/Entities/Article.cs:60-74 | folders and tags are disjoint and together make all label categories; folders are known folder names; every other label name is a tag |
| Articles.LabelCategoryPlaced | InoreaderCs/Entities/Article.cs:64-69 | a label category lands in folders exactly when its name is a known folder, and otherwise in tags |
| Articles.StatesIgnored | InoreaderCs/Entities/Article.cs:64 | categories that are not labels change neither set |
| Articles.ReadAndStarredAreNotLabels | InoreaderCs/Entities/Article.cs:144-150 | the read and starred categories are not labels |
| Articles.Article.constructor | InoreaderCs/Entities/Article.cs:39-58 | the id, crawl time and categories given; folders and tags empty |
| Articles.Article.SetCategories | InoreaderCs/Entities/Article.cs:60-74 | the loop leaves folders and tags as the partition of the categories by the cached folder names |
| Articles.StateFlags | InoreaderCs/Entities/Article.cs:144-150 | starred and read exactly when the categories hold those streams |
| Articles.EqualsIsEquivalence | InoreaderCs/Entities/Article.cs:153-156 | equality is reflexive, symmetric and transitive, never holds for null, means equal crawl times, and equal articles have equal hash codes |
| BriefArticles.NamePresent | InoreaderCs/Entities/BriefArticles.cs:27 | a name is among FoldersAndTags exactly when its label stream is a direct stream id |
| BriefArticles.NullPresent | InoreaderCs/Entities/BriefArticles.cs:27 | null is among them exactly when some direct stream is not a label |
| BriefArticles.NamesOfSnoc | InoreaderCs/Entities/BriefArticles.cs:27 | another direct stream adds its label name |
| BriefArticles.DuplicatesCollapse | InoreaderCs/Entities/BriefArticles.cs:27 | a repeated stream changes nothing |
| BriefArticles.NamesBounded | InoreaderCs/Entities/BriefArticles.cs:27 | never more names than direct streams |
| LabelNameCaches.NameSet.constructor | InoreaderCs/LabelNameCache.cs:12-13 | an empty set |
| LabelNameCaches.NameSet.Clear | InoreaderCs/LabelNameCache.cs:59-60 | the set becomes empty |
| LabelNameCaches.NameSet.Add | InoreaderCs/LabelNameCache.cs:83 | the name is added, nothing else changes |
| LabelNameCaches.NameSet.Remove | InoreaderCs/LabelNameCache.cs:81 | the name is removed, nothing else changes |
| LabelNameCaches.ListedStates | InoreaderCs/LabelNameCache.cs:90-96 | a failed listing counts as no states |
| LabelNameCaches.NamesOfMembers | InoreaderCs/LabelNameCache.cs:62-71 | a name is collected exactly when a folder (or tag) entry has that name |
| LabelNameCaches.PlainEntriesIgnored | InoreaderCs/LabelNameCache.cs:63-70 | entries that are neither folders nor tags add nothing |
| LabelNameCaches.Contribution | InoreaderCs/LabelNameCache.cs:62-71 | an entry adds a name exactly when it is of the collected kind and its Name is that name |
| LabelNameCaches.NamesOfSnoc | InoreaderCs/LabelNameCache.cs:62-71 | one more entry adds its name when it is of the collected kind |
| LabelNameCaches.NamedPrefix | InoreaderCs/LabelNameCache.cs:62-71 | the entries processed before the first whose Name throws |
| LabelNameCaches.NamedPrefixAt | InoreaderCs/LabelNameCache.cs:62-71 | that prefix is characterised by its first failing entry |
| LabelNameCaches.Edited | InoreaderCs/LabelNameCache.cs:76-88 | the name is present exactly when not removed, and every other name is unchanged |
| LabelNameCaches.EditLastWins | InoreaderCs/LabelNameCache.cs:76-88 | of two edits of one name, the last one decides |
| LabelNameCaches.LabelNameCache.constructor | InoreaderCs/LabelNameCache.cs:17-23 | empty name sets, never refreshed, stale at any time |
| LabelNameCaches.LabelNameCache.OnTagAndFolderStatesListedUnsynchronized | InoreaderCs/LabelNameCache.cs:58-74 | both sets rebuilt from the entries up to the first that throws; the clock restarts only when all entries were processed |
| LabelNameCaches.LabelNameCache.Collect | InoreaderCs/LabelNameCache.cs:64-70 | a named entry's name added to the folder or tag set its type selects, and to no other |
| LabelNameCaches.LabelNameCache.OnTagAndFolderStatesListed | InoreaderCs/LabelNameCache.cs:49-56 | the same, as the event handler run on every tag/list answer |
| LabelNameCaches.LabelNameCache.GetLabelNames | InoreaderCs/LabelNameCache.cs:25-47 | fetches exactly when stale; a fresh cache is unchanged; a fetch rebuilds from the listing (none when it failed); succeeds exactly when the cache was fresh or every fetched label entry has a Name, otherwise fails with the first unnamed entry; a result is the two sets; after a good fetch the cache is fresh |
| LabelNameCaches.LabelNameCache.Edit | InoreaderCs/LabelNameCache.cs:76-88 | adds or removes one name in the chosen set and leaves the other set alone |
| Timestamps.Wrap64 | InoreaderCs/Marshal/DateTimeOffsetReader.cs:21-33 | the unchecked long result, equal to the exact one when that fits |
| Timestamps.WhiteRun | InoreaderCs/Marshal/DateTimeOffsetReader.cs:15 | the leading white space Int64.Parse skips |
| Timestamps.DigitRun | InoreaderCs/Marshal/DateTimeOffsetReader.cs:15 | the leading run of decimal digits |
| Timestamps.ParseInt64 | InoreaderCs/Marshal/DateTimeOffsetReader.cs:15 | Convert.ToInt64(string) gives a long or fails |
| Timestamps.ParseSigned | InoreaderCs/Marshal/DateTimeOffsetReader.cs:15 | the signed part gives a long or fails |
| Timestamps.ParseUnsigned | InoreaderCs/Marshal/DateTimeOffsetReader.cs:15 | the digits give a long or fail |
| Timestamps.ParseWellFormed | InoreaderCs/Marshal/DateTimeOffsetReader.cs:15 | white space, a sign, digits and white space parse to the signed value, or overflow |
| Timestamps.ParseRendered | InoreaderCs/Marshal/DateTimeOffsetReader.cs:15 | the decimal text of n parses to n when n is a long, and overflows otherwise |
| Timestamps.ParseRejectsJunk | InoreaderCs/Marshal/DateTimeOffsetReader.cs:15 | a stray character after the digits is a format error |
| Timestamps.SignedJunk | InoreaderCs/Marshal/DateTimeOffsetReader.cs:15 | after the sign, a stray character after the digits is a format error |
| Timestamps.TokenNumber | InoreaderCs/Marshal/DateTimeOffsetReader.cs:14-18 | a long for string and number tokens, null exactly for other tokens |
| Timestamps.StringMatchesNumber | InoreaderCs/Marshal/DateTimeOffsetReader.cs:14-18 | a string token holding a long's decimal text reads like the number token |
| Timestamps.MakeInstant | InoreaderCs/Marshal/DateTimeOffsetReader.cs:21 | new DateTimeOffset(ticks) succeeds exactly for ticks in its range |
| Timestamps.Instant | InoreaderCs/Marshal/DateTimeOffsetReader.cs:21 | n units after the Unix epoch exactly, or out of range |
| Timestamps.AsWrittenExactWithoutOverflow | InoreaderCs/Marshal/StringToDateTimeOffsetReader.cs:21 | the wrapping arithmetic agrees with the exact one when the product fits in a long |
| Timestamps.Present | InoreaderCs/Marshal/DateTimeOffsetReader.cs:19-23 | an instant as a present nullable value, or the same error |
| Timestamps.ZeroAndOtherTokens | InoreaderCs/Marshal/DateTimeOffsetReader.cs:19-23 | zero is null for the two readers and an error for the converter; any other token is an error |
| Timestamps.ReadIsExact | InoreaderCs/Marshal/DateTimeOffsetReader.cs:19-33 | every instant read is exactly n units after the Unix epoch, in the unit the reader picks |
| Timestamps.ReaderAndConverterAgree | InoreaderCs/Marshal/StringToDateTimeOffsetConverter.cs:11-24 | the converter and the string reader agree on every non-zero number |
| Timestamps.StringTokensReadLikeNumbers | InoreaderCs/Marshal/DateTimeOffsetReader.cs:14-18 | all three readers read a decimal string like the number |
| Timestamps.UnitsAgree | InoreaderCs/Marshal/DateTimeOffsetReader.cs:29-33 | the same instant in seconds, milliseconds and microseconds reads alike |
| Timestamps.MillisAndMicrosAgree | InoreaderCs/Marshal/StringToDateTimeOffsetReader.cs:21 | the same instant in milliseconds and microseconds reads alike |
| Timestamps.NoSecondsBand | InoreaderCs/Marshal/StringToDateTimeOffsetReader.cs:21 | the string readers take every number below 10^15 as milliseconds |
| Timestamps.EpochIsUnixEpoch | InoreaderCs/Marshal/DateTimeOffsetReader.cs:8 | the tick constant is 1970-01-01T00:00:00 |
| Timestamps.AutoRangeTestVectors | Tests/Marshal/DateTimeOffsetReaderTest.cs:25-27 | 1761688228 in seconds, milliseconds and microseconds reads as 2025-10-28T21:50:28 with the right fraction |
| Timestamps.WrapCounterexample | InoreaderCs/Marshal/DateTimeOffsetReader.cs:21-33 | see Findings: as written, 1844674407370955162 reads as 4 ticks after the epoch |
| Timestamps.AsWrittenAgreesWithoutOverflow | InoreaderCs/Marshal/StringToDateTimeOffsetConverter.cs:19 | as written and exact readers agree on every token whose product does not overflow |
| Timestamps.SmallTimestampsUnaffected | InoreaderCs/Marshal/DateTimeOffsetReader.cs:29-33 | for numbers of magnitude up to 922337203685 the wrap never matters |
| AuthTokens.Loaded | InoreaderCs/Auth/PersistedAuthTokens.cs:30-35 | Load sets the access token, refresh token and expiration, and keeps the password token |
| AuthTokens.DefaultsNeverClobber | InoreaderCs/Auth/PersistedAuthTokens.cs:42-50 | LoadDefaults never replaces a present access token or password token |
| AuthTokens.DefaultsCopyTogether | InoreaderCs/Auth/PersistedAuthTokens.cs:43-47 | the three OAuth fields are copied together, only when the record has no access token and the source has one |
| AuthTokens.DefaultsIdempotent | InoreaderCs/Auth/PersistedAuthTokens.cs:42-50 | merging the same source twice is merging it once |
| AuthTokens.DefaultsIntoEmpty | InoreaderCs/Auth/PersistedAuthTokens.cs:42-50 | merging into an empty record copies the source |
| AuthTokens.LoadedSurvivesDefaults | InoreaderCs/Auth/PersistedAuthTokens.cs:30-50 | a loaded token is kept by any later merge |
| AuthTokens.PersistedAuthTokens.constructor | InoreaderCs/Auth/PersistedAuthTokens.cs:9-23 | all fields null |
| AuthTokens.PersistedAuthTokens.WithPasswordAuthToken | InoreaderCs/Auth/PasswordAuthClient.cs:45 | only the password token set |
| AuthTokens.PersistedAuthTokens.FromValue | InoreaderCs/Auth/PersistedAuthTokens.cs:9-23 | the given field values |
| AuthTokens.PersistedAuthTokens.Load | InoreaderCs/Auth/PersistedAuthTokens.cs:30-35 | the record becomes Loaded of its old value, and the same object is returned |
| AuthTokens.PersistedAuthTokens.LoadDefaults | InoreaderCs/Auth/PersistedAuthTokens.cs:42-50 | the record becomes the merge of its old value with the source, and the same object is returned |
| AuthTokens.AuthTokenStore.constructor | InoreaderCs/Auth/IAuthTokenPersister.cs:7-21 | a store holding the given saved record |
| AuthTokens.AuthTokenStore.LoadAuthTokens | InoreaderCs/Auth/IAuthTokenPersister.cs:13 | null exactly when nothing is saved, and otherwise a new object with the saved values |
| AuthTokens.AuthTokenStore.SaveAuthTokens | InoreaderCs/Auth/IAuthTokenPersister.cs:19 | the saved record becomes the tokens' values |
| UserAuthTokens.UserAuthToken.AuthenticationHeader | InoreaderCs/Auth/UserAuthToken.cs:29-46 | "Bearer" and the token for OAuth2; "GoogleLogin" and "auth=" followed by the token for the password credential |
| UserAuthTokens.UserAuthToken.RequestHeaders | InoreaderCs/Auth/UserAuthToken.cs:32-52 | none for OAuth2; exactly AppId and AppKey for the password credential |
| UserAuthTokens.HeaderCarriesToken | InoreaderCs/Auth/UserAuthToken.cs:29-46 | the token is read back from the header |
| UserAuthTokens.HeaderDeterminesToken | InoreaderCs/Auth/UserAuthToken.cs:29-46 | equal headers mean the same kind of credential and the same token |
| Oauth2.CountConcat | InoreaderCs/Auth/Oauth2Client.cs:63-104 | effects counted over two traces add up |
| Oauth2.CountOne | InoreaderCs/Auth/Oauth2Client.cs:63-104 | a single effect counts once or not at all |
| Oauth2.CountPair | InoreaderCs/Auth/Oauth2Client.cs:63-104 | a pair counts as its two parts |
| Oauth2.CountTriple | InoreaderCs/Auth/Oauth2Client.cs:112-160 | the counts of an authorization trace |
| Oauth2.CountSnoc | InoreaderCs/Auth/Oauth2Client.cs:63-104 | one more effect adds its own count |
| Oauth2.CountLoads | InoreaderCs/Auth/Oauth2Client.cs:67-73 | the load step loads at most once |
| Oauth2.CountAfterAuthorize | InoreaderCs/Auth/Oauth2Client.cs:75-80 | the counts after an authorization and its save |
| Oauth2.ConsentQuery | InoreaderCs/Auth/Oauth2Client.cs:118-125 | client_id, redirect_uri, response_type=code, scope="read write" and the CSRF state, in order |
| Oauth2.TokenRequestForm | InoreaderCs/Auth/Oauth2Client.cs:176-180 | the caller's fields, then client_id, client_secret and grant_type |
| Oauth2.RefreshForm | InoreaderCs/Auth/Oauth2Client.cs:167-168 | refresh_token, client_id, client_secret, grant_type=refresh_token |
| Oauth2.TokenResult | InoreaderCs/Auth/Oauth2Client.cs:182-197 | a token exactly when granted; an unreadable or missing answer is a processing error; a refusal is Unauthorized with its status and description |
| Oauth2.ConsentRefusal | InoreaderCs/Auth/Oauth2Client.cs:145-152 | the denial message for access_denied, the code and message otherwise, and the CSRF message without a code |
| Oauth2.Authorize | InoreaderCs/Auth/Oauth2Client.cs:112-160 | shows the consent page first and settles it last; succeeds exactly when the consent is good and the exchange is granted, with the exchanged response; a bad consent is refused |
| Oauth2.AuthorizeCounts | InoreaderCs/Auth/Oauth2Client.cs:112-160 | one consent page, one post exactly when the consent is good, no load, refresh or save |
| Oauth2.FetchCount | InoreaderCs/Auth/Oauth2Client.cs:63-104 | the count of any effect, path by path |
| Oauth2.FetchCounts | InoreaderCs/Auth/Oauth2Client.cs:63-104 | loads only without a cached access token; posts a refresh exactly when one is due; shows consent at most once; saves exactly when a new token came |
| Oauth2.FetchLoadCount | InoreaderCs/Auth/Oauth2Client.cs:63-104 | the persister is read once exactly when no record with an access token is cached |
| Oauth2.FetchRefreshCount | InoreaderCs/Auth/Oauth2Client.cs:63-104 | a refresh is posted once exactly when a token is present, inside its early-refresh window and a refresh token is held |
| Oauth2.FetchConsentCount | InoreaderCs/Auth/Oauth2Client.cs:63-104 | the consent page is shown once exactly when there is no token or the refresh was refused |
| Oauth2.FetchSaveCount | InoreaderCs/Auth/Oauth2Client.cs:63-104 | tokens are saved once exactly when a new token came from the endpoint |
| Oauth2.AuthorizedOutcome | InoreaderCs/Auth/Oauth2Client.cs:77-103 | after an authorization or a granted refresh: success exactly when the attempt succeeded, the bearer form of the new token with the record saved last; a failure keeps the record |
| Oauth2.FetchOutcome | InoreaderCs/Auth/Oauth2Client.cs:63-104 | the credential is the bearer form of the kept access token; a failure keeps the loaded record; success exactly when the token is fresh or a new one came, saved last |
| Oauth2.ExchangedTokenLoaded | InoreaderCs/Auth/Oauth2Client.cs:77-88 | the new token from authorization or refresh is loaded into the record |
| Oauth2.ValidTokenReturnedAsIs | InoreaderCs/Auth/Oauth2Client.cs:81-100 | a token that is not due for refresh is returned without post, consent or save |
| Oauth2.RefreshFailurePropagates | InoreaderCs/Auth/Oauth2Client.cs:82-90 | a refresh failure other than Unauthorized propagates without consent or save |
| Oauth2.RefusedRefreshReauthorizes | InoreaderCs/Auth/Oauth2Client.cs:86-89 | an Unauthorized refresh falls back to a full authorization |
| Oauth2.ForgedCsrfTokenRefused | InoreaderCs/Auth/Oauth2Client.cs:130-151 | a CSRF token other than the generated one is refused and no code is exchanged |
| Oauth2.ExampleMiss | Tests/Auth/Oauth2ClientTest.cs:51-82 | no saved token: consent, exchange of "ghi", token "jkl" returned and saved |
| Oauth2.ExampleRefresh | Tests/Auth/Oauth2ClientTest.cs:84-117 | a token about to expire is refreshed and saved |
| Oauth2.ExampleHit | Tests/Auth/Oauth2ClientTest.cs:36-49 | a valid saved token is returned unchanged and not saved |
| Oauth2.ExampleConsentDenied | Tests/Auth/Oauth2ClientTest.cs:119-127 | a denied consent fails with the denial message |
| Oauth2.Oauth2Client.constructor | InoreaderCs/Auth/Oauth2Client.cs:34-37 | the parameters and persister, no cached record |
| Oauth2.Oauth2Client.LoadCached | InoreaderCs/Auth/Oauth2Client.cs:67-73 | the cached record becomes the load-step record, loading only when no access token was cached |
| Oauth2.Oauth2Client.Save | InoreaderCs/Auth/Oauth2Client.cs:95-98 | the persister holds the cached record |
| Oauth2.Oauth2Client.AuthorizeAndSave | InoreaderCs/Auth/Oauth2Client.cs:75-80 | the state and effects of an authorization followed by load and save |
| Oauth2.Oauth2Client.FetchValidUserToken | InoreaderCs/Auth/Oauth2Client.cs:63-104 | result, cached record, saved record and effects are those of the FetchValidUserToken specification |
| PasswordAuth.LoginForm | InoreaderCs/Auth/PasswordAuthClient.cs:65-70 | Email, Passwd, AppId and AppKey, in order |
| PasswordAuth.KeyValueOfRendered | InoreaderCs/Auth/PasswordAuthClient.cs:81 | a line key=value splits back into the key and the value |
| PasswordAuth.ToDictionary | InoreaderCs/Auth/PasswordAuthClient.cs:79-82 | fails only on a line without "=" or on a repeated key |
| PasswordAuth.ToDictionaryAccepts | InoreaderCs/Auth/PasswordAuthClient.cs:79-82 | a dictionary comes out only when every line has "=" and its own key |
| PasswordAuth.Lines | InoreaderCs/Auth/PasswordAuthClient.cs:80 | one key=value line per pair |
| PasswordAuth.ToDictionaryRendered | InoreaderCs/Auth/PasswordAuthClient.cs:79-82 | reading rendered lines adds exactly the pairs |
| PasswordAuth.UnionStep | InoreaderCs/Auth/PasswordAuthClient.cs:82 | adding one pair then the rest is adding all |
| PasswordAuth.EmptyUnion | InoreaderCs/Auth/PasswordAuthClient.cs:82 | the union with an empty map |
| PasswordAuth.RenderedStep | InoreaderCs/Auth/PasswordAuthClient.cs:82 | the first rendered line is read as the first pair |
| PasswordAuth.TailWellFormed | InoreaderCs/Auth/PasswordAuthClient.cs:79-82 | the rest of a well-formed answer is well formed |
| PasswordAuth.KeyAbsent | InoreaderCs/Auth/PasswordAuthClient.cs:82 | a key in no pair is not in the map |
| PasswordAuth.MapOfLookup | InoreaderCs/Auth/PasswordAuthClient.cs:82-84 | every pair's key maps to its value |
| PasswordAuth.LinesUnbroken | InoreaderCs/Auth/PasswordAuthClient.cs:80 | no rendered line holds a line break |
| PasswordAuth.ParseRendered | InoreaderCs/Auth/PasswordAuthClient.cs:79-82 | a rendered answer splits into its lines and reads back as its pairs |
| PasswordAuth.AuthTokenRead | InoreaderCs/Auth/PasswordAuthClient.cs:79-84 | an answer with an Auth line gives that token |
| PasswordAuth.DuplicateKeyRejected | InoreaderCs/Auth/PasswordAuthClient.cs:82 | a repeated key fails at that line |
| PasswordAuth.MissingSeparatorRejected | InoreaderCs/Auth/PasswordAuthClient.cs:81-82 | a line without "=" fails at that line |
| PasswordAuth.MissingAuthRejected | InoreaderCs/Auth/PasswordAuthClient.cs:84 | a well-formed answer without Auth gives no token |
| PasswordAuth.ParsedLinesWellFormed | InoreaderCs/Auth/PasswordAuthClient.cs:79-84 | every line of a parsed answer held "=" and a key of its own |
| PasswordAuth.AuthorizeAppUser | InoreaderCs/Auth/PasswordAuthClient.cs:64-91 | a rejected login fails with its status in the message; an unprocessable one is a processing error; a body is parsed for its token |
| PasswordAuth.FetchOutcome | InoreaderCs/Auth/PasswordAuthClient.cs:33-60 | the credential carries the kept token and the app's id and key; success exactly when no login was needed or it succeeded; a failed login keeps the loaded record, a successful one a record holding only the new token |
| PasswordAuth.FetchEffects | InoreaderCs/Auth/PasswordAuthClient.cs:33-60 | loads first and only without a cached token; posts and saves only without a token after loading |
| PasswordAuth.CachedTokenUsed | InoreaderCs/Auth/PasswordAuthClient.cs:37-55 | a cached token is used as it is: nothing loaded, posted or saved |
| PasswordAuth.ExampleMiss | Tests/Auth/PasswordAuthClientTest.cs:35-68 | no saved token: the form is posted and "asdf" is returned and saved |
| PasswordAuth.ExampleWrongCredentials | Tests/Auth/PasswordAuthClientTest.cs:70-82 | a 401 login fails with 401 in the message |
| PasswordAuth.PasswordAuthClient.constructor | InoreaderCs/Auth/PasswordAuthClient.cs:23-27 | the parameters and persister, no cached record |
| PasswordAuth.PasswordAuthClient.LoadCached | InoreaderCs/Auth/PasswordAuthClient.cs:37-40 | the persister's answer replaces a record without a password token |
| PasswordAuth.PasswordAuthClient.FetchValidUserToken | InoreaderCs/Auth/PasswordAuthClient.cs:33-60 | for the login's outcome as AuthorizeAppUser returns it: result, cached record, saved record and effects are those of the FetchValidUserToken specification |
| ClientRequests.WithoutErrorPrefix | InoreaderCs/Requests/ClientRequests.cs:226 | one leading "Error=" removed, other text unchanged |
| ClientRequests.TransformError | InoreaderCs/Requests/ClientRequests.cs:219-227 | Unauthorized exactly for 401 and 403; RateLimited exactly for 429; any other failure's message starts with the caller's message and is that message alone when there is no body |
| ClientRequests.ErrorBodyShown | InoreaderCs/Requests/ClientRequests.cs:222-226 | a body "Error=text" padded with white space gives "message: text" |
| ClientRequests.ErrorBodyTrimmed | InoreaderCs/Requests/ClientRequests.cs:222-226 | a body of white space, "Error=", a text and white space shows as the text |
| ClientRequests.TrimmedBody | InoreaderCs/Requests/ClientRequests.cs:226 | trimming removes exactly the padding |
| ClientRequests.TrimStartSkips | InoreaderCs/Requests/ClientRequests.cs:226 | TrimStart removes exactly leading white space |
| ClientRequests.TrimEndSkips | InoreaderCs/Requests/ClientRequests.cs:226 | TrimEnd removes exactly trailing white space |
| ClientRequests.Send | InoreaderCs/Requests/ClientRequests.cs:50-51 | the request is sent; the answer or the transformed error |
| ClientRequests.Clip | InoreaderCs/Requests/ClientRequests.cs:30 | within the bounds, the value itself when inside them, the bound it passes otherwise |
| ClientRequests.OptionalParam | InoreaderCs/Requests/ClientRequests.cs:31-35 | the parameter is present exactly when it has a value |
| ClientRequests.StreamParam | InoreaderCs/Requests/ClientRequests.cs:33-34 | the stream parameter is present exactly when a stream is given |
| ClientRequests.FilterParams | InoreaderCs/Requests/ClientRequests.cs:32-34 | only r, xt and it; r=o exactly when ascending; xt and it exactly for the given streams |
| ClientRequests.ListingHead | InoreaderCs/Requests/ClientRequests.cs:30-35 | n first; only n, ot, r, xt, it and c; r=o exactly when ascending; xt and it exactly for the given streams |
| ClientRequests.ListingTail | InoreaderCs/Requests/ClientRequests.cs:36-37 | only s, includeAllDirectStreamIds and annotations; s exactly for the id listing; includeAllDirectStreamIds always; annotations last for the detailed listing and absent from the id listing |
| ClientRequests.NamedInHead | InoreaderCs/Requests/ClientRequests.cs:30-37 | a parameter name the other part lacks keeps exactly its own pairs in a concatenation, in either order |
| ClientRequests.HeadNamesKept | InoreaderCs/Requests/ClientRequests.cs:32-34 | the r, xt and it pairs of the whole query are those of its head |
| ClientRequests.TailNamesKept | InoreaderCs/Requests/ClientRequests.cs:36-37 | the s and annotations pairs of the whole query are those of its tail |
| ClientRequests.ListArticlesRequest | InoreaderCs/Requests/ClientRequests.cs:24-74 | the contents or ids path; n clipped to 200 or 1000; r, xt, it as given; s exactly for the id listing; includeAllDirectStreamIds; annotations last and only for the detailed listing |
| ClientRequests.ScopeStream | InoreaderCs/Requests/Requests.Newsfeed.cs:11 | the newsfeed is the reading list; a folder, tag or feed its own stream |
| ClientRequests.ScopedListRequest | InoreaderCs/Requests/Requests.Folders.cs:12-21 | the article states become the xt and it streams, and the scope the s stream |
| ClientRequests.ListArticlesBrief | InoreaderCs/Requests/ClientRequests.cs:56-74 | the id listing request is sent; the answer or the error naming the stream |
| ClientRequests.PageSizeClipped | InoreaderCs/Requests/ClientRequests.cs:30 | the page size lies in 1..limit, is the asked size within it, and clipping is idempotent |
| ClientRequests.BriefNewsfeedQuery | Tests/Requests/ItemIdsTest.cs:10 | n=1, s=reading list, includeAllDirectStreamIds=true |
| ClientRequests.DetailedNewsfeedQuery | Tests/Requests/StreamContentsTest.cs:22 | n=1, includeAllDirectStreamIds=true, annotations=1 |
| ClientRequests.NewsfeedHead | InoreaderCs/Entities/StreamId.cs:19 | the reading list id and the one-parameter head |
| ClientRequests.IdParams | InoreaderCs/Requests/ClientRequests.cs:80 | one "i" field per article id, in order |
| ClientRequests.EditTagForm | InoreaderCs/Requests/ClientRequests.cs:85 | "a" or "r" with the label id first, then the ids |
| ClientRequests.MarkArticles | InoreaderCs/Requests/ClientRequests.cs:78-93 | a post to edit-tag exactly when there are ids; the count of ids on success; an error only when there were ids and the post failed |
| ClientRequests.AllOk | InoreaderCs/Requests/ClientRequests.Articles.cs:13 | every value in order when all succeed; otherwise the error of the first failure |
| ClientRequests.ShortIds | InoreaderCs/Requests/ClientRequests.Articles.cs:13 | each long id decoded in order; an error exactly when one fails, that of the first failing id |
| ClientRequests.MarkArticleObjects | InoreaderCs/Requests/ClientRequests.Articles.cs:12-41 | an undecodable id sends nothing; otherwise marks the short ids |
| ClientRequests.MarkState | InoreaderCs/Requests/ClientRequests.Articles.cs:8-9 | adds the read or starred state |
| ClientRequests.UnmarkState | InoreaderCs/Requests/ClientRequests.Articles.cs:16-17 | removes the read or starred state |
| ClientRequests.UntagArticles | InoreaderCs/Requests/ClientRequests.Articles.cs:36-37 | removes the tag's label |
| ClientRequests.ShortIdsOfDecoded | InoreaderCs/Requests/ClientRequests.Articles.cs:13 | when every long id decodes to the short id at its position, the conversion gives exactly those short ids |
| ClientRequests.TagTestShortIds | Tests/Requests/EditTagTest.cs:19-32 | the two test long ids, after any 32-character prefix, give 344691561 and 344668222 |
| ClientRequests.MyTagId | Tests/Requests/EditTagTest.cs:16-19 | the tag "My tag" is the stream user/-/label/My tag |
| ClientRequests.TagTestForm | Tests/Requests/EditTagTest.cs:17-27 | two long ids give a=user/-/label/My tag, i=344691561, i=344668222 |
| ClientRequests.MarkAllArticlesAsRead | InoreaderCs/Requests/ClientRequests.cs:115-128 | a post to mark-all-as-read with s and ts in microseconds |
| ClientRequests.RenameFolderOrTag | InoreaderCs/Requests/ClientRequests.cs:131-144 | a post to rename-tag with s and dest |
| ClientRequests.DeleteFolderOrTag | InoreaderCs/Requests/ClientRequests.cs:147-160 | a post to disable-tag with s |
| ClientRequests.RenameTestForms | Tests/Requests/RenameTest.cs:9-20 | the rename and delete forms of the tests |
| ClientRequests.ListTagAndFolderStates | InoreaderCs/Requests/ClientRequests.cs:96-112 | a get of tag/list with types=1 and counts=1; the answer or the error |
| ClientRequests.FolderStates | InoreaderCs/Requests/Requests.Folders.cs:8-9 | exactly the folder entries |
| ClientRequests.TagStates | InoreaderCs/Requests/Requests.Tags.cs:8-9 | exactly the tag entries |
| ClientRequests.ListsDisjoint | InoreaderCs/Requests/Requests.Tags.cs:8-9 | no entry is both, and together they are no more than the entries |
| ClientRequests.SubscriptionForm | InoreaderCs/Requests/ClientRequests.cs:167-173 | ac and s first; t, a and r exactly when given, a and r as folder ids |
| ClientRequests.ModifySubscription | InoreaderCs/Requests/ClientRequests.cs:163-179 | a post of that form to subscription/edit |
| ClientRequests.RenameSubscription | InoreaderCs/Requests/ClientRequests.Subscriptions.cs:34-35 | ac=edit, s, t |
| ClientRequests.RemoveFromFolder | InoreaderCs/Requests/ClientRequests.Subscriptions.cs:44-45 | ac=edit, s, r |
| ClientRequests.UnsubscribeFeed | InoreaderCs/Requests/ClientRequests.Subscriptions.cs:70-71 | ac=unsubscribe, s |
| ClientRequests.SubscriptionTestForms | Tests/Requests/SubscriptionsTest.cs:24-44 | the subscribe and add-to-folder forms of the tests |
| ClientRequests.QuickAdd | InoreaderCs/Requests/ClientRequests.Subscriptions.cs:48-59 | a post to subscription/quickadd with the feed stream |
| ClientRequests.GetUnreadCounts | InoreaderCs/Requests/ClientRequests.cs:190-198 | a get of unread-count; the answer or the error |
| ClientRequests.ToDictionary | InoreaderCs/Requests/ClientRequests.cs:214-215 | a map whose keys are exactly the entries' keys; otherwise one of those keys, the one met twice |
| ClientRequests.KeysOfMembers | InoreaderCs/Requests/ClientRequests.cs:214-215 | a key is among the entries' keys exactly when some entry carries it |
| ClientRequests.DistinctKeysSnoc | InoreaderCs/Requests/ClientRequests.cs:214-215 | keys are distinct exactly when the earlier ones are and none equals the last |
| ClientRequests.ToDictionaryDistinct | InoreaderCs/Requests/ClientRequests.cs:214-215 | a map comes out exactly when no key is repeated |
| ClientRequests.ToDictionaryContents | InoreaderCs/Requests/ClientRequests.cs:214-215 | every entry's key maps to that entry's value |
| ClientRequests.KeyedEntries | InoreaderCs/Requests/ClientRequests.cs:209-215 | exactly the responses whose id has a key, paired with their state |
| ClientRequests.KeyedCounts | InoreaderCs/Requests/ClientRequests.cs:209-216 | keys exactly the keyed responses', each with its state, and the max; else a duplicate key |
| ClientRequests.KeyedTable | InoreaderCs/Requests/ClientRequests.cs:209-216 | the table's keys are exactly the keyed responses' keys, each with its response's counts |
| ClientRequests.DistinctKeysCons | InoreaderCs/Requests/ClientRequests.cs:214 | a key absent from distinct entries keeps them distinct when put first |
| ClientRequests.KeyedCountsDefined | InoreaderCs/Requests/ClientRequests.cs:214 | distinct ids with an injective key give distinct keys |
| ClientRequests.LabelUnreadCounts | InoreaderCs/Requests/ClientRequests.cs:201-217 | the names on the chosen side (folders, or the other labels) with their counts and newest times, and the max |
| ClientRequests.LabelSidesPartition | InoreaderCs/Requests/ClientRequests.cs:213 | folder counts are for cached folders, tag counts for the rest; together they cover every label |
| ClientRequests.LabelUnreadCountsDefined | InoreaderCs/Requests/ClientRequests.cs:214 | distinct response ids never collide |
| ClientRequests.SubscriptionUnreadCounts | InoreaderCs/Requests/ClientRequests.Subscriptions.cs:74-85 | keyed by feed URI, exactly the feed responses with their states, and the max |
| ClientRequests.SubscriptionUnreadCountsDefined | InoreaderCs/Requests/ClientRequests.Subscriptions.cs:82 | distinct response ids never collide |
| ClientRequests.FirstWith | InoreaderCs/Requests/Requests.Newsfeed.cs:24-34 | present exactly when some response is for the stream |
| ClientRequests.FirstWithIsFirst | InoreaderCs/Requests/Requests.Newsfeed.cs:24-34 | the response found is for the stream and no earlier response is |
| ClientRequests.FirstWithPrefix | InoreaderCs/Requests/Requests.Newsfeed.cs:31-33 | once found in a prefix the first response does not change |
| ClientRequests.NewsfeedCountsOf | InoreaderCs/Requests/Requests.Newsfeed.cs:20-40 | counts exactly when both a reading-list and a starred response are present, carrying the max; otherwise a missing-count error |
| ClientRequests.GetNewsfeedUnreadCounts | InoreaderCs/Requests/Requests.Newsfeed.cs:20-40 | the loop with its early break gives NewsfeedCountsOf |
| Clients.InoreaderClient.constructor | InoreaderCs/LabelNameCache.cs:17-23 | a fresh empty cache of the given duration |
| Clients.InoreaderClient.TagArticles | InoreaderCs/Requests/ClientRequests.Articles.cs:24-29 | the edit-tag call; the tag is cached exactly when ids were tagged |
| Clients.InoreaderClient.TagArticleObjects | InoreaderCs/Requests/ClientRequests.Articles.cs:32-33 | the same for articles, through their short ids |
| Clients.InoreaderClient.AddToFolder | InoreaderCs/Requests/ClientRequests.Subscriptions.cs:38-41 | the subscription edit; the folder cached after success |
| Clients.InoreaderClient.Subscribe | InoreaderCs/Requests/ClientRequests.Subscriptions.cs:62-67 | the subscribe edit; a given folder cached after success |
| Clients.InoreaderClient.RenameFolder | InoreaderCs/Requests/Requests.Folders.cs:32-39 | a new name with "/" is refused before sending; otherwise the rename, with the old name replaced by the new in the folders after success |
| Clients.InoreaderClient.DeleteFolder | InoreaderCs/Requests/Requests.Folders.cs:42-45 | the delete; the folder dropped after success |
| Clients.InoreaderClient.RenameTag | InoreaderCs/Requests/Requests.Tags.cs:32-36 | the rename; old name replaced by new in the tags after success |
| Clients.InoreaderClient.DeleteTag | InoreaderCs/Requests/Requests.Tags.cs:39-42 | the delete; the tag dropped after success |
| Clients.InoreaderClient.ListTagAndFolderStates | InoreaderCs/Requests/ClientRequests.cs:96-112 | the tag/list call; an answer rebuilds the cache, a throwing entry failing the call |
| Clients.InoreaderClient.ListFolders | InoreaderCs/Requests/Requests.Folders.cs:8-9 | the tag/list request; the cache rebuilt from a successful listing and untouched by a failed one; succeeds exactly when the listing succeeded with every label entry named, with exactly the folder entries, each now in the cached folders; otherwise the first unnamed entry or the call's error |
| Clients.InoreaderClient.ListTags | InoreaderCs/Requests/Requests.Tags.cs:8-9 | the tag/list request; the cache rebuilt from a successful listing and untouched by a failed one; succeeds exactly when the listing succeeded with every label entry named, with exactly the tag entries, each now in the cached tags; otherwise the first unnamed entry or the call's error |
| Clients.InoreaderClient.GetLabelUnreadCounts | InoreaderCs/Requests/ClientRequests.cs:201-217 | the unread-count call; the cache read as GetLabelNames reads it, rebuilt exactly when stale; with a successful call and named labels the result is LabelUnreadCounts over the cached folder names, with unnamed labels the first unnamed entry's error, with a failed call its error; success exactly in the first case when the table builds |
| Clients.InoreaderClient.ListArticlesDetailed | InoreaderCs/Requests/ClientRequests.cs:24-53 | the contents call; the cache read as GetLabelNames reads it, rebuilt exactly when stale; succeeds exactly when the call succeeded and the labels are named, returning the articles with each one's folders and tags the partition of its categories by the cached folders; otherwise the first unnamed entry's error or the call's error |
| Clients.LongIds | InoreaderCs/Requests/ClientRequests.Articles.cs:13 | the long id of each article, in order |
| Clients.FoldersCached | InoreaderCs/Requests/Requests.Folders.cs:8-9 | after a good listing every folder entry's name is a cached folder |
| Clients.TagsCached | InoreaderCs/Requests/Requests.Tags.cs:8-9 | after a good listing every tag entry's name is a cached tag |

## Left out
- PasswordAuth.PasswordAuthClient.FetchValidUserToken: takes the login's outcome as AuthorizeAppUser returns it, not the endpoint's raw answer; the reading of that answer is stated by AuthorizeAppUser and the parse lemmas.

- HTTP transport, URL building and form and path URL-encoding. Requests are modelled as a path with ordered name/value pairs, and the stream id in the contents path is not escaped.
- JSON deserialisation of answers, polymorphic type discrimination apart from the discriminator itself, and the data records (subscriptions, users, annotations, links) that only carry fields.
- Concurrency. The label name cache's semaphore, the removal and re-adding of its event handler during a fetch, and the skipped Release after a cancellation are not modelled. The concurrent article and label tasks of ListArticlesDetailed and GetLabelUnreadCounts are modelled as always consulting the cache, which they do whatever the HTTP call returns.
- Cancellation tokens and OperationCanceledException.
- Clocks. The cache's stopwatch is an optional last-refresh time, and "now" is a parameter. DateTimeOffset.Now in the OAuth2 client is a parameter too.
- Randomness. The 256-character CSRF token is an input.
- The CSRF comparison. FixedTimeEquals is modelled as string equality. The fallback used below .NET Standard 2.1 compares only the common prefix of the two tokens, and it is not modelled.
- Rate-limit statistics carried by RateLimited, and the rate-limit reader.
- Logging.
- UTF-8 decoding of an error body. Bodies are already text.
- Uri parsing. A feed URI is its absolute text, and FeedStreamIdToUri is the text after "feed/".
- Article.HashCode: modelled as the crawl time, which is what equal hash codes for equal crawl times need.
- Requests.cs and Requests/Requests.Subscriptions.cs, an older copy of the request layer. The operations follow ClientRequests.cs.
- The cache's own tag/list request during GetLabelNames. Its outcome is the `Listing` parameter, and it is not recorded in a `Call`.
- Names that differ between files. PasswordAuthClient reads a property AppAuthToken that PersistedAuthTokens calls PasswordAuthToken, and Oauth2Client reads ClientId/ClientSecret where AuthParameters.cs declares AppId/AppKey. Each pair is treated as one field.
- Messages that differ between code and tests. The code's user agent "Inoreader Android v7.9.5" and login failure message "Failed to create web API user auth token: <status>" are followed over the tests' versions.
- Culture-dependent number text. Text.IntToString and Timestamps.ParseInt64 use "-" and "+" as the invariant culture does; long.ToString() and Convert.ToInt64(string) follow the current culture's signs, which are not modelled.
- Oauth2.TokenResult: the error description parsed out of the JSON body is an input, and a JSON or format error while parsing it is the processing error.
- ClientRequests.ListArticlesBrief and Clients.InoreaderClient.ListArticlesDetailed take the request as built by ListArticlesRequest, whose own contract states its query.

## Findings

| source | as written | input that shows it | evidently intended | confidence | as-written member | corrected member |
|---|---|---|---|---|---|---|
| InoreaderCs/Marshal/DateTimeOffsetReader.cs:21-33, InoreaderCs/Marshal/StringToDateTimeOffsetReader.cs:21, InoreaderCs/Marshal/StringToDateTimeOffsetConverter.cs:19 | the timestamp times ticks-per-unit is computed in unchecked `long`, so a large timestamp wraps around | 1844674407370955162 (microseconds): 1844674407370955162 × 10 = 2^64 + 4 wraps to 4, read as 4 ticks after 1970-01-01 | a timestamp whose instant is out of range is rejected (ArgumentOutOfRangeException), as the exact product would be | not executed | Timestamps.WrapCounterexample | Timestamps.ReadIsExact |
