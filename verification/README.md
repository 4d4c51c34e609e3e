# Emprega Bem API — a Dafny model of its core

Emprega Bem is a job board API written in Go. Companies post jobs, candidates
apply to them and save them, and both kinds of account sign in with JSON Web
Tokens. This project models the decision logic of that API as pure Dafny
functions and proves what the code promises about it:

- **Credentials and tokens** (`Jwt`, `Jws`, `ResetTokens`, `Hex`). This covers
  the password-strength gate, e-mail normalisation and the secret-length guard.
  It also covers session and reset tokens: HS256 JSON Web Tokens (RFC 7519,
  section 3.2 of RFC 7518) with their `iss`/`iat`/`nbf`/`exp` claims. Finally
  it covers the XOR-then-hex `hashString`.
- **Authorisation** (`AuthMiddleware`). The Authorization header is decided as
  a 401 with a reason, a 403, or "go on as (id, kind)". Bearer syntax follows
  section 2.1 of RFC 6750.
- **The stores** (`Store`, `Db`, `Candidates`, `Companies`, `JobsStore`,
  `ApplicationsStore`, `SavedJobsStore`, `ResetStore`). The MongoDB
  collections are sequences of documents in insertion order, and each
  repository call is a pure function over them.
- **The handlers**. Registration and sign-in are in `CompanyAuth` and
  `CandidateAuth`, profiles in `CompanyProfile` and `CandidateProfile`, and the
  password-reset flow in `ResetHandlers`. Applications are in
  `ApplicationHandlers`, jobs in `JobHandlers` and `CompanyJobHandlers`, and
  saved jobs in `SavedJobHandlers`. Each handler maps (collections, request) to
  (reply, collections).
- **Routing and the edge** (`Router`, `Security`, `Origins`). This covers the
  route table, the middleware each route is wrapped in, and the method tests
  inside each route. It also covers the CORS layer, the client-address
  extraction, and the parsing of the configured origin list.

Modelling conventions:

- Strings are sequences of characters, each standing for one byte of a Go
  string.
- Time is whole seconds (`now: nat`), the precision of a JWT NumericDate.
- Cryptography is a parameter: `Jws.Codec` (serialise, parse, MAC) and
  `Jwt.Hasher` (bcrypt), with only the equations the code relies on. Reads
  from crypto/rand are parameters as well.
- A transient driver failure is chosen by the caller. Every handler takes a
  set `faults` of the store calls that fail, so the error paths are modelled
  along with the happy ones.
- A reply is a status code with a body. The body is one of the error shapes
  (`{"erro": …}`, `{"error": …}`, `{"mensagem": …}`) or a typed value.
- Routing follows the rules of Go's `net/http` `ServeMux` for patterns
  without a method or host. The longest registered pattern that matches the
  path wins, and a pattern ending in '/' matches every path under it. A path
  that names such a subtree without its trailing slash is redirected to it.

## Model

| member | source | states |
|---|---|---|
| Jwt.Initialize | internal/auth/jwt.go:24-29 | A secret is installed exactly when it has at least 32 characters, and it is installed unchanged; a shorter one stops start-up. |
| Jwt.AnyChar | internal/auth/jwt.go:44-47 | A one-class regexp match holds exactly when some character of the password is in the class. |
| Jwt.ValidatePasswordStrength | internal/auth/jwt.go:38-55 | A password under 8 characters gets the length message, before any class is looked at. From 8 characters on, it is accepted exactly when it has an upper-case letter, a lower-case letter, a digit and one of the listed symbols; otherwise it gets the class message. |
| Jwt.SanitizeEmail | internal/auth/jwt.go:58-60 | The normalised address is no longer than the input, has no upper-case letter and has no whitespace at either end. |
| Jwt.SanitizeEmailTrims | internal/auth/jwt.go:58-60 | The normalised address is the lower-cased slice of the input left once a whitespace margin is cut from each end, and that slice has no whitespace at either end. |
| Jwt.SanitizeEmailSlice | internal/auth/jwt.go:58-60 | For every way of cutting whitespace margins that leaves no whitespace at the ends, the result is the lower-cased slice between them. So the address is `ToLower(TrimSpace(email))` exactly. |
| Jwt.SanitizeEmailIdempotent | internal/auth/jwt.go:58-60 | Normalising twice is normalising once, so stored addresses are fixed points. |
| Jwt.SanitizeEmailIgnoresCaseAndBlanks | internal/auth/jwt.go:58-60 | Addresses that differ only in letter case and surrounding whitespace normalise to the same address. |
| Jwt.OrXorZero | internal/auth/jwt.go:72 | The accumulator of the constant-time compare is zero exactly when the two byte strings are equal. |
| Jwt.ConstantTimeCompare | internal/auth/jwt.go:72 | The compare returns 0 or 1, and 1 exactly on equal inputs. |
| Jwt.CheckPasswordHash | internal/auth/jwt.go:69-80 | The verdict, after the constant-time compare of `boolToByte(err == nil)` with 1, is exactly bcrypt's verdict. |
| Jwt.HashThenCheck | internal/auth/jwt.go:63-73 | With a sound hasher, a digest made by `HashPassword` admits its own password and no other. |
| Jwt.ParseAuthentic | internal/auth/jwt.go:114-124 | The library parse with the validators' key function succeeds exactly on an HMAC token whose MAC under the secret matches and whose time claims hold, and it yields the token's payload. |
| Jwt.GenerateToken | internal/auth/jwt.go:83-101 | Issue fails exactly when no secret is set. Otherwise the token is HS256, signed with the secret, and carries the id, the kind, issuer "empregabem-api", iat = nbf = now and exp = now + 24 h. |
| Jwt.ValidateToken | internal/auth/jwt.go:104-135 | An unset secret is refused first, then a token over 1024 bytes, before any parsing. A token is accepted exactly when it is authentic under the secret (HMAC family, MAC, time claims) and its issuer is "empregabem-api"; the claims returned are the token's own. |
| Jwt.SessionTokenRoundTrip | internal/auth/jwt.go:83-135 | A freshly issued session token validates to exactly the claims it was issued with for the next 24 hours, and is refused as expired from then on. |
| Jws.Parse | internal/auth/jwt.go:114-124 | Parsing succeeds only on a decodable token whose algorithm gets a key from the key function and whose MAC under that key matches. The time claims must hold. A token that does not decode is Malformed. |
| Jws.ParseSign | internal/auth/jwt.go:99-124 | A token signed with the key the key function hands out parses back to its payload while its time claims hold, and fails as expired once `exp` is not after now. |
| ResetTokens.GeneratePasswordResetToken | internal/auth/password_reset.go:22-56 | Issue fails when no secret is set or the 32-byte random read fails. The unique token is 64 lower-case hex characters that decode to the random bytes. The HS256 JWT carries the normalised e-mail, the user type, `hashString(uniqueToken)`, issuer "empregabem-api-reset", iat = nbf = now and exp = now + 15 min. |
| ResetTokens.ValidatePasswordResetToken | internal/auth/password_reset.go:59-96 | An unset secret and a token over 1024 bytes are refused before parsing. A token is accepted exactly when it is authentic under the secret and carries the reset issuer, and the claims are the token's own. |
| ResetTokens.ResetExpiryCheckRedundant | internal/auth/password_reset.go:87-90 | The explicit expiry test never decides anything, because the library has already refused every token whose `exp` is not after now. |
| ResetTokens.ResetTokenRoundTrip | internal/auth/password_reset.go:22-96 | A reset token validates to the claims it was issued with for 15 minutes, with the hash of its unique token, and is refused as expired from then on. |
| ResetTokens.NoCrossUse | internal/auth/password_reset.go:83-85 | A token the session validator accepts is refused by the reset validator, and the other way round, because the issuers differ. |
| Hex.Encode | internal/auth/password_reset.go:32 | `hex.EncodeToString` gives two lower-case hex digits per byte. |
| Hex.Decode | internal/auth/password_reset.go:32 | `hex.DecodeString` of accepted text gives half as many bytes as there are digits. |
| Hex.DecodeEncode | internal/auth/password_reset.go:32 | Decoding an encoding gives the bytes back. |
| Hex.EncodeInjective | internal/auth/password_reset.go:32 | Different byte strings have different encodings. |
| Hex.DecodeAccepts | internal/auth/password_reset.go:32 | Decoding succeeds exactly on hex text of even length, in either letter case. |
| Hex.EncodeDecode | internal/auth/password_reset.go:32 | Re-encoding decoded text gives the text back in lower case, which is the canonical spelling of an accepted hex string. |
| Hex.HashString | internal/auth/password_reset.go:99-107 | `hashString` gives a lower-case hex string twice as long as its input. |
| Hex.HashStringRoundTrip | internal/auth/password_reset.go:99-107 | Hex-decoding the hash and XOR-ing every byte with 0xAA again gives the input back. |
| Hex.HashStringInjective | internal/auth/password_reset.go:99-107 | Different inputs have different hashes. |
| Hex.HashStringLoop | internal/auth/password_reset.go:99-107 | The byte loop with `append` and the final encoding yield twice as many characters as the input, and the inverse gives the input back. |
| Hex.GenerateSecureToken | internal/auth/password_reset.go:110-116 | It fails exactly when the random read fails; otherwise it yields 2n lower-case hex characters that decode to the bytes read. |
| AuthMiddleware.BearerSplit | internal/middleware/auth.go:48-49 | `SplitN(header, " ", 2)` gives exactly ["Bearer", rest] when the header starts with "Bearer " and in no other case, and then rest is what follows; "Bearer" alone has no space and fails. |
| AuthMiddleware.Authenticate | internal/middleware/auth.go:19-85 | The checks run in auth.go's order: a missing header gets "Token não fornecido", a header over 1024 bytes gets the size message, a header that is not "Bearer …" gets "Formato de token inválido", and blanks after the scheme get "Token vazio". Every refusal is a 401. A request goes on exactly when all these pass and the token validates, and it goes on with the token's id and kind. |
| AuthMiddleware.UniformTokenRejection | internal/middleware/auth.go:69-77 | Every token the validator refuses gets the same 401 "Token inválido ou expirado", whatever the cause. |
| AuthMiddleware.IssuedTokenAuthenticates | internal/middleware/auth.go:59-83 | "Bearer " followed by a freshly issued token lets its owner through with the id and kind it was issued for. |
| AuthMiddleware.RequireKind | internal/middleware/auth.go:89-99 | The kind gate passes a refusal on unchanged, refuses another kind with 403, and lets the right kind through as it came. |
| AuthMiddleware.CompanyOnly | internal/middleware/auth.go:88-101 | A request goes on exactly when authentication succeeds for a company. It is refused with 403 exactly when authentication succeeds for another kind, and authentication's own refusal is passed on unchanged. |
| AuthMiddleware.CandidateOnly | internal/middleware/auth.go:104-117 | The same gate for candidates. |
| AuthMiddleware.DoubleWrapIdempotent | internal/middleware/auth.go:19-117 | Wrapping a kind gate in `AuthMiddleware` once more, as the router does, repeats the first authentication and changes nothing. |
| Store.ObjectIdFromHex | candidates/repository.go:30-34 | `bson.ObjectIDFromHex` accepts exactly 24 hex characters, in either letter case. The id it gives is canonical: 24 lower-case hex digits. Any other text is an InvalidHex error. |
| Store.ObjectIdFromHexDecodes | candidates/repository.go:30-34 | The accepted texts are exactly those that hex-decode to 12 bytes, and the id is the lower-case encoding of those bytes. |
| Store.ObjectIdFromHexCanonical | candidates/repository.go:30-34 | A canonical id parses to itself. |
| Store.ObjectIdHasNoSlash | internal/http/handlers/saved_jobs.go:102-104 | An id never contains '/', so a path segment taken before a '/' cannot cut one. |
| Store.HexOrNil | internal/repository/saved_jobs.go:24-25 | A conversion whose error is ignored gives the parsed id, or the all-zero id when parsing fails. |
| Store.Insert | candidates/repository.go:26 | `InsertOne` appends the document exactly when no stored document has its `_id`; otherwise it fails with a duplicate-key error. It keeps ids unique. |
| Store.FindById | candidates/repository.go:37 | `FindOne` by `_id` returns a stored document with that id, and fails with "no documents" exactly when there is none. |
| Store.Replace | candidates/repository.go:55-61 | `UpdateOne` by `_id` changes only documents carrying the new document's id, and puts the new document there. It changes nothing when no document matches, keeps the length, and keeps ids unique. |
| Store.ReplaceChangesFound | candidates/repository.go:55-61 | Every document `UpdateOne` changes is the one `FindOne` returns for that id. |
| Store.ReplacePointwise | candidates/repository.go:55-61 | Under unique ids, each position holds the new document when its id matches and the old one otherwise. |
| Store.ReplaceTwice | candidates/repository.go:55-61 | Two updates of the same id amount to the last one. |
| Store.DeleteById | applications/repository.go:139-147 | `DeleteOne` by `_id` removes at most one document and nothing else. Under unique ids, the remaining documents are exactly those without that id. |
| Db.AddCandidateKeepsConsistent | internal/http/handlers/candidate_auth.go:73-92 | Adding a candidate whose e-mail is in neither collection keeps e-mails unique across both account kinds. |
| Db.AddCompanyKeepsConsistent | internal/http/handlers/company_auth.go:90-120 | Adding a company whose e-mail is in neither collection, and whose CNPJ is new, keeps e-mails unique across both kinds and CNPJs unique among companies. |
| Db.SameCandidateEmails | internal/http/handlers/candidate.go:72-82 | Rewriting candidates without changing any e-mail keeps the accounts consistent. |
| Db.SameCompanyKeys | internal/http/handlers/company.go:72-82 | Rewriting companies without changing any e-mail or CNPJ keeps the accounts consistent. |
| Candidates.Create | candidates/repository.go:21-28 | The stored candidate gets the fresh id and createdAt = updatedAt = now; every other field is as given. The insert fails on a transient error or on an id already in use. |
| Candidates.GetByEmail | candidates/repository.go:45-53 | The lookup returns a candidate with exactly that e-mail. Without a driver error, it is "no documents" exactly when none has it. |
| Candidates.GetById | candidates/repository.go:30-43 | Text that is not an id is an InvalidHex error before the store is asked. Otherwise the lookup returns the candidate with that id, and is "no documents" exactly when none has it. |
| Candidates.Update | candidates/repository.go:55-62 | A successful write puts the document, with updatedAt = now, in place of the one with its id. It fails exactly on a driver error. |
| Companies.Create | companies/repository.go:21-29 | The stored company gets the fresh id, createdAt = updatedAt = now and verification status "pending", whatever the input says; every other field is as given. |
| Companies.GetByEmail | companies/repository.go:46-54 | The lookup returns a company with exactly that e-mail, and is "no documents" exactly when none has it. |
| Companies.GetByCnpj | companies/repository.go:56-64 | The lookup returns a company with exactly that CNPJ, and is "no documents" exactly when none has it. |
| Companies.GetById | companies/repository.go:31-44 | Text that is not an id is an InvalidHex error. Otherwise the lookup returns the company with that id, and is "no documents" exactly when none has it. |
| Companies.Update | companies/repository.go:66-73 | A successful write puts the document, with updatedAt = now, in place of the one with its id. It fails exactly on a driver error. |
| JobsStore.Create | jobs/repository.go:21-36 | The stored job gets the fresh id and createdAt = updatedAt = now. The counters and every other field are stored as given, since the zero checks rewrite 0 with 0. |
| JobsStore.GetById | jobs/repository.go:38-51 | Text that is not an id is an InvalidHex error. Otherwise the lookup returns the job with that id, and is "no documents" exactly when none has it. |
| JobsStore.Update | jobs/repository.go:112-119 | A successful write puts the job, with updatedAt = now, in place of the one with its id. |
| JobsStore.Delete | jobs/repository.go:121-129 | A malformed id is an error. Otherwise the job with that id, and only it, is removed. |
| JobsStore.ExistsByTitleAndCompany | jobs/repository.go:132-144 | True exactly when some stored job has both that title and that company name. |
| JobsStore.GetByCompanyId | jobs/repository.go:147-160 | Returns exactly the jobs of that company. |
| JobsStore.Bump | jobs/repository.go:163-200 | `$inc` on one counter: a malformed id is an error, and otherwise the first job with that id gets its counter moved and nothing else changes. `IncrementViews`, `IncrementApplicants` and `DecrementApplicants` are its three instances; the decrement has no floor at zero. |
| JobsStore.List | jobs/repository.go:53-66 | Returns every job in store order. |
| JobsStore.CreateThenGet | jobs/repository.go:21-51 | A job just created is found by its id. |
| JobsStore.UpdateThenGet | jobs/repository.go:38-119 | After a successful update of a stored job, looking it up gives the written job with the new updatedAt. |
| JobsStore.IncrementViewsOnly | jobs/repository.go:163-174 | Under unique ids, `IncrementViews` adds one to the views of the job with that id and leaves every other job as it was. |
| ApplicationsStore.Create | applications/repository.go:21-29 | The stored application gets the fresh id, appliedAt = updatedAt = now and status "pending", whatever the input says. Candidate, job, company, message and viewedAt are stored as given. |
| ApplicationsStore.GetById | applications/repository.go:31-44 | Text that is not an id is an InvalidHex error. Otherwise the lookup returns the application with that id, and is "no documents" exactly when none has it. |
| ApplicationsStore.Where | applications/repository.go:46-104 | The three filters (`GetByCandidateID`, `GetByJobID`, `GetByCompanyID`) reject a malformed id. Otherwise they return exactly the applications whose field matches. |
| ApplicationsStore.ExistsByJobAndCandidate | applications/repository.go:106-128 | Both ids must parse, the job's first. The answer is true exactly when some application has that job and that candidate. |
| ApplicationsStore.Update | applications/repository.go:130-137 | A successful write replaces only the application with its id, refreshing updatedAt, and keeps ids unique. |
| ApplicationsStore.Delete | applications/repository.go:139-147 | A malformed id is an error. Otherwise exactly the application with that id is removed. |
| ApplicationsStore.CreateThenGet | applications/repository.go:21-44 | An application just created is found by its id. |
| SavedJobsStore.Save | internal/repository/saved_jobs.go:23-36 | Save always appends a new entry with a fresh id and savedAt = now. Unparsable ids become the zero id. The number of entries for the pair goes up by one, so the repository itself does not keep pairs unique. |
| SavedJobsStore.Unsave | internal/repository/saved_jobs.go:39-48 | When the pair is saved, Unsave removes its first entry in insertion order (the one `DeleteOne` matches) and keeps every other entry in order. Otherwise it changes nothing. |
| SavedJobsStore.IsSaved | internal/repository/saved_jobs.go:51-61 | True exactly when at least one entry matches the pair. |
| SavedJobsStore.GetByCandidate | internal/repository/saved_jobs.go:64-81 | Returns exactly the candidate's entries. |
| SavedJobsStore.SaveFreshPairKeepsUnique | internal/repository/saved_jobs.go:23-36 | Saving a pair that is not yet saved keeps every pair saved at most once. |
| SavedJobsStore.UnsaveKeepsUnique | internal/repository/saved_jobs.go:39-48 | Unsaving keeps every pair saved at most once. |
| ResetStore.Create | internal/repository/password_reset.go:23-30 | The record is appended with the fresh id, createdAt = now and used = false, whatever the input says. The other fields are as given. |
| ResetStore.GetByToken | internal/repository/password_reset.go:33-46 | Returns a record with that token hash, unused and expiring strictly after now. It is "no documents" exactly when no record qualifies. |
| ResetStore.MarkAsUsed | internal/repository/password_reset.go:49-62 | Sets used = true and usedAt = now on the record with that id, and leaves every other record unchanged. |
| ResetStore.MarkAsUsedRetires | internal/repository/password_reset.go:33-62 | After `MarkAsUsed(id)`, `GetByToken` never returns that record again, whatever the hash and the time. |
| ResetStore.InvalidateAllForUser | internal/repository/password_reset.go:73-88 | Sets used = true, without usedAt, on every unused record of that e-mail and user type, and leaves every other record unchanged. |
| ResetStore.InvalidateAllRetires | internal/repository/password_reset.go:33-88 | After invalidation, `GetByToken` returns no record of that e-mail and user type. |
| ResetStore.DeleteExpired | internal/repository/password_reset.go:65-70 | Removes exactly the records that expire strictly before now. |
| ResetStore.ExpiryBoundary | internal/repository/password_reset.go:38-67 | A record expiring exactly at now is neither deleted nor redeemable. |
| ResetStore.DeleteExpiredKeepsRedeemable | internal/repository/password_reset.go:33-70 | The clean-up never changes whether a token can be redeemed. |
| CompanyAuth.CheckRegister | internal/http/handlers/company_auth.go:43-84 | The checks run in order: a body that does not decode, a missing name, e-mail, password or CNPJ, a weak password, then a CNPJ that is not exactly 14 characters long. Each is a 400, and a request passes exactly when it clears all four. |
| CompanyAuth.Conflict | internal/http/handlers/company_auth.go:89-120 | The three lookups run in order: company e-mail, candidate e-mail, CNPJ. A 409 is given only when some account really holds the key. A lookup that fails with a driver error lets the request through. |
| CompanyAuth.Enrol | internal/http/handlers/company_auth.go:122-169 | After hashing, the insert appends exactly one company built from the request. A failed token issue comes after the insert, so the company stays stored while the reply is 500. The 201 reply carries the stored company. |
| CompanyAuth.EnrolSucceeds | internal/http/handlers/company_auth.go:122-169 | Enrolment answers 201 whenever bcrypt, the insert and the secret cooperate. |
| CompanyAuth.Register | internal/http/handlers/company_auth.go:42-170 | Register answers 400 exactly when the request checks fail, and 409 only with the reply of the first conflicting lookup. The collections either stay as they were or gain exactly the new company. A 201 means that no conflict was found and that the reply shows the stored company. |
| CompanyAuth.RegisterSucceedsWhenFree | internal/http/handlers/company_auth.go:42-170 | A well-formed request for an unused e-mail and CNPJ is registered whenever the store, bcrypt and the secret all cooperate. |
| CompanyAuth.RegisterKeepsAccountsConsistent | internal/http/handlers/company_auth.go:89-143 | With the lookups answering, registration keeps e-mails unique across both account kinds and CNPJs unique among companies. |
| CompanyAuth.TransientLookupAdmitsDuplicate | internal/http/handlers/company_auth.go:90-98 | A driver error on the e-mail lookup is read as "not found". A second company is then registered under an e-mail already taken, and the accounts stop being consistent. |
| CompanyAuth.RegisterIssuesSession | internal/http/handlers/company_auth.go:152-168 | The token of a successful registration is a company session for the new id, valid for the next 24 hours. |
| CompanyAuth.Login | internal/http/handlers/company_auth.go:172-234 | A body that does not decode gets 400. A 401 is always "Email ou senha incorretos". A 500 comes only from a driver error or an unset secret. A 200 shows a stored company with the normalised e-mail whose digest admits the password. |
| CompanyAuth.LoginIssuesSession | internal/http/handlers/company_auth.go:217-233 | The token of a successful sign-in is a company session for the account found, valid for the next 24 hours. |
| CompanyAuth.LoginAcceptsExactlyHolders | internal/http/handlers/company_auth.go:183-215 | With e-mails unique and the lookup answering, sign-in succeeds exactly when some company holds the normalised e-mail and the password. Every failure, unknown e-mail or wrong password, is the same 401. |
| CompanyAuth.HoldsOnlyOwner | internal/http/handlers/company_auth.go:189-215 | Under unique e-mails the only possible holder of an e-mail is the account that has it. |
| CompanyAuth.LoginFindsOwner | internal/http/handlers/company_auth.go:189-233 | Under unique e-mails, a successful sign-in returns the account with that e-mail. |
| CompanyAuth.EnrolledThenLogin | internal/http/handlers/company_auth.go:133-215 | Once registration has added a company, a sign-in with its e-mail succeeds exactly with its password, and returns it. |
| CompanyAuth.RegisterThenLogin | internal/http/handlers/company_auth.go:42-234 | A company registered with password `pw` signs in with its e-mail in any letter case or surrounded by blanks. It signs in with `pw` and with no other password. |
| CandidateAuth.CheckRegister | internal/http/handlers/candidate_auth.go:36-64 | The checks run in order: a body that does not decode, a missing name, e-mail or password, then a weak password. Each is a 400, and a request passes exactly when it clears all three. |
| CandidateAuth.Conflict | internal/http/handlers/candidate_auth.go:72-92 | The lookups run in order: candidate e-mail, then company e-mail. A 409 is given only when some account really holds the e-mail, and a driver error lets the request through. |
| CandidateAuth.Enrol | internal/http/handlers/candidate_auth.go:94-139 | After hashing, the insert appends exactly one candidate built from the request. A failed token issue leaves it stored. The 201 reply carries the stored candidate. |
| CandidateAuth.EnrolSucceeds | internal/http/handlers/candidate_auth.go:94-139 | Enrolment answers 201 whenever bcrypt, the insert and the secret cooperate. |
| CandidateAuth.Register | internal/http/handlers/candidate_auth.go:35-140 | Register answers 400 exactly when the request checks fail, and 409 only with the reply of the first conflicting lookup. The collections either stay or gain exactly the new candidate. |
| CandidateAuth.RegisterSucceedsWhenFree | internal/http/handlers/candidate_auth.go:35-140 | A well-formed request for an unused e-mail is registered whenever the store, bcrypt and the secret all cooperate. |
| CandidateAuth.RegisterKeepsAccountsConsistent | internal/http/handlers/candidate_auth.go:72-113 | With both lookups answering, registration keeps e-mails unique across both account kinds. |
| CandidateAuth.RegisterIssuesSession | internal/http/handlers/candidate_auth.go:122-139 | The token of a successful registration is a candidate session for the new id, valid for the next 24 hours. |
| CandidateAuth.Login | internal/http/handlers/candidate_auth.go:142-204 | A body that does not decode gets 400, and a 401 is always the same message. A 500 comes only from a driver error or an unset secret. A 200 shows a stored candidate with the normalised e-mail whose digest admits the password. |
| CandidateAuth.LoginIssuesSession | internal/http/handlers/candidate_auth.go:187-203 | The token of a successful sign-in is a candidate session for the account found, valid for the next 24 hours. |
| CandidateAuth.LoginAcceptsExactlyHolders | internal/http/handlers/candidate_auth.go:153-185 | With e-mails unique and the lookup answering, sign-in succeeds exactly when some candidate holds the normalised e-mail and the password. Every failure is the same 401. |
| CandidateAuth.HoldsOnlyOwner | internal/http/handlers/candidate_auth.go:159-185 | Under unique e-mails the only possible holder of an e-mail is the account that has it. |
| CandidateAuth.LoginFindsOwner | internal/http/handlers/candidate_auth.go:159-203 | Under unique e-mails, a successful sign-in returns the account with that e-mail. |
| CandidateAuth.EnrolledThenLogin | internal/http/handlers/candidate_auth.go:105-185 | Once registration has added a candidate, a sign-in with its e-mail succeeds exactly with its password, and returns it. |
| CandidateAuth.RegisterThenLogin | internal/http/handlers/candidate_auth.go:35-204 | A candidate registered with password `pw` signs in with its e-mail in any letter case or surrounded by blanks. It signs in with `pw` and with no other password. |
| CandidateProfile.GetProfile | internal/http/handlers/candidate.go:22-41 | A lookup failure of any kind is a 404 "Candidato não encontrado". A 200 shows the stored candidate whose id the caller's token names. Without a driver error, the reply is 200 exactly when that candidate exists. |
| CandidateProfile.UpdateWith | internal/http/handlers/candidate.go:43-97 | The shared handler body. A failure leaves the collections unchanged. A 200 shows the stored profile with exactly the nine editable fields taken from the body. The id, e-mail, password and creation time stay as stored, and updatedAt is now. The store receives either what is shown or what `$set` makes of it. |
| CandidateProfile.UpdateProfileAsWritten | internal/http/handlers/candidate.go:43-97 | The handler as written. On 200, the stored candidate becomes what `$set` of the shown document leaves, not the shown document. |
| CandidateProfile.UpdateProfile | internal/http/handlers/candidate.go:43-97 | The corrected handler. 404 exactly when the caller's record is missing (without a driver error), 400 exactly when it exists and the body does not decode, 500 on a failed write. Every failure leaves the collections unchanged. On 200 the caller's document is replaced by the profile shown, which is its nine editable fields from the body and everything else kept, and nothing else changes. |
| CandidateProfile.UpdateProfileKeepsConsistent | internal/http/handlers/candidate.go:72-82 | Editing a profile never changes an e-mail, so the accounts stay consistent and ids stay unique. |
| CandidateProfile.UpdateThenGet | internal/http/handlers/candidate.go:22-97 | After a successful edit, the caller reads back exactly the profile that was shown. |
| CandidateProfile.AsWrittenKeepsClearedResume | internal/http/handlers/candidate.go:74-82 | As written, a candidate who clears a filled-in résumé is answered 200 with an empty one, but the stored profile keeps the old résumé. |
| CompanyProfile.GetProfile | internal/http/handlers/company.go:22-41 | A lookup failure of any kind is a 404. A 200 shows the stored company whose id the token names. Without a driver error, the reply is 200 exactly when it exists. |
| CompanyProfile.UpdateWith | internal/http/handlers/company.go:43-97 | The shared handler body. A failure leaves the collections unchanged. A 200 shows the stored profile with exactly the nine editable fields from the body. The id, CNPJ, e-mail, password, verification status and creation time stay as stored. |
| CompanyProfile.UpdateProfileAsWritten | internal/http/handlers/company.go:43-97 | The handler as written. On 200, the stored company becomes what `$set` of the shown document leaves. |
| CompanyProfile.UpdateProfile | internal/http/handlers/company.go:43-97 | The corrected handler. 404 exactly when the caller's record is missing, 400 exactly when it exists and the body does not decode, 500 on a failed write. Failures change nothing. On 200 the caller's document is replaced by the profile shown and nothing else changes. |
| CompanyProfile.UpdateProfileKeepsConsistent | internal/http/handlers/company.go:72-82 | Editing a profile never changes an e-mail or a CNPJ, so the accounts stay consistent. |
| CompanyProfile.UpdateThenGet | internal/http/handlers/company.go:22-97 | After a successful edit, the caller reads back exactly the profile that was shown. |
| CompanyProfile.AsWrittenKeepsClearedWebsite | internal/http/handlers/company.go:75-82 | As written, a company that clears a filled-in website is answered 200 with an empty one, but the stored profile keeps the old website. |
| ResetHandlers.CheckRequest | internal/http/handlers/password_reset.go:47-74 | A request passes exactly when its body decodes, the e-mail is not empty and the user type is "company" or "candidate". Every other request is a 400. |
| ResetHandlers.StoreKeepsHashLength | internal/http/handlers/password_reset.go:114-124 | Storing a record whose hash has length n keeps every stored hash at length n, whether or not the insert fails. |
| ResetHandlers.StoredHashAsWritten | internal/http/handlers/password_reset.go:107-111 | The stored hash is a fresh `GenerateSecureToken(32)` value, or the unique token itself when that read fails. Either way it is 64 characters long. |
| ResetHandlers.RequestResetAsWritten | internal/http/handlers/password_reset.go:46-147 | The handler as written. The status is 400 exactly when the request check fails, and 200 otherwise. The reply carries `dev_token` exactly when the account exists and a token was issued. Only the reset collection can change, and it keeps all stored hashes at 64 characters. Nothing is mailed. |
| ResetHandlers.RequestReset | internal/http/handlers/password_reset.go:46-147 | The corrected handler. Every 200 reply is the same generic message. A token is mailed exactly when the request passes, the account exists and a token could be issued. Only the reset collection changes, and only then. |
| ResetHandlers.StoreIssued | internal/http/handlers/password_reset.go:113-124 | The corrected record stores `hashString` of the unique token, unused, expiring 15 minutes from now. A failed insert is ignored. |
| ResetHandlers.RequestReplyUniform | internal/http/handlers/password_reset.go:92-146 | The corrected reply does not depend on the collections, so it reveals nothing about which accounts exist. |
| ResetHandlers.RequestResetIssues | internal/http/handlers/password_reset.go:94-138 | For an existing account with a token issued, the corrected request stores the record, mails the JWT and answers with the generic message. |
| ResetHandlers.StoredRecordRedeemable | internal/http/handlers/password_reset.go:113-124 | The record just stored is redeemable by the hash of its unique token throughout the next 15 minutes, and the account still exists. |
| ResetHandlers.SetPassword | internal/http/handlers/password_reset.go:225-270 | A 404 "Usuário não encontrado" exactly when the lookup of the e-mail among accounts of that kind fails, either because there is no such account or because the store errs (the handler does not tell these apart). A 500 "Erro ao atualizar senha" exactly when the account exists and its update fails. Success exactly when the account exists and the update goes through. Then the first account with that e-mail gets the new digest and updatedAt = now, and every other account and collection is unchanged. A failure returns no new state. |
| ResetHandlers.Finish | internal/http/handlers/password_reset.go:225-285 | A 404 exactly when the lookup of the claimed account fails, a 500 exactly when it exists but its update fails, a 200 otherwise. On a 200 the password is replaced and the success message sent. Afterwards no record of that user is left open (unless invalidation fails), and marking the record used may fail silently. A failure changes nothing. |
| ResetHandlers.ResetPassword | internal/http/handlers/password_reset.go:150-285 | Every failure leaves the collections unchanged. A 200 needs all of these: a decoded body with a token, a strong new password, a valid reset token, a redeemable record for its hash and a bcrypt digest. The password is then set, and no record of the user is left open. A well-formed request with an invalid token gets the 401 "Token inválido ou expirado". |
| ResetHandlers.ResetPasswordFailures | internal/http/handlers/password_reset.go:150-285 | Each answer is tied to its cause. A 400 exactly when the body is missing, a field is empty or the password is weak. For a well-formed request: a 401 "Token inválido ou expirado" exactly when the token does not validate. Then a 401 "Token inválido, expirado ou já utilizado" exactly when no redeemable record has the token's hash, and a 500 "Erro ao verificar token" exactly when the lookup fails. Then a 500 "Erro ao processar senha" exactly when bcrypt fails. Then a 404 exactly when the account lookup fails, a 500 "Erro ao atualizar senha" exactly when its update fails, and a 200 otherwise. |
| ResetHandlers.ResetPasswordReachesFinish | internal/http/handlers/password_reset.go:161-224 | A request that clears the checks, with a redeemable record and a digest, goes on to the update step. |
| ResetHandlers.AsWrittenResetNeverCompletes | internal/http/handlers/password_reset.go:107-196 | As written, no issued reset token ever completes a reset. Its claims carry a 128-character hash, and every stored hash has 64 characters. |
| ResetHandlers.AsWrittenRevealsExistence | internal/http/handlers/password_reset.go:94-146 | As written, the reply carries `dev_token` exactly when the account exists, so the answer tells whether an e-mail is registered. |
| ResetHandlers.ResetWithRedeemable | internal/http/handlers/password_reset.go:150-285 | Without faults, a strong password, a valid token and a redeemable record for an existing account always yield the success message. |
| ResetHandlers.RequestMailsRedeemable | internal/http/handlers/password_reset.go:94-196 | A corrected request mails a token that validates for 15 minutes to the requester's normalised e-mail and kind. The record it stores is redeemable by that token's hash. |
| ResetHandlers.MailedTokenResets | internal/http/handlers/password_reset.go:150-285 | The mailed token with a strong password resets the password of the account it names. |
| ResetHandlers.RequestThenReset | internal/http/handlers/password_reset.go:46-285 | The corrected round trip: requesting a reset and then using the mailed token within 15 minutes changes exactly that account's password. |
| ResetHandlers.ReplayRefused | internal/http/handlers/password_reset.go:272-278 | After a successful reset, replaying the same request can succeed only through an open record of another user that happens to share the hash. Every record of the same user has been retired. |
| ApplicationHandlers.Apply | internal/http/handlers/applications.go:36-134 | A 404 is always "Vaga não encontrada". A 409 means the candidate already applied to that job. Every failure changes nothing. A 201 means the job exists and is active and the pair is new. It appends exactly one "pending" application, with no viewedAt, for the caller and the job, carrying the job's company and the message. The jobs collection is the result of incrementing that job's applicant count, or is unchanged when that increment fails, which does not fail the request. Nothing else changes. |
| ApplicationHandlers.ApplyKeepsOnePerPair | internal/http/handlers/applications.go:81-120 | Applying keeps at most one application per (job, candidate) pair. |
| ApplicationHandlers.ApplySucceedsWhenFree | internal/http/handlers/applications.go:36-134 | When no store call fails except possibly the counter increment, a candidate applying to an existing active job they have not applied to yet gets a 201. When the increment fails, the jobs are left as they were. |
| ApplicationHandlers.ListMine | internal/http/handlers/applications.go:136-157 | A 200 exactly when the caller's id parses and the store answers; it lists exactly the caller's applications. |
| ApplicationHandlers.Cancel | internal/http/handlers/applications.go:159-226 | A 403 "Você não pode cancelar esta candidatura" means the application exists and belongs to someone else. A 200 means it was the caller's and still "pending". Exactly that application is removed. The jobs collection is the result of decrementing its job's applicant count, or is unchanged when that decrement fails. Nothing else changes, and every failure changes nothing. |
| ApplicationHandlers.CancelKeepsOnePerPair | internal/http/handlers/applications.go:206-213 | Cancelling keeps at most one application per pair. |
| ApplicationHandlers.Applicants | internal/http/handlers/applications.go:277-286 | The applicant list pairs each application whose candidate loads with that candidate. Its length is the number of such applications. |
| ApplicationHandlers.ApplicantsAreLoadable | internal/http/handlers/applications.go:277-286 | The i-th applicant is the i-th application whose candidate loads, paired with the candidate its lookup returns. So every such application is listed once, in store order, and no other is. |
| ApplicationHandlers.GatherApplicants | internal/http/handlers/applications.go:277-286 | The `for … range` loop with `append` builds exactly that list, never longer than the applications. |
| ApplicationHandlers.ApplicantsJobId | internal/http/handlers/applications.go:230-235 | On any path, the id is the text after "/company/jobs/" with its last 11 characters dropped when more than 11 remain, and the whole rest otherwise. For a path ending in "/applicants" this is exactly the part before the suffix. |
| ApplicationHandlers.ListJobApplicants | internal/http/handlers/applications.go:228-303 | A 403 means the job exists and belongs to another company. A 200 shows the caller's own job with its applicant count replaced by the number of applicants listed, which is exactly the number of its applications whose candidate loads. The i-th listed application is the i-th of the job's applications whose candidate loads, paired with that candidate, and every listed application is for that job. |
| ApplicationHandlers.StatusApplicationId | internal/http/handlers/applications.go:313-326 | The id is the path with the prefix and one trailing "/status" removed. |
| ApplicationHandlers.WithStatus | internal/http/handlers/applications.go:385-393 | The new status and updatedAt = now are set and nothing else changes, except that viewedAt is set when, and only when, it was unset and the status becomes "viewed". |
| ApplicationHandlers.UpdateStatus | internal/http/handlers/applications.go:306-404 | A path without the prefix gets "URL inválida" and an id that is not 24 characters long gets "ID da candidatura inválido", both 400. A 200 needs a status among the seven allowed and an application of the caller's company. Only that application is changed, as `WithStatus` says. Every failure changes nothing. |
| ApplicationHandlers.ViewedAtWriteOnce | internal/http/handlers/applications.go:389-393 | Once set, viewedAt never changes, and it is only ever set by a move to "viewed". |
| ApplicationHandlers.UpdateStatusKeepsOnePerPair | internal/http/handlers/applications.go:395 | A status update keeps at most one application per pair. |
| JobHandlers.PathId | internal/http/handlers/jobs.go:143 | The id is the path after "/jobs/". |
| JobHandlers.List | internal/http/handlers/jobs.go:22-68 | Without query filters, the reply is every job in store order, or 500 "Erro ao buscar vagas" exactly when the store fails. |
| JobHandlers.Create | internal/http/handlers/jobs.go:76-140 | A 400 exactly when the body does not decode or a required field is empty. A 409 exactly when, with the lookup answering, a job with the same title and company exists. Every failure changes nothing. A 201 appends exactly one job, active whatever the body said, with the fresh id and both timestamps now, and every other field from the body. |
| JobHandlers.CreateKeepsTitlesUnique | internal/http/handlers/jobs.go:100-125 | Creating a job keeps (title, company) unique among jobs. |
| JobHandlers.CreateThenGetById | internal/http/handlers/jobs.go:76-169 | A job just created is returned by `GetByID` at "/jobs/" followed by its id. |
| JobHandlers.GetById | internal/http/handlers/jobs.go:142-169 | A 400 exactly when the id is empty, and a 404 is "Vaga não encontrada". A 200 shows the stored job with that id. With the store answering, a parsable id gets 200 exactly when the job exists. |
| JobHandlers.Update | internal/http/handlers/jobs.go:171-236 | A 404 is "Vaga não encontrada", and every failure changes nothing. A 200 needs a decoded body with the required fields and a stored job with the id. The body is written in its place with the id and createdAt kept and updatedAt now, and no other job changes. |
| JobHandlers.Delete | internal/http/handlers/jobs.go:238-277 | Every failure changes nothing. A 200 means the job existed, and exactly it is removed. |
| JobHandlers.StripLeading | internal/http/handlers/jobs.go:281-334 | The prefix is removed only when the rest is longer than the prefix and starts with it. Otherwise the text is kept. |
| JobHandlers.StripLeadingRecovers | internal/http/handlers/jobs.go:281-334 | The prefix followed by a non-empty id gives the id back, and an id not starting with the prefix is left alone. |
| JobHandlers.StripLeadingKeepsBarePrefix | internal/http/handlers/jobs.go:282-332 | The bare prefix, with nothing after it, is kept as the id. |
| JobHandlers.SetActive | internal/http/handlers/jobs.go:286-327 | A 400 exactly when the id is empty, a 404 "Vaga não encontrada", and a 500 with the handler's own message. Every failure changes nothing. On 200 the stored job gets the new active flag and updatedAt now, and is shown. |
| JobHandlers.SetActiveThenGet | internal/http/handlers/jobs.go:299-312 | After a successful switch the job reads back with the new flag, and every other job is unchanged. |
| JobHandlers.Deactivate | internal/http/handlers/jobs.go:279-327 | The id is the path after "/jobs/" with a leading "deactivate/" removed. On 200 exactly that job is stored inactive. |
| JobHandlers.Activate | internal/http/handlers/jobs.go:329-377 | The id is the path after "/jobs/" with a leading "activate/" removed. On 200 exactly that job is stored active. |
| JobHandlers.DeactivateEitherPath | internal/http/handlers/jobs.go:280-284 | "/jobs/{id}" and "/jobs/deactivate/{id}" act alike. |
| JobHandlers.ViewId | internal/http/handlers/jobs.go:381-385 | The last 5 characters are dropped whenever the rest is longer than 5, without looking at them. |
| JobHandlers.ViewIdIgnoresSuffix | internal/http/handlers/jobs.go:383-385 | Any 5 characters after a non-empty id are dropped, "/view" or not. |
| JobHandlers.RegisterView | internal/http/handlers/jobs.go:380-425 | A 400 exactly when the id is empty, and every failure changes nothing. On 200 the job existed, and under unique ids exactly its views go up by one. |
| CompanyJobHandlers.PathId | internal/http/handlers/company_jobs.go:113 | The job id is the path after "/company/jobs/". The same code recurs at lines 183, 235, 284. |
| CompanyJobHandlers.Create | internal/http/handlers/company_jobs.go:27-85 | A 400 exactly when the body does not decode or a required field is empty. Every failure changes nothing. A 201 appends exactly one job: active, owned by the caller, and carrying the name of a stored company with the caller's id. It has the fresh id and timestamps now, and its other fields come from the body. |
| CompanyJobHandlers.ListMine | internal/http/handlers/company_jobs.go:87-109 | With the store answering, the 200 list holds exactly the stored jobs whose company id is the caller's. A store failure is the only 500. |
| CompanyJobHandlers.CreatedJobIsListed | internal/http/handlers/company_jobs.go:27-109 | A job a company just created appears in that company's own list. |
| CompanyJobHandlers.FindOwned | internal/http/handlers/company_jobs.go:128-145 | Success means a stored job with the parsed id and the caller as owner. A failure is a 404 "Vaga não encontrada" or a 403 with the given refusal, and a 403 means the job exists under another owner. With the lookup answering, a stored job is found exactly when its owner is the caller. The same code recurs at lines 198-215, 245-262, 294-311. |
| CompanyJobHandlers.Update | internal/http/handlers/company_jobs.go:111-179 | A 403 is "Você não tem permissão para editar esta vaga", and every failure changes nothing. A 200 means the caller owns the stored job. The body is written in its place with the id, owner, company name and createdAt kept and updatedAt now. |
| CompanyJobHandlers.UpdateKeepsOwnership | internal/http/handlers/company_jobs.go:138-162 | No update changes any job's id, owner, company name or creation time. Jobs of other companies are left exactly as they were. |
| CompanyJobHandlers.Delete | internal/http/handlers/company_jobs.go:181-231 | A 403 is "Você não tem permissão para deletar esta vaga", and every failure changes nothing. A 200 means the caller owns the job. Under unique ids, exactly that job is gone. |
| CompanyJobHandlers.DeleteSparesOthers | internal/http/handlers/company_jobs.go:208-217 | A company never deletes a job of another company. |
| CompanyJobHandlers.CreatedJobRefusesOthers | internal/http/handlers/company_jobs.go:65-215 | Another company trying to delete a freshly created job is refused with 403. |
| CompanyJobHandlers.StripTrailing | internal/http/handlers/company_jobs.go:237-289 | The suffix is removed only when it ends the text and something is left before it. Otherwise the text is kept. |
| CompanyJobHandlers.StripTrailingRecovers | internal/http/handlers/company_jobs.go:237-289 | A non-empty id followed by the suffix gives the id back. A text not ending in the suffix is left alone. |
| CompanyJobHandlers.SetActive | internal/http/handlers/company_jobs.go:245-279 | An empty id is a 404, a 403 carries the handler's refusal, and every failure changes nothing. On 200 the caller owns the job, which is stored with the new active flag and updatedAt now and is shown. The same code recurs at lines 294-328. |
| CompanyJobHandlers.Deactivate | internal/http/handlers/company_jobs.go:233-280 | The id is the path after the prefix, with a trailing "/deactivate" removed. On 200 the caller's job is stored inactive. |
| CompanyJobHandlers.Activate | internal/http/handlers/company_jobs.go:282-329 | The id is the path after the prefix, with a trailing "/activate" removed. On 200 the caller's job is stored active. |
| CompanyJobHandlers.SetActiveStores | internal/http/handlers/company_jobs.go:264-314 | After a successful switch, the store's lookup returns the prior job with the new flag. |
| CompanyJobHandlers.SlashFreeLacksSuffix | internal/http/handlers/company_jobs.go:238-287 | A text without '/' never ends in a suffix that starts with '/'. |
| CompanyJobHandlers.SuffixedPathsNameId | internal/http/handlers/company_jobs.go:235-289 | For an object id, the paths with and without the action suffix name the same job. |
| CompanyJobHandlers.SetActiveTwice | internal/http/handlers/company_jobs.go:264-314 | Switching a job twice leaves the store as a single switch to the last value would. |
| CompanyJobHandlers.DeactivateThenActivate | internal/http/handlers/company_jobs.go:233-329 | Activating a job after deactivating it leaves the store as activating it directly would. |
| SavedJobHandlers.SaveJob | internal/http/handlers/saved_jobs.go:33-95 | A 400 exactly when the body does not decode or job_id is empty. A 404 exactly when, with the lookup answering, no stored job has that id. A 409 "Vaga já está nos favoritos" means the pair is already saved. Every failure changes nothing. A 201 means the job exists and the pair was not saved, and exactly one entry with the fresh id and the time now is appended. |
| SavedJobHandlers.SaveJobKeepsPairsUnique | internal/http/handlers/saved_jobs.go:68-85 | Saving keeps every (candidate, job) pair at most once. |
| SavedJobHandlers.SaveTwiceConflicts | internal/http/handlers/saved_jobs.go:68-82 | Saving the same job a second time is refused with 409. |
| SavedJobHandlers.UnsavePathId | internal/http/handlers/saved_jobs.go:101-110 | The job id is the first '/'-free segment after "/candidate/saved-jobs/", read off the front of the rest. |
| SavedJobHandlers.UnsavePathIdRecovers | internal/http/handlers/saved_jobs.go:103-110 | The prefix followed by an id gives the id back, whatever follows a further '/'. |
| SavedJobHandlers.UnsaveJob | internal/http/handlers/saved_jobs.go:98-141 | A 400 exactly when the id segment is empty. A 404 exactly when, with the check answering, the pair is not saved. Every failure changes nothing. A 200 means the pair was saved and its first entry is removed, with every other entry kept in order. |
| SavedJobHandlers.UnsaveJobKeepsPairsUnique | internal/http/handlers/saved_jobs.go:132 | Unsaving keeps every pair at most once. |
| SavedJobHandlers.SaveThenUnsave | internal/http/handlers/saved_jobs.go:33-141 | A job just saved can be unsaved through its path, after which the pair is no longer saved. |
| SavedJobHandlers.Found | internal/http/handlers/saved_jobs.go:166-176 | An entry gives one detail exactly when its job loads, carrying that job and the entry's save time. Otherwise it gives nothing. |
| SavedJobHandlers.Details | internal/http/handlers/saved_jobs.go:165-177 | The details are at most as many as the entries, and each shows a stored job. |
| SavedJobHandlers.DetailsAreResolvable | internal/http/handlers/saved_jobs.go:165-177 | The details show, one for one and in order, the entries whose job loads. Each shows the job its lookup returns, with the entry's save time. |
| SavedJobHandlers.DetailsCount | internal/http/handlers/saved_jobs.go:166-171 | One detail per entry whose job loads: entries of deleted jobs are skipped and no others. |
| SavedJobHandlers.DetailsTraceBack | internal/http/handlers/saved_jobs.go:166-176 | Every detail comes from some entry with the same save time and job id. |
| SavedJobHandlers.GatherDetails | internal/http/handlers/saved_jobs.go:165-177 | The loop computes exactly the details. |
| SavedJobHandlers.ListSavedJobs | internal/http/handlers/saved_jobs.go:144-181 | A 500 exactly when the candidate's entries cannot be read. On 200 the i-th detail is the i-th of the caller's entries whose job loads, shown with that job and its save time. So every such entry is shown once, in order, and no other is. |
| SavedJobHandlers.ListShowsOnlySaved | internal/http/handlers/saved_jobs.go:151-176 | Every listed job was saved by the caller, at the time shown. |
| Router.TreesEndInSlash | internal/http/router.go:28-232 | Every registered pattern is non-empty, and it ends in '/' exactly when it is a subtree. |
| Router.Parse | internal/http/router.go:28-232 | A text is recognised only as the exact text of a registered pattern. |
| Router.ParseText | internal/http/router.go:28-232 | Every registered pattern is recognised from its own text. |
| Router.TextInjective | internal/http/router.go:28-232 | No two patterns are registered under the same text. |
| Router.ParseComplete | internal/http/router.go:28-232 | A text fails to parse exactly when no pattern has it. |
| Router.MatchIsPrefix | internal/http/router.go:24 | A matching pattern's text is a prefix of the path. |
| Router.LongestUpTo | internal/http/router.go:24 | The candidate found among prefixes up to a length matches the path, within that length. |
| Router.LongestUpToIsLongest | internal/http/router.go:24 | Every matching pattern within the length is no longer than the candidate found. |
| Router.Longest | internal/http/router.go:24 | The chosen pattern matches, and no matching pattern is longer. There is none exactly when nothing matches. |
| Router.LongestIs | internal/http/router.go:24 | A matching pattern with no longer match is the one chosen. |
| Router.SlashedIsTree | internal/http/router.go:109 | A path plus '/' that is registered names a subtree. The other subtrees are registered at lines 150, 182, 212 and 232. |
| Router.Resolve | internal/http/router.go:24-238 | A redirect, to the path plus '/', happens exactly when the path is not registered and the path plus '/' is. A 404 means nothing matches. Otherwise the longest matching pattern is chosen. |
| Router.RegisteredResolvesToItself | internal/http/router.go:28-232 | The exact text of a pattern always reaches that pattern. |
| Router.ResolveSubtree | internal/http/router.go:109 | Every path under a subtree that no longer pattern shares reaches that subtree. The other subtrees are registered at lines 150, 182, 212 and 232. |
| Router.OwnedBy | internal/http/router.go:28-232 | A subtree is owned when one of its characters differs from that of every longer pattern. |
| Router.JobsTreeOwned | internal/http/router.go:109 | No longer pattern shares "/jobs/". |
| Router.CompanyJobsTreeOwned | internal/http/router.go:150 | No longer pattern shares "/company/jobs/". |
| Router.CompanyApplicationsTreeOwned | internal/http/router.go:182 | No longer pattern shares "/company/applications/". |
| Router.CandidateApplicationsTreeOwned | internal/http/router.go:212 | No longer pattern shares "/candidate/applications/". |
| Router.SavedJobsTreeOwned | internal/http/router.go:232 | No longer pattern shares "/candidate/saved-jobs/". |
| Router.SuffixLengthMismatch | internal/http/router.go:158-161 | Comparing an n-character suffix with a literal of another length never succeeds. |
| Router.SuffixIsHasSuffix | internal/http/router.go:111-184 | The length-guarded suffix test with the literal's own length says exactly "longer than the literal and ending in it". |
| Router.GuardsMatchAudience | internal/http/router.go:125-238 | Every handler a route runs sits behind the middleware for its own kind of caller. Public handlers sit behind none. |
| Router.OnlyCompanyJobsActivate | internal/http/router.go:150-164 | The activate and deactivate handlers run only from a PATCH under "/company/jobs/" that passes their suffix tests. |
| Router.Admit | internal/middleware/auth.go:19-117 | A public route admits everyone. A guarded route admits exactly as `AuthMiddleware` then `CompanyOnly` or `CandidateOnly` would, and admits only the route's kind. |
| Router.DispatchWith | internal/http/router.go:24-238 | Given the suffix lengths used, a redirect is exactly the mux's redirect and a 404 exactly its miss. A refusal happens only on a guarded route. A handler runs only as its route's closure picks it. The caller is passed exactly to non-public handlers, as the middleware admitted it. |
| Router.DispatchAsWritten | internal/http/router.go:150-179 | As written, the activate and deactivate handlers never run. |
| Router.Dispatch | internal/http/router.go:150-179 | Corrected, the activate handler runs only for a PATCH under "/company/jobs/" ending in "/activate", and likewise for deactivate. |
| Router.Serve | cmd/api/main.go:46-50 | OPTIONS is answered 204 by the CORS layer on every path. Every other request is dispatched, and the CORS headers are set on every response. |
| Router.ServeAsWritten | cmd/api/main.go:46-50 | The same chain with the CORS layer and the dispatch as written. |
| Router.PublicRoutesPostOnly | internal/http/router.go:49-97 | The six sign-up, sign-in and reset routes run their handler, with no caller, exactly for POST. Any other method gets 405. |
| Router.JobsSubtree | internal/http/router.go:109-121 | Under "/jobs/", a POST ending in "/view" registers a view and a GET shows the job. Anything else is 405. |
| Router.JobsRoute | internal/http/router.go:109-121 | Every path under "/jobs/" resolves to that subtree, whose closure picks RegisterView, GetByID or 405 as written. |
| Router.GuardBeforeMethod | internal/http/router.go:125-238 | On a guarded route, a token the middleware rejects gets its 401 before any method test. A valid token of the wrong kind is refused, and only then. |
| Router.HandlersGetTheirCaller | internal/http/router.go:125-238 | A guarded handler runs only for a valid token of its own kind, and it receives that token's id and kind. |
| Router.ApplicationStatusRoute | internal/http/router.go:182-189 | For an admitted company under "/company/applications/", a handler runs exactly for a PATCH ending in "/status", and it is the status update. |
| Router.StatusRoute | internal/http/router.go:182-189 | Every path under "/company/applications/" resolves to that subtree, whose closure runs the status update or answers 405. |
| Router.DispatchAt | internal/http/router.go:125-238 | Once a pattern is chosen and the caller admitted, the outcome is the route closure's choice, with the caller attached on guarded routes. |
| Router.ActionPathResolves | internal/http/router.go:150 | "/company/jobs/{id}/activate" and "/company/jobs/{id}/deactivate" resolve to the company-jobs subtree. |
| Router.ActionPathDispatch | internal/http/router.go:150-179 | For an admitted company, a PATCH on such a path gets what the subtree closure picks. |
| Router.AsWrittenRouteRefuses | internal/http/router.go:156-178 | With the written lengths 10 and 12, the closure answers 405 to PATCH ".../activate" and ".../deactivate". |
| Router.CorrectedRouteRuns | internal/http/router.go:156-164 | With the literals' own lengths, the closure runs Activate or Deactivate. |
| Router.AsWrittenNeverActivates | internal/http/router.go:156-178 | As written, an admitted company's PATCH to activate or deactivate a job is answered 405. |
| Router.CorrectedActivates | internal/http/router.go:156-164 | Corrected, the same request runs the matching handler with the company as caller. |
| Strings.TrimWhereSlice | internal/auth/jwt.go:59 | `strings.TrimSpace` keeps a slice of its input. Everything outside the slice is whitespace, and a non-empty slice neither starts nor ends with whitespace. |
| Strings.TrimWhereUnique | internal/auth/jwt.go:59 | Any slice with whitespace-only margins and non-blank ends is exactly what `strings.TrimSpace` returns, so that slice is unique. |
| Security.TrimSpaceKeepsOut | internal/middleware/security.go:121 | Trimming spaces never adds a character. |
| Security.RealIp | internal/middleware/security.go:115-138 | A non-empty X-Forwarded-For gives a trimmed, comma-free text no longer than the header. Otherwise a non-empty X-Real-IP is given as is. Otherwise it is RemoteAddr, cut just before its last ':' when there is one. |
| Security.ForwardedFirstHop | internal/middleware/security.go:117-122 | For a proxy chain, the client is the first entry, trimmed, whatever follows. |
| Security.ForwardedSingle | internal/middleware/security.go:117-122 | A single forwarded entry is reported trimmed. |
| Security.HostPortRoundTrip | internal/middleware/security.go:131-137 | Without proxy headers, "host:port" gives the host back. |
| Security.IsAllowed | internal/middleware/security.go:43-49 | The loop finds the origin exactly when it is configured. |
| Security.AllowOriginAsWritten | internal/middleware/security.go:51-56 | As written, a configured origin is echoed and any other gets "null". |
| Security.AllowOrigin | internal/middleware/security.go:51-56 | Corrected, the header is present exactly for configured origins and then equals the origin. |
| Security.CorsAsWritten | internal/middleware/security.go:37-72 | As written, the layer answers OPTIONS itself and forwards everything else. It always sends an allow-origin header, with credentials allowed. |
| Security.Cors | internal/middleware/security.go:37-72 | Corrected, OPTIONS is answered here and the rest forwarded. A browser shares the response exactly with configured origins. The methods, headers and max-age are the configured constants. |
| Security.AsWrittenSharesWithNullOrigin | internal/middleware/security.go:51-60 | As written, a page with an opaque origin passes the browser's credentialed CORS check although "null" is not configured. |
| Security.AsWrittenDiffersOnlyWhenRefused | internal/middleware/security.go:51-56 | The written header and the corrected one differ exactly for origins that are not configured. |
| Origins.TrimFront | cmd/api/main.go:97-99 | Only leading spaces and tabs are removed, and all of them. |
| Origins.TrimBack | cmd/api/main.go:100-102 | Only trailing spaces and tabs are removed, and all of them. |
| Origins.Trim | cmd/api/main.go:94-102 | The trimmed text is no longer than the input, and when non-empty it neither starts nor ends with a blank. |
| Origins.TrimKeepsOut | cmd/api/main.go:94-102 | Trimming never adds a character. |
| Origins.TrimOfClean | cmd/api/main.go:94-102 | A text with no blank at either end is kept unchanged. |
| Origins.Keep | cmd/api/main.go:103-105 | A piece is kept only if something is left after trimming, and what is kept is trimmed. |
| Origins.SepTest | cmd/api/main.go:89 | Comparing one byte, as a string, with the separator is the separator test. |
| Origins.PiecesClean | cmd/api/main.go:84-113 | Every piece is trimmed, and with a one-character separator no piece contains it. |
| Origins.PiecesNoSep | cmd/api/main.go:86-105 | A text without a separator gives at most one piece: itself, trimmed. |
| Origins.PiecesOfEmpty | cmd/api/main.go:86 | The empty text gives no pieces. |
| Origins.PiecesAtSep | cmd/api/main.go:88-107 | The pieces are the first piece up to the first separator, then the pieces of the rest. |
| Origins.TrimBlanks | cmd/api/main.go:94-102 | The two index loops compute the trimmed piece. |
| Origins.ScanToSep | cmd/api/main.go:88-91 | The scan stops at the first separator from i, or at the end. |
| Origins.Turn | cmd/api/main.go:86-111 | One turn of the outer loop adds the next piece. It either finishes with all the pieces or moves strictly forward. |
| Origins.SplitAndTrim | cmd/api/main.go:84-113 | `splitAndTrim` returns exactly the pieces. |
| Origins.DropEmpty | cmd/api/main.go:75-80 | The result is exactly the non-empty entries, in order. So no empty origin is kept, and a list that has none is kept unchanged. |
| Origins.PiecesNonEmpty | cmd/api/main.go:103-105 | No piece is empty or has a comma, and every piece is trimmed. |
| Origins.ParseOrigins | cmd/api/main.go:71-82 | An empty setting gives "http://localhost:3000". Any other gives exactly the pieces, each trimmed and comma-free. |
| Origins.PiecesOfJoined | cmd/api/main.go:84-113 | Splitting a comma-joined list of trimmed, comma-free origins gives the list back. |
| Origins.SingleOrigin | cmd/api/main.go:71-82 | A single trimmed origin is parsed as itself. |

## Left out

- The rate limiter (internal/middleware/security.go:75-112) is left out. It keeps per-address counters in a plain `map[string]int`, with no lock and no timer. A request is refused with 429 once its address's counter reaches the limit. Otherwise the counter is incremented before `next.ServeHTTP` and decremented after it, so it counts requests in flight. Concurrent handlers update the map without synchronisation, which the model cannot express. `Security.RealIp`, the address it keys on, is modelled.
- The security-header and input-sanitising middleware (security.go:9-34, 141-148) is left out, because it only sets fixed response headers and wraps the body. The same goes for the security headers `AuthMiddleware` sets.
- The background `SetApplicantsCount` write in `ListJobApplicants` (applications.go:291) is left out, because it is a goroutine that races the reply. The reply's own count is modelled.
- The maintenance route's handler (maintenance.go) is left out, and so is the health check. The router models only their place in the route table.
- The filters and free-text search of the public job list (jobs.go:26-52) are left out. They are case-insensitive regular expressions and a float parse of the salary bound. `JobHandlers.List` models the unfiltered list.
- JSON and BSON encoding and decoding are left out. A body that fails to decode is `None`, and a decoded body is the record itself.
- Go's `null` encoding of an empty saved-jobs list (saved_jobs.go:165) is not distinguished from `[]`.
- bcrypt, HMAC-SHA256, base64url and crypto/rand are parameters (`Jwt.Hasher`, `Jws.Codec`, random bytes). Only the equations the code relies on are assumed of them.
- Request timeouts and contexts are left out, because a cancelled context is one more transient store failure, which `faults` already covers.
- Start-up is left out: configuration loading, the MongoDB connection and `ListenAndServe`. The secret-length guard and `parseOrigins` are modelled.
- `ServeMux` path cleaning is left out: "..", double slashes, host patterns and the 301 for unclean paths. Paths are taken as already clean.
- Lower-casing of e-mails is ASCII-only. Go's `strings.ToLower` also folds non-ASCII letters.
- Strings.IsSpace: whitespace is ASCII only (space, \t, \n, \v, \f, \r). Go's `strings.TrimSpace` also cuts U+0085, U+00A0 and the other Unicode spaces. This affects `Jwt.SanitizeEmail` (jwt.go:59), the empty-token check of `AuthMiddleware.Authenticate` (auth.go:59) and `Security.RealIp` (security.go:121). For input with such characters at an end, the model keeps them where Go would cut them.
- JobHandlers.PathId: requires the path to be at least as long as "/jobs/", which the router guarantees for every path it sends there. The same holds for the other handlers whose path `requires` name their route's prefix (`CompanyJobHandlers`, `ApplicationHandlers.Cancel`, `ApplicationHandlers.ListJobApplicants`).
- JobsStore.Update: writes the whole document. The repository's `$set` of a `Job` (jobs/repository.go:114-115) leaves out the `omitempty` fields when they are empty: salary, job_type, level, requirements and benefits. Clearing one of them through a job update therefore keeps the old value. This is the mechanism of the profile finding below, which is modelled for profiles only.
- Candidates.Update, Companies.Update, ApplicationsStore.Update: each writes the whole document in place of the stored one. The repositories' `$set` (candidates/repository.go:58, companies/repository.go:69, applications/repository.go:133) skips `omitempty` fields that are empty, so the stored value of such a field survives. For candidates and companies this rule is applied one level up, by `SetOver` in the as-written profile handlers. For applications nothing observes it: the one caller, the status update, never empties `message` or `viewed_at` (applications/model.go:15-17).

## Findings

| source | as written | input that shows it | evidently intended | confidence | as-written member | corrected member |
|---|---|---|---|---|---|---|
| internal/http/handlers/password_reset.go:107-118, 196 | The stored reset record gets `TokenHash` from a fresh `GenerateSecureToken(32)`, which is 64 hex characters. The token's claim is `hashString(uniqueToken)` (internal/auth/password_reset.go:35), which is 128 characters. `ResetPassword` looks the record up by the claim. | Any reset request for an existing account, followed by `/auth/reset-password` with the issued token and a valid new password. The lookup finds no record, and the answer is 401. | Store `hashString(uniqueToken)`, so the issued token redeems its record once. | not executed | ResetHandlers.AsWrittenResetNeverCompletes | ResetHandlers.RequestThenReset |
| internal/http/handlers/password_reset.go:92-137 | For an existing account the reply carries `dev_token`. For an unknown e-mail it carries only the generic message. | Two requests, one with a registered e-mail and one with an unregistered one. Only the first reply has a `dev_token` field. | The same reply whatever the store holds, as the generic message says, with the token delivered out of band. | not executed | ResetHandlers.AsWrittenRevealsExistence | ResetHandlers.RequestReplyUniform |
| internal/http/router.go:156-164 | `path[len(path)-10:] == "/activate"` compares 10 characters with a 9-character literal. `path[len(path)-12:] == "/deactivate"` compares 12 with 11. | PATCH /company/jobs/{id}/activate from a signed-in company is answered 405, and the activate and deactivate handlers are never reached. | Compare suffixes of the literals' own lengths. | not executed | Router.AsWrittenNeverActivates | Router.CorrectedActivates |
| internal/http/handlers/candidate.go:82 | The edited profile goes to the repository's `$set` (candidates/repository.go:57-58). That drops the empty `omitempty` fields (candidates/model.go:24-30), and company.go:82 does the same with companies/model.go:17-22. | A candidate with a résumé sends PUT /candidate/me with `resume` empty. The reply shows no résumé, but the stored profile keeps the old one. | Store the profile the reply shows, so a field can be cleared. | not executed | CandidateProfile.AsWrittenKeepsClearedResume | CandidateProfile.UpdateThenGet |
| internal/middleware/security.go:51-56 | A disallowed origin gets `Access-Control-Allow-Origin: null` together with `Access-Control-Allow-Credentials: true`. The comment at that branch says no header should be sent. | A sandboxed iframe or a `file:` page, whose Origin is "null", sends a credentialed request. The browser's CORS check of the Fetch standard passes, so the page reads the response. | Send no Access-Control-Allow-Origin for a disallowed origin. | not executed | Security.AsWrittenSharesWithNullOrigin | Security.Cors |
