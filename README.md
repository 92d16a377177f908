# Session lockout and content store — a Dafny model

This project models the core of a small web API written in Rust: accounts sign up, sign in and receive a session token, and a per-account session record counts failed password checks and locks the account at a threshold. Every request then cross-checks its token against that record. Beside this sits a content table with post/get/edit/remove and a paged, title-filtered listing.

What is modelled, by source file:

- `src/models/entities/auth.rs`: the session record. `AuthModel.AuthRow` is the row as a value. Its transitions (`Missmatched`, `Signin`, `Signout`) and the pure constructors and predicate (`NewMissmatched`, `NewSignin`, `IsTimeout`) are functions. `AuthModel.AuthEntity` is the object the use cases mutate in place through the `&mut self` methods; each method is proved against the matching function. The source's spelling `missmatch` is kept.
- `src/repositories/implementations/{auth,member}.rs`: the `auth` and `member` tables. Each is a class holding `map<string, …>` keyed by account. The invariant is that every record sits under its own account (the primary key).
- `src/repositories/implementations/content.rs`: the `content` table. It is a class holding the rows in rowid order and the AUTOINCREMENT counter. `Count` and `List` are pure queries built from a prefix filter, a newest-first sort (proved sorted and a permutation) and SQLite's `LIMIT … OFFSET …`.
- `src/use_cases/auth.rs`: `AuthService.AuthUseCases`, holding the two stores. Sign-up, sign-in (lock check before password check, a failed attempt written and reported as an error), authentication (exact match of token id, issue and expiry time) and sign-out.
- `src/use_cases/content.rs`: `ContentService.ContentUseCases`.
- `src/models/dtos/*.rs`: the DTO projections and the `ContentDto` round trips.

Parameters stand in for what the code gets from outside:
- The clock is a `now: Timestamp` argument, in integer epoch seconds.
- Argon2 hashing and verification are the function arguments `hash` and `verify`.
- The token library is the `Jwt` module. A token is either `Signed(claims)` or arbitrary text, and the token id `jti` is an argument.
- The lockout threshold and token lifetime are constructor arguments. The source's defaults are 3 and 3600 s.

Facts about the code that the model keeps:
- The lock is a plain threshold, `missmatch >= MAX_MISSMATCH_COUNT`. There is no `challenge_at` field and no time window.
- A failed attempt clears only `jwt_id` and keeps `issued_tm` and `expired_tm`.
- An unknown account at sign-in fails with `RowNotFound`. This is a different error from the "password does not match" of a wrong password.
- `authenticate` never compares the expiry with the clock.

Transactions are not modelled as such. Every path that returns without committing has written nothing, so its rollback changes nothing. Every path that commits has applied all of its writes.

## Model

| member | source | states |
|---|---|---|
| `AuthModel.NewMissmatched` | src/models/entities/auth.rs:18-28 | a first failed attempt creates a record for the account with counter 1, no token fields and no login history |
| `AuthModel.AuthRow.Missmatched` | src/models/entities/auth.rs:30-33 | a failed attempt raises the counter by exactly one and clears the token id; account, issue and expiry times and login history are unchanged |
| `AuthModel.NewSignin` | src/models/entities/auth.rs:35-45 | a first successful sign-in creates a record for the claims' subject holding the claims' id, issue and expiry times, counter 0, login time `now`, no previous login |
| `AuthModel.AuthRow.Signin` | src/models/entities/auth.rs:47-55 | a successful sign-in sets all three token fields from the claims, resets the counter to 0, moves the old login time to the previous one, sets the login time to `now`, keeps the account |
| `AuthModel.AuthRow.Signout` | src/models/entities/auth.rs:65-69 | sign-out clears the three token fields only; counter, account and login history are preserved |
| `AuthModel.SignoutIdempotent` | src/models/entities/auth.rs:65-69 | signing out twice equals signing out once |
| `AuthModel.SignoutTimesOut` | src/models/entities/auth.rs:57-69 | after sign-out the record is timed out at every instant |
| `AuthModel.AuthRow.IsTimeout` | src/models/entities/auth.rs:57-63 | defines the timeout test: a record without an expiry is always timed out, otherwise it is timed out once `now` (seconds) is strictly past the expiry; its properties are the lemmas below |
| `AuthModel.TimeoutIsStrict` | src/models/entities/auth.rs:57-63 | with an expiry present, timed out exactly when strictly past it: not at the expiry instant, but one second later |
| `AuthModel.SigninLiveUntilExpiry` | src/models/entities/auth.rs:35-63 | after either kind of sign-in the record times out exactly when the new claims expire |
| `AuthModel.MissmatchedKeepsExpiry` | src/models/entities/auth.rs:30-63 | a failed attempt does not change whether the record is timed out, since the expiry is kept |
| `AuthModel.AuthEntity.FromRow` | src/models/entities/auth.rs:6-15 | the entity materialised from a fetched row has exactly that row's fields |
| `AuthModel.AuthEntity.Missmatched` | src/models/entities/auth.rs:30-33 | the in-place update leaves the entity equal to the failed-attempt transition of its old value |
| `AuthModel.AuthEntity.Signin` | src/models/entities/auth.rs:47-55 | the in-place update leaves the entity equal to the sign-in transition of its old value |
| `AuthModel.AuthEntity.Signout` | src/models/entities/auth.rs:65-69 | the in-place update leaves the entity equal to the sign-out transition of its old value |
| `Jwt.DecodeEncode` | src/use_cases/auth.rs:84-85 | a token issued for some claims decodes back to those claims |
| `AuthDtos.SignupDto.ToEntity` | src/models/dtos/auth.rs:15-24 | the member row copies account, password (verbatim), name and email, with both timestamps empty |
| `AuthDtos.ToEntityIgnoresConfirmation` | src/models/dtos/auth.rs:6-24 | the confirmation password is not carried into the member row |
| `MemberDtos.AuthMemberDto.FromEntity` | src/models/dtos/member.rs:15-24 | account, name and email come from the member record; login and previous login from the session record |
| `MemberDtos.FromEntityHidesSecrets` | src/models/dtos/member.rs:7-24 | the view depends on those five fields only: password hash, timestamps, token fields and counter never reach it |
| `ContentDtos.ContentDto.FromEntity` | src/models/dtos/content.rs:16-24 | copies id, account, post time, title and body |
| `ContentDtos.ContentDto.ToEntity` | src/models/dtos/content.rs:26-36 | copies the same five fields and leaves both timestamps empty |
| `ContentDtos.FromEntityToEntity` | src/models/dtos/content.rs:16-36 | payload → row → payload is the identity |
| `ContentDtos.ToEntityFromEntity` | src/models/dtos/content.rs:16-36 | row → payload → row gives the row with its two timestamps cleared |
| `AuthStore.AuthRepository.constructor` | src/commons/setup.rs:26-38 | a new auth table is empty |
| `AuthStore.AuthRepository.Create` | src/repositories/implementations/auth.rs:18-33 | inserts the record and returns it, after which it is found under its account; a second insert for the same account fails and changes nothing |
| `AuthStore.AuthRepository.Find` | src/repositories/implementations/auth.rs:35-42 | finds a record exactly when the account has one, and the record found belongs to that account; an absent account gives none |
| `AuthStore.AuthRepository.Update` | src/repositories/implementations/auth.rs:44-59 | for an existing account, overwrites every non-key field and returns the new record; for an absent account returns none and changes nothing; other accounts are untouched |
| `AuthStore.AuthRepository.Delete` | src/repositories/implementations/auth.rs:61-69 | returns 1 and removes the record when it exists, 0 otherwise |
| `MemberStore.MemberRepository.constructor` | src/commons/setup.rs:13-24 | a new member table is empty |
| `MemberStore.MemberRepository.Create` | src/repositories/implementations/member.rs:18-30 | inserts account, password, name and email with both timestamps set to the current time, after which the same account and password are found; an existing account fails and changes nothing |
| `MemberStore.MemberRepository.Find` | src/repositories/implementations/member.rs:32-39 | finds a record exactly when the account has one, and it belongs to that account |
| `MemberStore.MemberRepository.Update` | src/repositories/implementations/member.rs:41-53 | for an existing account, sets password, name and email and stamps the update time, keeping key and creation time; an absent account gives none and no change |
| `MemberStore.MemberRepository.Delete` | src/repositories/implementations/member.rs:55-63 | returns 1 for an existing account (now gone), 0 for an absent one |
| `ContentStore.MatchesTitle` | src/repositories/implementations/content.rs:66-105 | defines the title filter of `list` and `count` (`LIKE` with the title followed by `%`) as "the title starts with the given prefix", and no test without a title |
| `ContentStore.Filter` | src/repositories/implementations/content.rs:66-105 | the filtered rows are exactly the table's rows whose title starts with the given prefix, each as often as in the table; no prefix keeps every row |
| `ContentStore.SortByPostAtDesc` | src/repositories/implementations/content.rs:70-78 | the result is ordered by post time, newest first, and is a permutation of its input |
| `ContentStore.Page` | src/repositories/implementations/content.rs:70-81 | `LIMIT`/`OFFSET` as SQLite evaluates them: a contiguous run after the offset (a negative offset counts as 0) of at most `limit` rows, or all of them for a negative limit |
| `ContentStore.ContentRepository.constructor` | src/commons/setup.rs:40-52 | a new content table is empty and hands out key 1 first |
| `ContentStore.ContentRepository.Find` | src/repositories/implementations/content.rs:32-39 | returns a row with the key when one exists, none otherwise; keys are unique, so it is the only such row |
| `ContentStore.ContentRepository.Create` | src/repositories/implementations/content.rs:18-30 | ignores the supplied key and appends the row under the next auto-increment key, previously unused, with both timestamps the current time; the new key then finds it |
| `ContentStore.ContentRepository.Update` | src/repositories/implementations/content.rs:41-54 | the row with the key gets the new account, post time, title and body (key and timestamps kept) and is returned; every other row stays; an absent key gives none and no change |
| `ContentStore.ContentRepository.Delete` | src/repositories/implementations/content.rs:56-64 | returns 1 and removes the row when the key exists, 0 and no change otherwise; no other row goes, and the counter is not rewound |
| `ContentStore.ContentRepository.Count` | src/repositories/implementations/content.rs:89-105 | the number of filtered rows: all rows without a prefix, at most all rows with one |
| `ContentStore.ContentRepository.List` | src/repositories/implementations/content.rs:66-87 | the page is newest first, holds only matching rows of the table, at most `size` of them, and, for `page ≥ 1` and `size ≥ 0`, exactly `min(size, max(0, count - (page-1)*size))` of them |
| `ContentStore.ConsecutivePages` | src/repositories/implementations/content.rs:66-87 | for `page ≥ 1` and `size ≥ 1`, no row of page `page + 1` is newer than any row of page `page`, and the two pages together hold no matching row more often than the table does, so they are disjoint and in order |
| `ContentStore.FirstPageStartsNewest` | src/repositories/implementations/content.rs:66-87 | when some row matches, page 1 is not empty and its first row is at least as new as every matching row |
| `ContentStore.TwentyRowsInPagesOfTen` | src/repositories/implementations/content.rs:324-332 | with 20 rows and pages of 10, page 2 holds 10 rows and page 3 none |
| `ContentStore.TitlePrefixOnTwentyRows` | src/repositories/implementations/content.rs:268-322 | with ten rows titled "test" followed by ten titled "title", the prefix "title" counts 10 rows and the first page of ten for the prefix "tit" is full |
| `ContentService.ContentUseCases.constructor` | src/use_cases/content.rs:8-12 | the use cases work on the given store, which starts out satisfying the table invariant every operation relies on |
| `ContentService.ContentUseCases.Post` | src/use_cases/content.rs:15-27 | stores the payload as a new row and returns the caller's payload under the fresh key, which then finds it; the key counter advances by exactly one |
| `ContentService.ContentUseCases.Get` | src/use_cases/content.rs:29-42 | none exactly when no row has the key, otherwise the payload of that row |
| `ContentService.ContentUseCases.Edit` | src/use_cases/content.rs:44-57 | a missing key is an error with no change; otherwise the row gets the new fields and the payload is returned as given; no other row changes |
| `ContentService.ContentUseCases.Remove` | src/use_cases/content.rs:59-75 | a missing key is an error with no change; otherwise returns 1 and the row is gone; the key counter is never rewound, so a removed key is not handed out again |
| `ContentService.PostGetEditRemove` | src/use_cases/content.rs:86-121 | post, get, edit and remove in sequence all succeed and the removal reports one row |
| `AuthService.TokenMatches` | src/use_cases/auth.rs:119-121 | defines the match `authenticate` demands: the record's token id, issue time and expiry time all equal the token's claims; its properties are the lemmas and contracts below |
| `AuthService.IsLocked` | src/use_cases/auth.rs:55-57 | defines the lock test: the account has a session record whose counter has reached the threshold; an account without a record is never locked |
| `AuthService.MissRecord` | src/use_cases/auth.rs:63-82 | after a wrong password the counter is the previous count plus one (an absent record counting as 0) and the record accepts no token |
| `AuthService.SigninRecord` | src/use_cases/auth.rs:84-101 | after a correct password the record accepts exactly the new claims' token, has counter 0, login time `now`, and the previous login time of the old record |
| `AuthService.SignoutRejectsEveryToken` | src/use_cases/auth.rs:107-162 | after sign-out no token passes the authentication match |
| `AuthService.SigninSupersedesToken` | src/use_cases/auth.rs:84-124 | after a later sign-in, a token that differs from the new claims in id, issue or expiry time fails the match |
| `AuthService.LockIsSticky` | src/use_cases/auth.rs:55-82 | a locked account stays locked after a failed attempt or after a sign-out |
| `AuthService.MissesCount` | src/use_cases/auth.rs:63-82 | k failed-attempt writes (the wrong-password branch, which sign-in takes only while the account is not locked) raise the counter by exactly k; `ThresholdMissesLock` shows the first m wrong passwords from an unlocked start all take that branch |
| `AuthService.ThresholdMissesLock` | src/use_cases/auth.rs:55-59 | for a threshold m ≥ 1, an account without a record, or whose counter is 0 (as after any successful sign-in), is unlocked after each of its first m-1 consecutive wrong passwords and locked after the m-th |
| `AuthService.AuthUseCases.constructor` | src/use_cases/auth.rs:11-15 | the use cases work on the given stores and configuration, and start out satisfying the store invariants every operation relies on |
| `AuthService.AuthUseCases.Signup` | src/use_cases/auth.rs:18-37 | a confirmation mismatch or an existing account is an error and writes nothing; otherwise the member is stored with `hash(password)`, the given name and email and current timestamps |
| `AuthService.AuthUseCases.Signin` | src/use_cases/auth.rs:39-105 | unknown account: error, no change; locked: "account is locked" before the password is checked, no change; wrong password: failed attempt written, error returned; correct password: new session written, its token returned; other accounts unchanged |
| `AuthService.AuthUseCases.Authenticate` | src/use_cases/auth.rs:107-134 | succeeds exactly when the token decodes, its subject has a session record whose token id, issue and expiry times all equal the token's, and a member record; returns that member's view, for the token's account; each failure gives the source's error |
| `AuthService.AuthUseCases.Signout` | src/use_cases/auth.rs:136-162 | always succeeds; no record means no change, otherwise the token fields are cleared and no token of the account is accepted afterwards |
| `AuthService.SessionScenario` | src/use_cases/auth.rs:174-211 | sign-up, sign-in and authentication with the returned token succeed and yield the signed-up account; continuing the same run, a second sign-in makes the first token invalid and sign-out makes the second token invalid |
| `AuthService.LockoutScenario` | src/use_cases/auth.rs:213-257 | with threshold 3, three wrong passwords are refused as mismatches and then the correct password is refused as locked |

## Left out

- The HTTP layer (routing, handlers, bearer-header extraction, status codes, the `OptionAuthMemberDto` wrapper used by the middleware) is transport plumbing and is not part of this model.
- Argon2 is left out: salting and memory-hardness cannot be expressed here, so `hash` and `verify` are parameters.
- `AuthService.AuthUseCases.Signup`: a failure of the hasher is not modelled; `hash` is treated as always succeeding.
- `AuthService.AuthUseCases.Signin`: a failure of `verify` or of token encoding is not modelled; the caller supplies a fresh `jti`, since uniqueness of token ids is the library's promise.
- `AuthService.AuthUseCases.Authenticate`: what `decode` checks beyond structure (signature, expiry) belongs to the token library, which is not part of this model; an `Unsigned` token stands for every token it rejects.
- Database failures other than the primary-key violation (connection loss, I/O errors) are not modelled, and neither is the transaction machinery (`begin`, `acquire`, `commit`). Each operation's writes apply atomically.
- The lock check reads the auth record before the write transaction starts. The race this allows between concurrent sign-ins for one account is a concurrency issue, and operations here run one at a time.
- Environment configuration parsing is left out; the threshold and token lifetime are constructor parameters.
- `AuthModel.AuthRow.Signin`: the source reads the clock separately for `iat` (seconds) and `login_at` (a date-time); the model uses one `now` for both.
- `AuthModel.AuthRow.Missmatched`: the counter is an unbounded integer, so the 32-bit overflow of `missmatch += 1` is not modelled.
- `ContentStore.ContentRepository.List`: `(page - 1) * size` is computed in 32-bit arithmetic in the source; its overflow is not modelled.
- `ContentStore.MatchesTitle`: SQLite's `LIKE` is ASCII case-insensitive and treats `%` and `_` in the prefix as wildcards; the model uses a plain prefix test.
- `ContentStore.SortByPostAtDesc`: rows with equal post time keep table order in the model; the database leaves their order open.
- `challenge_at` and any time-windowed unlock: some tests build session records with that field, but the entity and its table have no such column, so it is not modelled.
- `Utc::now()` and SQLite's `CURRENT_TIMESTAMP` are both the `now` argument.
