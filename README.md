# A verified model of the blog backend's core

This Dafny project models the server side of a small Express + Prisma blog. It covers:

- the request-body validator `validate(data, rules)`;
- the in-memory post store (`postservices.ts`) and the post controller that drives it;
- the two bearer-token parsers and the authenticating middleware built on them;
- the role guards;
- the token service (login, registration, access and refresh tokens);
- the user-administration controller;
- the post, category and tag services that read and write the database.

Each source file becomes one module:

- `validate.dfy` (Validate);
- `post_repository.dfy` (PostRepository);
- `post_controller.dfy` (PostController);
- `auth_middleware.dfy` (AuthMiddleware);
- `auth_controller.dfy` (AuthController);
- `auth_service.dfy` (AuthService);
- `user_controller.dfy` (UserController);
- `post_service.dfy` (PostService);
- `category_service.dfy` (CategoryService);
- `tag_service.dfy` (TagService).

Supporting modules:

- Wrappers: optional values, replies and middleware outcomes.
- Strings: JavaScript's `split`, `startsWith`, `parseInt`, number printing, case-insensitive `includes` and string order.
- Sorting: the `orderBy` of a query, as an insertion sort proved sorted and a permutation.
- Jwt: signed, expiring tokens.
- Users: the user table.
- Requests: the Express request the middleware mutate.
- ContentStore: the post, category and tag tables, whose rows differ pairwise in id and in slug, and the links from posts to categories and tags.

Code that changes state step by step is imperative Dafny:

- The in-memory store is the class `PostRepository.Store`, whose methods reassign `posts` and `nextId`.
- The content database is the class `ContentStore.Database`. The service methods modify it and keep its invariant `Valid()`: no two positions of a table share an id or a slug (so no row appears twice), ids below the next id of each sequence, and no post linked to a missing category or tag.
- The request is the class `Requests.Request`. The middleware are methods that write `user` and `jwtPayload`.
- `validate` is a method with the source's loop. It is proved against a specification function `Errors`.

Code that only decides (the token service, the user controller, header parsing, role guards) is made of functions.

The foreign libraries are parameters:

- `jsonwebtoken` is a `JwtLib` value. The model assumes only that a signed token opens to what was signed, is a non-empty word, and that the empty string is not a token.
- `bcrypt` is a `Bcrypt` value. The model assumes only that a password matches its own hash.
- `slugify` is a `string -> string` function.
- The clock (`Date.now()`, `new Date()`) is a `now` argument in milliseconds.
- The validator's `pattern` and `custom` callbacks are functions inside the rule.

The database is an in-memory table. Its refusals are the outcomes `None` or `Refused`. They cover:

- an update or delete of a missing id;
- a negative `skip` or `take`;
- a taken unique slug or e-mail;
- a link to a missing row.

## Model

| member | source | states |
|---|---|---|
| Validate.Validate | blog-backend/src/utilis/validate.ts:29-124 | The errors returned are exactly `Errors(data, rules)`. These are the issues of each rule's field, rule by rule in the order of the rules, each worded as the source words it. |
| Validate.CheckField | blog-backend/src/utilis/validate.ts:36-120 | One pass of the loop appends exactly the issues of that field. A blank required value gets only "is required". A blank optional value gets nothing. A present value gets the type, string, number and custom checks in that order. Blank is `Validate.IsBlank`: `undefined`, `null` or `''`. |
| Validate.CheckPresent | blog-backend/src/utilis/validate.ts:50-120 | For a present value the checks run one after the other, and their issues accumulate in that order. |
| Validate.CheckType | blog-backend/src/utilis/validate.ts:50-64 | The type check pushes "must be an array" when `array` is asked for and the value is not an array. It pushes "must be a <type>" when another type is asked for and `typeof` differs. Otherwise it pushes nothing. `typeof` is `Validate.TypeOf`. |
| Validate.CheckString | blog-backend/src/utilis/validate.ts:66-91 | For a string, the minLength, maxLength and pattern checks each push their error independently, in that order. |
| Validate.CheckNumber | blog-backend/src/utilis/validate.ts:93-109 | For a number, the min and max checks each push their error independently, in that order. |
| Validate.CheckCustom | blog-backend/src/utilis/validate.ts:111-120 | A custom result other than `true` pushes one error. A string result is the message; any other result gives "<field> is invalid". |
| Validate.FieldIssuesEmpty | blog-backend/src/utilis/validate.ts:36-120 | A field gets no error if and only if its value satisfies `Accepts`, an independent statement of the rule's meaning. |
| Validate.ErrorsEmpty | blog-backend/src/utilis/validate.ts:29-124 | `validate` returns no error if and only if every field that has a rule is accepted by its rule. |
| Validate.ErrorsAppend | blog-backend/src/utilis/validate.ts:32-121 | The errors for two rule lists one after the other are the errors of the first list followed by those of the second. |
| Validate.ErrorsAt | blog-backend/src/utilis/validate.ts:32-121 | The errors of the k-th rule sit between those of the earlier rules and those of the later ones. |
| Validate.Errors | blog-backend/src/utilis/validate.ts:29-124 | The errors `validate` returns, every one naming a field that has a rule. |
| Validate.ErrorsReadOnlyRuleKeys | blog-backend/src/utilis/validate.ts:32-34 | Keys of the data without a rule never affect the errors: data that agree on the rule keys get the same errors. |
| Validate.RequiredBlank | blog-backend/src/utilis/validate.ts:37-43 | A blank value of a required field yields exactly one error, "<field> is required", and no other check runs for it. |
| Validate.OptionalBlank | blog-backend/src/utilis/validate.ts:46-48 | A blank value of an optional field yields no error. |
| Validate.TypeMismatch | blog-backend/src/utilis/validate.ts:51-64 | A type mismatch adds its message first. The remaining checks then run as if the rule had no type. |
| Validate.StringLengthChecks | blog-backend/src/utilis/validate.ts:67-91 | For a string: a minLength error if and only if it is shorter than minLength; a maxLength error if and only if it is longer than maxLength; a pattern error if and only if the pattern rejects it. |
| Validate.NumberRangeChecks | blog-backend/src/utilis/validate.ts:93-109 | For a number: a min error if and only if it is below min, and a max error if and only if it is above max. |
| Validate.CustomCheck | blog-backend/src/utilis/validate.ts:112-120 | A custom error appears if and only if the callback's result is not `true`. It comes last, and its message is the result string or "<field> is invalid". |
| Validate.FieldIssuesAscending | blog-backend/src/utilis/validate.ts:36-120 | Within a field, errors come in check order: required, type, minLength, maxLength, pattern, min, max, custom. |
| Validate.TagNameAccepted | blog-backend/src/controllers/tag.controllers.ts:79-81 | Under the tag endpoints' rule a body is accepted exactly when `name` is a non-empty string. A missing or empty name gives "name is required" alone. |
| PostRepository.Store.constructor | blog-backend/src/services/postservices.ts:6-7 | The store starts empty, with the next id 1. |
| PostRepository.Store.FindAll | blog-backend/src/services/postservices.ts:9-11 | The copy returned equals the stored posts. |
| PostRepository.Store.FindById | blog-backend/src/services/postservices.ts:17-19 | Returns the first post holding the id, or nothing if and only if no post holds it. |
| PostRepository.Store.Create | blog-backend/src/services/postservices.ts:25-33 | The new post gets the old `nextId` and is appended; earlier posts are unchanged. `nextId` goes up by one, and the new id is larger than every id handed out before. |
| PostRepository.Store.Update | blog-backend/src/services/postservices.ts:40-49 | An absent id gives null and no change. A present id replaces only the post at its first index, and every other position is unchanged. |
| PostRepository.Store.Remove | blog-backend/src/services/postservices.ts:55-60 | Answers true if and only if some post held the id. Afterwards no post holds it, the others stay in order, and the counter is untouched, so no id is reused. |
| PostRepository.IndexOf | blog-backend/src/services/postservices.ts:41 | `findIndex` gives -1 if and only if no post has the id. Otherwise it gives the first index holding it. |
| PostRepository.Without | blog-backend/src/services/postservices.ts:57 | The filter keeps exactly the posts with another id. |
| PostRepository.WithoutShorter | blog-backend/src/services/postservices.ts:55-60 | The filtered array is shorter if and only if some post had the id; otherwise it is the same array. |
| PostRepository.WithoutAppend | blog-backend/src/services/postservices.ts:57 | The filter keeps relative order: filtering a concatenation filters each part. |
| PostRepository.WithoutIdempotent | blog-backend/src/services/postservices.ts:57 | Removing the same id twice removes nothing more. |
| PostRepository.UpdateThenFind | blog-backend/src/services/postservices.ts:41-47 | After an update that keeps the id, a lookup finds the new post at the same index. |
| PostController.NewPost | blog-backend/src/controllers/post.controllers.ts:61-68 | The content defaults to `''` when missing or empty, the author is the user's name, and `createdAt` equals `updatedAt`. |
| PostController.MergePost | blog-backend/src/controllers/post.controllers.ts:102-109 | The merged post keeps id, author and `createdAt`. A title or content the body leaves out keeps its old value; one the body sends, a JSON `null` included, replaces it. `updatedAt` is now. |
| PostController.MergePostIdempotent | blog-backend/src/controllers/post.controllers.ts:102-109 | Merging the same fields twice at the same instant equals merging them once. |
| PostController.MergeNothing | blog-backend/src/controllers/post.controllers.ts:102-109 | A merge whose body leaves out both title and content only moves `updatedAt`. |
| PostController.GetAllPosts | blog-backend/src/controllers/post.controllers.ts:7-15 | Replies 200 with every stored post. |
| PostController.GetPostById | blog-backend/src/controllers/post.controllers.ts:18-38 | An id `parseInt` cannot read gives 400. A missing post gives 404. Otherwise 200 with the first post holding the id. |
| PostController.CreatePost | blog-backend/src/controllers/post.controllers.ts:43-76 | A missing or empty title gives 400 and an unknown user gives 404, both creating nothing. Otherwise 201 with the post appended under the next id. |
| PostController.UpdatePost | blog-backend/src/controllers/post.controllers.ts:81-117 | An unreadable id gives 400 and a missing post gives 404, both writing nothing. Otherwise the first post holding the id becomes its merge, `null` fields included, and the reply is 200. |
| PostController.DeletePost | blog-backend/src/controllers/post.controllers.ts:122-145 | An unreadable id gives 400 with the store untouched. Otherwise the id is filtered out, and the reply is 204 if and only if a post was removed, 404 otherwise. |
| PostController.OrEmpty | blog-backend/src/controllers/post.controllers.ts:64 | `content \|\| ''`: the empty string for a missing or empty value, the value otherwise. |
| Strings.ParseIntToString | blog-backend/src/controllers/post.controllers.ts:20 | `parseInt` reads a printed integer back as that integer. |
| Strings.ParseIntDigits | blog-backend/src/controllers/post.controllers.ts:20 | `parseInt` of a string of decimal digits is its value. |
| Strings.ParseInt | blog-backend/src/controllers/post.controllers.ts:20 | `parseInt` gives a number only when a digit follows the leading white space and at most one sign. A negative result comes only from a leading `-`. |
| Strings.Contains | blog-backend/src/services/post_services.ts:119-124 | `includes` is true if and only if the query occurs at some position. |
| Strings.LexLeTotal | blog-backend/src/services/category_service.ts:10-14 | Ascending name order relates every pair of names. |
| Strings.LexLeTransitive | blog-backend/src/services/category_service.ts:10-14 | Ascending name order is transitive. |
| Strings.LexLeAntisymmetric | blog-backend/src/services/tag_service.ts:10-14 | Ascending name order is antisymmetric. |
| Strings.JoinSplit | blog-backend/src/controllers/auth.controllers.ts:23 | Joining the pieces of `split(' ')` gives the header back. |
| Strings.Split | blog-backend/src/middleware/auth_middleware.ts:73 | `split(sep)` gives at least one piece, and no piece contains the separator. |
| Sorting.Sort | blog-backend/src/services/post_services.ts:131-133 | A query's `orderBy` result is a permutation of the rows and is sorted. |
| Sorting.Page | blog-backend/src/services/post_services.ts:129-130 | `skip`/`take` give the rows `[skip, skip + take)`, cut at the end of the rows. |
| Sorting.PageSorted | blog-backend/src/services/post_services.ts:128-133 | A page of a sorted listing is sorted. |
| Jwt.Verify | blog-backend/src/controllers/auth.controllers.ts:31 | `jwt.verify` returns the payload only for a token signed with the key that has not expired. It reports expiry if and only if the token is signed with the key and its `exp` has passed. |
| Jwt.Sign | blog-backend/src/services/auth_services.ts:126-132 | A token signed by a sound library opens to the claims, issued now and expiring after the lifetime, under the signing key. It is non-empty and has no space. |
| Jwt.SignThenVerify | blog-backend/src/services/auth_services.ts:126-132 | A token verifies to what was signed until its lifetime ends, and is reported expired from then on. |
| Jwt.OtherKeyInvalid | blog-backend/src/services/auth_services.ts:118-132 | A token signed with one key is invalid under any other key. |
| Jwt.AccessSecret | blog-backend/src/services/auth_services.ts:9 | The access secret is `JWT_SECRET` when set and non-empty, `'your-secret-key'` otherwise. |
| Jwt.RefreshSecret | blog-backend/src/services/auth_services.ts:11 | The refresh secret is `REFRESH_TOKEN_SECRET` when set and non-empty, `'your-refresh-secret-key'` otherwise. |
| Jwt.SecretsDiffer | blog-backend/src/services/auth_services.ts:9-12 | Unless the environment makes them equal, the two secrets differ. |
| Users.ParseRole | blog-backend/src/controllers/user.controllers.ts:160 | A string is accepted as a role if and only if it names one of admin, author and subscriber. |
| Users.ParseRoleName | blog-backend/src/controllers/user.controllers.ts:160 | The role set is closed: every role's name reads back as that role. |
| Users.Strip | blog-backend/src/controllers/user.controllers.ts:27 | Stripping the password keeps every other field. |
| Users.StripForgetsPassword | blog-backend/src/controllers/user.controllers.ts:27 | Users that differ only in password look the same once stripped. |
| Users.FindById | blog-backend/src/services/user_service.ts:11-15 | Returns a row with the id, or nothing if and only if no row has it. |
| Users.FindByEmail | blog-backend/src/services/user_service.ts:17-21 | Returns a row with the e-mail, or nothing if and only if no row has it. |
| Users.FindByIdUnique | blog-backend/src/services/user_service.ts:11-15 | In a valid table, the lookup by id finds the one row holding the id. |
| Users.FindByEmailUnique | blog-backend/src/services/user_service.ts:17-21 | In a valid table, the lookup by e-mail finds the one row holding the e-mail. |
| Users.Create | blog-backend/src/services/user_service.ts:40-44 | Refused if and only if the e-mail or user name is taken. Otherwise the row is appended under the next id with the given fields, and the table stays valid. |
| Users.Update | blog-backend/src/services/user_service.ts:46-51 | Refused if and only if the id is unknown. Otherwise exactly the rows with the id are patched, and the table stays valid. |
| Users.Apply | blog-backend/src/services/user_service.ts:46-70 | No patch changes a user's id, e-mail, user name or creation date. |
| Users.UpdateThenFindById | blog-backend/src/services/user_service.ts:46-51 | After an update, looking the id up finds the updated row. |
| Users.Delete | blog-backend/src/services/user_service.ts:72-76 | Refused if and only if the id is unknown. Otherwise exactly the rows with the id are gone. |
| Users.FindPage | blog-backend/src/services/user_service.ts:78-104 | Refused if and only if skip or take is negative. Otherwise the rows `[skip, skip + take)` without passwords, and the count of all rows. |
| Users.FindUser | blog-backend/src/controllers/auth.controllers.ts:34-35 | A lookup by id fails if and only if the database is unreachable. It answers not found if and only if no row has the id, and otherwise the row. |
| Requests.Request.constructor | blog-backend/src/middleware/auth_middleware.ts:8-15 | A request reaches the middleware with nothing attached. |
| Requests.RoleOf | blog-backend/src/middleware/auth_middleware.ts:58 | `req.user.role` is the name of the attached user's role. |
| Requests.Guard | blog-backend/src/middleware/auth_middleware.ts:52-64 | `next()` is called if and only if a user is attached whose role is listed. Otherwise 401 without a user and 403 for an unlisted role. |
| Requests.GuardSeesSameRole | blog-backend/src/middleware/auth_middleware.ts:52-64 | The row without its password and the whole row, as the two authenticating middleware attach them, carry the same role, so the role checks decide alike. |
| AuthService.ClaimsOf | blog-backend/src/services/auth_services.ts:46-51 | The claims are the user's id, user name, e-mail and role name. |
| AuthService.VerifyToken | blog-backend/src/services/auth_services.ts:118-124 | A payload is returned if and only if the token verifies with the access secret. Every failure is null, never an exception. |
| AuthService.GenerateToken | blog-backend/src/services/auth_services.ts:126-128 | The access token carries the claims, issued now and expiring 24 hours later, signed with the access secret. |
| AuthService.GenerateRefreshToken | blog-backend/src/services/auth_services.ts:130-132 | The refresh token carries the claims, issued now and expiring 7 days later, signed with the refresh secret. |
| AuthService.ValidateUser | blog-backend/src/services/auth_services.ts:19-34 | Returns a user if and only if the e-mail is known and the password matches its stored hash; the user is returned without the password. |
| AuthService.Login | blog-backend/src/services/auth_services.ts:36-61 | Null, with the table unchanged, if and only if validation fails. Otherwise `lastLogin` is set, and both tokens carry exactly the user's four identity claims. |
| AuthService.NewSubscriber | blog-backend/src/services/auth_services.ts:63-70 | Registration always stores the role subscriber and the hash of the password, never the plain password. |
| AuthService.Register | blog-backend/src/services/auth_services.ts:63-93 | The store refusing the user (its `create` throws, e.g. on a taken e-mail) is modelled as None, and nothing is written. Otherwise the stored subscriber without the password, and tokens for its claims. |
| AuthService.RefreshToken | blog-backend/src/services/auth_services.ts:95-116 | A new pair if and only if the token verifies with the refresh secret. The pair carries the token's four identity claims, with `iat` and `exp` dropped. |
| AuthService.AccessTokenLifetime | blog-backend/src/services/auth_services.ts:118-128 | An access token verifies to its claims for 24 hours after issue, and gives null afterwards. |
| AuthService.TokenKindsNotInterchangeable | blog-backend/src/services/auth_services.ts:95-132 | With distinct secrets, a refresh token is refused as an access token and an access token as a refresh token. |
| AuthService.RefreshReplayable | blog-backend/src/services/auth_services.ts:95-116 | No refresh token is used up: within 7 days every call succeeds, with a fresh pair for the same claims. |
| AuthService.LoginTokenVerifies | blog-backend/src/services/auth_services.ts:36-61 | The access token of a login verifies to the user's claims until it expires, and the user has the e-mail used. |
| AuthService.RegisterThenLogin | blog-backend/src/services/auth_services.ts:19-93 | A user who has just registered is validated, and can log in, with the same e-mail and password. |
| AuthMiddleware.ExtractToken | blog-backend/src/middleware/auth_middleware.ts:66-74 | Null if and only if the header is absent or does not start with `"Bearer "`. Otherwise the word after `"Bearer "` up to the next space. `startsWith` is `Strings.StartsWith`. |
| AuthMiddleware.ExtractTokenOfBearer | blog-backend/src/middleware/auth_middleware.ts:66-74 | `"Bearer " + token` gives the token back when it has no space. |
| AuthMiddleware.ExtractTokenIgnoresRest | blog-backend/src/middleware/auth_middleware.ts:73 | Whatever follows a second space is dropped: `"Bearer a b"` gives `"a"`. |
| AuthMiddleware.Admit | blog-backend/src/middleware/auth_middleware.ts:20-50 | Lets a request through if and only if the token is present and non-empty, verifies, and names an existing user. Every refusal is 401: "Authentication token is missing", "Invalid or expired token", "User not found", or "Authentication failed" when the database fails. |
| AuthMiddleware.Authenticate | blog-backend/src/middleware/auth_middleware.ts:20-50 | A refusal answers 401 and leaves the request unchanged. Success attaches the user without its password and the verified payload, and calls `next()`. |
| AuthMiddleware.RoleGuard | blog-backend/src/middleware/auth_middleware.ts:52-64 | `next()` if and only if the attached user's role is listed. Without a user, 401 "Not authenticated"; with an unlisted role, 403 "Forbidden: Insufficient permissions". The request is only read. |
| AuthMiddleware.LoginTokenAdmitted | blog-backend/src/middleware/auth_middleware.ts:20-50 | The access token of a login gets its holder through `authMiddleware` for 24 hours, with the holder's claims. |
| AuthController.BearerParts | blog-backend/src/controllers/auth.controllers.ts:23-29 | A header is accepted only when it is `"Bearer "` followed by a word without spaces, and that word is the token. |
| AuthController.BearerPartsOf | blog-backend/src/controllers/auth.controllers.ts:23-29 | Every header of that shape is accepted. |
| AuthController.StrictAgreesWithExtract | blog-backend/src/controllers/auth.controllers.ts:23-29 | A header the strict parser accepts gives the same token to `extractTokenFromHeader`. |
| AuthController.ExtractAcceptsMore | blog-backend/src/controllers/auth.controllers.ts:23-27 | The converse fails: a header with a second space is refused here but accepted by `extractTokenFromHeader`. |
| AuthController.JwtGate | blog-backend/src/controllers/auth.controllers.ts:8-57 | Each refusal with its own reply, every later stage only after the earlier ones succeed: 401 "Authorization header missing", 401 "Invalid authorization format", 401 "Token expired", 401 "Invalid token", 401 "User not found", and 500 "Internal server error" exactly when the user lookup fails. A request passes if and only if all the checks succeed. |
| AuthController.GatesAgree | blog-backend/src/controllers/auth.controllers.ts:8-57 | For a well-formed header and a reachable table, `authenticateJwt` and `authMiddleware` let the same requests through with the same user. |
| AuthController.AuthenticateJwt | blog-backend/src/controllers/auth.controllers.ts:8-57 | A refusal leaves the request unchanged. Success attaches the whole user row and calls `next()`. |
| AuthController.OptionalAuthenticateJwt | blog-backend/src/controllers/auth.controllers.ts:59-100 | Always calls `next()` and never replies with an error. It attaches the user exactly when `authenticateJwt` would have let the request through. |
| AuthController.Authorize | blog-backend/src/controllers/auth.controllers.ts:106-126 | `next()` if and only if the attached user's role is listed. Without a user, 401 "Not authenticated"; with an unlisted role, 403 "Insufficient permissions". |
| UserController.GetProfile | blog-backend/src/controllers/user.controllers.ts:13-34 | 401 if and only if there is no caller. 404 if and only if the caller is unknown. 200 otherwise, with the caller's row without the password. |
| UserController.UpdateProfile | blog-backend/src/controllers/user.controllers.ts:36-64 | 401 without a caller. A `null` full name or an unknown caller gives 500 and leaves the table unchanged. Otherwise 200 with the patched row without the password. |
| UserController.UpdateProfileOnlyProfile | blog-backend/src/controllers/user.controllers.ts:44-51 | A profile update writes only full name, bio, avatar and `updatedAt`. A field the body leaves out stays, a given one is written, and a `null` bio or avatar is cleared. E-mail, user name, role, password and login time stay, other rows stay, and the profile read back is the one replied. |
| UserController.ChangePassword | blog-backend/src/controllers/user.controllers.ts:66-100 | 401 without a caller. 400 when either password is missing. 404 for an unknown caller. 400 for a wrong current password. The password changes, to the hash of the new one, if and only if all the checks pass. |
| UserController.ChangePasswordThenValidate | blog-backend/src/controllers/user.controllers.ts:66-100 | After a password change the caller's e-mail and new password are accepted by `validateUser`. |
| UserController.QueryOr | blog-backend/src/controllers/user.controllers.ts:105-106 | `parseInt(q) \|\| d`: the parsed number, or the default when the query is missing, unreadable or 0. |
| UserController.QueryOrOfNumber | blog-backend/src/controllers/user.controllers.ts:105-106 | A non-zero number written in the query is read back as that number. |
| UserController.PageCount | blog-backend/src/controllers/user.controllers.ts:117 | `Math.ceil(total / limit)` is the fewest pages of `limit` rows that hold `total` rows. |
| UserController.Paginate | blog-backend/src/controllers/user.controllers.ts:107-119 | With `skip = (page - 1) * limit`, the reply is 200 if and only if skip is not negative and the limit is positive. It carries the rows from skip on without passwords, the total count and the page count. |
| UserController.GetAllUsers | blog-backend/src/controllers/user.controllers.ts:103-124 | Without query values, the page is 1 and the limit is 10. |
| UserController.EveryUserListed | blog-backend/src/controllers/user.controllers.ts:107-117 | Row k is listed, without its password, on page `k / limit + 1`, which is among the pages announced. |
| UserController.GetUserById | blog-backend/src/controllers/user.controllers.ts:127-148 | 400 if and only if the id is unreadable. 200 if and only if a user has it, with the user without the password; 404 otherwise. |
| UserController.UpdateUserRole | blog-backend/src/controllers/user.controllers.ts:151-177 | An unreadable id or a role outside the three gives 400 before anything is written. Otherwise 200 if and only if the user exists, with the new role. |
| UserController.DeleteUser | blog-backend/src/controllers/user.controllers.ts:180-200 | An unreadable id gives 400, and the caller's own id gives 400, without deleting. Otherwise 200 if and only if the user existed and is now gone. |
| UserController.DeleteThenGone | blog-backend/src/controllers/user.controllers.ts:180-200 | After a deletion the user is answered 404, and the caller can still read their profile. |
| ContentStore.Database.constructor | blog-backend/src/services/post_services.ts:1-7 | An empty database satisfies the store invariant. |
| ContentStore.Find | blog-backend/src/services/post_services.ts:157-197 | A lookup on a column gives a row holding the value, or nothing if and only if no row holds it. |
| ContentStore.Without | blog-backend/src/services/post_services.ts:11-12 | A delete by id keeps exactly the rows with another id. |
| ContentStore.Replace | blog-backend/src/services/post_services.ts:275-276 | An update by id replaces exactly the rows holding the id. |
| ContentStore.ReplaceMembers | blog-backend/src/services/post_services.ts:275-276 | After the update the table holds the new row and every row with another id. |
| ContentStore.KeyedRows | blog-backend/src/services/post_services.ts:157-197 | In a keyed table any two different rows differ in id and in slug, every id is below the next id, and no row is held twice. |
| ContentStore.KeyedDistinct | blog-backend/src/services/category_service.ts:9-17 | A keyed table holds no row twice. |
| ContentStore.KeyedPermutation | blog-backend/src/services/category_service.ts:9-17 | Any rearrangement of a keyed table, such as a sorted listing, is keyed too: no two positions share an id or a slug. |
| ContentStore.FindKeyed | blog-backend/src/services/post_services.ts:157-197 | In a keyed table a lookup by a row's id finds that very row. |
| ContentStore.KeyedWithout | blog-backend/src/services/post_services.ts:11-12 | Deleting the rows with an id keeps a keyed table keyed. |
| ContentStore.KeyedAppend | blog-backend/src/services/post_services.ts:216-226 | Appending a row with the next id and a slug no row has keeps every pair of positions apart in id and in slug, and raises the next id. |
| ContentStore.KeyedReplace | blog-backend/src/services/post_services.ts:258-279 | Rewriting the row with an id, keeping the id and taking a slug no other row has, keeps every pair of positions apart in id and in slug. |
| ContentStore.OwnSlugNotTaken | blog-backend/src/services/post_services.ts:258-269 | In a keyed table a row's own slug is never taken by another row. |
| ContentStore.Suffixed | blog-backend/src/services/post_services.ts:201-211 | The slug is the slugified text, with `-<now>` appended if and only if the slug was taken. |
| PostService.BuildWhere | blog-backend/src/services/post_services.ts:89-124 | The `where` built field by field selects exactly the intended posts: public ones, of the status asked for unless it is `all`, narrowed by each id that is not 0 and each text that is not empty. The case-insensitive `contains` is `Strings.ContainsIgnoringCase`. |
| PostService.Select | blog-backend/src/services/post_services.ts:126-128 | The query selects exactly the rows satisfying the `where`. |
| PostService.SelectMatching | blog-backend/src/services/post_services.ts:89-128 | The rows the built `where` selects are the intended posts, in the same order. |
| PostService.NewestFirstOrder | blog-backend/src/services/post_services.ts:131-133 | The listing is a permutation of the rows, newest first. |
| PostService.FindAll | blog-backend/src/services/post_services.ts:80-155 | Refused if and only if skip or take is negative. Otherwise the page `[skip, skip + take)` of the intended posts newest first, and the count of all intended posts. |
| PostService.ListingPage | blog-backend/src/services/post_services.ts:80-155 | A listing page holds only intended posts of the table, newest first, and is never longer than the total. |
| PostService.DefaultListing | blog-backend/src/services/post_services.ts:80-155 | With every argument left out (skip 0, take 10, status `'published'`), the listing is the public published posts, and the page holds ten of them newest first, or all when there are fewer. |
| PostService.FindByAuthor | blog-backend/src/services/post_services.ts:46-78 | Refused if and only if skip or take is negative. Otherwise the page of the author's posts, of any status and visibility, newest first, and their count. |
| PostService.FindById | blog-backend/src/services/post_services.ts:157-176 | The post with the id, or nothing if and only if no post has it. |
| PostService.FindBySlug | blog-backend/src/services/post_services.ts:178-197 | The post with the slug, or nothing if and only if no post has it. |
| PostService.IdSet | blog-backend/src/services/post_services.ts:224 | The connected tags are exactly the ids listed, and none when no list is given. |
| PostService.CreatedPost | blog-backend/src/services/post_services.ts:214-226 | A new post has the caller's fields, the slug, the listed tags, and view, comment and like counts of 0. |
| PostService.Create | blog-backend/src/services/post_services.ts:199-243 | The slug is the slugified title, suffixed if and only if a post has it. Refused, writing nothing, if and only if a link is missing or the slug is still taken. Otherwise appended under the next id, and the database stays valid. |
| PostService.UpdatedSlug | blog-backend/src/services/post_services.ts:252-269 | The slug changes only for a non-empty title different from the current one. The collision check ignores the post itself. |
| PostService.OwnSlugNoCollision | blog-backend/src/services/post_services.ts:258-263 | Retitling to a title whose slug only this post holds keeps the slug unsuffixed. |
| PostService.PatchedPost | blog-backend/src/services/post_services.ts:271-287 | Id, author, creation date and counters stay. Each supplied field replaces the old one. Tags are replaced as a whole only when `tagIds` is supplied. `updatedAt` is now. |
| PostService.ReplaceKeepsValid | blog-backend/src/services/post_services.ts:258-279 | Replacing a post by one with the same id, existing links and a slug no other post has keeps the post table keyed and linked. |
| PostService.Update | blog-backend/src/services/post_services.ts:245-304 | Null for a missing id, writing nothing. Refused, writing nothing, if and only if a link is missing or another post has the slug. Otherwise the row is replaced, and the database stays valid. |
| PostService.IncrementViewCount | blog-backend/src/services/post_services.ts:35-44 | Fails, writing nothing, if and only if the id is missing. Otherwise the row becomes `Viewed`: the view count goes up by exactly one and nothing else changes. |
| PostService.CountKeepsValid | blog-backend/src/services/post_services.ts:35-44 | Counting a view keeps the post table keyed and linked. |
| PostService.Delete | blog-backend/src/services/post_services.ts:9-33 | Null, writing nothing, if and only if the id is missing. Otherwise the post is returned and gone, and the database stays valid. |
| CategoryService.FindAll | blog-backend/src/services/category_service.ts:9-17 | A permutation of the category table in ascending order of name. For a keyed table the listing is keyed as well, so every category appears exactly once. |
| CategoryService.FirstHasLeastName | blog-backend/src/services/category_service.ts:9-17 | The first listed category has the least name of all. |
| CategoryService.FindById | blog-backend/src/services/category_service.ts:19-25 | The category with the id, or nothing if and only if none has it. |
| CategoryService.FindBySlug | blog-backend/src/services/category_service.ts:27-33 | The category with the slug, or nothing if and only if none has it. |
| CategoryService.Create | blog-backend/src/services/category_service.ts:35-58 | The slug is the slugified name, suffixed if and only if a category has it. Refused if and only if that slug is still taken. Otherwise appended under the next id. |
| CategoryService.Renamed | blog-backend/src/services/category_service.ts:66-93 | A non-empty name replaces the old one. The slug changes only for a non-empty, different name, and the collision check ignores this category. A supplied description, even `''`, replaces the old one, a `null` one clears it, and a left-out one keeps it. |
| CategoryService.Update | blog-backend/src/services/category_service.ts:60-96 | Null for a missing id and refused for a taken slug, both writing nothing. Otherwise the row is replaced, and the database stays valid. |
| CategoryService.PostCount | blog-backend/src/services/category_service.ts:101-103 | The count is 0 if and only if no post belongs to the category. |
| CategoryService.Delete | blog-backend/src/services/category_service.ts:98-118 | Null, writing nothing, if and only if a post belongs to the category or it is missing. Otherwise it is gone, and no post is left without its category. |
| TagService.FindAll | blog-backend/src/services/tag_service.ts:9-17 | A permutation of the tag table in ascending order of name. For a keyed table the listing is keyed as well, so every tag appears exactly once. |
| TagService.FindById | blog-backend/src/services/tag_service.ts:19-25 | The tag with the id, or nothing if and only if none has it. |
| TagService.WithIds | blog-backend/src/services/tag_service.ts:27-37 | The bulk query selects exactly the tags whose id is listed. |
| TagService.FindByIds | blog-backend/src/services/tag_service.ts:27-37 | Returns exactly the tags whose id is listed. |
| TagService.WithIdsKeyed | blog-backend/src/services/tag_service.ts:27-37 | The bulk lookup on a keyed table is keyed, so no tag comes back twice. |
| TagService.FindByIdsPerId | blog-backend/src/services/tag_service.ts:27-37 | Each listed id that a tag has yields exactly that one tag. |
| TagService.FindBySlug | blog-backend/src/services/tag_service.ts:39-45 | The tag with the slug, or nothing if and only if none has it. |
| TagService.Create | blog-backend/src/services/tag_service.ts:47-69 | The slug is the slugified name, suffixed if and only if a tag has it. Refused if and only if that slug is still taken. Otherwise appended under the next id. |
| TagService.Renamed | blog-backend/src/services/tag_service.ts:77-103 | The name is always written and `updatedAt` is now. The slug stays when the name is unchanged; otherwise it is recomputed, and the collision check ignores this tag. |
| TagService.Update | blog-backend/src/services/tag_service.ts:71-106 | Null for a missing id and refused for a taken slug, both writing nothing. Otherwise the row is replaced, and the database stays valid. |
| TagService.UpdateDisconnect | blog-backend/src/services/tag_service.ts:111-124 | A post update selected by tag membership (`tags: { some: { id } }`) is always rejected, since that selector is not unique. An update by id is rejected only for a missing id. |
| TagService.DeleteAsWritten | blog-backend/src/services/tag_service.ts:108-135 | As written, `delete` returns null and changes nothing, for every tag. |
| TagService.DisconnectAt | blog-backend/src/services/tag_service.ts:118-122 | Detaching a tag removes it from every post, position by position, and changes nothing else. The detaching write is `TagService.Disconnect`. |
| TagService.DisconnectKeyed | blog-backend/src/services/tag_service.ts:118-122 | Detaching a tag keeps the post table keyed: no two positions share an id or a slug. |
| TagService.Delete | blog-backend/src/services/tag_service.ts:108-135 | Intended behaviour: null, writing nothing, if and only if the tag is missing. Otherwise the tag is detached from every post and deleted, and no post is left linked to a missing tag. |

## Left out

- Networking, Express routing and the routers, `index.ts` and the frontend: they wire requests to the handlers and do not decide anything modelled here.
- `category_controller.ts` and `tag.controllers.ts`: HTTP glue around the services. Only their use of the validator for tag names is modelled, as `Validate.TagNameAccepted`.
- Concurrency: `Promise.all` in the listings is modelled as the two queries one after the other, since neither depends on the other.
- Floating point: JSON numbers in the validator are integers. NaN, fractions and `-0` are not modelled, so `typeof` on numbers and the range checks are over `int`.
- Strings.ParseInt: returns the exact integer, where JavaScript's `parseInt` returns a double that rounds beyond 2^53 (`"9007199254740993"` reads as 9007199254740992). The ids that `getPostById`, `updatePost`, `deletePost`, `getUserById`, `updateUserRole` and `deleteUser` read, and the `page`/`limit` arithmetic of `getAllUsers`, are therefore exact integers in the model.
- `parseInt` reads leading white space, a sign, and decimal or `0x` hexadecimal digits. It stops at the first other character. Exponents, `Infinity` and code points beyond those listed as white space are not modelled.
- String lengths count characters (code points), not UTF-16 code units, so `minLength`/`maxLength` differ from JavaScript for characters outside the Basic Multilingual Plane.
- Case-insensitive search folds ASCII letters only. The database's Unicode case folding is not modelled.
- Ascending name order is code-point order. The database collation is not modelled.
- Rows created at the same instant keep table order in listings. The database's order for ties is unspecified.
- A negative `take` is treated as a refusal; Prisma would read it as taking from the end.
- `bcrypt` salts and `jsonwebtoken` internals are not modelled: the libraries are parameters with the assumptions above. The algorithm, header and encoding of a token are not modelled.
- Relation `include`s (author, category, tags of a returned post) are not modelled. A post returns its own fields and its tag ids.
- The rules object is a sequence of distinct keys, none of them integer-like, in the order `for...in` visits them. Integer-like rule keys, which `for...in` visits first in ascending order, are not modelled.
- A post created by the services has no `updatedAt` (None): the database default is not modelled.
- `createPost` looks the user up through a function the post controller imports from a service module that does not export it. The user's name is an input, and None stands for "user not found".
- The 404 branches of `updateProfile` and `updateUserRole` are unreachable: the store throws on an unknown id, and the catch answers 500. The model answers 500.
- `deleteUser` likewise answers 500, not 200, for an unknown id, because the store throws.
- The database being unreachable is modelled only where a middleware looks a user up (`UserDb.Unavailable`). Elsewhere the store is always reachable.
- `authorize`'s catch is unreachable, since nothing in its body throws, so it is not modelled.
- Posts' `authorId` foreign key is not checked, since the user table is a separate value.
- Callers can pass `viewCount`, `commentCount`, `likeCount` or `slug` to `update` through the partial post type. The model's patch carries only the editable fields, and the slug is always the one computed.
- Uniqueness of category and tag names is not modelled: only slugs are unique.
- The user service's `updatePassword` (it only throws), `findByUsername` and `findByEmailOrUsername` are not used by the core and are not modelled.
- Comments, likes and any ownership check on posts are not modelled: the code has none.
- UserController.GetAllUsers: its own contract states only the default page and limit. The rest of its meaning is `UserController.QueryOr` for each query value followed by `UserController.Paginate`, whose contracts state it.
- AuthService.Register: the `if (!newUser) return null` branch cannot run, because `user.create` either returns the row or throws, and `register` has no catch. The model's None stands for that throw, which the caller sees as an error.
- JSON request bodies carry strings, `null` or nothing in the fields the post, profile and category updates read. Other JSON values (numbers, objects) are not modelled.
- The database schema is not part of this model. The user row follows the `User` interface of `blog-backend/src/utilis/users.ts`: `fullName` is a required string, and `bio` and `avatar` are optional. So the profile update models a `null` full name as refused by the store (500), and a `null` bio or avatar as clearing it.

## Findings

| source | as written | input that shows it | evidently intended | confidence | as-written member | corrected member |
|---|---|---|---|---|---|---|
| blog-backend/src/services/tag_service.ts:111-124 | `delete` first calls `post.update` with the selector `{ tags: { some: { id } } }`. `update` needs a unique selector, so the store rejects it. The catch then returns null before `tag.delete` runs, so no tag is ever deleted. | any id, e.g. an existing tag with id 1 carried by one post: the call returns null and both the tag and the link remain | detach the tag from every post carrying it (an `updateMany`, or a `disconnect` from the tag's side), then delete the tag; null only for a missing tag | high; not executed | TagService.DeleteAsWritten | TagService.Delete |
