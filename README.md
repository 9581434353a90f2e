# Posting service: interactions, request schemas, live listing

A Dafny model of the logic in three files of a small social-posting service.

- **routes/interactions.js** handles `POST /` (create a like, dislike or comment). It runs a fixed chain of guards:
  - schema validation (400);
  - the post exists (404 "Post not found");
  - the post has not expired, tested strictly as `now > expires_at` (400 "Cannot interact with expired posts");
  - the caller exists (404 "User not found");
  - the caller does not own the post (400 "Users cannot interact with their own posts").

  After the guards, a like or dislike deletes one earlier like-or-dislike by the same user on the same post, and the new record is saved.
- **validations/validation.js** holds the joi schemas. Each one is a list of keys with a rule per key. Validation stops at the first failing key, and that key is reported. There is one schema each for registration, login, post creation and interaction creation. The topic vocabulary is politics, health, sport and tech.
- **routes/posts.js** lists posts at `GET /`. It keeps the stored posts whose `status` equals `"Live"`.

Modules:

- `Options`: an optional value.
- `Validation`: the schemas. A request body is a record with one optional JSON `Value` per schema key. `FirstFailure` returns the first key, in schema order, whose rule fails.
- `Models`: the stored Post, User and Interaction shapes, from models/*.js. Owner and user names are snapshots copied when a record is created.
- `Posts`: the status filter. `ListLive` is the filter as written; `ListLiveIntended` is the lower-case filter (see Findings).
- `InteractionStore`: the Interaction collection as an ordered sequence.
  - `DeleteOneVote` is the handler's `deleteOne`: it removes the first matching record.
  - `Record` is one successful request: delete-one-vote for a like or dislike, then append.
  - The invariant `UniqueVotes` says each (post, user) pair has at most one like-or-dislike record.
- `Interactions`: the handler.
  - `Respond` is the reply as a function of the body, the caller, the clock and the posts and users.
  - `Store` is a class holding the three collections. `Store.CreateInteraction` runs the guards step by step, changes only `interactions`, and is proved to match `Respond` and `Record`. It keeps `UniqueVotes` as its class invariant.

The authenticated caller is an opaque user id. The clock is an integer `now` in milliseconds. Stored `expires_at` is an integer in milliseconds.

The code has no computation of remaining minutes, no aggregation of likes and dislikes, and no topic-scoped or "most active" queries; the model has none either. Three behaviours of the code are easy to misread:
- the handler's expiry test is strict, so a post still accepts interactions at the instant `now == expires_at`;
- the listing reads the stored `status` field, which no shown code ever updates;
- the post schema accepts duplicate topics.

The request's `post_id` is cast to the store's object-id form before the lookup, the vote deletion and the save. Hex digits are read in either case and stored in lower case; `Models.CanonicalId` is that cast.

## Model

| member | source | states |
|---|---|---|
| `Validation.FirstFailure` | routes/interactions.js:13-14 | None exactly when every key's rule holds. Otherwise it returns a failing key all of whose predecessors in schema order hold, i.e. the first error joi reports |
| `Validation.RegisterError` | validations/validation.js:6-14 | Accepts exactly when username has 3..256 characters, email has 6..256 and passes the address check, password has 6..1024 and name has 3..256. A reported key's rule fails, and every key before it in schema order (username, email, password, name) passed, so the first failing key is reported |
| `Validation.LoginError` | validations/validation.js:17-23 | Accepts exactly when email has 6..256 characters and passes the address check, and password has 6..1024. Password is reported only after email passed |
| `Validation.PostError` | validations/validation.js:26-38 | Accepts exactly when title has 3..256 characters, body at least 10, `expires_in` is a number > 0, and topics is a non-empty array of strings from the vocabulary. A reported key's rule fails, and every key before it in schema order (title, body, `expires_in`, topics) passed, so the first failing key is reported |
| `Validation.InteractionError` | validations/validation.js:41-52 | Accepts exactly when `post_id` is a string and `type` is one of like/dislike/comment. `comment_body` must be present exactly when the type is comment, and then it is a string of length at least 1. Failures are reported in key order |
| `Validation.TopicVocabulary` | validations/validation.js:3 | A topic is valid exactly when it is politics, health, sport or tech. Membership is case-sensitive ("Politics" is rejected) |
| `Validation.DuplicateTopicsAccepted` | validations/validation.js:31-35 | For every accepted post body, repeating any one of its topics keeps it accepted |
| `Validation.EmptyTopicsRejected` | validations/validation.js:31-35 | For every body whose title, body and `expires_in` pass, an empty topics array is rejected, and topics is the reported key |
| `Models.CanonicalId` | routes/interactions.js:17 | The stored form of a requested id has the same length. Each upper-case hex letter A-F becomes its lower-case letter, and every other character is kept. So the result has no upper-case hex letter, and an id already in lower case is unchanged |
| `Models.HexCaseInsensitive` | routes/interactions.js:17 | Any two ids that differ only in the case of hex letters have the same stored form |
| `Posts.WithStatus` | routes/posts.js:10 | Keeps exactly the posts whose status equals the given string, and no more than the input holds |
| `Posts.WithStatusKeepsOrder` | routes/posts.js:9-10 | The filtered list is a subsequence of the stored list: order kept, nothing added |
| `Posts.ListLive` | routes/posts.js:9-11 | Every listed post is a stored post with status exactly "Live". The listing is never longer than the stored list |
| `Posts.ListLiveIsOrderedFilter` | routes/posts.js:10 | The listing is a subsequence of the stored posts and contains every stored post whose status is "Live" |
| `Posts.ListLiveEmptyUnderSchema` | models/Post.js:9-13 | When every status is "live" or "expired", as the Post schema's enum demands, the listing is empty |
| `Posts.LowercaseLivePostNotListed` | routes/posts.js:10 | A post stored with status "live" is not listed as written, but is listed by the lower-case filter |
| `Posts.ListLiveIntended` | routes/posts.js:10 | Every listed post is a stored post with status "live" |
| `Posts.ListLiveIntendedIsOrderedFilter` | routes/posts.js:10 | The lower-case listing is a subsequence of the stored posts. A post is in it exactly when its status is "live", so it is non-empty when some stored post is live |
| `InteractionStore.Select` | routes/interactions.js:41-45 | The records a filter matches: each is a stored record that matches, and every stored record that matches is included |
| `InteractionStore.DeleteOneVote` | routes/interactions.js:40-46 | With no like/dislike by the user on the post, nothing changes. Otherwise exactly one record goes: the first such vote. All records outside the filter stay, in order |
| `InteractionStore.DeleteOneVoteRemovesFirstVote` | routes/interactions.js:41-45 | When the store holds a vote of the pair, the result is the store with exactly one position removed: the pair's first vote in storage order. No earlier record is a vote of the pair |
| `InteractionStore.DeleteOneVoteSparesOtherPairs` | routes/interactions.js:41-45 | The deletion leaves every other (post, user) pair's records and votes as they were |
| `InteractionStore.Record` | routes/interactions.js:39-57 | After a successful request the new record is stored, and it is the last record |
| `InteractionStore.VoteReplacesPrior` | routes/interactions.js:40-57 | If the pair held at most one vote before, then after a like or dislike the new record is the pair's only vote. All other records are kept and the store size changes by 1 minus the old vote count |
| `InteractionStore.CommentOnlyAppends` | routes/interactions.js:40-57 | A comment removes nothing. Every pair's votes are unchanged, the comment is appended after the pair's other records, and the store grows by one |
| `InteractionStore.RecordSparesOtherPairs` | routes/interactions.js:41-57 | Records and votes of every other (post, user) pair are unchanged by a request |
| `InteractionStore.RecordKeepsUniqueVotes` | routes/interactions.js:39-57 | At most one like/dislike record per (post, user) still holds after any successful request |
| `InteractionStore.LastVoteWins` | routes/interactions.js:39-57 | Two likes or dislikes in a row by one user on one post leave only the second as that pair's vote |
| `Interactions.KindOf` | routes/interactions.js:50 | The kind read from the request has the request's type string as its name |
| `Interactions.ParseRequest` | routes/interactions.js:48-51 | An accepted body yields the post id in its stored form, and the type and the comment text exactly as given. A comment text is present exactly for comments and is non-empty |
| `Interactions.FindPost` | routes/interactions.js:17 | A found post is stored under the requested id. None means no stored post has that id |
| `Interactions.Status` | routes/interactions.js:14-38 | 200 for a saved record. 404 for a missing post or user. 400 for a schema failure, an expired post or an own post |
| `Interactions.Respond` | routes/interactions.js:12-58 | Saved exactly when all five guards pass. The saved record takes the post id in its stored form, the type and comment text from the body, and the user id and name from the looked-up user. Its post exists and is not owned by the caller |
| `Interactions.InvalidBodyDecidesFirst` | routes/interactions.js:13-14 | A schema failure gives 400 with the failing key, whatever the stores, the caller and the clock are |
| `Interactions.MissingPostDecides` | routes/interactions.js:17-20 | For a valid body naming no stored post, the reply is 404 "Post not found", whoever calls and whenever |
| `Interactions.AnyHexCaseFindsPost` | routes/interactions.js:17-20 | A post id whose stored form is a stored post's id finds that post, whatever the case of its hex digits |
| `Interactions.ExpiryDecidesBeforeUser` | routes/interactions.js:22-27 | When `now > expires_at`, the reply is 400 "Cannot interact with expired posts", even if the caller is unknown |
| `Interactions.ExpiryInstantStillOpen` | routes/interactions.js:22-27 | At `now == expires_at` the expiry check does not fire. A known non-owner's request is saved |
| `Interactions.MissingUserDecides` | routes/interactions.js:29-32 | On an unexpired post, an unknown caller gets 404 "User not found" |
| `Interactions.OwnerCannotInteract` | routes/interactions.js:34-38 | On an unexpired post, its owner is rejected with 400 "Users cannot interact with their own posts" for every type, comments included |
| `Interactions.MessagesDistinguishReasons` | routes/interactions.js:19-37 | The four domain rejections carry four different messages, so a message identifies its guard |
| `Interactions.Store.CreateInteraction` | routes/interactions.js:12-62 | Replies as `Respond` does. A rejection leaves the interactions unchanged. A success changes them exactly as `Record`. Posts and users are never changed. At most one vote per (post, user) is kept as the store's invariant |

## Findings

| source | as written | input that shows it | evidently intended | confidence | as-written member | corrected member |
|---|---|---|---|---|---|---|
| routes/posts.js:10 | keeps posts whose `status` equals "Live" | any stored post with the schema's default status "live" | compare with "live", the value the Post schema stores | high; not executed | `Posts.LowercaseLivePostNotListed` | `Posts.ListLiveIntendedIsOrderedFilter` |

`Posts.ListLiveEmptyUnderSchema` shows the consequence: under the schema's enum, `GET /` as written always answers with an empty list. `Posts.ListLiveIntended` is the corrected filter. No shown code ever updates the stored `status`, so even the corrected filter lists every post stored as "live", expired or not.

## Left out

- Process bootstrapping in app.js (the server, the database connection, the configuration) is not part of this model.
- verifyToken.js is not part of this model. The authenticated caller is an opaque user id, and requests rejected by the token check never reach the handler.
- The `catch` branches (routes/interactions.js:59-61, routes/posts.js:12-14) are left out. They serialise store failures, including the cast error for a `post_id` string that is not a valid object id.
- Models.CanonicalId: only the case of hex digits is normalised. A `post_id` the cast rejects is treated as a plain string with no stored match (404), where the source reaches its `catch` branch. Other spellings the cast may accept, such as a 12-character string read as raw bytes, are not modelled.
- Concurrency is left out: each request is one atomic step. Two concurrent votes can race between `deleteOne` and `save`, and that race is not modelled.
- Mongoose behaviour is left out: enum and required enforcement, `trim` on `comment_body`, object-id generation, timestamps and the `_id` of saved records. The stored shapes only carry fields. `Models.StatusValues` holds the status enum, which `Posts.ListLiveEmptyUnderSchema` assumes of stored posts.
- `like_count` and `dislike_count` in models/Post.js are left out: no shown code reads or updates them.
- Some joi defaults that the schemas do not spell out are not modelled:
  - rejection of unknown keys (a body record has only the schema's keys);
  - rejection of the empty string by `joi.string()`;
  - conversion of numeric strings for `expires_in`.
- Lengths are counted in characters; joi counts UTF-16 code units.
- joi's message wording is not modelled: a schema failure reports the failing key.
- Validation.RegisterError: the `.email()` address syntax is the parameter `isEmail`, not joi's own address grammar.
- Validation.LoginError: the `.email()` address syntax is the parameter `isEmail`, as above.
- Registration, login and post creation run their schemas in routes that are not part of this model. Only the schemas are modelled.
- Dates are integer milliseconds. `Post.findById` returns the first stored post with the id; stored ids are unique.
