# Friend-request workflow of the follower-management API

This project models the core of a small social-networking backend: users
send each other friend requests, the receiver accepts or rejects them, and
accepting makes the two users friends. Alongside sit three read-only
queries: the receiver's pending requests, a user's friend list, and a
user search by email or name.

The model has five modules.

- `Wrappers`: `Option` and `Result`.
- `Models`: the stored entities `User` and `FriendRequest`, and the request
  `Status` (`pending`, `accepted`, `rejected`). app/models.py is not part of
  this model. Two facts come from it and are explicit assumptions here:
  - a new request starts as `pending` (`Models.DefaultStatus`);
  - `friends` is a symmetric self many-to-many relation, so
    `user.friends.add(other)` adds both directions (`Views.Befriend`).
- `Lookups`: the `iexact` and `icontains` field lookups the search uses,
  with case folded on ASCII letters.
- `Serializers`: the two model serializers. Each is its list of declared
  fields with their `read_only`, `write_only` and `required` flags.
  `Validate` is what `is_valid()` does with a request body. `Represent` is
  what `serializer.data` does with a stored row.
- `Views`: the store and the views. `Store` is a class holding the user
  table, the friend-request table (in insertion order, which is
  primary-key order) and the friends relation as a set of ordered pairs.
  Send, Accept and Reject are methods that update it. Pending list, friend
  list and search are functions over its contents. The acting user, which
  the views take from the authenticated request, is an explicit parameter.
  Three client methods replay a session against the methods' contracts.
  In each, `SetUpRequest` creates two users and a request from the first
  to the second. Then `AcceptScenario` accepts it, `SecondAcceptScenario`
  accepts it twice, and `RejectScenario` rejects it.

`Store.Valid()` is the store invariant. Ids increase along both tables.
Every request's sender and receiver is a registered user. The friends
relation is symmetric: this holds only because of the assumption above.

## Model

| member | source | states |
|---|---|---|
| `Serializers.UserFields` | app/serializers.py:5-11 | definition of `UserSerializer`'s fields: only `id` is read-only, only `password` is write-only, and among the writable fields only `name` may be left out |
| `Serializers.FriendRequestFields` | app/serializers.py:17-24 | definition of `FriendRequestSerializer`'s fields: `to_user` is the only writable field and is a required primary key into the user table; no field is write-only |
| `Serializers.Errors` | app/serializers.py:5-24 | there are no field errors exactly when every declared field passes its check; every failing field's error is reported, and every reported error comes from a declared field |
| `Serializers.Validate` | app/serializers.py:5-24 | a body validates exactly when every field passes; a failure carries every failing field's error and only those, at least one; the validated data holds exactly the client's values of the writable fields it supplied |
| `Serializers.Represent` | app/serializers.py:5-24 | a write-only field is never shown; every other declared field present in the row is shown with the row's value; nothing outside the row is shown |
| `Serializers.RepresentIgnoresWriteOnly` | app/serializers.py:6-11 | two rows that agree on the readable fields are represented alike, so what a write-only column holds never shows |
| `Serializers.ValidateIgnoresReadOnly` | app/serializers.py:18-20 | two bodies that agree on the writable fields validate alike, so read-only fields sent by a client have no effect |
| `Serializers.FriendRequestInputRules` | app/serializers.py:17-24 | a friend-request body is valid exactly when `to_user` is the id of an existing user; the validated data is then `to_user` alone; a missing `to_user` and an unknown id give the matching error |
| `Serializers.UserInputRules` | app/serializers.py:5-11 | a user body is valid exactly when it has a text `email` and a non-empty text `password`; `name` may be left out; the password is in the validated data and `id` is not |
| `Serializers.UserRepresentationHidesPassword` | app/serializers.py:6-11 | a user's representation has exactly the keys id, email and name, never the password |
| `Serializers.FriendRequestRepresentationShowsAll` | app/serializers.py:17-24 | a request's representation has all five columns, with its sender, receiver and status name |
| `Views.SendTarget` | app/serializers.py:19 | sending names a target exactly when `to_user` is an integer id of an existing user; otherwise the serializer's own errors |
| `Views.SendIgnoresClientFields` | app/views.py:95-96 | the outcome of validation depends only on `to_user`; whatever the client sends as `from_user` or `status` is ignored |
| `Views.Store.Send` | app/views.py:90-103 | a failed validation changes nothing; otherwise exactly one request is appended, with a fresh id, the acting user as sender, the validated target and the default status, and the response shows it; invariant kept |
| `Views.Befriend` | app/views.py:125 | definition of one `friends.add`: it adds (actor, sender) and, by the symmetry assumption, the reverse edge; every edge it adds comes with its reverse |
| `Views.Resolve` | app/views.py:123-124 | definition of the status write that accept and reject make: only the status of the chosen request changes, to the new value; every other request is unchanged |
| `Views.SearchMatches` | app/views.py:83 | definition of the search condition, email `iexact` or name `icontains`; a match always contains the query in its email or its name |
| `Views.FirstPending` | app/views.py:121 | the lookup returns the first request in store order that is from the given user, to the acting user and pending; it returns none exactly when no request matches |
| `Views.Store.Accept` | app/views.py:119-128 | with no matching request: an error and no change to requests or friends; otherwise the first match is resolved to `accepted` (`Views.Resolve`), and the edges (actor, sender) and (sender, actor) are added; invariant kept |
| `Views.Store.Reject` | app/views.py:144-152 | with no matching request: an error and no change; otherwise the first match is resolved to `rejected` (`Views.Resolve`); friends never change; invariant kept |
| `Views.FirstPendingFailsIffNonePending` | app/views.py:121-128 | accept and reject fail exactly when no request from that sender to the acting user is pending |
| `Views.ResolveUsesOne` | app/views.py:121-124 | accepting or rejecting a matching request lowers the number of pending requests between the two users by exactly one |
| `Views.SecondResolveFails` | app/views.py:146-152 | once the only pending request from a sender is resolved, a second accept or reject for that sender finds nothing |
| `Views.DuplicateStaysPending` | app/views.py:121 | with duplicate pending requests only the first is resolved; the next one is untouched and is what the following accept or reject finds |
| `Views.AcceptMakesMutualFriends` | app/views.py:125 | after an accept, each user is in the other's friend list |
| `Views.FriendListsMutual` | app/views.py:162-164 | with the friends relation symmetric, as the store keeps it, v is in u's friend list exactly when u is in v's |
| `Views.PendingList` | app/views.py:174-175 | a request is in the pending list of user u exactly when it is addressed to u and pending |
| `Views.PendingListInStoreOrder` | app/views.py:175 | the pending list is in store order, by increasing request id |
| `Views.FriendList` | app/views.py:162-164 | a user is in u's friend list exactly when that user has u among its friends |
| `Views.Search` | app/views.py:80-85 | a user is in the results exactly when it is not the acting user and its email equals the query or its name contains the query, ignoring case; a missing query is the empty string |
| `Views.SearchEmptyQuery` | app/views.py:81-84 | with no query or an empty one, the search returns every user but the acting user |
| `Views.SearchFilterKeepsResults` | app/views.py:70-71 | every result contains each part of the query in its email or its name, so the declared search-filter backend drops none of them |
| `Views.FriendListInTableOrder` | app/views.py:164 | the friend list is in user-table order, by increasing user id |
| `Views.SearchInTableOrder` | app/views.py:82-84 | the search results are in user-table order, by increasing user id |

## Left out

- Registration and login (app/views.py:12-59): token issuance and `authenticate` are framework calls whose behaviour is not visible. `UserSerializer.create` and password hashing inside `create_user` are left out for the same reason. The user table is given to the `Store` constructor. Only the user serializer's validation and representation are modelled.
- Pagination (app/views.py:61-64) and the 3-per-minute rate throttle on sending (app/views.py:87-88): framework paging and a time-based limiter.
- The API-documentation annotations and the URL routing of app/urls.py.
- Atomicity: Accept's status write and friendship write are two separate database writes. The model runs them in sequence and claims no transactional guarantee.
- HTTP status codes (201, 200, 400): a response is a `Result`. Success carries the serializer's representation; failure carries a `ViewError`.
- Views.Search: case-insensitivity covers ASCII letters only, not full Unicode case folding.
- Views.SearchFilterKeepsResults: the backend's splitting of the query into terms is not modelled. The lemma holds for every term that is a part of the query.
- Serializers.Validate: framework coercions are not modelled. A numeric string is not accepted as a primary key, a number is not accepted as text, and surrounding whitespace is not trimmed. A value of the wrong kind is rejected. A whitespace-only password, which DRF reports as blank, is accepted.
- Serializers.UserInputRules: the email checks that app/models.py adds (format, uniqueness) are not modelled.
- Views.Store.Accept, Views.Store.Reject: `user_id` is an optional integer; a missing one matches nothing. A non-numeric string, which the database layer rejects with a server error, is not modelled.
- The creation timestamp is a parameter of `Send`. It is taken to be set by the model, so it is read-only in the serializer.
- Unordered querysets (the `.first()` lookup, the list views, the search) are taken in primary-key order. That is the order of the model's tables.
- Self-requests and duplicate pending requests are not guarded by the code, and the model does not guard them either. No invariant states "no user is its own friend" or "at most one pending request per pair".
- A missing or unknown `to_user` gives the serializer's field error (`ValidationFailed`).
