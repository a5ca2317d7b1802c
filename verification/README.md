# Contact-tracing API: the contact-window query

A Dafny model of the logic in a small contact-tracing REST service. The
service stores users and pairwise contact events ("edges" between two user
ids, with a time). Its one piece of real logic answers
`GET /contacts/?user=<id>&infection_timestamp=<ts>`: which users were in
contact with an infected user during the 14 days up to and including the
infection time.

The model has four modules:

- `Schema` (`schema.dfy`): the `User` and `Contact` records. A time is an
  `int` number of seconds since 0001-01-01T00:00:00Z. That instant is the
  zero value of a Go `time.Time`, so the zero time is `0`.
- `ContactWindow` (`contact_window.dfy`): the query of `getContacts`. It has
  the infection time with its fallback to the zero time, the window start
  `T - 14*86400`, and the store's filter as the predicate `Matches` (user in
  either slot, time inside `[T - 14 days, T]`, both bounds inclusive). The
  store's `Find` is `Select`, which keeps input order and duplicates. The
  other-endpoint rule is `OtherEndpoint`. The handler's cursor loop is the
  method `GetContacts`, and `PrimaryContacts` is the reference
  filter-then-map answer it is proved equal to. The lemmas cover order,
  multiplicity, the inclusive bounds and the empty answer.
- `UserLookup` (`user_lookup.dfy`): the id extraction of `getUser`
  (`strings.TrimPrefix(path, "/users/")`) and the lookup of the first stored
  user with that id.
- `Wrappers` (`wrappers.dfy`): `Option`.

The contacts collection is a `seq<Contact>` in the store's natural order.
Parsing an RFC 3339 timestamp is an opaque function parameter
`parse: string -> Option<Time>`.

The model follows the code as written, including where it departs from
what a client of such an API would commonly expect:

- An empty answer is encoded as JSON `null`, not `[]`. The result slice is
  declared nil (main.go:97) and only `append` makes it non-nil (`Encode`,
  `GetContactsResponse`).
- An unparsable `infection_timestamp` is not rejected. The error is printed,
  and the window ends at the zero time (`InfectionTime`, `GetContacts`).
- Duplicate partner ids are not removed (`PrimaryContactsMultiplicity`).
- A stored user id need not be unique, and a lookup returns whichever match
  the store yields first. Assuming the store yields users in insertion
  order, a later user under a taken id is never returned
  (`GetAfterCreateShadowed`).

## Model

| member | source | states |
|---|---|---|
| ContactWindow.InfectionTime | main.go:89-94 | a failed parse does not abort the query: the infection time is the parsed value, or the zero time when parsing failed |
| ContactWindow.WindowStart | main.go:94 | the window starts exactly fourteen days of 86400 seconds before the infection time, so it starts strictly earlier |
| ContactWindow.Involves | main.go:102-107 | the `$or` of the filter: the user occupies slot one or slot two of the contact |
| ContactWindow.Matches | main.go:101-110 | the whole filter document: the user in either slot, and the contact time at or after the window start and at or before the infection time |
| ContactWindow.PrimaryContacts | main.go:99-132 | the reference answer: the matching contacts in collection order, each mapped to its other endpoint |
| ContactWindow.Select | main.go:99-111 | the store's result holds exactly the contacts of the collection that involve the user in either slot and lie in the window, and is never longer than the collection |
| ContactWindow.OtherEndpoint | main.go:128-132 | the reported id is one of the edge's endpoints; for an edge involving the user, the user and the reported id are the edge's two endpoints, so a self-edge reports the user |
| ContactWindow.OtherEndpoints | main.go:116-134 | one id per cursor entry, and position i holds the other endpoint of entry i |
| ContactWindow.Encode | main.go:97-140 | the body is `null` exactly when no id was collected, and otherwise the array of collected ids |
| ContactWindow.GetContacts | main.go:84-141 | the cursor loop yields the filter-then-map answer for the parsed infection time, or for the zero time when parsing failed; an id is in the result iff some contact in the window involves the user and has that id as its other endpoint |
| ContactWindow.GetContactsResponse | main.go:96-140 | the response is `null` exactly when no contact in the collection matches the filter, and otherwise the ordered array of other endpoints |
| ContactWindow.SelectAppend | main.go:99-111 | filtering commutes with concatenation, so matching contacts keep their relative order |
| ContactWindow.SelectMultiplicity | main.go:99-111 | every copy of a matching contact is kept and no copy of a non-matching one |
| ContactWindow.PrimaryContactsAppend | main.go:116-132 | the answer for a concatenation is the answer for the first part followed by the answer for the second: output order follows input order |
| ContactWindow.PrimaryContactsMembership | main.go:101-132 | an id is reported if and only if some matching contact has it as its other endpoint |
| ContactWindow.PrimaryContactsEmpty | main.go:97-132 | the answer is empty if and only if no contact in the collection matches |
| ContactWindow.NonMatchingContactIgnored | main.go:102-109 | a contact involving neither slot, or strictly before the window start, or strictly after the infection time, leaves the answer unchanged wherever it sits |
| ContactWindow.MatchingContactReported | main.go:102-132 | a contact involving the user with a time in the closed window, including exactly on either bound, contributes its other endpoint at its own position |
| ContactWindow.PrimaryContactsLength | main.go:116-132 | the answer has exactly one id per matching contact of the collection |
| ContactWindow.PrimaryContactsMultiplicity | main.go:116-132 | duplicates are kept: each id occurs once per matching contact whose other endpoint it is |
| ContactWindow.TwoEdgesThroughUser | main.go:99-132 | edges (u1,u2,T) and (u2,u3,T) queried for u2 at T report u1 then u3 |
| UserLookup.TrimPrefix | main.go:48 | with the prefix present, prefix plus result gives back the input; without it, the input is returned unchanged |
| UserLookup.UserIdFromPath | main.go:48 | a path starting with `/users/` is `/users/` plus the id; any other path is itself the id |
| UserLookup.UserIdRoundTrip | main.go:48 | extracting from `/users/` plus an id gives back that id |
| UserLookup.OtherPathIsId | main.go:48 | paths reaching the catch-all handler without the prefix, such as `/foo`, are used verbatim as ids |
| UserLookup.PrefixRemovedOnce | main.go:48 | only one leading `/users/` is removed, so extraction is not idempotent |
| UserLookup.FindUser | main.go:53-55 | the lookup fails iff no user has the id; otherwise it returns a stored user with that id, and no earlier user has it |
| UserLookup.GetUser | main.go:48-55 | the returned user is stored and carries the id taken from the path; none is returned iff no stored user carries it |
| UserLookup.GetAfterCreate | main.go:48-55 | after storing a user under a fresh id, fetching `/users/<id>` returns exactly that user |
| UserLookup.GetAfterCreateShadowed | main.go:53-55 | storing a user under an id already taken does not change what a fetch returns |
| UserLookup.FindUserPrefix | main.go:53-55 | appending users never changes a lookup that already succeeds |

## Left out

- Store access (connecting, `InsertOne`, `FindOne`, cursor `Next`/`Decode`/`Close`, `cur.Err`). These are foreign library calls. The collections are input sequences and the store's filter is `Select`.
- `createUser` and `createContact`. They insert the decoded body verbatim and have no logic of their own. In the lookup lemmas an insert is an append to the users sequence.
- JSON decoding and encoding beyond the `null` or array choice, and HTTP routing and serving. This is I/O plumbing, and each request is handled independently. As registered, the exact path `/contacts` goes to `createContact` and only paths under `/contacts/` go to `getContacts`.
- RFC 3339 parsing (`time.Parse`) and `url.Values.Get`. These are library code. Parsing is a parameter, and the user id and timestamp are passed in as strings.
- Sub-second precision of timestamps, and the store's millisecond resolution. Times are whole seconds.
- ContactWindow.WindowStart: uses a fixed 14 × 86400 seconds. Calendar-day subtraction (`AddDate(0, 0, -14)`) in a zone with a daylight-saving change is not modelled.
- `log.Fatal` paths (a failed insert, a user that is not found, a cursor decode error, a cursor error after the loop). They end the process rather than produce a response. `GetUser` returns `None` where the handler would stop the process.
- A failed `Find` in `getContacts`. Its error is stored in `err` and never read; the cursor is then nil and the `cur.Next` call panics. The model's `Find` cannot fail.
- UserLookup.GetAfterCreateShadowed: holds only if the store yields users in insertion order. `FindOne` is called without a sort, and the store does not promise that order; the model makes an insert an append and searches from the front.
- Ids as byte strings. Go strings are byte sequences, while the model's ids are sequences of characters. Ids are only compared and checked for an ASCII prefix, so nothing in the model depends on this, but ids holding invalid UTF-8 cannot be represented.
- The handler's `contactsArray` accumulator. It is filled but never read, so it has no effect on the response.
