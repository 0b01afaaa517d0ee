# URL shortener: a verified model of its two API routes

The service accepts a long URL on `POST /api/shorturl`, checks it, hands out
the next value of a persistent counter as its short code, stores the mapping
and replies `{original_url, short_url}`. `GET /api/shorturl/:shortUrl` looks a
code up and redirects to the stored URL, or replies with an error when the code
is unknown. Both routes live in `index.js`; this project models them in three
modules.

- `UrlCheck` (`url_check.dfy`): the format test `^(http|https)(:\/\/)` as a
  case-sensitive prefix predicate `HasHttpScheme`, the regular expression's own
  structure as an independent definition `MatchesHttpRegex` (proved equivalent),
  and `Validate`, the three checks in the handler's order (parse, scheme, DNS).
- `Shortener` (`shortener.dfy`): the store as a value `Db` (the counter
  document, absent until the first allocation, and the `Url` collection as a map
  from `shortUrl` to `originalUrl`), the `POST` handler as the transition
  `Create`, the `GET` handler as the query `Resolve`, and the lemmas about one
  request and about any series of requests served in turn.
- `UrlStore` (`url_store.dfy`): the class `Store` whose fields are the two
  collections. `IncrementCounter` (the upserting increment) and `SaveUrl` (the
  save under the unique index) are specified by the new state they leave;
  `Create` performs the handler's steps in place with them and `Resolve` looks
  a code up, and these two are proved equal to the `Shortener` functions of the
  same names.

Two outcomes come from foreign code and are inputs of the model: whether
`new URL(url)` parses the string, and whether `dns.lookup` resolves its
hostname. The store is sequential: each request is one step.

The only format check is the `http://`/`https://` prefix test; it places no
requirement on the host (`SchemeIgnoresRest`). Parsing runs before it, and
either failure gives "Invalid URL".

If the unique index on `shortUrl` refused a save, the handler would send no
reply after having advanced the counter; `Create` models that case as
`NoReply` (`CreateDuplicateRefused`), and `FreshStoreAlwaysReplies` shows it
never arises on a store reached from the empty one.

## Model

| member | source | states |
|---|---|---|
| UrlCheck.HasHttpScheme | index.js:66-67 | definition: the string starts with `http://` or `https://`, compared case-sensitively; specified by `HttpRegexIsPrefixTest`, `SchemeIgnoresRest`, `SchemeNeedsLeadingH` and `SchemeNeedsFullSeparator` |
| UrlCheck.StartsWithIsPrefix | index.js:66-67 | the character-by-character comparison used for the scheme test is exactly the sequence-prefix relation |
| UrlCheck.StartsWithConcat | index.js:66 | matching a concatenated pattern is matching its first part and then the second part on the rest, as the regex's two groups match in sequence |
| UrlCheck.MatchesHttpRegex | index.js:66 | definition: the anchored format regex group by group (first group `http` or `https`, second group `://`), its part `GroupsMatch` taking one alternative of the first group followed by the literal second group; specified by `HttpRegexIsPrefixTest` |
| UrlCheck.HttpRegexIsPrefixTest | index.js:66-67 | the format regex, modelled group by group (alternative `http` or `https`, then `://`), accepts exactly the strings starting with `http://` or `https://` |
| UrlCheck.SchemeIgnoresRest | index.js:66-67 | anything after `http://` or `https://` passes: the test imposes no host, dot or TLD pattern |
| UrlCheck.SchemeNeedsLeadingH | index.js:66-69 | an empty string or one not starting with lower-case `h` fails the format test: upper-case schemes (the test is case-sensitive), other schemes and bare hosts are rejected |
| UrlCheck.SchemeNeedsFullSeparator | index.js:66-69 | `http:/` or `https:/` not followed by a second `/` fails the format test |
| UrlCheck.SchemeAcceptances | index.js:66-67 | `https://www.freecodecamp.org` and `http://thisdomaindoesnotexist.invalidtld` both pass the format test |
| UrlCheck.Validate | index.js:62-74 | success exactly when parsing, the scheme test and DNS all succeed; "Invalid URL" exactly when parsing or the scheme test fails; "Invalid Hostname" exactly when only DNS fails |
| UrlCheck.ErrorMessage | index.js:68-94 | definition: the `error` text of a refused create, "Invalid URL" for a parse or scheme failure (index.js:68, 94) and "Invalid Hostname" for a DNS failure (index.js:73) |
| Shortener.SequenceValue | index.js:40-43 | definition: the counter document's `sequence_value`, with the schema default 0 while the document is absent; `FirstCreateIsOne` and `IncrementCounter` rely on that default |
| Shortener.Valid | index.js:34 | definition: every stored `shortUrl` lies in 1..counter, the invariant that keeps the unique index from ever refusing a save; kept by `CreatePreservesValid` and `RunPreservesValid` |
| Shortener.Create | index.js:58-96 | definition: the `POST` handler as one transition (checks, then increment, then save and echo); specified by `CreateRejection`, `CreateAllocatesFreshCode`, `CreateDuplicateRefused`, `CreateKeepsMappings` and `CreateThenResolve` |
| Shortener.Resolve | index.js:99-109 | definition: the `GET` handler as a lookup, the stored URL as a redirect or the not-found reply; specified by `CreateThenResolve`, `UnissuedCodeNotFound` and `FreshStoreResolvesIssued` |
| Shortener.NotFoundMessage | index.js:108 | definition: the `error` text "No short URL found for the given input" of the not-found reply |
| Shortener.UnissuedCodeNotFound | index.js:103-108 | on a valid store, a code below 1 or above the counter gets the not-found reply |
| Shortener.FreshStoreResolvesIssued | index.js:103-108 | from a fresh store, after any series of requests, a code is found exactly when it is one of the n codes handed out (1..n); every other code is not found |
| Shortener.CreateRejection | index.js:62-74 | a create is rejected iff validation fails; a parse or scheme failure gives "Invalid URL" and a DNS failure "Invalid Hostname", with counter and table unchanged |
| Shortener.CreateAllocatesFreshCode | index.js:77-91 | on a valid store a request that passes validation succeeds: the counter increases by exactly 1, the code is its new value and was not a key before, the URL is echoed and stored verbatim, and the table gains exactly one entry |
| Shortener.CreatePreservesValid | index.js:34 | every create keeps all stored codes within 1..counter, so codes stay fresh and unique |
| Shortener.CreateDuplicateRefused | index.js:85-86 | when the next counter value is already stored, the unique index refuses the save: the old mapping stays, no reply is sent, and the counter has still advanced |
| Shortener.CreateKeepsMappings | index.js:85-86 | on any store, a create never changes what an already stored code resolves to |
| Shortener.CreateStep | index.js:62-91 | on a valid store one request either hands out the next counter value and stays valid, or is rejected and changes nothing |
| Shortener.CreateThenResolve | index.js:85-86 | after a successful create returning code c, resolving c redirects to the submitted URL |
| Shortener.FirstCreateIsOne | index.js:40-45 | on a fresh store (no counter document) the first accepted URL gets short code 1 and is the only mapping |
| Shortener.Run | index.js:58-96 | serving a series of create requests in order yields one reply per request |
| Shortener.RunReplies | index.js:62-91 | on a valid store the i-th reply of any series is a new code exactly when the i-th request passes parsing, the scheme test and DNS, and otherwise exactly the error of its first failing check |
| Shortener.RunCountsAccepted | index.js:62-91 | on a valid store a series of requests hands out exactly one code per request that passes the checks (`Accepted` counts them) |
| Shortener.RunCodesConsecutive | index.js:77-82 | from a valid store, over any series of requests the codes handed out are the next consecutive counter values and the counter advances by their number |
| Shortener.FreshStoreCodes | index.js:62-82 | from a fresh store, with n the number of requests that pass the checks, exactly n codes are handed out and they are 1..n in order, with no duplicate and no gap, and the counter ends at n |
| Shortener.FreshStoreAlwaysReplies | index.js:85-91 | on a store reached from the empty one every request gets a reply: the unique index never refuses the save |
| Shortener.RunPreservesValid | index.js:34 | any series of requests keeps every stored code within 1..counter |
| Shortener.RunKeepsMappings | index.js:85-86 | mappings are immutable: on any store, later requests never change a stored code's target |
| Shortener.RunThenResolve | index.js:85-91 | on any store, after any series of requests each returned code resolves to the URL submitted with it, and the table grew by one entry per code handed out; on a valid store, by one entry per request that passes the checks |
| Shortener.RangeAt | index.js:77-82 | the i-th of the consecutive codes lo, lo+1, ... is lo+i |
| UrlStore.Store.constructor | index.js:32-45 | a new store has no counter document and no mappings |
| UrlStore.Store.IncrementCounter | index.js:77-82 | the upserting `$inc` returns the old value (0 when absent) plus 1, stores it as the counter, leaves the table alone and keeps the store valid |
| UrlStore.Store.SaveUrl | index.js:85-86 | a save succeeds iff the code is not yet stored, then adds exactly that mapping; a refused save writes nothing; the counter is untouched; saving a code within 1..counter keeps the store valid |
| UrlStore.Store.Create | index.js:58-96 | the in-place handler produces the same new state and reply as `Shortener.Create`, keeps the invariant, always sends a reply (the unique index never refuses its save), leaves the state unchanged on rejection, and the returned code resolves to the URL |
| UrlStore.Store.Resolve | index.js:99-109 | the read-only lookup on the live store answers as `Shortener.Resolve` on its snapshot |
| UrlStore.Scenario | index.js:58-109 | on a fresh store `https://www.freecodecamp.org` gets code 1, resolving 1 redirects to it, an unresolvable host is refused with "Invalid Hostname", and resolving 1 again gives the same redirect |

## Left out

- HTTP plumbing: Express setup, CORS, static files, body parsing, the `/` and `/api/hello` routes and `app.listen` (index.js:6-8, 24-27, 48-55, 115-117).
- Environment and I/O: dotenv and the MongoDB connection (index.js:1, 11-21).
- WHATWG URL parsing and hostname extraction (index.js:62-63): a foreign library; its success is the `parses` input.
- DNS resolution (index.js:71): a network call; its success is the `hostResolves` input.
- Concurrency: the atomicity of `findOneAndUpdate` under simultaneous requests (index.js:77-81). Each request is one sequential step on the store.
- Mongoose's cast of the path parameter to a number and the "Server Error" reply when it throws (index.js:100-103, 110-111): the code is given to `Resolve` as an integer.
- Save failures other than the unique index (connection loss and the like), and what Node does with the unhandled rejection inside the DNS callback beyond sending no reply (index.js:86).
- Counter width: `sequence_value` and `shortUrl` are JavaScript numbers, exact only up to 2^53; the model's counter is an unbounded integer.
- The HTTP status and framing of the replies: a redirect is modelled as `Redirect(target)`, the error replies carry the messages `ErrorMessage` and `NotFoundMessage` give.
