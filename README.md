# simple-s3-clone request front-end, modelled in Dafny

simple-s3-clone is a small S3-compatible object store written as a Flask
application (`app.py`). Every request first passes through `before_request`,
which:

1. takes the credentials out of the `Authorization` header;
2. picks the request date from `Date` or `X-Amz-Date`;
3. renders the sorted `X-Amz-*` headers as `name:value` lines;
4. builds the string-to-sign from the method, `Content-Md5`, `Content-Type`,
   the date, that header block and the request path;
5. resolves the bucket and resource path from the `Host` header
   (virtual-host style) or from the path (path style);
6. checks the signature against a fixed table of three users.

The GET, PUT and DELETE views then choose what to do on the file system:
list, download, create a prefix or object, or delete one. An
`AppException` raised anywhere becomes a JSON error response whose status
is the exception's `status_code` (`exception.py`).

This project models all of that except the file-system work and the
cryptography. Each module of the model matches one part of the program:

| module | file | what it models |
|---|---|---|
| `Exceptions` | `exceptions.dfy` | the AppException kinds and their status codes, plus the Python errors the application lets escape |
| `Headers` | `headers.dfy` | werkzeug's view of the request headers: lookup by environ key, the names `items()` rebuilds, and query-argument lookup |
| `PyStr` | `pystr.dfy` | the Python string operations the code calls (`lower`, `startswith`, `split`, `int`), with the white-space stripping by which `int()` reads its argument |
| `PyOrder` | `pyorder.dfy` | Python's ordering of `(name, value)` tuples, and `sorted` |
| `Canonical` | `canonical.dfy` | `get_date_on_request`, `get_x_amz_headers`, `generate_x_amz_string` and the string-to-sign format |
| `Auth` | `auth.dfy` | `get_auth_info`, the users table and `auth_check` |
| `Resolve` | `resolve.dfy` | `get_bucket_name_and_resource_path`, including an exact reading of both regular expressions |
| `Dispatch` | `dispatch.dfy` | the decisions in the GET, PUT and DELETE views and in `process_object_list` |
| `Frontend` | `frontend.dfy` | `before_request` as a whole, routing by method and `handle_app_error` |

Two support modules complete the project: `seqs.dfy` (first-match search)
and `wrappers.dfy` (`Option` and `Result`).

The HMAC-SHA1-and-base64 signature is left uninterpreted. It is a
parameter `sign(secret, stringToSign)` of type `Signer`, so every property
holds for any signing function.

The request headers are modelled as werkzeug presents them. The WSGI
server files each header under an environ key: the name upper-cased, with
`-` written `_`. `name in request.headers` and `request.headers.get(name)`
compare these keys, so `x-amz-date`, `X-Amz-Date` and `X_AMZ_DATE` are one
name. `request.headers.items()` does not return the name as sent. It
rebuilds the name from the key, turning `_` back into `-` and title-casing
the result, so `x-amz-date` is reported as `X-Amz-Date`. The `X-Amz-` filter
and the sort both see these rebuilt names.

Where the code departs from Amazon S3's REST authentication (Signature
Version 2) and addressing rules, the model follows the code:

- The string-to-sign ends with the request path as received.
  - S3's CanonicalizedResource is `/bucket/key`. Here a virtual-host
    request and a path-style request for the same object sign different
    strings.
  - Virtual-host style keeps the whole request path as the resource path.
- A request that matches neither addressing style fails with
  `NotImplemented` (status 501).
- A request without a `Host` header makes `re.match` fail with an
  uncaught `TypeError`, which is answered with status 500.
- There is no `NoSuchBucket` check and no per-bucket credential store.
  Every access key is looked up in the single users table.
- The date is never compared with a clock, so no request is refused as
  `RequestTimeTooSkewed`.
- S3 combines the values of a repeated `x-amz-` header into one
  comma-separated line. Here each selected `items()` entry is one line,
  and its value is looked up again by name. The lines are sorted by the
  rebuilt name and value before the name is lower-cased.
- The signature is compared with ordinary string equality.
- The credential needs a `:`, and the access key id is everything before
  the first `:`. Exactly one colon is not required.
- A `Content-Length` that disagrees with the body length raises
  `MissingContentLength` (411), which S3 uses for a missing length.
  - A missing header is an uncaught `TypeError`, since `int(None)` fails. Under the development server started by `app.run()`, werkzeug sets an absent length to `''`, and the error is instead the `ValueError` of `int('')`. Both are answered with status 500.
  - A header that is not a number is an uncaught `ValueError`.
- The virtual-host regular expression `(.*).b.tgr.tokyo` is matched with
  `re.match`:
  - It is anchored at the start only.
  - Its dots match any character except a newline.
  - The group is greedy.

  So `mybucketXbXtgrXtokyo` resolves to bucket `mybucket`, and
  `a.b.b.tgr.tokyo` resolves to bucket `a.b`.
- Because a virtual-host resource path always starts with `/`, a
  virtual-host GET always downloads and never lists the bucket.
- A path-style PUT or DELETE on the bucket root `/bucket/` has an empty
  resource path. `resource_path[-1]` then raises an uncaught `IndexError`.

## Model

| member | source | states |
|---|---|---|
| `Exceptions.StatusCode` | exception.py:7-93 | each kind's status lies in 400..501; a code is 400, 403, 404, 405, 409, 411, 500 or 501 exactly for the kinds declared with it |
| `Headers.Lookup` | app.py:31-33 | a header lookup succeeds exactly when some header reaches the same environ key as the name asked for, and then returns the value of the first such header |
| `Headers.GetOr` | app.py:80-81 | `get(name, default)` gives the default when no header has the name, and otherwise what the lookup returns |
| `Headers.ItemNameSameKey` | app.py:49-56 | the name `items()` reports reaches the header's own environ key, so `get` on it finds a header again |
| `Headers.ItemNameIdempotent` | app.py:49-56 | rebuilding a rebuilt name changes nothing |
| `Headers.LookupHead` | app.py:41-45 | a header whose name matches first is the one returned |
| `Headers.LookupUnique` | app.py:56 | with unique names, looking up the name of a header present in the list returns that header's value |
| `Headers.LookupInsert` | app.py:56 | inserting, at any position, a header under another environ key does not change the result of a lookup |
| `Headers.ArgGet` | app.py:163-166 | a query argument absent from the arguments gives the default; otherwise the value returned is that of an argument with the key, at or before any argument with that key |
| `PyStr.Split` | app.py:33 | `split` yields at least one field, no field contains the separator, and joining the fields with the separator gives back the string |
| `PyStr.SplitJoin` | app.py:33 | splitting the join of separator-free fields gives back the fields |
| `PyStr.SplitOnce` | app.py:97 | `split(c, 1)` yields one field (the whole string) exactly when `c` is absent, else the part before the first `c` and the rest |
| `PyStr.ParseInt` | app.py:146 | `int()` is a ValueError on a string that is empty or only white space; a string of ASCII digits reads as its decimal value |
| `PyStr.ParseDecimal` | app.py:146 | `int()` reads the decimal rendering of every natural number back as that number |
| `PyStr.NotANumber` | app.py:146 | `int()` is a `ValueError` on any string holding a character other than white space, a sign or a digit, such as `abc` or `5x` |
| `PyStr.ParseNegativeSpaced` | app.py:146 | a minus sign followed by white space and then digits reads as the negated number, as `int('- 5') == -5` |
| `PyOrder.Sort` | app.py:54 | `sorted` returns a permutation of its input |
| `PyOrder.SortSorted` | app.py:54 | `sorted` returns a list ordered by name, then by value |
| `PyOrder.SortedUnique` | app.py:54 | two ordered lists with the same elements are equal |
| `PyOrder.SortOrderIndependent` | app.py:54 | `sorted` gives the same list for any two permutations of its input |
| `PyOrder.PairLeTotal` | app.py:54 | any two header tuples are comparable |
| `PyOrder.PairLeAntisymmetric` | app.py:54 | tuples ordered both ways are equal |
| `PyOrder.PairLeTransitive` | app.py:54 | the tuple order is transitive |
| `PyOrder.StrLtTransitive` | app.py:54 | Python string order is transitive |
| `PyOrder.StrLtTotal` | app.py:54 | any two distinct strings are ordered one way |
| `PyOrder.StrLtAsymmetric` | app.py:54 | no two strings are ordered both ways |
| `Canonical.DateOnRequest` | app.py:39-45 | `Date` wins when present, else `X-Amz-Date`, else `InvalidArgument` |
| `Canonical.GetDateOnRequest` | app.py:39-45 | the `for`/`else` search over the two keys returns what `DateOnRequest` specifies |
| `Canonical.AmzHeaders` | app.py:48-49 | the filter returns no more entries than there are headers |
| `Canonical.AmzHeadersSelects` | app.py:48-49 | the filter keeps every `items()` entry whose rebuilt name starts with `X-Amz-`, as often as it occurs, and nothing else |
| `Canonical.AmzNameAnySpelling` | app.py:48-49 | a header is selected, however the client cased it and whichever of `-` and `_` it used, exactly when its environ key starts with `X_AMZ_` |
| `Canonical.LowercaseAmzHeader` | app.py:48-57 | a header sent as `x-amz-date` is selected under its rebuilt name and renders as `x-amz-date:D` |
| `Canonical.SortedByRebuiltName` | app.py:54-57 | `X-Amz-a` sorts before `X-Amz-B`, because the sort sees the rebuilt name `X-Amz-A` |
| `Canonical.XAmzString` | app.py:52-58 | the block is empty exactly when no header is selected, and otherwise ends with a newline |
| `Canonical.GenerateXAmzString` | app.py:52-58 | the loop over the sorted headers builds exactly the specified block |
| `Canonical.XAmzStringRenders` | app.py:52-58 | with unique names, the block is one `lowercased-name:value` line per selected `items()` entry, in sorted order, each entry exactly once |
| `Canonical.XAmzOrderIndependent` | app.py:52-58 | with unique names, the block does not depend on the order the headers arrived in |
| `Canonical.XAmzIgnoresOtherHeaders` | app.py:48-58 | inserting, at any position, a header whose rebuilt name does not start with `X-Amz-` leaves the block unchanged |
| `Canonical.XAmzRepeatedHeader` | app.py:54-57 | a repeated header name renders its first value on every line, so the block then depends on arrival order; a WSGI environ never delivers such a list, since it holds one entry per environ key |
| `Canonical.StringToSign` | app.py:77-86 | the string-to-sign starts with the method and a newline, ends with the path, and is as long as its six parts plus four newlines |
| `Canonical.StringToSignFields` | app.py:77-86 | the string-to-sign splits on newlines into method, MD5, content type, date and then the header lines and path |
| `Canonical.StringToSignInjective` | app.py:77-86 | two requests sign the same string only when method, MD5, content type and date are equal and header block plus path are equal |
| `Auth.GetAuthInfo` | app.py:30-36 | a missing `Authorization` header, or one that does not split into two space-separated parts, gives `InvalidArgument`; a result contains no space |
| `Auth.AuthInfoAccepts` | app.py:33-36 | `scheme credentials` with no space inside either part gives the credentials |
| `Auth.AuthInfoShape` | app.py:33-36 | an accepted header is exactly a space-free scheme, a space and the space-free credentials returned |
| `Auth.AuthInfoRejectsSpaceCount` | app.py:34-35 | a header of any number of space-separated parts other than two is rejected |
| `Auth.AccessKeyId` | app.py:64 | the access key id contains no `:`; it is the text before the first `:` when there is one, and the whole credential otherwise |
| `Auth.FindSecret` | app.py:65-68 | the secret of the first user with the access key id, or none when no user has it |
| `Auth.UsersTableLookup` | app.py:23-27 | each of the three configured users is found with its own password, and no id contains `:` |
| `Auth.AuthCheck` | app.py:61-74 | credentials without `:` give `InvalidArgument`; the only failures are `InvalidArgument`, `InvalidAccessKeyId` and `SignatureDoesNotMatch` |
| `Auth.AuthCheckAcceptsSigned` | app.py:64-74 | `id:sign(secret, raw)` for a known id passes |
| `Auth.AuthCheckUnknownId` | app.py:65-67 | an id no user has gives `InvalidAccessKeyId`, whatever the signature |
| `Auth.AuthCheckWrongSignature` | app.py:69-74 | a known id with any signature other than the computed one gives `SignatureDoesNotMatch` |
| `Auth.AuthCheckSound` | app.py:61-74 | passing credentials are `id:sign(secret, raw)` for the secret the users table holds for `id` |
| `Resolve.GreedyGroupEnd` | app.py:91 | the search finds the largest group end at which `.b.tgr.tokyo` matches, or reports that none exists |
| `Resolve.VirtualHostBucket` | app.py:91-93 | the bucket is the longest prefix of the host followed by a match of `.b.tgr.tokyo` (wildcard dots); none exactly when no such prefix exists |
| `Resolve.PathStyle` | app.py:95-97 | path style applies exactly when `/(.*)/(.*)` matches; the bucket has no `/` and bucket, `/` and rest rebuild the path after its first character |
| `Resolve.GetBucketNameAndResourcePath` | app.py:89-99 | no host gives a `TypeError`; virtual-host style wins and keeps the whole path; otherwise path style; otherwise `NotImplemented` |
| `Resolve.PathStyleRoundTrip` | app.py:95-97 | `/bucket/key` with a bucket free of `/` and newlines resolves to `(bucket, key)` |
| `Resolve.PathWithoutSecondSlash` | app.py:95-99 | a path with no `/` after its first character fails with `NotImplemented` |
| `Resolve.BareHostnameIsPathStyle` | app.py:91-92 | the bare host `b.tgr.tokyo` is not virtual-host style |
| `Resolve.VirtualHostExample` | app.py:91-93 | `mybucket.b.tgr.tokyo` names bucket `mybucket` |
| `Resolve.VirtualHostDotsAreWildcards` | app.py:91 | `mybucketXbXtgrXtokyo` also names bucket `mybucket` |
| `Resolve.VirtualHostGreedy` | app.py:91 | `a.b.b.tgr.tokyo` names bucket `a.b` |
| `Dispatch.ProcessObjectList` | app.py:162-181 | delimiter `''` lists recursively and `/` one level, with the `prefix` argument; any other delimiter gives `NotImplemented` |
| `Dispatch.ListingDefaults` | app.py:163-176 | with neither argument the listing is recursive from the empty prefix |
| `Dispatch.GetRequestWithPath` | app.py:137-141 | a non-empty resource path downloads; an empty one returns the listing `process_object_list` chooses, and fails with its `NotImplemented` exactly on an unsupported delimiter |
| `Dispatch.EndsWithSlash` | app.py:148 | `resource_path[-1]` fails with `IndexError` exactly on an empty path, and otherwise tests its last character |
| `Dispatch.ContentLengthNotANumber` | app.py:146 | a `Content-Length` holding a character other than white space, a sign or a digit is an uncaught `ValueError` |
| `Dispatch.ContentLength` | app.py:146 | a missing header is a `TypeError`; a present header succeeds exactly when `int()` reads it, the failure is a `ValueError`, and a value returned is what `int()` reads |
| `Dispatch.PutRequestWithPath` | app.py:145-151 | the length check comes first and fails with `MissingContentLength` on a mismatch; then a trailing `/` creates a prefix, anything else an object |
| `Dispatch.DeleteRequestWithPath` | app.py:155-159 | an empty path fails with `IndexError`; a trailing `/` deletes a prefix, anything else an object |
| `Dispatch.PutWellFormed` | app.py:145-151 | a correct decimal `Content-Length` on a non-empty path reaches the create step |
| `Dispatch.PutLengthCheckedFirst` | app.py:146-147 | a wrong length is reported even on an empty resource path |
| `Dispatch.PutOnEmptyResource` | app.py:146-148 | a correct length on an empty resource path fails with `IndexError` |
| `Frontend.Lift` | app.py:124-128 | an AppException keeps its kind when it reaches the request boundary |
| `Frontend.GenerateAuthString` | app.py:77-86 | the string-to-sign is the method, `Content-Md5` and `Content-Type` (empty when absent), date, header block and request path in the `StringToSign` layout, so it starts with the method and ends with the path; without `Content-Md5` and `Content-Type` it is method, three newlines, date, newline, header block and path |
| `Frontend.Prepare` | app.py:102-121 | the checks fail in order (credentials, date, address, signature) with the error of the first that fails, a failed signature check giving the error `auth_check` raised, and only with `TypeError`, `InvalidArgument`, `NotImplemented`, `InvalidAccessKeyId` or `SignatureDoesNotMatch`; on success `g` holds the credentials, date, header block, string-to-sign and address computed, and the signature check passed |
| `Frontend.BeforeRequest` | app.py:102-121 | the step-by-step `before_request` ends exactly as the specified pipeline does |
| `Frontend.NoAuthorizationHeader` | app.py:105 | a request without `Authorization` fails with `InvalidArgument`, before anything else is looked at |
| `Frontend.NoDateHeader` | app.py:106 | accepted credentials but no date header give `InvalidArgument` |
| `Frontend.UnresolvableBeforeSignature` | app.py:109-121 | an unresolvable address gives `NotImplemented` before the signature is checked, whatever the signature |
| `Frontend.SignedRequestAccepted` | app.py:102-121 | a request signed with a configured user's secret is accepted, and `g` holds the credentials, date, header block, string-to-sign and resolved address |
| `Frontend.WrongSignatureRejected` | app.py:102-121 | on a resolvable request with a known id, any other signature gives `SignatureDoesNotMatch` |
| `Frontend.AcceptedRequestSound` | app.py:102-121 | an accepted request carries `id:sign(secret, string-to-sign)` for a configured user |
| `Frontend.Route` | app.py:131-159 | GET and HEAD download a non-empty resource path and otherwise return the listing `process_object_list` chooses, or its `NotImplemented`; PUT fails with the `int()` error of `Content-Length`, then with `MissingContentLength` on a wrong length, then with `IndexError` on an empty resource path, and otherwise creates a prefix for a trailing `/` and an object for anything else; DELETE fails with `IndexError` exactly on an empty resource path and otherwise deletes a prefix or an object by the trailing `/`; any other method, and PUT or DELETE on `/`, reach no view |
| `Frontend.Handle` | app.py:102-159 | a request is served exactly when `before_request` and its view both succeed, with an action the view chose; otherwise the request fails with the error of `before_request` or, after it, of the view |
| `Frontend.PreparedAddress` | app.py:109 | `g` holds the bucket and resource path the resolution produced |
| `Frontend.VirtualHostGetDownloads` | app.py:137-141 | an accepted virtual-host GET always downloads, never lists |
| `Frontend.RootServesGetOnly` | app.py:131-159 | on `/` only GET and HEAD reach a view |
| `Frontend.PutOnBucketRoot` | app.py:145-148 | a path-style PUT on `/bucket/` with a correct length fails with `IndexError` |
| `Frontend.HandleAppError` | app.py:124-128 | the response status and the `status_code` in the body are the kind's status code, and the message is the kind's message |
| `Frontend.FailureStatus` | app.py:124-128 | a raised AppException is answered with its status code, an uncaught error with 500, so always between 400 and 501 |
| `Frontend.FailureStatusRange` | app.py:124-128 | every failed request is answered with a status between 400 and 501 |

## Left out

- The file-system work of the views is not part of this model: listing, download, create and delete (`download_object`, `create_prefix`, `create_object`, `delete_prefix`, `delete_object`). It is direct I/O; the model stops at the `Action` chosen.
- The listing helpers in `util.py` are not part of this model: `get_absolute_object_path`, `get_object_list`, `get_object_list_recursive` and `generate_xml_object_list`. They walk the file system.
- `xml_prettify` and `gen_random_str` are not part of this model: they format output and draw randomness.
- The MD5 ETag is left out for the same reason.
- HMAC-SHA1 and base64 are the uninterpreted parameter `sign`. This includes `rstrip` of the encoding's trailing newline. Nothing is assumed about the cryptography.
- Flask and werkzeug plumbing is left out:
  - `g`, `jsonify` and the response objects become Dafny values;
  - the automatic OPTIONS and 405 answers are the single action `Unrouted`.
- Routing rests on one assumption: a `before_request` hook runs before the 405 decision, as in Flask.
- Text outside ASCII is left out. Characters stand for ASCII bytes, and header names are case-folded on ASCII letters only. Under werkzeug on Python 2 the request path and the header values are unicode, so the behaviour below is not modelled:
- `Canonical.XAmzString`: an `X-Amz-` header value with a non-ASCII character makes the byte-string `format` raise an uncaught `UnicodeEncodeError` (status 500) in `generate_x_amz_string`. The model renders the line.
- `Canonical.StringToSign`: a non-ASCII request path, date, `Content-Md5` or `Content-Type` makes the `format` of `generate_auth_string` raise the same uncaught error. The model builds the string.
- `Frontend.GenerateAuthString`: for the same reason, the source fails with status 500 before the address is resolved and before the signature is checked, where the model goes on. `Frontend.Prepare` and `Frontend.SignedRequestAccepted` therefore accept such a correctly signed request, which the source answers with 500.
- `PyStr.ParseInt`: unicode `int()` also strips Unicode white space such as `\xa0`, `\x85` and `\x1c`-`\x1f`, which the model reads as a `ValueError`.
- How a WSGI server merges a header sent twice into one environ value is left out. The model keeps every header as a separate entry, and `get` returns the first.
- `PyStr.ParseInt`: a trailing `L` is read as a `ValueError`. Python 2's `int()` accepts it only when the number is too large for a machine `long`, and no body is that long. White space around the number and between the sign and the digits is modelled.
- `Canonical.XAmzOrderIndependent`: stated only for header lists with unique names. With a repeated name the block depends on arrival order, as `Canonical.XAmzRepeatedHeader` shows.
- `Canonical.XAmzStringRenders`: stated only for header lists with unique names, for the same reason.
- An uncaught Python error becomes status 500 only. Flask's debug page (`app.debug = True`) and its body are left out.
- `Frontend.Route`: the URL rules are not modelled as werkzeug's regular expressions. The rule `/<path:path>` matches `[^/].*?` without DOTALL, so it stops at a newline. A request path such as `/b/k\nx` (sent as `/b/k%0Ax`) matches no rule, and Flask answers 404 once `before_request` has passed. The model routes it by method as it does any other path that is not `/`.
- The `HEAD` response body is left out. The model treats HEAD as reaching the GET view.
