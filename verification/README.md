# wreq: verified models of the client's stateful cores

This project models the parts of the `wreq` HTTP client (and its `tlsurl-core` layer) that keep state
or promise something over many calls, and proves those promises:

| area | modules |
|---|---|
| cookie jar and store | `CookieMatching`, `CookieModel`, `CookieListing`, `CookieStore`, `CookieJar`, `CookieProperties`, `CookieRules`, `CookieExport` |
| multipart/form-data | `PercentEncoding`, `Multipart`, `MultipartParsing` |
| TLS session cache | `TlsSessionCache` |
| cancellation of streams and WebSockets | `StreamResponse`, `WebSocket`, `WebSocketResults` |
| redirects and the Referer field | `Redirect`, `Referrer` |
| seeded TLS configuration | `RandomTls` |
| header order and override | `Headers` |
| proxy exclusions, credentials in URIs | `NoProxy`, `Userinfo` |

`FairMutex`, `Text`, `Search`, `Sequences`, `Uris` and `Wrappers` hold what they share.

How the models are built:

- An object that the source updates in place is a class whose methods are proved against a function on
  its abstract value (`View`, `content`, `authority`, `fields`). What the source promises is then proved
  about runs of those functions.
- The cookie store is nested hash maps, as in the source. Its abstract value is one flat map keyed by
  domain, path, name and host-only flag. Hash-map iteration order is arbitrary in the model, and library
  sorting promises an ordered permutation and nothing else.
- The stream and the WebSocket are step systems. Each flag test, lock operation and slot access is a step
  of its own, which is finer than one future poll per step; "polls are atomic" is a predicate on schedules
  (`PollsAreAtomic`), and the results say what holds with it and what holds without it. The mutex is the
  fair one of the `tokio` crate (`FairMutex`): a release hands it to the first in the queue, and that
  reservation keeps everyone else out until the one it is for is polled again or dropped.
- A `string` stands for the UTF-8 bytes of a Rust string, one `char` per byte.
- Time, random words, transport answers, and the parsers and printers of the URL and host libraries are
  parameters. `requires` clauses about them are stated where they are needed (`Reparses`, `Library`).

Where the code and its own comments or documentation differ, the model follows the code:

- `PercentEncoding.BorrowedExactly` and `LoneByteIsBorrowed`: src/client/multipart.rs:449 says that a
  borrowed result means nothing was encoded. A name of one single byte that must be encoded also comes out
  borrowed and is written as a plain quoted parameter with its three encoded bytes. A reader that takes
  plain names literally then gets those three bytes (`MultipartParsing.LoneByteNameIsLost`: `#`).
- `TlsSessionCache.PutIndexedIff` and `TwoKeysBreakSingleUse`: an id put under a second key while it is
  stored under another leaves a stale list entry, and pops of the first key then hand it out without end.
- `StreamResponse.CloseInsideTheWindow` and `WebSocket.AbortInsideTheWindow`: a close or abort whose
  `try_lock` falls between a holder's last flag test and its release leaves the resource in its slot.
- `StreamResponse.DroppedWaiterKeepsBody` and `WebSocket.DroppedWaiterKeepsSocket`: even with whole polls, a
  close or abort that finds the lock reserved for a waiting call comes to nothing if that call is dropped
  before its next poll. The comment at crates/tlsurl-core/src/stream.rs:28 only considers holders.
- `Redirect.HopEscapesIff`, `ChainIsCheckedIff` and `HistoryIsCompleteIff`: the scheme checks and the history
  of src/redirect.rs:401-424 apply to verdicts given at once; the verdict of a pending action is followed
  without either. A hop goes where the checks forbid exactly when a redirect with a location and a body at
  hand meets a pending verdict to follow and that location is not allowed, and the history lacks a hop exactly
  when some hop was awaited. `AwaitedFollowIsNotChecked` is an instance under https-only.
- `Redirect.HistoryIsHandedOutIff`: the history reaches the caller only with an answer whose status is no
  redirect; a redirect that is not followed is answered without it.
- `WebSocket.CloseAfterAbortIsNotClosed`: closing an aborted socket returns without an error and without
  setting the closing flag, so later sends fail with CANCELLED and not with CLOSED.
- `MultipartParsing.ValueThatStartsLikeABoundary`: a value that begins with the two dashes and the boundary
  makes a delimiter together with the blank line before it, although no header and no value contains one.
- `NoProxy.RuleIsMetExactly` and `StarredHostIsMissed`: a lone `*` entry does not cover a host that itself
  ends in a star behind something other than a dot, such as `a*`.
- `Userinfo.RoundTripExactly` and `EncodedLookingNameIsLost`: `%` is not in the encode set, so credentials
  that look percent-encoded come back decoded (`%41` as `A`).

## Model

| member | source | states |
|---|---|---|
| CookieMatching.DomainMatchIsLabelSuffix | src/cookie/store.rs:267-284 | the byte arithmetic of `domain_match` is section 5.1.3 of RFC 6265: equal hosts, or a name whose labels end in the domain's labels; address literals never suffix-match |
| CookieMatching.DomainMatchPartialOrder | src/cookie/store.rs:267-284 | domain matching is reflexive, antisymmetric and transitive |
| CookieMatching.PathMatchIsSegmentPrefix | src/cookie/store.rs:286-292 | the byte tests of `path_match` are section 5.1.4 of RFC 6265 in segments: equal paths, or the cookie path's segments properly begin the request path's |
| CookieMatching.PathMatchPartialOrder | src/cookie/store.rs:286-292 | path matching is reflexive, antisymmetric and transitive |
| CookieMatching.MatchingPathsAreComparable | src/cookie/store.rs:286-292 | any two cookie paths that match one request path are comparable, and the longer one is the more specific one |
| CookieMatching.DefaultPathCoversItsRequest | src/cookie/store.rs:309-321 | the default path is absolute and matches the request path it came from |
| CookieMatching.DefaultPathIsDirectory | src/cookie/store.rs:309-321 | the default path is the request path without its last segment, or `/` if nothing is left |
| CookieStore.FlatAfterInsert | src/cookie/store.rs:99-142 | storing into one nested scope is a point update of the flat map |
| CookieStore.FlatAfterRemove | src/cookie/store.rs:160-191 | dropping a name from a scope, with pruning, removes exactly the selected keys of the flat map |
| CookieStore.OldestOfScope | src/cookie/jar.rs:47-61 | a nested scope yields the oldest unexpired cookie of exactly that host, path and name, or nothing only if there is none |
| CookieStore.Store.constructor | src/cookie/store.rs:90-95 | a new store is the empty flat map with counter 0 |
| CookieStore.Store.InsertStoredCookie | src/cookie/store.rs:99-142 | the nested store refines the flat insertion: an unchanged value keeps its creation index, anything else takes the next one; no inner map is empty |
| CookieStore.Store.RemoveStoredCookie | src/cookie/store.rs:145-153 | removes exactly the entry of one storage scope from the flat map |
| CookieStore.Store.RemoveStoredCookies | src/cookie/store.rs:156-158 | removes the host-only and the Domain entry of a name at a path, and nothing else |
| CookieStore.Store.RemoveStoredCookieInner | src/cookie/store.rs:160-191 | the nested removal refines the flat one and prunes every map it empties |
| CookieStore.Store.PrunePath | src/cookie/store.rs:160-191 | a path that loses its last entry goes, and no other path changes |
| CookieStore.Store.OverlayAgrees | src/cookie/store.rs:210-231 | the nested search finds a live Secure cookie exactly when the flat map holds one that the new cookie would shadow |
| CookieStore.Store.All | src/cookie/store.rs:193-208 | walking the nested maps in any order lists every stored entry exactly once |
| CookieStore.Store.MatchingCookies | src/cookie/store.rs:193-208 | lists exactly the unexpired entries that apply to the request, each once |
| CookieListing.KeepEnumerates | src/cookie/store.rs:193-208 | filtering a listing gives a listing of the filtered map |
| CookieListing.Sort | src/cookie/jar.rs:102-123 | sorting is an ordered permutation |
| CookieListing.SortedEnumerationUnique | src/cookie/jar.rs:381-392 | with distinct creation indices there is one sorted listing, whatever the iteration order of the hash maps |
| CookieJar.Jar.constructor | src/cookie/jar.rs:19-20 | a new jar is empty |
| CookieJar.Jar.Add | src/cookie/jar.rs:219-310 | `add` on the nested store is the flat transition: placement, overlay check, then insertion or removal |
| CookieJar.Jar.Locate | src/cookie/jar.rs:229-296 | the in-place attribute rewrites before the lock give the specified placement: effective domain, path, deadline and expiry |
| CookieJar.Jar.SetCookies | src/cookie/jar.rs:359-368 | the field values of a response are one run of adds, in order, without the malformed ones |
| CookieJar.Jar.Remove | src/cookie/jar.rs:326-340 | removes both storage scopes of a name at exactly the URI's host and path |
| CookieJar.Jar.Clear | src/cookie/jar.rs:353-355 | leaves the empty state in a new store |
| CookieJar.Jar.Get | src/cookie/jar.rs:47-61 | an answer exists iff an unexpired cookie of that exact scope does, and it is one with no older rival |
| CookieJar.Jar.Contains | src/cookie/jar.rs:66-85 | true exactly when `get` finds something |
| CookieJar.Jar.Len | src/cookie/jar.rs:129-139 | the number of unexpired entries of the flat map |
| CookieJar.Jar.IsEmpty | src/cookie/jar.rs:142-152 | true exactly when the flat map holds no unexpired entry |
| CookieJar.Jar.Live | src/cookie/jar.rs:102-123 | lists exactly the unexpired entries, each once |
| CookieJar.Jar.GetAll | src/cookie/jar.rs:102-123 | a legal export: every unexpired entry once, oldest first |
| CookieJar.Jar.Matches | src/cookie/jar.rs:178-193 | nothing for a URI without a canonical host, else exactly the entries that apply |
| CookieJar.Jar.Cookies | src/cookie/jar.rs:370-432 | the Cookie field is a legal answer: some sorted listing of the matching entries, rendered for the version |
| CookieJar.Jar.FieldPerCookie | src/cookie/jar.rs:394-408 | the loop for HTTP/2 and HTTP/3 keeps exactly the pairs that are legal field values, in order |
| CookieJar.Jar.OneField | src/cookie/jar.rs:409-431 | the text built for HTTP/1.1 is the "; " join of all pairs and is empty only without cookies |
| CookieProperties.PlacedInItsSlot | src/cookie/jar.rs:229-309 | a placed cookie carries the Domain attribute, path and deadline of the slot it goes into |
| CookieProperties.RunKeepsWellFormed | src/cookie/store.rs:99-191 | over every run: each entry's attributes agree with its slot, Max-Age has become a deadline, indices are below the counter and distinct until it saturates |
| CookieProperties.AddTouchesOneKey | src/cookie/jar.rs:219-310 | an `add` changes no entry but the one it addresses |
| CookieProperties.OneAnswer | src/cookie/jar.rs:370-432 | below saturation two legal answers are equal, so the answer does not depend on hash-map order |
| CookieProperties.OneExport | src/cookie/jar.rs:102-123 | below saturation there is one legal export |
| CookieProperties.SelectionIsMostSpecificFirst | src/cookie/jar.rs:381-392 | what is sent is exactly the matching entries, each once, most specific path first, then oldest first; http never sees a Secure cookie |
| CookieProperties.CompressedIsJoinOfFields | src/cookie/jar.rs:394-431 | section 8.2.3 of RFC 9113: the HTTP/1.1 field is the "; " join of the HTTP/2 fields iff some cookie applies and every pair is a legal field value; otherwise HTTP/1.1 sends nothing |
| CookieProperties.InsecureAddRespectsSecure | src/cookie/jar.rs:229-308 | Secure rules of section 5.7 of RFC 6265bis: an add from an insecure URI leaves the live Secure entries as they are, makes no new one, and stores nothing that shadows one |
| CookieProperties.InsecureRunRespectsSecure | src/cookie/store.rs:210-231 | the same over every run of adds from insecure URIs |
| CookieRules.SentExactly | src/cookie/store.rs:235-292 | section 5.4 of RFC 6265, for every selection of a well-formed state: a cookie is sent iff the scheme is http or https, the host is its domain or, unless it is host-only, has labels that properly end in it, the path is its path or has its segments as a proper prefix, it is not Secure over http, and its deadline is absent or ahead |
| CookieRules.UnexpiredExactly | src/cookie/store.rs:258-265 | counts, exports and lookups see exactly the cookies whose Max-Age, if still there, is positive and whose deadline is absent or ahead |
| CookieRules.FieldsAreTheLegalPairs | src/cookie/jar.rs:394-408 | in HTTP/2 and HTTP/3 the fields are name, equals sign and value of exactly the cookies for which that is a legal field value, in the order of the cookies |
| CookieRules.AddRejects | src/cookie/jar.rs:229-263 | a cookie without an accepting host and domain, or Secure over an insecure transport, changes nothing |
| CookieRules.AddExactly | src/cookie/jar.rs:219-310 | section 5.3 of RFC 6265 for an accepted cookie, in labels, segments and seconds: refused if it would be shadowed over an insecure transport, removal of its own entry if dead on arrival, else stored under its own key with its attributes, its whole lifetime, and the creation index of an entry with the same value or the next one; no other entry changes |
| CookieRules.StoredCookieIsSentBack | src/cookie/jar.rs:219-310 | a cookie just stored is sent back to its own URI, now and at every later time, iff its path covers the request path and it is within its Max-Age and the calendar, or, without Max-Age, within its Expires |
| CookieRules.RemoveExactly | src/cookie/jar.rs:326-340 | `remove` drops exactly the cookies of that name at the URI's host and path, of either scope |
| CookieExport.ImportOne | src/cookie/jar.rs:219-310 | adding one snapshot through an https URI of its host restores the entry under its key with the next index |
| CookieExport.ImportLate | src/cookie/jar.rs:219-310 | a snapshot that has expired when it is added changes nothing |
| CookieExport.ExportMirrors | src/cookie/jar.rs:102-123 | export and import give a store with the same live cookies in the same creation order, each import at its own clock reading |
| CookieExport.ExportImportRoundTrip | src/cookie/jar.rs:86-123 | exporting a jar and adding the snapshots to an empty one gives the same answers for every URI and version at every time by which the export and all imports, each with its own clock reading, have been made |
| TlsSessionCache.LruTlsSessionCache.constructor | src/tls/session.rs:140-148 | a new cache is empty |
| TlsSessionCache.LruTlsSessionCache.Put | src/tls/session.rs:152-180 | eviction, list and reverse index after a put, as one function of the old state |
| TlsSessionCache.LruTlsSessionCache.Pop | src/tls/session.rs:182-204 | the oldest session of the key is handed out, and a TLS 1.3 session leaves lists and index |
| TlsSessionCache.PutExactly | src/tls/session.rs:152-180 | a put into a full list drops its oldest session first, even to refresh one that is listed; the session is then the newest of its key, in the form first stored, and no other list or index entry changes |
| TlsSessionCache.PopExactly | src/tls/session.rs:182-204 | a pop hands out the oldest session of the key and takes away only a TLS 1.3 session that the index knows, and only from the list the index names; nothing else changes |
| TlsSessionCache.InnerLruNeverEvicts | src/tls/session.rs:157-174 | room is always made first, so the inner LRU's own bound never drops a session |
| TlsSessionCache.RunKeepsGoodLists | src/tls/session.rs:152-204 | over every run whatsoever no list is empty and each holds at most max(1, capacity) distinct sessions |
| TlsSessionCache.PutIndexedIff | src/tls/session.rs:152-180 | a put leaves the reverse index exact for an id iff it does not put that id under a second key |
| TlsSessionCache.RunIsIndexed | src/tls/session.rs:152-204 | an id put under one key at a time is indexed exactly after every run, whatever happens to other ids |
| TlsSessionCache.PutConsistentIff | src/tls/session.rs:152-180 | a put keeps the reverse index the exact inverse of the lists iff its id is not stored under another key |
| TlsSessionCache.PopKeepsConsistent | src/tls/session.rs:182-204 | a pop keeps the indices consistent and removes exactly the TLS 1.3 session it hands out |
| TlsSessionCache.RunIsConsistent | src/tls/session.rs:152-204 | over every run with one key per id the index is the exact inverse, no list is empty, and each holds at most max(1, capacity) distinct sessions |
| TlsSessionCache.SingleUse | src/tls/session.rs:190-201 | Appendix C.4 of RFC 8446: a TLS 1.3 session whose id is put under one key at a time is handed out at most as often as it was put, whatever happens to other ids |
| TlsSessionCache.ListsAreOldestFirst | src/tls/session.rs:152-204 | over every run whatsoever each list is ordered by the time of the last put under its key |
| TlsSessionCache.PopIsOldest | src/tls/session.rs:182-204 | over every run a pop hands out the session of its key whose last put there is oldest, and nothing only if none is listed |
| TlsSessionCache.PopUnlistsIff | src/tls/session.rs:190-201 | a pop takes the TLS 1.3 session it hands out off the list iff the reverse index still knows it under that key |
| TlsSessionCache.TwoKeysBreakSingleUse | src/tls/session.rs:152-204 | one id put under two keys is handed out by any number of pops of the first key |
| StreamResponse.RunKeepsInv | crates/tlsurl-core/src/stream.rs:26-56 | over every schedule: one lock holder, body position and deliveries in step, late readers kept from the transport |
| StreamResponse.DeliveriesArePrefix | crates/tlsurl-core/src/stream.rs:34-56 | chunks handed out in lock order are a prefix of the transport's, without loss or duplicate; a read started after close ends as cancelled |
| StreamResponse.NoChunkAfterTheEnd | crates/tlsurl-core/src/stream.rs:34-56 | after end, error, cancellation or a dropped pending read no continuation delivers a chunk |
| StreamResponse.FirstEndIsTrue | crates/tlsurl-core/src/stream.rs:41-55 | over every schedule the first read to end with neither a chunk nor a cancellation finds all chunks delivered and is told of an error iff the transport fails, of the end otherwise; only after the drop of a pending read is it told of the end in any case |
| StreamResponse.ErrorsAreReal | crates/tlsurl-core/src/stream.rs:34-56 | a read that reports an error met a failing transport with everything delivered, and one that reports a cancellation met the flag |
| StreamResponse.EachReadGetsItsChunk | crates/tlsurl-core/src/stream.rs:34-56 | over every schedule a read is over with a chunk iff it has a place in the order of deliveries; the chunk is the transport's at that place, and no two reads share one |
| StreamResponse.NoChunkPastTheFlag | crates/tlsurl-core/src/stream.rs:45-51 | once the flag is set, a read that has yet to pass its second test never gets a chunk, however the schedule goes on |
| StreamResponse.CancelledReadReturns | crates/tlsurl-core/src/stream.rs:44-51 | once the flag is set, a read past the lock is over after three steps of its own, among any steps of others and even if the transport is never ready |
| StreamResponse.ReadsInTurn | crates/tlsurl-core/src/stream.rs:34-56 | reads made one after the other hear the transport: chunk after chunk, once the error if there is one, then the end |
| StreamResponse.ClosedMeansReleased | crates/tlsurl-core/src/stream.rs:26-33 | with the flag set, closers done and the lock free, the body is gone iff no try came to nothing; none does if polls are whole and no reader is dropped with the lock reserved for it |
| StreamResponse.AtomicPollsStayInGoodHands | crates/tlsurl-core/src/stream.rs:26-56 | with whole polls and used reservations, whoever made a try fail will still clear the body |
| StreamResponse.CloseInsideTheWindow | crates/tlsurl-core/src/stream.rs:44-56 | a schedule without drops in which close falls between last test and release and the body stays |
| StreamResponse.DroppedWaiterKeepsBody | crates/tlsurl-core/src/stream.rs:26-36 | a schedule of whole polls in which a waiting reader is dropped with the lock reserved for it and the body stays after close |
| FairMutex.AskSpec | crates/tlsurl-core/src/stream.rs:35 | polling a lock gives it to a call it admits and puts any other in line, leaving all others where they stand |
| FairMutex.ReleaseSpec | crates/tlsurl-core/src/stream.rs:35-55 | a release leaves the lock free only if nobody is in line, and otherwise reserved |
| FairMutex.GiveUpSpec | crates/tlsurl-core/src/stream.rs:35 | a dropped wait leaves the line, and a reservation for it passes on |
| WebSocket.NeverBothLocks | crates/tlsurl-core/src/websocket.rs:140-151 | over every schedule no call holds one lock while it holds the other or stands in line for it |
| WebSocket.HolderLetsGo | crates/tlsurl-core/src/websocket.rs:163-192 | a holder never waits for the other lock: among any steps of other calls, once its timer has fired, it lets go within five steps of its own even if the socket stays silent |
| WebSocket.FlagsOnlyGrow | crates/tlsurl-core/src/websocket.rs:153-161 | the closing and cancellation flags are never unset |
| WebSocket.CancelledMeansReleased | crates/tlsurl-core/src/websocket.rs:61-67 | once cancelled, with aborts done and the lock free, a socket half is dropped iff no try came to nothing, and always between whole polls if no call is dropped with a lock reserved for it |
| WebSocket.AtomicPollsStayInGoodHands | crates/tlsurl-core/src/websocket.rs:153-192 | with whole polls and used reservations, after a failed try somebody is still bound to drop the socket half: a guard before its test, a call with the reservation, or another abort |
| WebSocket.AbortInsideTheWindow | crates/tlsurl-core/src/websocket.rs:61-67 | a schedule without drops in which an abort falls between a guard's test and its release and the socket half stays |
| WebSocket.DroppedWaiterKeepsSocket | crates/tlsurl-core/src/websocket.rs:146-161 | a schedule of whole polls in which a waiting recv is dropped with the lock reserved for it and the socket half stays after the abort |
| WebSocket.LaterCallsFail | crates/tlsurl-core/src/websocket.rs:194-330 | after a finished close or a received Close every later send and recv fails, with CLOSED if the closing flag was set |
| WebSocket.FinishedSetsClosing | crates/tlsurl-core/src/websocket.rs:285-330 | a received Close sets both flags; a finished close sets the closing flag or found the socket cancelled |
| WebSocket.LaterCallsAreClosedIff | crates/tlsurl-core/src/websocket.rs:194-330 | when the connection is over, every later send and recv fails with CLOSED iff the closing flag was set by then; it is unset only if a close found the socket cancelled |
| WebSocket.CancelledCloseReturns | crates/tlsurl-core/src/websocket.rs:303-305 | on a cancelled socket close returns at once and changes nothing |
| WebSocket.CancelledSendFails | crates/tlsurl-core/src/websocket.rs:163-192 | on a cancelled socket that is not closing a send fails with CANCELLED |
| WebSocket.CloseAfterAbortIsNotClosed | crates/tlsurl-core/src/websocket.rs:297-330 | abort, close, send: the send fails with CANCELLED, not CLOSED |
| WebSocketResults.ResultsAreEarned | crates/tlsurl-core/src/websocket.rs:163-330 | over every schedule each finished call reports what the socket answered it, stage by stage, a reply flushed where one is due; without an answer it fails with CANCELLED only under the flag, CLOSED only when closing or cancelled, TIMEOUT only by the timer, INVALID_REQUEST only for its arguments, and is abandoned only when dropped |
| WebSocketResults.FlagsHaveCauses | crates/tlsurl-core/src/websocket.rs:178-330 | over every schedule the cancellation flag is set iff some call had to abort and did: an abort, a failed send or recv, a failed reply, a received end, or a close on an open socket; the closing flag iff some close found the socket open or some recv met the end |
| Referrer.ParsePolicy | src/redirect.rs:614-633 | the loop over field values and tokens computes the last recognized policy of all of them |
| Referrer.LastRecognizedSpec | src/redirect.rs:614-660 | section 8.1 of the W3C Referrer Policy: the result is a recognized token with none after it, or nothing if there is none |
| Referrer.ParseReferrer | src/redirect.rs:674-690 | a captured source is http or https without credentials or fragment, and origin-only if longer than 4096 |
| Referrer.Carrier.constructor | src/redirect.rs:507-515 | capture keeps the caller's Referer in reduced form and starts from the default policy |
| Referrer.Carrier.OnRedirect | src/redirect.rs:517-525 | a recognized policy of the response replaces the policy, anything else leaves it |
| Referrer.Carrier.Apply | src/redirect.rs:527-593 | the guarded arms give the answer of the table in section 8.3 of the W3C Referrer Policy, in header and carried source alike |
| Referrer.SentUnderPolicy | src/redirect.rs:527-593 | section 8.3 of the W3C Referrer Policy over whole chains: while one policy is in force, each hop carries and sends nothing, the origin or the full URL as the policy says from whether the chain stayed in the origin and was never downgraded, both ways for each of the nine policies, marked sensitive as captured |
| Referrer.PolicyIsInForce | src/redirect.rs:517-525 | after any chain the policy is the last one that a response recognizably set, or the first |
| Referrer.TokensMean | src/redirect.rs:635-667 | each of the eight tokens, in any letter case, is its policy, and nothing else is one |
| Referrer.CapturedExactly | src/redirect.rs:674-690 | a URL is captured iff it parses as http or https with a host, with path and query unless it is longer than 4096 without credentials and fragment |
| Referrer.NothingCapturedNothingSent | src/redirect.rs:527-540 | without a captured URL no redirected request carries a Referer |
| Referrer.SameOriginIsOrigin | src/redirect.rs:698-708 | same origin means equal scheme, host in any letter case, and port with defaults filled in; a downgrade is https to http |
| Referrer.SentIsInitialOrOrigin | src/redirect.rs:527-593 | over every chain the Referer is absent, the captured URL or its origin, and is what the chain carries |
| Referrer.ReferrerOnlyShrinks | src/redirect.rs:527-593 | absent stays absent, and an origin never becomes the full URL again |
| Referrer.DefaultPolicyStaysInOrigin | src/redirect.rs:527-593 | under the default policy the full URL survives only on chains that never left its origin, and nothing survives a downgrade |
| Redirect.SameOriginIsEquivalence | src/redirect.rs:473-483 | same origin is reflexive, symmetric and transitive |
| Redirect.SameOriginIsOrigin | src/redirect.rs:473-483 | same origin means equal scheme, host in any letter case, and port with defaults filled in |
| Redirect.FollowRedirectPolicy.constructor | src/redirect.rs:430-439 | a request starts with no URIs, no history and its captured Referer |
| Redirect.FollowRedirectPolicy.Redirect | src/redirect.rs:376-428 | URIs, history with the headers of each response, Referer state and decision after one response, as one function of the old state, refusals included |
| Redirect.FollowRedirectPolicy.TakeHistory | src/redirect.rs:450-454 | the history is taken out of the policy whole |
| Redirect.FollowRedirectPolicy.PrepareRequest | src/redirect.rs:441-448 | headers of the next request, with the Referer only from the first redirect on |
| Redirect.FollowRedirectPolicy.RemoveSensitiveHeaders | src/redirect.rs:457-471 | exactly the five sensitive fields go, and only when the last hop changed origin |
| Redirect.ResponseFuture.constructor | src/client/layer/redirect.rs:107-131 | the first request goes out as the caller made it |
| Redirect.ResponseFuture.FollowTo | src/client/layer/redirect/future.rs:243-254 | following puts the location, the body and the prepared headers in place, awaited or not |
| Redirect.ResponseFuture.Rewrite | src/client/layer/redirect/future.rs:107-134 | method, payload headers and body after a redirect status, in place, as one function of the old state |
| Redirect.ResponseFuture.OnResponse | src/client/layer/redirect/future.rs:107-258 | one response: method and payload rewriting, body reuse, the policy's decision, pending ones included, the next request, and the history handed out with the last answer |
| Redirect.StepShape | src/client/layer/redirect/future.rs:233-258 | a step ends the chain with nothing more sent, or sends one request and records the hop unless it was awaited |
| Redirect.HopSendsExactly | src/client/layer/redirect/future.rs:107-258 | each followed hop: the location of the response, GET after 303 (HEAD stays) and for a POST after 301 and 302, the same method otherwise; the fields of the last request without the four payload fields if rewritten and without the five sensitive ones across origins, and no others; an empty body if rewritten, else the body at hand, which stays at hand |
| Redirect.HopIsFollowedIff | src/client/layer/redirect/future.rs:107-258 | a hop is followed iff the status is one of the five, there is a location and a body, and the policy says so, at once to an allowed location or in the end |
| Redirect.FirstBodyOffered | src/client/layer/redirect.rs:20-49 | the body of the first request is at hand again iff it is bytes or a stream known to be empty |
| Redirect.ChainIsSafe | src/client/layer/redirect/future.rs:107-258 | over every chain: sensitive fields reach only the origin of all earlier requests, URIs followed at once are http(s) and https where required, the history links exactly those requests, bodies are resent intact or empty and streams never |
| Redirect.ChainAtOnceIsChecked | src/redirect.rs:376-428 | with a policy that has no pending actions every followed URI passed the scheme checks and the history links each request to the next |
| Redirect.HopAwaitedIff | src/client/layer/redirect/future.rs:142-174 | the next request is followed on a pending verdict iff the status is a redirect, location and body are there, and the policy answers with a pending action that comes to follow |
| Redirect.HopEscapesIff | src/client/layer/redirect/future.rs:233-258 | the next request goes where the scheme checks forbid iff that is the case and the location is not allowed |
| Redirect.ChainIsCheckedIff | src/redirect.rs:401-414 | over every chain all followed URIs pass the scheme checks iff no response met that condition |
| Redirect.ChainIsAtOnceIff | src/client/layer/redirect/future.rs:233-258 | over every chain every hop is followed at once iff no response met a pending verdict to follow |
| Redirect.HistoryIsCompleteIff | src/redirect.rs:416-424 | over every chain the history has an entry for each hop iff no hop was awaited, that is, iff no response met a pending verdict to follow |
| Redirect.HistoryIsHandedOutIff | src/redirect.rs:450-454 | the history goes out with the answer iff its status is no redirect |
| Redirect.AwaitedFollowIsNotChecked | src/client/layer/redirect/future.rs:233-258 | a pending verdict to follow goes to any location, even where only https is allowed, and leaves no history entry |
| Redirect.NoRedirectIsDirect | src/client/layer/redirect.rs:107-112 | under a policy that follows nothing the first response is handed out and nothing more is sent, as on the direct path |
| Redirect.OneOriginSoFar | src/redirect.rs:457-483 | all URIs up to a request that carries a sensitive field share one origin, even on chains that return |
| Redirect.AtMostMax | src/redirect.rs:192-206 | with a limit policy no chain of responses, however long, is followed more than max times |
| Redirect.LimitDecides | src/redirect.rs:192-206 | a followable response is followed below the limit and refused as too many at it |
| Redirect.ExactlyMax | src/redirect.rs:192-206 | followable responses to a resendable body: exactly max are followed and the next one is the error |
| Redirect.StepCarriesReferrer | src/redirect.rs:376-448 | a followed step updates the Referer from the response's policy and the followed location |
| Redirect.ChainCarriesReferrer | src/redirect.rs:376-448 | along a chain the Referer fields are those of the `Referrer` chain over the same hops |
| PercentEncoding.DecodeEncode | src/client/multipart.rs:407-433 | with `%` in the encode set, decoding undoes encoding |
| PercentEncoding.DecodeEncodeExactly | src/ext.rs:9-26 | with `%` outside the set, decoding undoes encoding iff the text contains no encoded-looking triple |
| PercentEncoding.EncodedBytes | src/ext.rs:9-26 | encoded text contains only percent signs, hex digits and bytes outside the set, and is empty only for empty text |
| PercentEncoding.ChunksJoin | src/client/multipart.rs:488-496 | the pieces the encoder yields, joined, are the encoding |
| PercentEncoding.BorrowedExactly | src/client/multipart.rs:449-461 | the result is borrowed iff nothing needs encoding or the whole text is one byte that does |
| PercentEncoding.LoneByteIsBorrowed | src/client/multipart.rs:449-461 | the one-byte name `#` is encoded and still borrowed |
| Multipart.GenBoundary | src/client/multipart.rs:500-543 | every generated boundary has 38 bytes, is legal under section 5.1.1 of RFC 2046 and contains no CR |
| Multipart.ChainIsEscape | src/client/multipart.rs:465-469 | the four chained replacements are one backslash escape; none touches what an earlier one wrote |
| Multipart.EncodeHeaders | src/client/multipart.rs:443-486 | the header buffer is disposition, name, escaped filename, type and extra fields in that order |
| Multipart.Form.constructor | src/client/multipart.rs:59-69 | a new form has no fields and no cached headers |
| Multipart.Form.AddPart | src/client/multipart.rs:122-128 | appends one field |
| Multipart.Form.IntoStream | src/client/multipart.rs:158-183 | the chunks join to the delimited body of all fields in order, nothing for the empty form, and the form is left empty |
| Multipart.Form.PartStream | src/client/multipart.rs:186-209 | one part's chunks join to dash-boundary, headers, blank line, value and line break |
| Multipart.Form.ComputeLength | src/client/multipart.rs:214-244 | a length exists iff every part declares or reports one, is 0 for the empty form, and is off from the produced bytes by exactly what the declared lengths are off; headers are cached up to the first unknown length |
| Multipart.LengthFormula | src/client/multipart.rs:221-243 | the sum of constants and lengths equals the length of the encoded body up to the declared lengths |
| Multipart.TrueLengthsAgree | src/client/multipart.rs:351-357 | with true lengths, a declared one before a reported one, the two sums agree, so the predicted length is the produced one |
| MultipartParsing.NameIsRecovered | src/client/multipart.rs:443-461 | with either percent-encoding the written name parses back to the name, for a reader that takes plain names literally iff it is not one single byte that had to be encoded |
| MultipartParsing.HeadersAreRecovered | src/client/multipart.rs:443-486 | parsing the headers gives back filename, the text of the other lines, and the name as that reader gets it |
| MultipartParsing.OthersAreRecovered | src/client/multipart.rs:470-485 | the header lines behind the first come back as names and values: the type first, then the extra fields in order |
| MultipartParsing.AttrNameIsLegal | src/client/multipart.rs:420-433 | with `AttrChar` an encoded name consists of value characters of section 3.2.1 of RFC 8187 |
| MultipartParsing.HeadersHaveNoBlankLine | src/client/multipart.rs:443-486 | the headers contain no empty line, whatever name and filename contain |
| MultipartParsing.RoundTripExactly | src/client/multipart.rs:158-209 | section 5.1.1 of RFC 2046 and section 4 of RFC 7578: splitting on delimiters and first blank lines recovers every part iff no part contains the delimiter and, for a literal reader, no name is one single byte that had to be encoded |
| MultipartParsing.ValueThatStartsLikeABoundary | src/client/multipart.rs:186-209 | a value that starts like a boundary line breaks the round trip although no header or value contains the delimiter |
| MultipartParsing.LoneByteNameIsLost | src/client/multipart.rs:447-461 | the field name `#` is written as the plain name `%23`, which is what a literal reader gets |
| RandomTls.MixIsBijective | crates/tlsurl-core/src/random_tls.rs:10-16 | the output mix has an inverse on 64-bit words, on both sides |
| RandomTls.StateClosedForm | crates/tlsurl-core/src/random_tls.rs:10-16 | after n calls the state is seed + n * gamma mod 2^64 |
| RandomTls.OutputsAreDistinct | crates/tlsurl-core/src/random_tls.rs:10-16 | any 2^64 consecutive outputs are pairwise distinct |
| RandomTls.FullPeriod | crates/tlsurl-core/src/random_tls.rs:10-16 | after 2^64 calls the state is the seed again |
| RandomTls.Sequence.constructor | crates/tlsurl-core/src/random_tls.rs:37 | the generator starts in the seed |
| RandomTls.Sequence.Next | crates/tlsurl-core/src/random_tls.rs:10-16 | one call moves the state by gamma and returns the mix of the new state |
| RandomTls.Sequence.Shuffle | crates/tlsurl-core/src/random_tls.rs:18-22 | the in-place swap loop is the recursive shuffle by the generator's draws, permutes, and takes one draw per position |
| RandomTls.ShuffleIsPermutation | crates/tlsurl-core/src/random_tls.rs:18-22 | whatever is drawn the result is a permutation |
| RandomTls.ShuffleIsInjective | crates/tlsurl-core/src/random_tls.rs:18-22 | different draws give different orders |
| RandomTls.ShuffleIsSurjective | crates/tlsurl-core/src/random_tls.rs:18-22 | every order comes from some draws |
| RandomTls.ChosenIsSound | crates/tlsurl-core/src/random_tls.rs:38-52 | however the draws fall the suite list has no duplicate, two to six entries, and begins with the two required suites |
| RandomTls.PermutedSuitesAreSound | crates/tlsurl-core/src/random_tls.rs:38-53 | the shuffled list keeps both required suites, the size and freedom from duplicates |
| RandomTls.Options | crates/tlsurl-core/src/random_tls.rs:25-64 | suites, signatures and curves are a function of the seed and permutations of their lists |
| RandomTls.ConfigurationReadsWords | crates/tlsurl-core/src/random_tls.rs:37-60 | which word decides what: the lowest bits of the first four pick the optional suites, the next ones modulo the places left give the order of the suites, then five that of the signatures and two that of the curves |
| Headers.ReorderingLosesNothing | src/header.rs:104-136 | reordering keeps every name's value list, invents no name, and puts exactly the configured names first |
| Headers.FrontFollowsOrder | src/header.rs:111-118 | names at the front stand in configured order |
| Headers.NothingToReorder | src/header.rs:105-107 | with at most one header, or no configured order, reordering is the identity, so the early return changes nothing |
| Headers.NothingConfigured | src/header.rs:104-136 | a map with none of the configured names is left exactly as it is |
| Headers.OrigHeaderMap.Call | src/header.rs:104-136 | early return or two loops, the map is left reordered |
| Headers.OrigHeaderMap.CallVisit | src/header.rs:138-166 | visits the same names and values in the same order that `call` leaves, each configured name under its first spelling |
| Headers.OverrideReplacesExactly | src/util.rs:63-90 | exactly the names of the source map are replaced, with their full lists |
| Headers.OverrideLaws | src/util.rs:63-90 | override is associative, and repeating it changes nothing |
| Headers.ReplayedIsOverride | src/util.rs:63-90 | replaying the whole drained stream, names first and then unnamed values, replaces each name by its full list |
| Headers.ReplaceHeaders | src/util.rs:63-90 | the one loop over the drained stream, with the entry remembered across names, is the override |
| Headers.ConfigCall | src/client/layer/config.rs:107-136 | foreign schemes are refused; else each name has the request's values where given and the defaults elsewhere |
| NoProxy.ArithmeticIsCover | src/proxy/matcher.rs:475-503 | the index arithmetic on one entry is "the host is the entry's domain or below it", apart from the star |
| NoProxy.DomainMatcher.Contains | src/proxy/matcher.rs:473-505 | the loop with early return answers for some entry, by the rule |
| NoProxy.RuleIsMetExactly | src/proxy/matcher.rs:473-505 | the matcher and the documented rule agree iff it is not the case that only a star entry covers a host that ends in a star |
| NoProxy.StarredHostIsMissed | src/proxy/matcher.rs:498-500 | a lone star does not match any host that ends in a star behind something other than a dot, `a*` for one |
| NoProxy.StarlessHosts | src/proxy/matcher.rs:473-505 | for every host without a star the matcher is the documented rule |
| NoProxy.CoversIsLabelSuffix | src/proxy/matcher.rs:395-412 | covering a host means that its labels are, or end in, the labels of the entry |
| NoProxy.AnswerIgnoresOrderAndCase | src/proxy/matcher.rs:469-505 | neither the order of entries nor letter case changes the matcher's answer or the documented rule's |
| NoProxy.FromString | src/proxy/matcher.rs:413-436 | the domains are the non-empty pieces that are not addresses, trimmed of Unicode white space, in order |
| Userinfo.RequestUri.SetUserinfo | src/ext.rs:173-213 | the authority gets the encoded credentials before the old host and port; an invalid result changes nothing |
| Userinfo.RequestUri.ExtractAuthority | src/client/request.rs:868-892 | takes decoded credentials out of the URI, and leaves it alone without a readable username |
| Userinfo.EncodedHasNoSeparator | src/ext.rs:9-26 | encoded credentials contain neither `:` nor `@` |
| Userinfo.EncodedIsLegal | src/ext.rs:9-26 | encoded credentials are legal user information by section 3.2.1 of RFC 3986 |
| Userinfo.ExtractionMeans | src/client/request.rs:868-892 | from any authority with userinfo, credentials are taken iff the name before the first colon is not empty and decodes to UTF-8; an empty or unreadable secret counts as none, and the host and port behind the last `@` stay if they are an authority |
| Userinfo.BareAuthorityIsLeftAlone | src/client/request.rs:868-892 | nothing is taken out of an authority without userinfo |
| Userinfo.WrittenReadsBack | src/ext.rs:159-171 | reading what was written gives the encoded parts and the original host and port |
| Userinfo.CredentialsComeBack | src/client/request.rs:873-884 | decoding encoded credentials gives them back iff neither part is empty where given nor contains an encoded-looking triple |
| Userinfo.RoundTripExactly | src/client/request.rs:868-892 | from any authority, `set_userinfo` and then `extract_authority` return exactly the credentials and the bare host and port iff the username is not empty, a given password is not empty, neither contains an encoded-looking triple, and the bare host and port are an authority |
| Userinfo.EncodedLookingNameIsLost | src/ext.rs:173-213 | the username `%41` comes back as `A` |

## Left out

- Sockets, TLS handshakes, DNS, proxies' connectors, executors and timers: foreign calls and I/O. The connection pool and the connection race are not part of this model.
- Python and Node bindings, loaders, release scripts, builder setters, error kinds, extension plumbing: only easy members.
- Parsing of URLs, hosts, cookies, MIME types, IP addresses, CIDR ranges and UTF-8: library code, taken as parsed values or as parameters.
- CookieJar.Jar.Add: takes a parsed URI; a URI that does not parse returns before the jar is touched. The cookie library's own clamping of dates is modelled only as saturation at the end of its calendar.
- CookieStore.Store.InsertStoredCookie: the map of one scope is a value inside the store, so references into nested maps are not represented.
- CookieProperties.OneAnswer: assumes that the 64-bit creation counter has not saturated; after that, ties may come out in any order.
- CookieJar.Jar.SetCookies: takes parsed field values, with one clock reading each.
- CookieExport.ExportImportRoundTrip: assumes an unsaturated counter, https URIs of the stored hosts, and that a printed domain parses back to itself; it speaks of times not before the export and the imports, since cookies that expired earlier are not exported.
- Multipart.Form.ComputeLength: lengths are unbounded; wrap-around of the 64-bit sum is not modelled.
- MultipartParsing.RoundTripExactly: the encoding that leaves names as they are is excluded, since such names may contain quotes and line breaks.
- Multipart.GenBoundary: the random words are parameters; how they are hashed is not modelled.
- StreamResponse.RunKeepsInv: calls are steps of a transition system and not methods, since what matters is their interleaving; fairness and wake-ups are not modelled.
- WebSocket.HolderLetsGo: counts the holder's own steps once its timer has fired; real time is not modelled, and message contents are reduced to their kinds.
- Referrer.SentUnderPolicy: speaks of captured URLs that print as legal field values, in full and as an origin; for others `Referrer.Carrier.Apply` says that what does not print as one is not sent.
- Redirect.ResponseFuture.OnResponse: a pending action is its eventual verdict; waiting for it is not a step of its own, and nothing else can happen to the chain meanwhile. Locations come resolved.
- Headers.OrigHeaderMap.Call: removal is modelled as the swap-remove of the header map; hashing is not modelled.
- NoProxy.DomainMatcher.Contains: only the domain half; address and range matching is library arithmetic.
- Userinfo.RoundTripExactly: speaks of credentials whose written form is a valid authority; otherwise `set_userinfo` changes nothing, as its own row says.
- Userinfo.RequestUri.SetUserinfo: a URI is its authority here; scheme and path do not take part.
