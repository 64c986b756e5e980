# shadyurl: a verified model of its connection and request engine

A Dafny model of a URL shortener: the HTTP pipelining session, the request handlers
over the shared url table, the form decoders in front of them, the token generator,
and the MIME and path helpers. Everything is proved for every input, every random
stream and every interleaving.

`dafny verify dfyconfig.toml` checks the whole project.

| file | module | models |
|---|---|---|
| `Text.dfy` | `Text` | byte strings, `find`, `boost::split`, NUL-terminated views |
| `ParseQs.dfy` | `ParseQs` | percent-decoding and `parse_qsl`, with the encoders the program does not have |
| `Escapes.dfy` | `Escapes` | percent-decoding on texts alone: digits of either case, cutting a text, what is dropped |
| `Standard.dfy` | `Standard` | where that decoder departs from the WHATWG URL Standard |
| `Multipart.dfy` | `Multipart` | header parameters and the multipart callback accumulator |
| `Generate.dfy` | `Generate` | the token generator over an arbitrary stream of draws |
| `Path.dfy` | `Path` | MIME lookup and path joining |
| `Shortener.dfy` | `Shortener` | routing and the handlers, as functions and as methods of the class that owns the table |
| `Store.dfy` | `Store` | what one request can and cannot do to the table, the redirects and the files |
| `Answers.dfy` | `Answers` | what each kind of request is answered, case by case |
| `Forms.dfy` | `Forms` | the same form posted urlencoded and as multipart |
| `Session.dfy` | `Session` | the pipelining session: a step relation, its runs, and the class whose handlers are its steps |
| `Connections.dfy` | `Connections` | any number of connections over one table, in any interleaving |
| `RoundTrip.dfy` | `RoundTrip` | a url's way from a form into the table and back over another connection |

## How it is modelled

* A `char` stands for one byte. Where bytes above 255 would matter (the encoder of
  the WHATWG serializer) the range is stated.
* Code that works by changing things is imperative here too: `HttpSession`, `Server`,
  `MultiPartData` and `Mt19937` are classes, and `Unquote`, `ParseQsl`,
  `ParseHeaderValue`, `FindExtension`, `GenerateRandStr`, `HandleRequest` and the others
  run the loops of the source. Each is proved to compute a function, and the
  properties are lemmas about those functions.
* What is outside the program (the file system, the template engine, SQLite's return
  codes, the random stream, the multipart parser's callbacks) is the value `Env` that
  each request comes with, arbitrary in every theorem.
* The inner `queue` of a session is folded into the session, whose fields it shares.
  `flight`, `reading` and the histories are ghost: Asio's outstanding operations and
  what has happened so far. An operation once started (a handshake, a read, a write, a
  TLS shutdown) completes in a later step, with success or failure.
* A read succeeds only with a body of at most 10000 bytes (`BODY_LIMIT`, from
  include/session.hpp:183-185); a longer one arrives as a read error.
* A handler calls `send` exactly once, as the last thing it does, so `HandleRequest`
  returns the response and the session queues it. Handlers of different connections
  run concurrently, but each makes at most one statement on the table, so a request is
  handled in one step.
* The `length_error` of `parse_qsl` is a missing response; `Store.ThrowsIff` says
  exactly when it happens, and runs contain no such step.
* `needEof` follows Beast: a response with a known length needs the connection closed
  exactly when it is not kept alive. The redirect never copies the request's choice.

## Main results

* `Connections.PostedUrlIsRedirectedTo`: a url stored by a post on one connection is
  where a later GET of its token on any connection is redirected to, on the wire and
  in the request's own place, whatever happens in between.
* `Connections.RedirectIsServed`: and it is written, not only right once written: after the
  writes ahead of it, at most seven, and its own, while writes of its connection succeed and
  none of the answers ahead closes it.
* `RoundTrip.UrlComesBackIff`: a byte string with an http or https prefix, posted with the
  standard form encoding and stored, comes back as the value given to the Location field when
  its token is asked for on another connection, exactly when its encoding fits the body limit;
  so the hypotheses of `PostedUrlIsRedirectedTo` can be met.
* `Connections.RefinesSequentialServer`: with any number of pipelining connections the
  table, and what each connection wrote followed by what it has queued, are those of a
  server that handles one request at a time.
* `Session.ReachableInv`, `StoppedForever`, `ReadEndedForever`, `EveryRequestIsAnswered`,
  `ShutdownOverlaps`: order, mutual exclusion, back-pressure, shutdown and progress of the
  session over all runs.
* `Session.RunsExact` and `StateOfRun`: the sequences of events a session can go through,
  exactly, and the state each leads to, both in terms of the events alone; among them that
  nothing is written after a failed write and nothing is read after the end of the stream.
* `Connections.ConnectionClosesIff`: on the requests alone, which answers close their
  connection, after which nothing is written on it, and which let it go on.
* `ParseQs.FormRoundTrip`, `QueryExact` and `FormUnique`: every way of writing a form, keys
  and values empty or not, parses to the last value taken for each key, and every query is
  such a writing of exactly one form that has fields.
* `Standard.QueryIsStandardIff`: the pairs read from a query are those of the WHATWG URL
  Standard exactly when no piece starts with an equals sign and every percent sign starts
  an escape.
* `Escapes.DecodeInvertsWriting`: decoding inverts every writer of bytes, each digit of each
  escape in either case.
* `Store.RoutesExact`, `Answers.AssetAnswer`, `StoredPostAnswerIff`, `PostAnswer`,
  `TemplateAnswer` and `TokenAnswer`: which handler a target reaches, on its text, and what
  it answers for every outcome of the file system, SQLite and the template engine.
* `Generate.TokenLanguageExact` and `Store.TokenIsRoutedToUrl`: the exact set of tokens,
  and that each is served by the redirecting handler.
* `Forms.EncodingsAgreeIff`, `Forms.PairsAgreeIff`, `Multipart.SectionsMatchPartsIff`, `Store.TableAfterRequest`,
  `Store.ThrowsIff`, `Store.HeadHasNoContentIff`, `Store.PagesAreTemplates`,
  `Session.QuiescentIff`: exact conditions.

Some things one might expect do not hold, and the exact conditions are proved:

* A part for which the parser makes no data callback hands its headers to the next part's
  section (`SilentPartLeaksHeaders`, `SectionsMatchPartsIff`).
* The urlencoded lookup takes the last url and the multipart scan the first, so that one
  form can store either (`EncodingsDisagree`, `EncodingsAgreeIff`).
* A quoted name with a semicolon in `Content-Disposition` is read as another one, so that a
  field named `url;x` can be taken for the url (`DispositionNamesField`, `EncodingsDisagree`,
  `PairsAgreeIff`).
* A url that the multipart parser delivers in chunks is cut after the first
  (`SecondChunkIsLost`, `MultipartTakesFirst`).
* A value without a name is taken with its equals sign, and percent signs that start no
  escape are dropped (`StandardFormRoundTrip`, `DecodeIsStandardIff`, `PieceIsStandardIff`).
* A post behind a request that closes the connection is stored, although it is never
  answered (`PostBehindCloseIsStored`, `NeverAnsweredBehindClose`).
* A redirect does not close a connection that asked for it (`RedirectIgnoresClose`,
  `CloseIsHonouredIff`, `ConnectionClosesIff`).
* An answer to HEAD can have content (`HeadCarriesContent`, `HeadHasNoContentIff`).
* A file need not be sent with the type of its own name: with a slash after a NUL in the
  target it has that of the name after the slash (`TypeOfAnother`, `OwnTypeIff`).
* A Location need not be on one line (`LineBreakComesBack`, `RowsOnOneLineIff`).
* A url that is too long once encoded does not come back (`UrlComesBackIff`).
* Two TLS shutdowns of one session can be outstanding at once (`ShutdownOverlapsHappen`,
  `ShutdownOverlaps`).
* An empty document root makes the opened paths absolute (`JoinedStaysBelowBase`).

## Model

| member | source | states |
|---|---|---|
| Session.ReachableInv | include/session.hpp:100-241 | in every reachable state of every interleaving: at most eight responses queued, the one write outstanding is the front item's, a read is outstanding exactly while there is room and reading has not ended, and written plus pending responses are the handler's answers in request order |
| Session.StepKeepsInv | include/session.hpp:200-241 | every completion keeps that invariant |
| Session.StepKeepsEnded | include/session.hpp:225-233 | every completion keeps: a closing response is the last one written, and each cause shuts the connection down once |
| Session.AnswerIsConserved | include/session.hpp:115-152 | queueing an answer loses, repeats and reorders nothing |
| Session.WriteIsConserved | include/session.hpp:102-111 | dropping the written item loses, repeats and reorders nothing, closing or not |
| Session.StoppedForever | include/session.hpp:221-233 | after a closing or failed write nothing is written any more, and at most seven further requests are handled, exactly as many as the queue grows by |
| Session.ReadEndedForever | include/session.hpp:205-210 | after end of stream or a read error no read is started and no request handled |
| Session.BehindClosing | include/session.hpp:200-233 | behind an answer that closes at most seven more requests are ever handled, and their answers are never written |
| Session.ReachableOutput | src/session.cpp:72-79 | what is written is a prefix of the answers, at most eight behind, nothing follows a closing response, and the connection is shut down at most twice |
| Session.FrontIsInFlight | include/session.hpp:105 | the queue is never empty when a write completes, and its front is what was written |
| Session.RunsExact | include/session.hpp:176-241 | a sequence of events is a run exactly when each event is allowed by those before it: reads while open with room in the queue and no end of reading, writes in order until one fails or closes, TLS shutdowns once started |
| Session.StateOfRun | include/session.hpp:100-241 | the requests, answers, queue, outstanding operations and shutdowns after any run, on its events |
| Session.NothingAfterWriteError | include/session.hpp:225-226 | after a failed write no write is outstanding and none is ever made again |
| Session.NothingAfterReadEnd | include/session.hpp:205-210 | after the end of the stream or a read error no read is outstanding and none ever completes again |
| Session.NothingButHandshakeError | src/session.cpp:124-133 | a handshake that fails is all that ever happens |
| Session.QuiescentIff | src/session.cpp:112-141 | exactly when nothing is outstanding and the session ends: its handshake failed, or it neither reads nor writes any more and every TLS shutdown it started has completed |
| Session.ShutdownsCounted | src/session.cpp:112-141 | along any run the shutdowns outstanding and completed add up to those started: every `do_eof` of a TLS session, none of a plain one |
| Session.ShutdownOverlaps | src/session.cpp:112-122 | exactly when a TLS shutdown overlaps a read (after a closing write), a write (after the end of the stream) or another shutdown (after both): as long as none has completed; a plain session never has one outstanding |
| Session.ShutdownOverlapsHappen | src/session.cpp:112-122 | each of the three overlaps is reached by a run |
| Session.SmoothStep | include/session.hpp:212-217 | a successful read that keeps alive adds one response to the queue, a successful write takes one |
| Session.SmoothRun | include/session.hpp:100-111 | twice the unread requests plus the queued responses goes down by one at every successful completion |
| Session.EveryRequestIsAnswered | include/session.hpp:200-241 | every schedule of successful completions is never stuck, ends within its measure, and then all answers are written, the queue is empty and one read waits |
| Session.DueIsWritten | include/session.hpp:220-241 | an answer with no closing answer ahead of it is written after exactly as many successful writes as there are answers ahead, at most seven, and its own, and a write is outstanding until then |
| Session.NewConnectionFlows | src/session.cpp:54-57 | a plain session at once, and a TLS session after its handshake, is ready for `EveryRequestIsAnswered` |
| Session.HttpSession.Run | src/session.cpp:83-97 | starts with a read, or with a handshake and no read |
| Session.HttpSession.OnHandshake | src/session.cpp:124-133 | starts the first read or ends the session |
| Session.HttpSession.DoRead | include/session.hpp:176-198 | never called while a parser is in use, nor after reading has ended |
| Session.HttpSession.StartWrite | include/session.hpp:132-142 | never called while a write is outstanding, nor after writing has stopped |
| Session.HttpSession.Send | include/session.hpp:114-152 | only the first response starts a write; never called on a full queue |
| Session.HttpSession.QueueOnWrite | include/session.hpp:102-111 | drops the front, starts the next, reports whether the queue was full |
| Session.HttpSession.OnRead | include/session.hpp:200-218 | the step of the machine for each result, the table changed by the handler only, the invariant kept |
| Session.HttpSession.OnWrite | include/session.hpp:220-241 | the step of the machine for success, close and failure (`Session.StateOfRun`, `NothingAfterWriteError`), the invariant kept |
| Session.HttpSession.DoEof | src/session.cpp:72-79 | counts a shutdown; only over TLS it leaves one outstanding (lines 112-122) |
| Session.HttpSession.OnShutdown | src/session.cpp:135-141 | takes one outstanding shutdown away, whatever its result, and does nothing else |
| Connections.PostedUrlIsRedirectedTo | include/request.hpp:306-332 | redirect permanence from one connection's post to another connection's wire, over all runs |
| Connections.RefinesSequentialServer | include/session.hpp:200-241 | table and responses of any interleaved run are those of the sequential server on the log of requests |
| Connections.AnswerReachesWire | include/session.hpp:213 | the answer to the k-th request of a connection is the k-th response on its wire |
| Connections.LocationsOnTheWire | include/request.hpp:432-443 | every Location ever written is an http or https url |
| Connections.RowsOnOneLineIff | include/request.hpp:297-324 | the table is free of line breaks exactly when it started so and no url stored had one before its first NUL |
| Connections.LocationsOnOneLine | include/request.hpp:80-87 | and then every Location given on any connection is on one line |
| Connections.RedirectIsServed | include/request.hpp:306-332 | the redirect of a stored url is written on its connection as soon as the writes ahead of it, none of them closing, and its own have succeeded |
| Connections.AnswerIsServed | include/session.hpp:220-241 | an answer that is due on any connection is written after at most seven others of that connection, whatever the other connections do |
| Connections.ConnectionClosesIff | include/session.hpp:227-240 | once an answer is written, its connection closes and writes nothing more exactly when the request asked for it and was not redirected, or was redirected under a version before 1.1; otherwise it goes on with the next answer |
| Connections.NeverAnsweredBehindClose | include/session.hpp:212-233 | a request read behind one that closes its connection is one of at most seven, and its answer is never written |
| Connections.StoredUrlIsRefusedForever | include/request.hpp:326-332 | a stored url posted again at any later time, also with other bytes after its first NUL, is refused and changes nothing |
| Connections.RowsWerePosted | include/request.hpp:306-332 | every row comes from the initial table or from a post in the run, with its token and url |
| Connections.RunInv | init.sh:6-9 | in every state of every run the table is sound and every session within its invariant |
| Connections.RunExtends | include/request.hpp:310 | rows and connection histories are never taken back |
| Connections.ConnectionIsRun | src/session.cpp:253-261 | each connection of the server goes through a run of the session machine |
| Connections.SegmentIsRun | src/session.cpp:253-261 | and between any two states of the server through a run over the events that were its own |
| Connections.RunAgrees | include/request.hpp:452-494 | after any run the table and every connection's answers agree with the sequential server |
| Connections.ActKeepsInv | include/session.hpp:200-241 | every step of every connection keeps the table sound and all sessions within their invariants |
| Connections.RunExtendsIff | include/session.hpp:176-241 | a run of the server goes on exactly by a new connection, a request on a reading connection within the body limit from which no exception escapes, or the end of an outstanding operation |
| Connections.EventsAreActs | src/session.cpp:253-261 | the events of a connection are exactly its own completions and its requests with their answers |
| RoundTrip.UrlComesBackIff | include/session.hpp:183-185 | a url posted with the standard encoding and stored is the value of the Location of a later GET of its token on another connection, up to its first NUL, exactly when four bytes more than its length, and two more for each byte escaped, are at most 10000 |
| RoundTrip.LineBreakComesBack | include/request.hpp:297-324 | a posted url with a line break is stored and given as a Location as it is |
| RoundTrip.PostBehindCloseIsStored | include/session.hpp:212-233 | a run in which a post behind a closing request stores its url, and the only answer written is that to the closing request |
| RoundTrip.PostThenGet | include/request.hpp:199-444 | a run of a storing post and a get of its token on two connections that ends with the redirect written exists exactly when both bodies are within the limit |
| RoundTrip.PostIsStoredIff | include/request.hpp:297-332 | a url posted with the standard encoding is stored exactly when it has the prefix, SQLite agrees, and neither it nor the token is there |
| Store.TokenIsRoutedToUrl | include/request.hpp:464-491 | every token's path passes the guard and first-match routing selects the redirecting handler |
| Store.TokenCharacters | src/generate.cpp:257-260 | a token has unreserved characters only, one dot, a dash, and does not end in .html |
| Store.UrlRouteExact | include/request.hpp:464-470 | exactly which accepted targets reach the redirecting handler |
| Store.RoutesExact | include/request.hpp:464-470 | which handler every absolute target reaches, on the text after its first slash |
| Store.GuardExact | include/request.hpp:472-478 | the guard passes exactly the targets that begin with a slash and have no two dots side by side |
| Store.HandleOfPost | include/request.hpp:464-491 | only a POST to /post.html can change the table or throw |
| Store.TableAfterRequest | include/request.hpp:302-332 | the table after any request: one more row exactly when all conditions of a successful post hold, unchanged otherwise |
| Store.RequestKeepsStore | init.sh:6-9 | both columns stay unique, tokens stay the generator's, urls keep their prefix after NUL truncation, and no row is lost |
| Store.StoredTokenRedirects | include/request.hpp:423-443 | a stored token redirects to its url when SQLite answers |
| Store.RedirectsAreHttp | include/request.hpp:432-443 | every redirect, the fallback included, leads to an http or https url |
| Store.PrefixSurvivesNul | include/request.hpp:324 | a url cut at its first NUL keeps its prefix |
| Store.PageMeansStored | include/request.hpp:303-347 | a page after a post was rendered with the very token its url is stored under |
| Store.ServerErrorIffNotStored | include/request.hpp:326-345 | an accepted url is answered with a server error exactly when it is not stored; a failed render leaves the row |
| Store.StoredUrlIsRefused | include/request.hpp:326-332 | a url equal to a stored one up to its first NUL is answered with a server error and changes nothing |
| Store.ThrowsIff | src/parseqs.cpp:98-102 | an exception escapes exactly for a urlencoded post with more than a thousand separators |
| Store.RedirectsIff | include/request.hpp:392-444 | an answer is a redirect exactly for a GET of an accepted target whose first route is the redirecting one, when prepare and bind succeed |
| Store.AnswerClosesIff | include/request.hpp:44-87 | which requests, and nothing else, make their answer close the connection |
| Store.CloseIsHonouredIff | include/request.hpp:80-87 | an answer closes as its request asked exactly when the request is not one that is redirected, or asked for the default of its version |
| Store.RedirectIgnoresClose | include/request.hpp:80-87 | a request to close answered with a redirect that keeps the connection |
| Store.OpenedFileIsBelowRoot | include/request.hpp:158-170 | the path opened for any accepted target resolves to the document root followed by names, none of them "..", and is absolute exactly when the root is absolute or empty |
| Store.TemplatesLieBelowRoot | include/request.hpp:364-367 | so does the template path of any accepted target, with index.html after a trailing slash |
| Store.PagesAreTemplates | include/request.hpp:351-389 | without a post, a page is answered exactly to a GET of the root or of an html page that is no asset and not the posting page, when its template renders with neither url nor token; the template lies below the document root |
| Store.HeadHasNoContentIff | include/request.hpp:44-77 | the answer to HEAD has no content, as section 9.3.2 of RFC 9110 demands, exactly for an accepted target under /assets/, the icon or the robots file whose file opens |
| Store.HeadCarriesContent | include/request.hpp:44-53 | a HEAD request whose answer has content |
| Store.HeadMatchesGet | include/request.hpp:183-190 | an answer to HEAD without content reports the type and size of what GET sends |
| Answers.AssetAnswer | include/request.hpp:93-196 | a file is sent with its content and with the type of the longest known suffix of its name, HEAD has that type and the size, and each failure and each other verb has its error |
| Answers.OwnTypeIff | src/path.cpp:14-26 | the type is that of the opened file's own name in every table exactly when both names go on alike from their first dots, and so when no slash follows a NUL |
| Answers.TypeOfAnother | include/request.hpp:158-190 | with a slash after a NUL the file before the NUL is sent with the type of the name after the slash |
| Answers.PostAnswer | include/request.hpp:198-348 | what every post is answered: its rejection, the invalid url, the failed statement, the page or its failure |
| Answers.StoredPostAnswerIff | include/request.hpp:326-347 | a post is answered with a page exactly when its row is stored and the page with its token renders, and is told the page failed exactly when only that fails |
| Answers.Rejections | include/request.hpp:226-301 | no rejection reads like a page that failed |
| Answers.OtherContentType | include/request.hpp:292-295 | any content type but the two of a form is rejected |
| Answers.NoBoundary | include/request.hpp:241-258 | multipart without a boundary, or with an empty one, is rejected however its header is written |
| Answers.TrimRightExact | include/request.hpp:262-264 | the parser is given the body up to its last byte that is not white space |
| Answers.TemplateAnswer | include/request.hpp:351-389 | what is answered at the root and the html pages, for every verb and outcome |
| Answers.TokenAnswer | include/request.hpp:392-444 | what is answered at a token's path: SQLite's failures, the stored url, the fallback for an unknown token or a failed step |
| Answers.UnroutedAnswer | include/request.hpp:472-494 | what is answered when the guard refuses and when no route matches |
| Shortener.Server.HandleRequest | include/request.hpp:452-494 | the loop over the routes handles as the first match says, which `Store.RoutesExact` and the theorems of `Answers` give on the request |
| Shortener.Server.PostUrl | include/request.hpp:199-348 | the posting handler has the effect of `Store.TableAfterRequest` and the answer of `Answers.PostAnswer` |
| Shortener.Server.MultipartPost | include/request.hpp:241-290 | the scan with its skips and break finds the first section named url |
| Shortener.Server.UrlEncodedPost | include/request.hpp:228-238 | the urlencoded lookup with its error and its exception |
| Shortener.Server.GetUrl | include/request.hpp:392-444 | the redirecting handler gives the answer of `Answers.TokenAnswer` |
| Shortener.Server.ServeFile | include/request.hpp:150-196 | the file handler gives the answer of `Answers.AssetAnswer` |
| Forms.EncodingsAgreeIff | include/request.hpp:228-291 | urlencoded and multipart posts of one form, its parts in any number of chunks, find the same url exactly when the form has at most 1001 fields and the first chunk of its first url part is its last url and not empty |
| Forms.PostIndependentOfEncoding | include/request.hpp:198-348 | and then both encodings have the same effect and response |
| Forms.PostedUrlsAgreeIff | include/request.hpp:198-291 | two requests that post one form both ways have the same outcome of the lookup exactly on that condition |
| Forms.UrlEncodedTakesLast | include/request.hpp:230-237 | the urlencoded lookup finds the form's last url, and throws beyond 1001 fields |
| Forms.MultipartTakesFirst | include/request.hpp:266-290 | for parts in any number of chunks, none included, the scan finds the first chunk of the first part named url that has one, and rejects when it is empty |
| Forms.SecondChunkIsLost | include/request.hpp:266-290 | of a url delivered in two chunks only the first is found |
| Forms.OneChunkUrls | include/request.hpp:266-290 | with one chunk for each part the scan sees the form's urls, whole and in order |
| Forms.DispositionNamesField | src/multipart_wrapper.cpp:20-54 | a standard Content-Disposition header, quotes and backslashes escaped, gives its field's name exactly when the name has no semicolon |
| Forms.NameIsCut | src/multipart_wrapper.cpp:20-54 | a name with a semicolon is cut at the first one, unless what follows gives another name |
| Forms.ReadableUrls | include/request.hpp:266-280 | with no semicolon in any name, the pairs read as url are the pairs named url |
| Forms.PairsArePresentedIff | include/request.hpp:266-290 | the parts written for a list of pairs present its form exactly when no name has a semicolon |
| Forms.UrlEncodedPairs | include/request.hpp:230-237 | urlencoded, the url found for any list of pairs is the value of the last one named url |
| Forms.MultipartPairs | include/request.hpp:241-290 | as multipart under any boundary it is the value of the first one whose name is read as url, rejected when empty |
| Forms.PairsAgreeIff | include/request.hpp:228-291 | for any list of pairs both encodings find the same url exactly when there are at most 1001 and the first value whose name is read as url is the last one named url and not empty |
| Forms.PairsPostAlike | include/request.hpp:198-348 | and then the pairs have the same effect and response posted either way |
| Forms.EncodingsDisagree | include/request.hpp:228-291 | a form with two urls, and one with a single url beside a field named `url;x`, store one url posted urlencoded and another posted as multipart |
| ParseQs.FormRoundTrip | src/parseqs.cpp:93-120 | parsing any serialization of any form, with empty keys and without equals signs too, gives the last value taken for each key, and fails exactly beyond the limit |
| ParseQs.QueryExact | src/parseqs.cpp:40-120 | every query is such a serialization, and parses to the last values taken of its form |
| ParseQs.FormUnique | src/parseqs.cpp:40-120 | no query is the serialization of two forms with fields |
| ParseQs.StandardFormRoundTrip | src/parseqs.cpp:40-120 | the WHATWG serializer followed by the parser gives the last values, one without a name with its equals sign, so the last-wins map of the pairs exactly when all have names |
| Standard.QueryIsStandardIff | src/parseqs.cpp:93-120 | the parser takes the last values of the pairs it reads, and these are those of section 5.1 of the URL Standard exactly when no piece starts with an equals sign and every percent sign starts an escape |
| Standard.PieceIsStandardIff | src/parseqs.cpp:40-91 | the same for one piece: keeping the equals sign is never made up for by what decoding drops |
| Standard.DecodeIsStandardIff | src/parseqs.cpp:57-91 | decoding is the standard's exactly when every percent sign starts an escape |
| Standard.DecodeIsShorter | src/parseqs.cpp:68-84 | and otherwise keeps fewer bytes than the standard, however escapes overlap what it drops |
| ParseQs.DecodeInvertsSyms | src/parseqs.cpp:57-91 | decoding inverts every way of writing a byte string, malformed escapes included |
| ParseQs.DecodeExact | src/parseqs.cpp:57-91 | every text, NUL bytes and cut-off escapes included, decodes to what its symbols stand for |
| ParseQs.LexUnique | src/parseqs.cpp:65-87 | no text can be read as symbols in two ways |
| Escapes.DecodeInvertsWriting | src/parseqs.cpp:57-91 | decoding gives back the bytes from every way of writing them, as they are, with plus signs, or escaped with each digit in either case |
| Escapes.DecodeConcat | src/parseqs.cpp:65-87 | a text may be cut and decoded in pieces wherever no percent sign is among the last two bytes before the cut |
| Escapes.DecodePercent | src/parseqs.cpp:68-84 | what a percent sign and two bytes stand for: a byte, nothing, or with a NUL those bytes |
| Escapes.DigitsOfEitherCase | src/parseqs.cpp:25-29 | the sixteen digits of either case and their values |
| ParseQs.ParseQslCompositional | src/parseqs.cpp:93-120 | a query joined from two is the first overridden by the second, within the limit on separators |
| Text.SplitConcat | src/parseqs.cpp:104 | splitting distributes over a separator |
| Text.SplitJoin | src/multipart_wrapper.cpp:26 | splitting undoes joining |
| Text.JoinSplit | src/parseqs.cpp:104 | joining undoes splitting |
| ParseQs.EmptyPieceContributesNothing | src/parseqs.cpp:109-111 | empty pieces anywhere contribute nothing |
| ParseQs.ParsedSizeBound | src/parseqs.cpp:98-104 | an accepted query has at most maxparams + 1 keys |
| ParseQs.Unquote | src/parseqs.cpp:57-91 | the skipping loop over a NUL-terminated buffer stays inside it, ends, and computes the decoding |
| ParseQs.JoinNibbles | src/parseqs.cpp:74 | the shift and or of two nibbles is 16a + b |
| ParseQs.FromHex | src/parseqs.cpp:25-29 | a digit has the value that `Escapes.DigitsOfEitherCase` spells out |
| ParseQs.ParseQsl | src/parseqs.cpp:93-120 | the loop over the pieces computes the map or the exception |
| ParseQs.Decode | src/parseqs.cpp:57-91 | never more bytes out than in |
| Multipart.HeaderRoundTrip | src/multipart_wrapper.cpp:20-54 | parsing any printing of parameters, with white space, quoted pairs and missing closing quotes, gives their last-wins map |
| Multipart.UnquotedInvertsQuoting | src/multipart_wrapper.cpp:38-43 | reading a quoted string inverts writing it |
| Multipart.UnquotedText | src/multipart_wrapper.cpp:38-43 | text without quotes and backslashes is read as it is |
| Multipart.TrimLeftExact | src/multipart_wrapper.cpp:30 | white space is dropped up to the first byte that is none |
| Multipart.HeaderValuesHaveNoSemicolon | src/multipart_wrapper.cpp:26 | no value of any header holds a semicolon |
| Multipart.ParseHeaderValue | src/multipart_wrapper.cpp:20-54 | the loop computes the parameters, and never the bare alternative |
| Multipart.BodyDataConserved | src/multipart_wrapper.cpp:123-130 | for every callback trace the sections' data is the body data, in order |
| Multipart.SectionsOfOneChunkParts | src/multipart_wrapper.cpp:105-130 | with one chunk for each part, section i has part i's headers and data and nothing else |
| Multipart.SectionsMatchPartsIff | src/multipart_wrapper.cpp:105-130 | sections match parts exactly when each part came in one chunk |
| Multipart.SectionsPerChunk | src/multipart_wrapper.cpp:127-128 | one section for each chunk, and one without headers as soon as a part has two |
| Multipart.SilentPartLeaksHeaders | src/multipart_wrapper.cpp:123-130 | the headers of a part for which the parser makes no data callback end up in the next section |
| Multipart.FeedPart | src/multipart_wrapper.cpp:105-130 | what one part adds, whatever came before |
| Multipart.MultiPartData.ReadHeaderName | src/multipart_wrapper.cpp:105-112 | replaces the current name and nothing else |
| Multipart.MultiPartData.ReadHeaderValue | src/multipart_wrapper.cpp:114-121 | records the parsed value under the current name |
| Multipart.MultiPartData.ReadBody | src/multipart_wrapper.cpp:123-130 | appends a section and clears the headers |
| Multipart.MultiPartData.Ingest | src/multipart_wrapper.cpp:93-97 | a whole trace is the fold of its callbacks |
| Generate.TokenLanguageExact | src/generate.cpp:228-261 | a string is a token of some stream exactly when it is in the language: five to eight components of which one to three are random, or nine of which only the last is |
| Generate.TokenIsToken | src/generate.cpp:228-261 | every stream gives a token of the language |
| Generate.TokenReached | src/generate.cpp:228-261 | every token of the language has a stream |
| Generate.ComponentsText | src/generate.cpp:212-252 | the components of a token spelled out: numbers, lengths and characters |
| Generate.ComponentsShape | src/generate.cpp:239-252 | the insertion counter keeps at most three random components |
| Generate.RandStr | src/generate.cpp:212-226 | with its bound drawn anew at every test the loop writes six to fifteen listed characters |
| Generate.GenerateRandStr | src/generate.cpp:212-226 | the loop consumes exactly the draws and writes the characters of that function |
| Generate.DrawComponent | src/generate.cpp:243-251 | one turn of the loop draws as that function does, counter included |
| Generate.GenerateComponents | src/generate.cpp:239-252 | the loop pushes the components of that function and counts the random ones |
| Generate.GenerateRandomFilename | src/generate.cpp:228-261 | the token of the stream |
| Generate.TokenParts | src/generate.cpp:257-260 | a token is a stem of listed characters with a dash, and one of the extensions |
| Path.LookupIsLongestSuffix | src/mime.cpp:15-29 | lookup is the entry of the longest suffix after a dot, else the default |
| Path.LongestSuffixMatchUnique | src/mime.cpp:15-29 | that describes one answer only |
| Path.FindExtension | src/mime.cpp:15-29 | the erasing loop ends and finds it |
| Path.FindFilename | src/mime.cpp:31-39 | starting at the first dot makes no difference |
| Path.LookupText | src/mime.cpp:15-29 | what follows the first dot is looked up, else what follows the next |
| Path.SameTypeIff | src/mime.cpp:15-29 | two names have the same type in every table exactly when they go on alike from their first dots |
| Path.GetMimeType | src/path.cpp:14-26 | the type comes from the text after the last slash, cut at its first NUL |
| Path.MimeTypeDependsOnBasename | src/path.cpp:17-25 | the directory of a NUL-free name does not matter |
| Path.JoinedStaysBelowBase | src/path.cpp:30-51 | a target the guard accepts resolves below any base, whose text without one trailing slash starts the result |
| Path.PathCat | src/path.cpp:30-51 | the joined path |

## Left out

- Sockets, TLS, timers, Asio and Beast internals: an asynchronous operation is a pending flag and a nondeterministic completion.
- The multipart C parser: only the callbacks it makes are modelled; that a part comes in one chunk is an explicit hypothesis where it is needed, and for which bodies it makes no data callback is not part of this model.
- The last step of the URL Standard's parser, UTF-8 decoding: `Standard` compares bytes.
- SQLite: a map with two unique, non-null columns whose statements may also fail arbitrarily; handles and finalization are not modelled.
- Template rendering, file contents and HTML: functions of the environment that return a result or a failure.
- The literal word table of the generator: any non-empty table of non-empty words over `a-z`, `0-9` and `-`; two or more equal words are allowed.
- The quality of randomness and the probability of collisions: every stream of draws is possible.
- Store.OpenedFileIsBelowRoot: stated for document roots without NUL bytes, since a NUL in the configured root cuts off the target altogether; symbolic links are not modelled.
- Store.CloseIsHonouredIff: the response's need to close follows Beast's documented rule, which is not part of this repository; the same holds for AnswerClosesIff and ConnectionClosesIff.
- Connections.LocationsOnOneLine: the value handed to Beast's field setter; what Beast does with a line break in it is not part of this repository.
- The configuration, the daemon, certificates, logging, thread start-up, accepting and TLS detection; reading mimetypes.txt into the MIME map.
- The Windows branch of `path_cat`, locale effects of `isdigit`, `tolower` and `isspace`, and regex engine details: `.` stops at line ends.
- Runs stop short of the step in which an exception escapes a handler; which requests do that is stated exactly.
