# video-in backend stub, modelled in Dafny

`video-in-be-stub` is a Connect-RPC server that stands in for the video-in
backend so that a front end can be developed against it. It has no storage and
no business logic. Every call is answered in one of three ways:

- from a small table of canned HelloWorld request/response pairs, searched in
  order for the first request structurally equal to the incoming one;
- from a fixed in-memory dataset of projects, unclaimed disc directories and
  movie metadata;
- with an Unimplemented error, for the six operations that change a project.

A logging interceptor wraps every unary call. It renders the request and a
successful response as JSON, renders an error as the error's text, and writes
one audit line per call. It never changes the handler's outcome.

The Dafny project has one module per concern:

- `Messages` (`messages.dfy`): the protobuf messages as value datatypes.
  Datatype equality plays the part of `proto.Equal`.
- `Rpc` (`rpc.dfy`): Connect error codes, errors and the `Outcome` of a call.
- `Strings` (`strings.dfy`): ASCII lower-casing and substring search, with a
  positional characterisation of `Contains`.
- `Matcher` (`matcher.dfy`): the first-match table lookup, `findMatchingResponse`.
- `Dataset` (`dataset.dfy`): the `Model` record, `FindProject`, `FindMetadata`
  and the fixed dataset `Data`.
- `Service` (`service.dfy`): the handlers of `StubService` and its constructor.
- `Interceptor` (`interceptor.dfy`): `LoggingInterceptor.WrapUnary` and the
  audit line it writes.

Loops in the source are methods proved against specification functions:

- `FindMatchingResponse` against `Lookup`;
- `FindProject` against `FirstNamed`;
- `ProjectList` against its own pointwise postcondition.

The lazy filter behind `FindMetadata` is a function. `Filter` is proved to
select exactly the matching items, in dataset order.

The movie search lower-cases the query and the title, but not the original
title. So the original title matches only when it literally contains the
lower-cased query: a match that would cover an upper-case letter of the
original title never happens. The model keeps this asymmetry as written. For
example, `DataSearchOriginal` shows that searching "Original" finds nothing in
the dataset, although both original titles begin with "Original".

## Model

| member | source | states |
|---|---|---|
| Matcher.FindMatchingResponse | main.go:84-92 | the loop returns exactly the first-match lookup of the request in the table, including NotFound "no matching request found" when nothing matches |
| Matcher.LookupFirstMatch | main.go:85-91 | the lookup fails iff no entry's request equals the incoming one, the failure is the NotFound "no matching request found" error, and otherwise the response is that of the first equal entry |
| Matcher.LookupIgnoresLaterEntries | main.go:85-88 | once an entry matches, entries appended after the table never change the answer |
| Service.NewStubService | main.go:167-185 | the service holds three canned HelloWorld pairs with pairwise distinct requests |
| Service.HelloWorld | main.go:95-101 | the handler answers with the matcher's outcome on the service's own table, passing its error through unchanged |
| Service.HelloWorldTable | main.go:170-183 | with the canned table, "" is answered "Hello, empty!", "test" and "world" are answered "Hello, <name>!", and every other name gets NotFound |
| Service.ProjectList | main.go:104-110 | always succeeds, with one name per dataset project, in dataset order |
| Service.UnclaimedDiscDirList | main.go:118-122 | always succeeds, with the dataset's unclaimed directories, in order |
| Service.ProjectGet | main.go:130-136 | succeeds iff some project has the requested name, and then answers with the first such project; otherwise fails NotFound with "project not found: " followed by the name |
| Service.MovieSearch | main.go:144-149 | always succeeds; the results are the collected search results, and an item is among them iff it is in the dataset and matches the lower-cased query |
| Service.NotImplemented | main.go:114 | the error has code Unimplemented and the message exactly "<operation> is not implemented"; its text therefore contains the operation and "is not implemented" |
| Service.ProjectNew | main.go:113-115 | fails whatever the request, with code Unimplemented and the message exactly "ProjectNew is not implemented"; the error text names "ProjectNew" and says "is not implemented" |
| Service.ProjectAssignDiskDirs | main.go:125-127 | fails whatever the request, with code Unimplemented and the message exactly "ProjectAssignDiskDirs is not implemented"; the error text names "ProjectAssignDiskDirs" and says "is not implemented" |
| Service.ProjectCategorizeFiles | main.go:139-141 | fails whatever the request, with code Unimplemented and the message exactly "ProjectCategorizeFiles is not implemented"; the error text names "ProjectCategorizeFiles" and says "is not implemented" |
| Service.ProjectSetMetadata | main.go:152-154 | fails whatever the request, with code Unimplemented and the message exactly "ProjectSetMetadata is not implemented"; the error text names "ProjectSetMetadata" and says "is not implemented" |
| Service.ProjectFinish | main.go:157-159 | fails whatever the request, with code Unimplemented and the message exactly "ProjectFinish is not implemented"; the error text names "ProjectFinish" and says "is not implemented" |
| Service.ProjectAbandon | main.go:162-164 | fails whatever the request, with code Unimplemented and the message exactly "ProjectAbandon is not implemented"; the error text names "ProjectAbandon" and says "is not implemented" |
| Service.ProjectGetMissing | model.go:36-44 | no dataset project is called "Missing", so the lookup finds nothing |
| Dataset.FindProject | model.go:18-25 | the loop returns the first project whose name equals the argument, or none |
| Dataset.FirstNamedSpec | model.go:19-24 | nothing is found iff no project has the name; when something is found it has the name and sits at an index before which no project has it |
| Dataset.FirstNamedUnique | model.go:19-24 | when project names are unique, looking up the k-th project's name finds exactly that project |
| Dataset.FindMetadata | model.go:27-34 | an item is in the result iff it is in the metadata and its lower-cased title, or its original title as given, contains the lower-cased query |
| Dataset.FindMetadataSubsequence | model.go:29-33 | the result is the metadata at a strictly increasing sequence of positions, namely exactly the positions whose item matches, so order and duplicates are kept |
| Dataset.FindMetadataAll | model.go:29-33 | when every item matches, the result is the whole metadata list |
| Dataset.FindMetadataNone | model.go:29-33 | when no item matches, the result is empty |
| Dataset.FindMetadataEmptyQuery | model.go:28-33 | the empty query matches every item, so it returns all metadata |
| Dataset.DataProjects | model.go:36-95 | the dataset's project names are unique; "Empty" is found with no discs, and "Name With Spaces" is found as the dataset's second project |
| Dataset.SearchMovieFindsAll | model.go:28-33 | a query of "Movie" finds every item of a catalogue whose titles are "Movie <c>", with `<c>` one character that is not an upper-case letter, and whose original titles are "Original Movie <c>" |
| Dataset.SearchOriginalFindsNone | model.go:28-33 | a query of "Original" finds no item of a catalogue whose titles are "Movie <c>", with `<c>` one character that is not an upper-case letter, and whose original titles are exactly "Original Movie <c>" |
| Dataset.DataSearchMovie | model.go:97-112 | searching the dataset for "Movie" finds both movies, in order |
| Dataset.DataSearchOriginal | model.go:97-112 | searching the dataset for "Original" finds nothing, because original titles are not lower-cased |
| Strings.Lower | model.go:28 | lower-casing keeps the length and maps each upper-case ASCII letter to its lower-case letter, leaving every other character alone |
| Strings.ContainsIff | model.go:30-31 | substring search succeeds iff the pattern occurs at some position of the string |
| Rpc.ErrorText | main.go:43 | an error's text starts with its code's name and contains its message |
| Interceptor.WrapUnary | main.go:23-58 | the wrapped call returns exactly the handler's outcome and produces the audit line for the procedure, the rendered request and that outcome; a request or response that is absent or cannot be rendered appears as "" |
| Interceptor.AuditLineNamesCall | main.go:43-54 | every audit line starts with "RPC Call [<procedure>] - Request: <request>" and so contains "RPC Call", the procedure and the request |
| Interceptor.AuditLineError | main.go:42-43 | a failed call's line ends with " - Error: " and the error's text, and contains "Error" and the error's message |
| Interceptor.AuditLineResponse | main.go:45-54 | a successful call's line ends with " - Response: " and the rendered response |
| Interceptor.AuditLineDistinguishesOutcome | main.go:42-55 | a failure and a success of the same call never produce the same line |
| Interceptor.UnimplementedCallAudited | main.go:43 | a call to an unimplemented operation is logged as an error naming the operation and saying "is not implemented" |
| Interceptor.HelloWorldTestCallLogged | logging_test.go:42-67 | the HelloWorld call for "test" succeeds with "Hello, test!", and its line contains "RPC Call", "HelloWorld", "test" and "Hello, test!" |
| Interceptor.HelloWorldUnknownCallLogged | logging_test.go:72-87 | the HelloWorld call for "unknown" fails NotFound, and its line contains "RPC Call" and "Error" |

## Left out

- Server start-up (`main`, main.go:187 onwards: the HTTP/2 listener, h2c, handler registration, the port) is I/O. It is not modelled.
- Streaming: `WrapStreamingClient` and `WrapStreamingHandler` (main.go:62-69) return their argument unchanged, and the stub has no streaming calls.
- Log sink: `log.Printf`'s timestamp prefix, its output stream and concurrent calls are not modelled. The audit line is returned as a value.
- JSON rendering: `protojson.Marshal` is a parameter (`marshal`) that may fail. The model does not fix its output format. Neither does Go, which keeps protojson output deliberately unstable.
- Interceptor.WrapUnary: a Go handler may return a response together with an error. `Outcome` cannot hold both. The model covers the cases the stub's handlers produce (a response or an error).
- The request context and cancellation are not modelled.
- Rpc.ErrorText: the text of a Connect error is modelled as the code's name, then ": " and the message, or the code's name alone for an empty message. Only its prefix and the message's presence are stated.
- Strings.Lower: lower-casing is ASCII only. Go's `strings.ToLower` also maps non-ASCII upper-case letters; the model leaves those unchanged.
- Dataset.FindMetadata: Go returns a lazy iterator, which `MovieSearch` collects right away. The model returns the collected sequence, so laziness is not modelled.
- Aliasing: the dataset holds pointers, and `ProjectGet` returns the dataset's own record. The model works on values, so sharing and later mutation are not captured (the stub never mutates them).
- The six lifecycle operations: their request and response messages are generic type parameters. Nothing of their fields is read.
- The end-to-end test harness under e2e/ drives a running server. It is not modelled.
- The second half of mapping_test.go (lines 81-150) calls the six lifecycle handlers and expects code NotFound (line 145). The code returns Unimplemented (main.go:114, 126, 140, 153, 158, 163). The test contradicts the code, and the model follows the code.
