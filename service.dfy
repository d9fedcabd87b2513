/** The stub's service handlers: each answers from the canned HelloWorld table,
    from the dataset, or unconditionally with Unimplemented. */
module Service {
  import opened Rpc
  import opened Strings
  import opened Messages
  import opened Matcher
  import opened Dataset

  /** The stub service; its only state is the HelloWorld mapping table, which
      nothing changes after construction. */
  datatype StubService = StubService(
    helloWorldMappings: seq<Mapping<HelloWorldRequest, HelloWorldResponse>>)

  /** NewStubService: the service with its three canned greetings. */
  function NewStubService(): (s: StubService)
    ensures |s.helloWorldMappings| == 3
    ensures forall i, j :: 0 <= i < j < |s.helloWorldMappings| ==>
              s.helloWorldMappings[i].request != s.helloWorldMappings[j].request
  {
    StubService([
      Mapping(HelloWorldRequest(""), HelloWorldResponse("Hello, empty!")),
      Mapping(HelloWorldRequest("test"), HelloWorldResponse("Hello, test!")),
      Mapping(HelloWorldRequest("world"), HelloWorldResponse("Hello, world!"))])
  }

  /** HelloWorld: the canned response of the first matching table entry, or
      NotFound when no entry's request equals `req`. */
  method HelloWorld(s: StubService, req: HelloWorldRequest) returns (r: Outcome<HelloWorldResponse>)
    ensures r == Lookup(req, s.helloWorldMappings)
  {
    var resp := FindMatchingResponse(req, s.helloWorldMappings);
    if resp.Err? {
      return Err(resp.error);
    }
    return Ok(resp.value);
  }

  /** With the table NewStubService builds, the empty name is greeted as "empty",
      "test" and "world" are greeted by name, and every other name is NotFound. */
  lemma HelloWorldTable(name: string)
    ensures var r := Lookup(HelloWorldRequest(name), NewStubService().helloWorldMappings);
      && (name == "" ==> r == Ok(HelloWorldResponse("Hello, empty!")))
      && (name in {"test", "world"} ==> r == Ok(HelloWorldResponse("Hello, " + name + "!")))
      && (name !in {"", "test", "world"} ==> r == Err(RpcError(NotFound, "no matching request found")))
  {
    var table := NewStubService().helloWorldMappings;
    LookupFirstMatch(HelloWorldRequest(name), table);
    if name == "test" {
      assert "Hello, " + name + "!" == "Hello, test!";
    } else if name == "world" {
      assert "Hello, " + name + "!" == "Hello, world!";
    } else if name != "" {
      forall i | 0 <= i < |table| ensures table[i].request != HelloWorldRequest(name) {
        assert table[i].request.name in {"", "test", "world"};
      }
    }
  }

  /** ProjectList: the names of the dataset's projects, one per project, in dataset order. */
  method ProjectList(req: ProjectListRequest) returns (r: Outcome<ProjectListResponse>)
    ensures r.Ok?
    ensures |r.value.projects| == |Data.projects|
    ensures forall i :: 0 <= i < |Data.projects| ==> r.value.projects[i] == Data.projects[i].project
  {
    var projects: seq<string> := [];
    var i := 0;
    while i < |Data.projects|
      invariant 0 <= i <= |Data.projects|
      invariant |projects| == i
      invariant forall k :: 0 <= k < i ==> projects[k] == Data.projects[k].project
    {
      projects := projects + [Data.projects[i].project];
      i := i + 1;
    }
    return Ok(ProjectListResponse(projects));
  }

  /** UnclaimedDiscDirList: a copy of the dataset's unclaimed directories, in order. */
  method UnclaimedDiscDirList(req: UnclaimedDiscDirListRequest) returns (r: Outcome<UnclaimedDiscDirListResponse>)
    ensures r.Ok?
    ensures |r.value.dirs| == |Data.unclaimed|
    ensures forall i :: 0 <= i < |Data.unclaimed| ==> r.value.dirs[i] == Data.unclaimed[i]
  {
    var dirs: seq<string> := [];
    dirs := dirs + Data.unclaimed;
    return Ok(UnclaimedDiscDirListResponse(dirs));
  }

  /** ProjectGet: the dataset's project named `req.project`, or NotFound naming it. */
  method ProjectGet(req: ProjectGetRequest) returns (r: Outcome<ProjectGetResponse>)
    ensures r.Ok? <==> exists i :: 0 <= i < |Data.projects| && Data.projects[i].project == req.project
    ensures r.Ok? ==> r.value in Data.projects && r.value.project == req.project
    ensures r.Ok? ==> r == Ok(FirstNamed(Data.projects, req.project).value)
    ensures r.Err? ==> r.error == RpcError(NotFound, "project not found: " + req.project)
  {
    var found := FindProject(Data, req.project);
    FirstNamedSpec(Data.projects, req.project);
    if found.None? {
      return Err(RpcError(NotFound, "project not found: " + req.project));
    }
    return Ok(found.value);
  }

  /** MovieSearch: never fails; its results are FindMetadata's, collected in order. */
  function MovieSearch(req: MovieSearchRequest): (r: Outcome<MovieSearchResponse>)
    ensures r.Ok?
    ensures r.value.results == FindMetadata(Data, req.partialTitle)
    ensures forall x :: x in r.value.results <==>
              x in Data.metadata && Matches(x, Lower(req.partialTitle))
  {
    Ok(MovieSearchResponse(FindMetadata(Data, req.partialTitle)))
  }

  /** The error of a deliberately unimplemented operation: code Unimplemented,
      and a message naming the operation. */
  function NotImplemented(operation: string): (e: RpcError)
    ensures e.code == Unimplemented
    ensures e.message == operation + " is not implemented"
    ensures IsPrefix(operation, e.message)
    ensures Contains(e.message, operation) && Contains(e.message, "is not implemented")
    ensures Contains(ErrorText(e), operation) && Contains(ErrorText(e), "is not implemented")
  {
    var message := operation + " is not implemented";
    ContainsInfix("", operation, " is not implemented");
    assert "" + operation + " is not implemented" == message;
    ContainsInfix(operation + " ", "is not implemented", "");
    assert operation + " " + "is not implemented" + "" == message;
    var e := RpcError(Unimplemented, message);
    ContainsTransitive(ErrorText(e), message, operation);
    ContainsTransitive(ErrorText(e), message, "is not implemented");
    e
  }

  /** `r` is the failure of an unimplemented operation called `operation`: code
      Unimplemented, the message "<operation> is not implemented", and hence an
      error text naming the operation and saying "is not implemented". */
  ghost predicate FailsUnimplemented<Resp>(r: Outcome<Resp>, operation: string)
  {
    && r.Err? && r.error.code == Unimplemented
    && r.error.message == operation + " is not implemented"
    && IsPrefix(operation, r.error.message)
    && Contains(ErrorText(r.error), operation)
    && Contains(ErrorText(r.error), "is not implemented")
  }

  // The six project lifecycle operations fail whatever the request.

  function ProjectNew<Req, Resp>(req: Req): (r: Outcome<Resp>)
    ensures FailsUnimplemented(r, "ProjectNew")
  {
    Err(NotImplemented("ProjectNew"))
  }

  function ProjectAssignDiskDirs<Req, Resp>(req: Req): (r: Outcome<Resp>)
    ensures FailsUnimplemented(r, "ProjectAssignDiskDirs")
  {
    Err(NotImplemented("ProjectAssignDiskDirs"))
  }

  function ProjectCategorizeFiles<Req, Resp>(req: Req): (r: Outcome<Resp>)
    ensures FailsUnimplemented(r, "ProjectCategorizeFiles")
  {
    Err(NotImplemented("ProjectCategorizeFiles"))
  }

  function ProjectSetMetadata<Req, Resp>(req: Req): (r: Outcome<Resp>)
    ensures FailsUnimplemented(r, "ProjectSetMetadata")
  {
    Err(NotImplemented("ProjectSetMetadata"))
  }

  function ProjectFinish<Req, Resp>(req: Req): (r: Outcome<Resp>)
    ensures FailsUnimplemented(r, "ProjectFinish")
  {
    Err(NotImplemented("ProjectFinish"))
  }

  function ProjectAbandon<Req, Resp>(req: Req): (r: Outcome<Resp>)
    ensures FailsUnimplemented(r, "ProjectAbandon")
  {
    Err(NotImplemented("ProjectAbandon"))
  }

  /** On the fixture, the name "Missing" belongs to no project, so ProjectGet
      answers NotFound with "project not found: Missing". */
  lemma ProjectGetMissing()
    ensures FirstNamed(Data.projects, "Missing") == None
    ensures forall i :: 0 <= i < |Data.projects| ==> Data.projects[i].project != "Missing"
  {
    FirstNamedSpec(Data.projects, "Missing");
  }
}
