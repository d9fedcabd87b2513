/** The protobuf messages of the video-in service that the stub reads or
    builds, as value types: two messages are equal exactly when all their
    fields are equal, recursively, which is what `proto.Equal` decides. */
module Messages {

  /** The protobuf `int32` scalar. */
  newtype int32 = x: int | -0x8000_0000 <= x < 0x8000_0000

  datatype HelloWorldRequest = HelloWorldRequest(name: string)
  datatype HelloWorldResponse = HelloWorldResponse(message: string)

  datatype ProjectListRequest = ProjectListRequest
  datatype ProjectListResponse = ProjectListResponse(projects: seq<string>)

  datatype ProjectGetRequest = ProjectGetRequest(project: string)

  /** One file of a disc; an unset `category` is the empty string. */
  datatype DiscFile = DiscFile(
    file: string,
    category: string,
    thumb: string,
    humanSize: string,
    humanDuration: string,
    numChapters: int32)

  /** One disc of a project; `thumbState` is one of "waiting", "working", "error", "done". */
  datatype ProjectDisc = ProjectDisc(disc: string, thumbState: string, discFiles: seq<DiscFile>)

  /** A project record, which is also the response of ProjectGet. */
  datatype ProjectGetResponse = ProjectGetResponse(project: string, discs: seq<ProjectDisc>)

  datatype UnclaimedDiscDirListRequest = UnclaimedDiscDirListRequest
  datatype UnclaimedDiscDirListResponse = UnclaimedDiscDirListResponse(dirs: seq<string>)

  datatype MovieSearchRequest = MovieSearchRequest(partialTitle: string)

  datatype MovieSearchResult = MovieSearchResult(
    title: string,
    originalTitle: string,
    releaseDate: string,
    genres: seq<string>,
    overview: string)

  datatype MovieSearchResponse = MovieSearchResponse(results: seq<MovieSearchResult>)
}
