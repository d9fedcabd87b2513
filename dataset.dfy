/** The in-memory dataset of the stub (model.go): projects, unclaimed disc
    directories and searchable movie metadata, with its two queries. */
module Dataset {
  import opened Rpc
  import opened Strings
  import opened Messages

  /** The dataset record; no operation ever changes one. */
  datatype Model = Model(
    projects: seq<ProjectGetResponse>,
    unclaimed: seq<string>,
    metadata: seq<MovieSearchResult>)

  // ---------------------------------------------------------------- FindProject

  /** The project FindProject's loop returns: the first one named `name`. */
  function FirstNamed(projects: seq<ProjectGetResponse>, name: string): Option<ProjectGetResponse>
  {
    if projects == [] then None
    else if projects[0].project == name then Some(projects[0])
    else FirstNamed(projects[1..], name)
  }

  /** FirstNamed is None exactly when no project carries `name`; otherwise it is
      the project at the first position that does. */
  lemma {:induction false} FirstNamedSpec(projects: seq<ProjectGetResponse>, name: string)
    ensures FirstNamed(projects, name).None? <==> forall i :: 0 <= i < |projects| ==> projects[i].project != name
    ensures FirstNamed(projects, name).Some? ==>
              exists i :: 0 <= i < |projects| && projects[i] == FirstNamed(projects, name).value &&
                          projects[i].project == name &&
                          forall j :: 0 <= j < i ==> projects[j].project != name
  {
    if projects != [] && projects[0].project != name {
      var rest := projects[1..];
      FirstNamedSpec(rest, name);
      assert forall i :: 1 <= i < |projects| ==> projects[i] == rest[i - 1];
      if FirstNamed(rest, name).Some? {
        var i :| 0 <= i < |rest| && rest[i] == FirstNamed(rest, name).value &&
                 rest[i].project == name && forall j :: 0 <= j < i ==> rest[j].project != name;
        assert projects[i + 1] == rest[i];
      }
    }
  }

  /** Project names are unique, as the dataset promises. */
  ghost predicate UniqueNames(projects: seq<ProjectGetResponse>)
  {
    forall i, j :: 0 <= i < j < |projects| ==> projects[i].project != projects[j].project
  }

  /** With unique names, the project found for a name is the one that carries it. */
  lemma FirstNamedUnique(projects: seq<ProjectGetResponse>, k: nat)
    requires UniqueNames(projects) && k < |projects|
    ensures FirstNamed(projects, projects[k].project) == Some(projects[k])
  {
    var name := projects[k].project;
    FirstNamedSpec(projects, name);
    var i :| 0 <= i < |projects| && projects[i] == FirstNamed(projects, name).value &&
             projects[i].project == name && forall j :: 0 <= j < i ==> projects[j].project != name;
    assert i == k;
  }

  /** Model.FindProject: the first project whose name is `name`, or none. */
  method FindProject(m: Model, name: string) returns (found: Option<ProjectGetResponse>)
    ensures found == FirstNamed(m.projects, name)
  {
    var i := 0;
    while i < |m.projects|
      invariant 0 <= i <= |m.projects|
      invariant FirstNamed(m.projects[i..], name) == FirstNamed(m.projects, name)
    {
      if m.projects[i].project == name {
        return Some(m.projects[i]);
      }
      assert m.projects[i..][1..] == m.projects[i + 1..];
      i := i + 1;
    }
    return None;
  }

  // --------------------------------------------------------------- FindMetadata

  /** The filter of FindMetadata for an already lower-cased `query`: the title
      is compared lower-cased, the original title as stored. */
  predicate Matches(item: MovieSearchResult, query: string)
  {
    Contains(Lower(item.title), query) || Contains(item.originalTitle, query)
  }

  /** The elements of `s` that `keep` accepts, in their order in `s`: the eager
      form of `iters.Filter` followed by `slices.Collect`. */
  function Filter<T>(s: seq<T>, keep: T -> bool): seq<T>
  {
    if s == [] then []
    else (if keep(s[0]) then [s[0]] else []) + Filter(s[1..], keep)
  }

  /** The positions of `s` from `from` on whose elements `keep` accepts, ascending. */
  ghost function KeptPositions<T>(s: seq<T>, keep: T -> bool, from: nat): seq<nat>
    requires from <= |s|
    decreases |s| - from
  {
    if from == |s| then []
    else (if keep(s[from]) then [from] else []) + KeptPositions(s, keep, from + 1)
  }

  /** The subsequence of `s` at the ascending positions `p`, each below |s|, is `r`. */
  ghost predicate SelectedAt<T>(r: seq<T>, s: seq<T>, p: seq<nat>)
  {
    && |r| == |p|
    && (forall k :: 0 <= k < |p| ==> p[k] < |s| && r[k] == s[p[k]])
    && (forall k, l :: 0 <= k < l < |p| ==> p[k] < p[l])
  }

  /** The accepted positions of `s[from..]` are listed ascending, each once. */
  lemma {:induction false} KeptPositionsSpec<T>(s: seq<T>, keep: T -> bool, from: nat)
    requires from <= |s|
    ensures var p := KeptPositions(s, keep, from);
      && (forall k :: 0 <= k < |p| ==> from <= p[k] < |s|)
      && (forall k, l :: 0 <= k < l < |p| ==> p[k] < p[l])
      && (forall j :: from <= j < |s| ==> (j in p <==> keep(s[j])))
    decreases |s| - from
  {
    if from < |s| {
      KeptPositionsSpec(s, keep, from + 1);
      var p0 := KeptPositions(s, keep, from + 1);
      assert from !in p0;
      if keep(s[from]) {
        var p := [from] + p0;
        assert KeptPositions(s, keep, from) == p;
        forall k, l | 0 <= k < l < |p| ensures p[k] < p[l] {
          assert p[l] == p0[l - 1];
          if k > 0 { assert p[k] == p0[k - 1]; }
        }
      }
    }
  }

  /** The k-th element Filter keeps from `s[from..]` is the element at the k-th accepted position. */
  lemma {:induction false} FilterAtPositions<T>(s: seq<T>, keep: T -> bool, from: nat)
    requires from <= |s|
    ensures var r, p := Filter(s[from..], keep), KeptPositions(s, keep, from);
      |r| == |p| && forall k :: 0 <= k < |p| ==> p[k] < |s| && r[k] == s[p[k]]
    decreases |s| - from
  {
    if from < |s| {
      FilterAtPositions(s, keep, from + 1);
      assert s[from..][1..] == s[from + 1..];
    }
  }

  /** Filter keeps exactly the accepted elements of `s[from..]`, each once and in
      order: its k-th element is the element at the k-th accepted position. */
  lemma FilterSelects<T>(s: seq<T>, keep: T -> bool, from: nat)
    requires from <= |s|
    ensures SelectedAt(Filter(s[from..], keep), s, KeptPositions(s, keep, from))
    ensures forall j :: from <= j < |s| ==> (j in KeptPositions(s, keep, from) <==> keep(s[j]))
  {
    KeptPositionsSpec(s, keep, from);
    FilterAtPositions(s, keep, from);
  }

  /** An element is in the filtered sequence exactly when it is in `s` and accepted. */
  lemma FilterMembers<T>(s: seq<T>, keep: T -> bool)
    ensures forall x :: x in Filter(s, keep) <==> x in s && keep(x)
  {
    FilterSelects(s, keep, 0);
    assert s[0..] == s;
    var r, p := Filter(s, keep), KeptPositions(s, keep, 0);
    forall x | x in s && keep(x) ensures x in r {
      var j :| 0 <= j < |s| && s[j] == x;
      var k :| 0 <= k < |p| && p[k] == j;
      assert r[k] == x;
    }
  }

  /** Filter keeps every element when `keep` accepts them all. */
  lemma {:induction false} FilterAll<T>(s: seq<T>, keep: T -> bool)
    ensures (forall i :: 0 <= i < |s| ==> keep(s[i])) ==> Filter(s, keep) == s
  {
    if s != [] {
      FilterAll(s[1..], keep);
      assert [s[0]] + s[1..] == s;
    }
  }

  /** Filter keeps nothing when `keep` accepts none. */
  lemma {:induction false} FilterNone<T>(s: seq<T>, keep: T -> bool)
    ensures (forall i :: 0 <= i < |s| ==> !keep(s[i])) ==> Filter(s, keep) == []
  {
    if s != [] {
      FilterNone(s[1..], keep);
    }
  }

  /** The closure FindMetadata hands to the filter, for an already lower-cased `query`. */
  function KeepFor(query: string): MovieSearchResult -> bool
  {
    item => Matches(item, query)
  }

  /** Model.FindMetadata: the metadata records whose lower-cased title contains
      the lower-cased `name`, or whose original title, as stored, contains it. */
  function FindMetadata(m: Model, name: string): (r: seq<MovieSearchResult>)
    ensures forall x :: x in r <==> x in m.metadata && Matches(x, Lower(name))
  {
    var query := Lower(name);
    FilterMembers(m.metadata, KeepFor(query));
    Filter(m.metadata, KeepFor(query))
  }

  /** FindMetadata's result is the subsequence of `m.metadata` at the positions of
      the matching records, so no record is added, dropped, repeated or reordered. */
  lemma FindMetadataSubsequence(m: Model, name: string)
    ensures exists p :: SelectedAt(FindMetadata(m, name), m.metadata, p) &&
              forall j :: 0 <= j < |m.metadata| ==> (j in p <==> Matches(m.metadata[j], Lower(name)))
  {
    var keep := KeepFor(Lower(name));
    FilterSelects(m.metadata, keep, 0);
    assert m.metadata[0..] == m.metadata;
    var p := KeptPositions(m.metadata, keep, 0);
    assert forall j :: 0 <= j < |m.metadata| ==> (keep(m.metadata[j]) <==> Matches(m.metadata[j], Lower(name)));
    assert SelectedAt(FindMetadata(m, name), m.metadata, p);
  }

  /** When every record matches, FindMetadata returns the whole metadata, in order. */
  lemma FindMetadataAll(m: Model, name: string)
    requires forall i :: 0 <= i < |m.metadata| ==> Matches(m.metadata[i], Lower(name))
    ensures FindMetadata(m, name) == m.metadata
  {
    FilterAll(m.metadata, KeepFor(Lower(name)));
  }

  /** When no record matches, FindMetadata returns nothing. */
  lemma FindMetadataNone(m: Model, name: string)
    requires forall i :: 0 <= i < |m.metadata| ==> !Matches(m.metadata[i], Lower(name))
    ensures FindMetadata(m, name) == []
  {
    FilterNone(m.metadata, KeepFor(Lower(name)));
  }

  /** Every string contains the empty string, so the empty query returns every record. */
  lemma FindMetadataEmptyQuery(m: Model)
    ensures FindMetadata(m, "") == m.metadata
  {
    forall i | 0 <= i < |m.metadata| ensures Matches(m.metadata[i], Lower("")) {
      ContainsEmpty(Lower(m.metadata[i].title));
    }
    FindMetadataAll(m, "");
  }

  // -------------------------------------------------------------------- fixture

  /** The dataset the service answers from. */
  const Data := Model(
    [ ProjectGetResponse("Empty", []),
      ProjectGetResponse("Name With Spaces", [
        ProjectDisc("Disc Waiting Thumbs", "waiting", []),
        ProjectDisc("Disc Working Thumbs", "working", []),
        ProjectDisc("Disc Error Thumbs", "error", []),
        ProjectDisc("Disc Done Thumbs", "done", [
          DiscFile("file1.mkv", "main_title", "file1.jpg", "1.2 GB", "01:30:00", 10),
          DiscFile("file2.mkv", "extra", "file2.jpg", "500 MB", "00:45:00", 5),
          DiscFile("file3.mkv", "trash", "file3.jpg", "300 MB", "00:30:00", 3),
          DiscFile("file4.mkv", "", "file4.jpg", "400 MB", "00:40:00", 4)])])],
    ["Unclaimed1", "Unclaimed 2"],
    [ MovieSearchResult("Movie 1", "Original Movie 1", "2023-01-01", ["Action", "Adventure"],
                        "An action-packed adventure movie."),
      MovieSearchResult("Movie 2", "Original Movie 2", "2023-01-02", ["Drama"],
                        "A dramatic story of love and loss.")])

  /** The fixture's project names are distinct, and "Empty" names a project without discs. */
  lemma DataProjects()
    ensures UniqueNames(Data.projects)
    ensures FirstNamed(Data.projects, "Empty") == Some(ProjectGetResponse("Empty", []))
    ensures FirstNamed(Data.projects, "Name With Spaces") == Some(Data.projects[1])
  {
    FirstNamedUnique(Data.projects, 0);
    FirstNamedUnique(Data.projects, 1);
  }

  /** A record of the fixture's shape: title "Movie n" and original title
      "Original Movie n", where n is not an upper-case letter. */
  ghost predicate NumberedMovie(item: MovieSearchResult)
  {
    |item.title| == 7 && item.title[..6] == "Movie " && !('A' <= item.title[6] <= 'Z') &&
    item.originalTitle == "Original " + item.title
  }

  /** Such a record does not match the lower-cased query "original". */
  lemma NumberedMovieNotOriginal(item: MovieSearchResult)
    requires NumberedMovie(item)
    ensures !Matches(item, "original")
  {
    var lowered := Lower(item.title);
    assert forall i :: 0 <= i < 6 ==> lowered[i] == LowerChar(item.title[i]);
    assert lowered[..6] == "movie ";
    NotContainsByFirstChar(lowered, "original");
    assert item.originalTitle[..9] == "Original ";
    NotContainsByFirstChar(item.originalTitle, "original");
  }

  /** Such a record matches the lower-cased query "movie": its lower-cased title starts with it. */
  lemma NumberedMovieIsMovie(item: MovieSearchResult)
    requires NumberedMovie(item)
    ensures Matches(item, "movie")
  {
    var lowered := Lower(item.title);
    forall i | 0 <= i < 5 ensures lowered[i] == "movie"[i] {
      assert item.title[i] == item.title[..6][i] == "Movie "[i];
    }
    assert IsPrefix("movie", lowered);
  }

  /** Searching a dataset of such records for "Movie" finds every record. */
  lemma SearchMovieFindsAll(m: Model)
    requires forall i :: 0 <= i < |m.metadata| ==> NumberedMovie(m.metadata[i])
    ensures FindMetadata(m, "Movie") == m.metadata
  {
    assert Lower("Movie") == "movie";
    forall i | 0 <= i < |m.metadata| ensures Matches(m.metadata[i], "movie") {
      NumberedMovieIsMovie(m.metadata[i]);
    }
    FindMetadataAll(m, "Movie");
  }

  /** Searching a dataset of such records for "Original" finds nothing. */
  lemma SearchOriginalFindsNone(m: Model)
    requires forall i :: 0 <= i < |m.metadata| ==> NumberedMovie(m.metadata[i])
    ensures FindMetadata(m, "Original") == []
  {
    assert Lower("Original") == "original";
    forall i | 0 <= i < |m.metadata| ensures !Matches(m.metadata[i], "original") {
      NumberedMovieNotOriginal(m.metadata[i]);
    }
    FindMetadataNone(m, "Original");
  }

  /** The query "Movie" finds both fixture records: "movie" is in both lower-cased titles. */
  lemma DataSearchMovie()
    ensures FindMetadata(Data, "Movie") == Data.metadata
  {
    assert NumberedMovie(Data.metadata[0]) && NumberedMovie(Data.metadata[1]);
    SearchMovieFindsAll(Data);
  }

  /** The query "Original" finds nothing in the fixture: "original" is in neither
      lower-cased title, and the stored original titles spell it with a capital O. */
  lemma DataSearchOriginal()
    ensures FindMetadata(Data, "Original") == []
  {
    assert NumberedMovie(Data.metadata[0]) && NumberedMovie(Data.metadata[1]);
    SearchOriginalFindsNone(Data);
  }
}
