/** The HTTP layer (backend/app/main.py): the decisions each route takes
    between a result and an error status, over the shared story store. The
    speech engine, the exporter's media and the static file tree are
    parameters. */
module Api {
  import opened Common
  import opened Schemas
  import opened Repository
  import Pollinations
  import StoryService
  import VideoExport

  /** What a route answers: a result, or an error status with its detail. */
  datatype Reply<T> = Ok(value: T) | HttpError(status: nat, detail: string)

  const StoryNotFound := "Story not found"
  const EpisodeNotFound := "Episode not found"
  const EpisodeHasNoText := "Episode has no text"
  const ExportFailed := "Export failed"
  const NotFound := "Not found"
  const InternalServerError := "Internal Server Error"

  /** Defaults of the list route's query parameters. */
  const DefaultListLimit := 20
  const DefaultListOffset := 0

  // ---------------------------------------------------------------------
  // POST /api/story/generate
  // ---------------------------------------------------------------------

  /** generate_story: a body that fails validation is answered with 422
      before any work; an exception of the service with 500; otherwise the
      service's answer. */
  method GenerateStory(repo: StoryRepository, up: Pollinations.Upstream, body: RequestBody,
                       freshId: string, now: string)
    returns (r: Reply<GenerateStoryResponse>)
    requires repo.Valid()
    modifies repo
    ensures repo.Valid()
    ensures (r.HttpError? && r.status == 422) <==> ValidateRequest(body).None?
    ensures ValidateRequest(body).Some? ==>
      var q := ValidateRequest(body).value;
      && (r.Ok? <==> StoryService.Succeeds(up, old(repo.stories), q.topic, q.numEpisodes, q.storyLang, freshId))
      && (r.HttpError? ==> r == HttpError(500, InternalServerError))
    ensures r.HttpError? ==> repo.stories == old(repo.stories) && repo.episodes == old(repo.episodes)
    ensures r.Ok? ==>
      var q := ValidateRequest(body).value;
      var story := StoryService.StoryOf(up, q.topic, q.numEpisodes, q.storyLang).value;
      StoryService.AnswersStory(r.value, freshId, story, q.numEpisodes,
                                StoryService.StoryImages(up, q.imageStyle, q.imageModel, story))
    ensures r.Ok? ==>
      repo.GetStory(freshId) == Some(GetStoryResponse(freshId, ValidateRequest(body).value.topic, r.value.title,
                                                      |r.value.episodes|, now, r.value.episodes))
  {
    var req := ValidateRequest(body);
    if req.None? {
      return HttpError(422, "");
    }
    var q := req.value;
    var res := StoryService.Generate(repo, up, q.topic, q.numEpisodes, q.storyLang, q.imageModel, q.imageStyle,
                                     freshId, now);
    if res.Failure? {
      return HttpError(500, InternalServerError);
    }
    return Ok(res.value);
  }

  // ---------------------------------------------------------------------
  // GET /api/story/{story_id} and GET /api/stories
  // ---------------------------------------------------------------------

  /** get_story: the stored story, or 404 for an unknown id. */
  function GetStory(repo: StoryRepository, storyId: string): (r: Reply<GetStoryResponse>)
    reads repo
    ensures r.HttpError? <==> !HasStory(repo.stories, storyId)
    ensures r.HttpError? ==> r == HttpError(404, StoryNotFound)
    ensures r.Ok? ==> r.value.storyId == storyId && RowOfStory(r.value) in repo.stories
    ensures r.Ok? ==> Some(r.value) == repo.GetStory(storyId)
  {
    match repo.GetStory(storyId)
    case None => HttpError(404, StoryNotFound)
    case Some(story) => Ok(story)
  }

  /** list_stories: a missing limit is 20 and a missing offset 0, so the
      bare route gives the twenty newest stories. */
  function ListStories(repo: StoryRepository, limit: Option<int>, offset: Option<int>): (r: seq<StoryListItem>)
    reads repo
    ensures limit.None? ==> |r| <= DefaultListLimit
    ensures r == repo.ListStories(limit.GetOr(DefaultListLimit), offset.GetOr(DefaultListOffset))
    ensures limit.None? && offset.None? ==>
      r == Take(QueryList(repo.stories, repo.episodes, -1, 0), DefaultListLimit)
  {
    PageOfList(repo.stories, repo.episodes, DefaultListLimit, DefaultListOffset);
    var all := QueryList(repo.stories, repo.episodes, -1, 0);
    assert all[0..] == all;
    repo.ListStories(limit.GetOr(DefaultListLimit), offset.GetOr(DefaultListOffset))
  }

  // ---------------------------------------------------------------------
  // GET /api/story/{story_id}/episode/{index}/audio
  // ---------------------------------------------------------------------

  /** get_episode_audio: 404 for an unknown story or an index outside the
      episode list, 400 for an episode without text, otherwise the speech
      of exactly that episode's text (served as audio/mpeg). */
  function GetEpisodeAudio(repo: StoryRepository, storyId: string, index: int, speak: string -> Bytes): (r: Reply<Bytes>)
    reads repo
    ensures !HasStory(repo.stories, storyId) ==> r == HttpError(404, StoryNotFound)
    ensures HasStory(repo.stories, storyId) ==>
      var eps := repo.GetStory(storyId).value.episodes;
      && (index < 0 || index >= |eps| ==> r == HttpError(404, EpisodeNotFound))
      && (0 <= index < |eps| && eps[index].text == "" ==> r == HttpError(400, EpisodeHasNoText))
      && (0 <= index < |eps| && eps[index].text != "" ==> r == Ok(speak(eps[index].text)))
  {
    match repo.GetStory(storyId)
    case None => HttpError(404, StoryNotFound)
    case Some(story) =>
      var eps := story.episodes;
      if index < 0 || index >= |eps| then HttpError(404, EpisodeNotFound)
      else if eps[index].text == "" then HttpError(400, EpisodeHasNoText)
      else Ok(speak(eps[index].text))
  }

  /** In a valid store the index of the audio route is the stored ordinal:
      it is answered from the row of that story with that ordinal, and an
      index past the story's last row is not found. */
  lemma AudioIndexIsOrdinal(repo: StoryRepository, storyId: string, index: int, speak: string -> Bytes)
    requires repo.Valid() && HasStory(repo.stories, storyId)
    ensures var rows := EpisodesOf(repo.episodes, storyId);
      && (index < 0 || index >= |rows| ==> GetEpisodeAudio(repo, storyId, index, speak) == HttpError(404, EpisodeNotFound))
      && (0 <= index < |rows| ==>
            && rows[index].ordinal == index
            && GetEpisodeAudio(repo, storyId, index, speak) ==
                 if rows[index].text == "" then HttpError(400, EpisodeHasNoText) else Ok(speak(rows[index].text)))
  {
    StoredOrder(repo.stories, repo.episodes, storyId);
  }

  /** Right after a story is saved, the audio of its k-th episode is the
      speech of the k-th text handed to save. */
  lemma AudioAfterSave(repo: StoryRepository, storyId: string, eps: seq<NewEpisode>, k: int, speak: string -> Bytes)
    requires repo.GetStory(storyId).Some? && repo.GetStory(storyId).value.episodes == SavedOuts(eps)
    requires 0 <= k < |eps| && eps[k].text != ""
    ensures HasStory(repo.stories, storyId)
    ensures GetEpisodeAudio(repo, storyId, k, speak) == Ok(speak(eps[k].text))
  {
  }

  // ---------------------------------------------------------------------
  // POST /api/story/export-video
  // ---------------------------------------------------------------------

  /** The episodes of a stored story as the exporter reads them. */
  function ExportEpisodes(story: GetStoryResponse): (r: seq<VideoExport.EpisodeFields>)
    ensures |r| == |story.episodes|
    ensures forall k :: 0 <= k < |r| ==>
      VideoExport.EpText(r[k]) == story.episodes[k].text && VideoExport.EpImageUrl(r[k]) == story.episodes[k].imageUrl
  {
    seq(|story.episodes|, k requires 0 <= k < |story.episodes| =>
      VideoExport.EpisodeFields(Some(story.episodes[k].text), Some(story.episodes[k].imageUrl)))
  }

  /** A stored story has a video exactly when it has an episode with text
      and the encoder succeeds on its clips. */
  predicate Exportable(media: VideoExport.Media, story: GetStoryResponse) {
    var eps := ExportEpisodes(story);
    && VideoExport.SpokenCount(eps) > 0
    && media.encode(VideoExport.Clips(media, eps)).Some?
  }

  /** export_video: 404 for an unknown story; any failure of the export
      becomes 500 "Export failed"; otherwise the video (served as
      video/mp4). */
  method ExportVideo(repo: StoryRepository, media: VideoExport.Media, storyId: string) returns (r: Reply<Bytes>)
    ensures !HasStory(repo.stories, storyId) ==> r == HttpError(404, StoryNotFound)
    ensures HasStory(repo.stories, storyId) ==>
      var story := repo.GetStory(storyId).value;
      && (!Exportable(media, story) <==> r == HttpError(500, ExportFailed))
      && (Exportable(media, story) ==> r.Ok?)
      && (r.Ok? ==> media.encode(VideoExport.Clips(media, ExportEpisodes(story))) == Some(r.value))
  {
    var found := repo.GetStory(storyId);
    if found.None? {
      return HttpError(404, StoryNotFound);
    }
    r := ExportStory(media, found.value);
  }

  /** The part of export_video after the story was found. */
  method ExportStory(media: VideoExport.Media, story: GetStoryResponse) returns (r: Reply<Bytes>)
    ensures !Exportable(media, story) <==> r == HttpError(500, ExportFailed)
    ensures Exportable(media, story) ==> r.Ok?
    ensures r.Ok? ==> media.encode(VideoExport.Clips(media, ExportEpisodes(story))) == Some(r.value)
  {
    var eps := ExportEpisodes(story);
    var input := VideoExport.StoryInput(Some(eps));
    assert input.episodes.GetOr([]) == eps;
    var video := VideoExport.ExportStoryToMp4(media, input);
    if video.Failure? {
      match video.error {
        case NoEpisodes => assert eps == [];
        case NoValidClips => assert VideoExport.SpokenCount(eps) == 0;
        case EncodeFailed => assert media.encode(VideoExport.Clips(media, eps)).None?;
      }
      return HttpError(500, ExportFailed);
    }
    return Ok(video.value);
  }

  // ---------------------------------------------------------------------
  // GET /{full_path} (the single-page web client)
  // ---------------------------------------------------------------------

  /** A filesystem path as its components, "/" being []. */
  type Path = seq<string>

  /** The file tree as far as the route sees it. */
  datatype FileSystem = FileSystem(isDir: Path -> bool, isFile: Path -> bool)

  /** A file to send, with the media type given when one is forced. */
  datatype FileResponse = FileResponse(path: Path, mediaType: Option<string>)

  /** One component of a path string: "" and "." name nothing. */
  function Component(part: string): (r: seq<string>)
    ensures |r| <= 1
    ensures r == [] <==> part == "" || part == "."
  {
    if part == "" || part == "." then [] else [part]
  }

  /** The components of a path string, as a path object parses it: the
      pieces between "/" separators, without empty and "." pieces. */
  function PathParts(p: string): (r: Path)
    ensures forall k :: 0 <= k < |r| ==> r[k] != "" && r[k] != "." && '/' !in r[k]
    ensures '/' !in p ==> r == Component(p)
    decreases |p|
  {
    match IndexOf(p, '/')
    case None => Component(p)
    case Some(i) => Component(p[..i]) + PathParts(p[i + 1..])
  }

  /** Parsing distributes over a separator: the components of "a/b" are
      those of a followed by those of b. */
  lemma {:induction false} PathPartsJoin(a: string, b: string)
    ensures PathParts(a + "/" + b) == PathParts(a) + PathParts(b)
    decreases |a|
  {
    var p := a + "/" + b;
    match IndexOf(a, '/')
    case None =>
      assert p[..|a|] == a;
      IndexOfAt(p, '/', |a|);
      assert p[|a| + 1..] == b;
    case Some(i) =>
      assert p[..i] == a[..i];
      IndexOfAt(p, '/', i);
      assert p[i + 1..] == a[i + 1..] + "/" + b;
      PathPartsJoin(a[i + 1..], b);
  }

  /** One step of resolution: ".." leaves the last directory (the root is
      its own parent), any other component enters it. */
  function Step(dir: Path, part: string): Path {
    if part == ".." then (if dir == [] then [] else dir[..|dir| - 1]) else dir + [part]
  }

  /** The path reached from `dir` by following `parts` in order. */
  function Resolve(dir: Path, parts: Path): Path
    decreases |parts|
  {
    if parts == [] then dir else Resolve(Step(dir, parts[0]), parts[1..])
  }

  /** is_relative_to: `p` lies at or under `root`. */
  predicate Inside(p: Path, root: Path) {
    |root| <= |p| && p[..|root|] == root
  }

  /** The file a request path names: relative to the static directory, or
      on its own when it is absolute. */
  function Target(staticDir: Path, fullPath: string): Path {
    if StartsWith(fullPath, "/") then Resolve([], PathParts(fullPath)) else Resolve(staticDir, PathParts(fullPath))
  }

  /** serve_spa over a static directory already in resolved form: "api/"
      paths and a missing directory are not found; a path that leaves the
      directory is not found; an existing file is sent; anything else gets
      the web client's index.html, when there is one. */
  function ServeSpa(fs: FileSystem, staticDir: Path, fullPath: string): (r: Reply<FileResponse>)
    ensures StartsWith(fullPath, "api/") || !fs.isDir(staticDir) ==> r == HttpError(404, NotFound)
    ensures r.Ok? ==> Inside(r.value.path, staticDir) && fs.isFile(r.value.path)
    ensures r == Ok(FileResponse(Target(staticDir, fullPath), None)) <==>
      && !StartsWith(fullPath, "api/") && fs.isDir(staticDir)
      && Inside(Target(staticDir, fullPath), staticDir) && fs.isFile(Target(staticDir, fullPath))
    ensures r.Ok? && r.value.mediaType.Some? ==>
      r.value == FileResponse(staticDir + ["index.html"], Some("text/html"))
    ensures !StartsWith(fullPath, "api/") && fs.isDir(staticDir) && !Inside(Target(staticDir, fullPath), staticDir) ==>
      r == HttpError(404, NotFound)
    ensures
      && !StartsWith(fullPath, "api/") && fs.isDir(staticDir)
      && Inside(Target(staticDir, fullPath), staticDir) && !fs.isFile(Target(staticDir, fullPath)) ==>
      r == if fs.isFile(staticDir + ["index.html"]) then Ok(FileResponse(staticDir + ["index.html"], Some("text/html")))
           else HttpError(404, NotFound)
  {
    if StartsWith(fullPath, "api/") then HttpError(404, NotFound)
    else if !fs.isDir(staticDir) then HttpError(404, NotFound)
    else
      var target := Target(staticDir, fullPath);
      if !Inside(target, staticDir) then HttpError(404, NotFound)
      else if fs.isFile(target) then Ok(FileResponse(target, None))
      else
        var index := staticDir + ["index.html"];
        assert Inside(index, staticDir) by {
          assert index[..|staticDir|] == staticDir;
        }
        if fs.isFile(index) then Ok(FileResponse(index, Some("text/html")))
        else HttpError(404, NotFound)
  }

  /** Following components without ".." never leaves the directory. */
  lemma {:induction false} ResolveStaysInside(dir: Path, parts: Path)
    requires forall k :: 0 <= k < |parts| ==> parts[k] != ".."
    ensures Inside(Resolve(dir, parts), dir)
    decreases |parts|
  {
    if parts != [] {
      ResolveStaysInside(dir + [parts[0]], parts[1..]);
      var r := Resolve(dir + [parts[0]], parts[1..]);
      assert r[..|dir|] == r[..|dir| + 1][..|dir|];
    }
  }

  /** A relative request path without ".." passes the directory guard: it
      is sent when it names a file, and answered with index.html (or not
      found without one) otherwise. */
  lemma RelativePathServed(fs: FileSystem, staticDir: Path, fullPath: string)
    requires !StartsWith(fullPath, "/") && !StartsWith(fullPath, "api/") && fs.isDir(staticDir)
    requires forall k :: 0 <= k < |PathParts(fullPath)| ==> PathParts(fullPath)[k] != ".."
    ensures var target := Resolve(staticDir, PathParts(fullPath));
      var index := staticDir + ["index.html"];
      ServeSpa(fs, staticDir, fullPath) ==
        if fs.isFile(target) then Ok(FileResponse(target, None))
        else if fs.isFile(index) then Ok(FileResponse(index, Some("text/html")))
        else HttpError(404, NotFound)
  {
    ResolveStaysInside(staticDir, PathParts(fullPath));
  }
}
