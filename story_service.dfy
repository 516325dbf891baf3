/** Story generation (backend/app/services/story_service.py): ask for the
    story, generate one image per episode with a per-episode fallback,
    save the story and answer with its id. The generation service is the
    `Upstream` oracle; the fresh id and the clock reading are parameters. */
module StoryService {
  import opened Common
  import Base64
  import opened Schemas
  import opened Pollinations
  import opened Repository

  /** The language actually asked for: a supported one, else English. */
  function NormalizeLang(storyLang: string): (r: string)
    ensures IsStoryLang(r)
    ensures IsStoryLang(storyLang) ==> r == storyLang
    ensures !IsStoryLang(storyLang) ==> r == DefaultLang
  {
    if storyLang == "en" || storyLang == "th" then storyLang else "en"
  }

  /** The image model actually used: a supported one, else flux. */
  function NormalizeModel(imageModel: string): (r: string)
    ensures IsImageModel(r)
    ensures IsImageModel(imageModel) ==> r == imageModel
    ensures !IsImageModel(imageModel) ==> r == DefaultModel
  {
    if imageModel == "flux" || imageModel == "zimage" then imageModel else "flux"
  }

  // ---------------------------------------------------------------------
  // Image URLs (RFC 2397 section 3 data URLs)
  // ---------------------------------------------------------------------

  const DataUriPrefix := "data:image/jpeg;base64,"

  /** The data URL of a JPEG image. */
  function DataUri(image: Bytes): (r: string)
    ensures StartsWith(r, DataUriPrefix)
  {
    DataUriPrefix + Base64.Encode(image)
  }

  /** Four characters of payload for every started group of three bytes. */
  lemma DataUriLength(image: Bytes)
    ensures |DataUri(image)| == |DataUriPrefix| + 4 * ((|image| + 2) / 3)
  {
  }

  /** The payload of a data URL decodes back to the image. */
  lemma DataUriDecodes(image: Bytes)
    ensures Base64.Decode(DataUri(image)[|DataUriPrefix|..]) == Some(image)
  {
    assert DataUri(image)[|DataUriPrefix|..] == Base64.Encode(image);
    Base64.DecodeEncode(image);
  }

  /** The image URL of an episode: "" when the image could not be made,
      otherwise its data URL. */
  function ImageUrlOf(image: Option<Bytes>): (r: string)
    ensures image.None? <==> r == ""
    ensures image.Some? ==> r == DataUri(image.value)
  {
    match image
    case None => ""
    case Some(b) => DataUri(b)
  }

  /** Either the image failed and the URL is "", or the URL is a data URL
      whose payload decodes to the image bytes. */
  lemma ImageUrlShape(image: Option<Bytes>)
    ensures var url := ImageUrlOf(image);
      || (image.None? && url == "")
      || (image.Some? && StartsWith(url, DataUriPrefix) && Base64.Decode(url[|DataUriPrefix|..]) == image)
  {
    if image.Some? {
      DataUriDecodes(image.value);
    }
  }

  const DefaultImagePrompt := "children's book illustration"

  /** Python's `s or None`. */
  function NoneIfEmpty(s: string): (r: Option<string>)
    ensures r.None? <==> s == ""
    ensures r.Some? ==> r.value == s
  {
    if s == "" then None else Some(s)
  }

  /** The scene prompt of an episode, defaulted when missing. */
  function ScenePrompt(ep: RawEpisode): string {
    ep.imagePrompt.GetOr(DefaultImagePrompt)
  }

  /** The image generator of one story: the scene prompt goes in, the
      image bytes or nothing come out. */
  function ImageGenerator(up: Upstream, imageStyle: Option<string>, model: string,
                          cd: string, artStyle: string): string -> Option<Bytes>
  {
    scene => GenerateImage(up, scene, DefaultImageSize, DefaultImageSize,
                           imageStyle, model, NoneIfEmpty(cd), NoneIfEmpty(artStyle))
  }

  /** What one episode becomes: its text (defaulted to ""), the image URL
      of its generated picture, and its scene prompt for the record. */
  function EpisodeResult(ep: RawEpisode, image: string -> Option<Bytes>): (r: NewEpisode)
  {
    NewEpisode(ep.text.GetOr(""), ImageUrlOf(image(ScenePrompt(ep))), Some(ScenePrompt(ep)))
  }

  /** The response entry of a saved episode. */
  function Out(e: NewEpisode): EpisodeOut {
    EpisodeOut(e.text, e.imageUrl)
  }

  /** The per-episode loop: every episode is processed whatever became of
      the previous ones, and the response list and the list for the store
      are built side by side. */
  method BuildEpisodes(eps: seq<RawEpisode>, image: string -> Option<Bytes>)
    returns (out: seq<EpisodeOut>, forDb: seq<NewEpisode>)
    ensures |out| == |eps| && |forDb| == |eps|
    ensures forall i :: 0 <= i < |eps| ==> forDb[i] == EpisodeResult(eps[i], image)
    ensures forall i :: 0 <= i < |eps| ==> out[i] == Out(forDb[i])
  {
    out, forDb := [], [];
    for i := 0 to |eps|
      invariant |out| == i && |forDb| == i
      invariant forall k :: 0 <= k < i ==> forDb[k] == EpisodeResult(eps[k], image)
      invariant forall k :: 0 <= k < i ==> out[k] == Out(forDb[k])
    {
      var row := EpisodeResult(eps[i], image);
      out := out + [Out(row)];
      forDb := forDb + [row];
    }
  }

  /** Why generation failed. */
  datatype GenerateError =
    | StoryFailed(cause: StoryError)
    | SaveFailed

  /** What a successful generation answers for a checked story: the fresh
      id, the story's title, and one entry per episode among the first
      `numEpisodes`. */
  predicate AnswersStory(resp: GenerateStoryResponse, freshId: string, story: StoryJson, numEpisodes: int,
                         image: string -> Option<Bytes>)
  {
    var eps := Take(story.episodes, numEpisodes);
    && resp.storyId == freshId
    && resp.title == story.title
    && |resp.episodes| == |eps|
    && forall i :: 0 <= i < |eps| ==> resp.episodes[i] == Out(EpisodeResult(eps[i], image))
  }

  /** The episodes handed to the store, one per episode processed. */
  function DbEpisodes(eps: seq<RawEpisode>, image: string -> Option<Bytes>): seq<NewEpisode> {
    seq(|eps|, k requires 0 <= k < |eps| => EpisodeResult(eps[k], image))
  }

  /** The image generator of a request once its story is known: the
      normalised model and the stripped descriptions of the story. */
  function StoryImages(up: Upstream, imageStyle: Option<string>, imageModel: string, story: StoryJson)
    : string -> Option<Bytes>
  {
    ImageGenerator(up, imageStyle, NormalizeModel(imageModel), Strip(story.characterDescription), Strip(story.artStyle))
  }

  /** The story a request asks for, in its normalised language. */
  function StoryOf(up: Upstream, topic: string, numEpisodes: int, storyLang: string): Result<StoryJson, StoryError> {
    GenerateStoryJson(up, topic, numEpisodes, NormalizeLang(storyLang))
  }

  /** Generation succeeds exactly when the story is produced and the fresh
      id is not stored yet. */
  predicate Succeeds(up: Upstream, stories: seq<StoryRow>, topic: string, numEpisodes: int, storyLang: string,
                     freshId: string)
  {
    StoryOf(up, topic, numEpisodes, storyLang).Success? && !HasStory(stories, freshId)
  }

  /** StoryService.generate. */
  method Generate(repo: StoryRepository, up: Upstream, topic: string, numEpisodes: int, storyLang: string,
                  imageModel: string, imageStyle: Option<string>, freshId: string, now: string)
    returns (r: Result<GenerateStoryResponse, GenerateError>)
    requires repo.Valid()
    modifies repo
    ensures repo.Valid()
    ensures r.Success? <==> Succeeds(up, old(repo.stories), topic, numEpisodes, storyLang, freshId)
    ensures StoryOf(up, topic, numEpisodes, storyLang).Failure? ==>
      r == Failure(StoryFailed(StoryOf(up, topic, numEpisodes, storyLang).error))
    ensures r == Failure(SaveFailed) <==>
      StoryOf(up, topic, numEpisodes, storyLang).Success? && HasStory(old(repo.stories), freshId)
    ensures r.Failure? ==> repo.stories == old(repo.stories) && repo.episodes == old(repo.episodes)
    ensures r.Success? ==>
      var story := StoryOf(up, topic, numEpisodes, storyLang).value;
      var image := StoryImages(up, imageStyle, imageModel, story);
      && AnswersStory(r.value, freshId, story, numEpisodes, image)
      && repo.stories == old(repo.stories) + [StoryRow(freshId, topic, story.title, |r.value.episodes|, now)]
      && repo.episodes == old(repo.episodes) + EpisodeRows(freshId, DbEpisodes(Take(story.episodes, numEpisodes), image))
    ensures r.Success? ==>
      repo.GetStory(freshId) == Some(GetStoryResponse(freshId, topic, r.value.title, |r.value.episodes|, now, r.value.episodes))
  {
    var lang := NormalizeLang(storyLang);
    var storyData := GenerateStoryJson(up, topic, numEpisodes, lang);
    if storyData.Failure? {
      return Failure(StoryFailed(storyData.error));
    }
    var story := storyData.value;
    var model := NormalizeModel(imageModel);
    var image := ImageGenerator(up, imageStyle, model, Strip(story.characterDescription), Strip(story.artStyle));
    r := GenerateFrom(repo, topic, numEpisodes, story, image, freshId, now);
  }

  /** The part of generate after the story is checked: the save fails
      exactly when the id is already stored. */
  method GenerateFrom(repo: StoryRepository, topic: string, numEpisodes: int, story: StoryJson,
                      image: string -> Option<Bytes>, freshId: string, now: string)
    returns (r: Result<GenerateStoryResponse, GenerateError>)
    requires repo.Valid()
    modifies repo
    ensures repo.Valid()
    ensures r.Failure? <==> HasStory(old(repo.stories), freshId)
    ensures r.Failure? ==> r == Failure(SaveFailed) && repo.stories == old(repo.stories) && repo.episodes == old(repo.episodes)
    ensures r.Success? ==> AnswersStory(r.value, freshId, story, numEpisodes, image)
    ensures r.Success? ==>
      && repo.stories == old(repo.stories) + [StoryRow(freshId, topic, story.title, |r.value.episodes|, now)]
      && repo.episodes == old(repo.episodes) + EpisodeRows(freshId, DbEpisodes(Take(story.episodes, numEpisodes), image))
    ensures r.Success? ==>
      repo.GetStory(freshId) == Some(GetStoryResponse(freshId, topic, r.value.title, |r.value.episodes|, now, r.value.episodes))
  {
    var title := story.title;
    var episodesData := Take(story.episodes, numEpisodes);
    var out, forDb := BuildEpisodes(episodesData, image);
    assert forDb == DbEpisodes(episodesData, image);
    var saved := repo.SaveStory(freshId, topic, title, |out|, forDb, now);
    if !saved {
      return Failure(SaveFailed);
    }
    assert SavedOuts(forDb) == out;
    return Success(GenerateStoryResponse(freshId, title, out));
  }
}
