/** The request and response records that the backend, the web client and
    the mobile client share (backend/app/models/schemas.py), and the field
    constraints the HTTP layer enforces on a story-generation request. */
module Schemas {
  import opened Common

  const MaxTopicLength := 500
  const MaxStyleLength := 100
  const DefaultEpisodes := 5
  const MinEpisodes := 1
  const MaxEpisodes := 10
  const DefaultLang := "en"
  const DefaultModel := "flux"

  /** The two story languages the request accepts. */
  predicate IsStoryLang(s: string) { s == "en" || s == "th" }

  /** The two image models the request accepts. */
  predicate IsImageModel(s: string) { s == "flux" || s == "zimage" }

  /** A story-generation request once defaults are filled in. */
  datatype GenerateStoryRequest = GenerateStoryRequest(
    topic: string,
    numEpisodes: int,
    storyLang: string,
    imageModel: string,
    imageStyle: Option<string>)

  /** The body as it arrives: every field may be missing (a JSON null for
      image_style is the same as a missing one). */
  datatype RequestBody = RequestBody(
    topic: Option<string>,
    numEpisodes: Option<int>,
    storyLang: Option<string>,
    imageModel: Option<string>,
    imageStyle: Option<string>)

  /** The field constraints of GenerateStoryRequest. */
  predicate ValidRequest(r: GenerateStoryRequest) {
    && 1 <= |r.topic| <= MaxTopicLength
    && MinEpisodes <= r.numEpisodes <= MaxEpisodes
    && IsStoryLang(r.storyLang)
    && IsImageModel(r.imageModel)
    && (r.imageStyle.Some? ==> |r.imageStyle.value| <= MaxStyleLength)
  }

  /** Validation of a body: defaults for the optional fields, then the
      constraints; None is the validation error the HTTP layer answers
      with status 422. */
  function ValidateRequest(b: RequestBody): (r: Option<GenerateStoryRequest>)
    ensures r.Some? <==>
      && b.topic.Some? && 1 <= |b.topic.value| <= 500
      && 1 <= b.numEpisodes.GetOr(5) <= 10
      && (b.storyLang.GetOr("en") == "en" || b.storyLang.GetOr("en") == "th")
      && (b.imageModel.GetOr("flux") == "flux" || b.imageModel.GetOr("flux") == "zimage")
      && (b.imageStyle.Some? ==> |b.imageStyle.value| <= 100)
    ensures r.Some? ==> ValidRequest(r.value)
    ensures r.Some? ==> r.value == GenerateStoryRequest(b.topic.value, b.numEpisodes.GetOr(5),
      b.storyLang.GetOr("en"), b.imageModel.GetOr("flux"), b.imageStyle)
  {
    if b.topic.None? then None
    else
      var req := GenerateStoryRequest(
        b.topic.value,
        b.numEpisodes.GetOr(DefaultEpisodes),
        b.storyLang.GetOr(DefaultLang),
        b.imageModel.GetOr(DefaultModel),
        b.imageStyle);
      if ValidRequest(req) then Some(req) else None
  }

  /** A body that gives only a topic of acceptable length gets five
      episodes, English, the flux model and no style. */
  lemma DefaultsApply(topic: string)
    requires 1 <= |topic| <= MaxTopicLength
    ensures ValidateRequest(RequestBody(Some(topic), None, None, None, None))
      == Some(GenerateStoryRequest(topic, 5, "en", "flux", None))
  {
  }

  /** One episode as the API returns it. */
  datatype EpisodeOut = EpisodeOut(text: string, imageUrl: string)

  /** The reply to a story-generation request. */
  datatype GenerateStoryResponse = GenerateStoryResponse(
    storyId: string, title: string, episodes: seq<EpisodeOut>)

  /** One entry of the story list; the preview image is optional. */
  datatype StoryListItem = StoryListItem(
    storyId: string, topic: string, title: string, numEpisodes: int,
    createdAt: string, firstEpisodeImageUrl: Option<string>)

  /** A stored story with its episodes. */
  datatype GetStoryResponse = GetStoryResponse(
    storyId: string, topic: string, title: string, numEpisodes: int,
    createdAt: string, episodes: seq<EpisodeOut>)
}
