/** The client of the text and image generation service
    (backend/app/services/pollinations.py): the language rule of the chat
    request, clean-up of the model's reply, required fields and defaults of
    the parsed story, the image prompt and the image query parameters.
    The two HTTP endpoints and the JSON decoder are oracles carried by an
    `Upstream` value. */
module Pollinations {
  import opened Common

  // ---------------------------------------------------------------------
  // Language rule of the chat request
  // ---------------------------------------------------------------------

  const ThaiRule := "Write the story title and ALL episode \"text\" in Thai (ภาษาไทย)."
  const EnglishRule := "Write the story title and ALL episode \"text\" in English."

  /** The sentence of the system prompt that fixes the story language. */
  function LangRule(storyLang: string): (r: string)
    ensures r == ThaiRule <==> storyLang == "th"
    ensures r == EnglishRule <==> storyLang != "th"
  {
    if storyLang == "th" then ThaiRule else EnglishRule
  }

  // ---------------------------------------------------------------------
  // Removing a Markdown code fence from the reply
  // ---------------------------------------------------------------------

  const Fence := "```"

  /** A line that is three backticks once stripped. */
  predicate IsFenceLine(line: string) {
    Strip(line) == Fence
  }

  /** lines[1:-1] when the last line is a closing fence, lines[1:] otherwise. */
  function DropFenceLines(lines: seq<string>, closing: bool): seq<string>
    requires |lines| >= 1
  {
    if closing then (if |lines| >= 2 then lines[1..|lines| - 1] else [])
    else lines[1..]
  }

  /** The lines after the first, without a closing fence line, joined. */
  function UnfenceLines(lines: seq<string>): string
    requires |lines| >= 1
  {
    JoinLines(DropFenceLines(lines, IsFenceLine(lines[|lines| - 1])))
  }

  /** The lines of `s` after the first, without a closing fence line. */
  function Unfence(s: string): string {
    UnfenceLines(SplitLines(s))
  }

  /** The reply text handed to the JSON decoder. */
  function StripFence(content: string): (r: string)
    ensures !StartsWith(Strip(content), Fence) ==> r == content
  {
    var s := Strip(content);
    if !StartsWith(s, Fence) then content else Unfence(s)
  }

  /** What is left of the lines of a fenced reply is the text between the
      first line and, when the last line is a closing fence, that line. */
  predicate FenceLinesRemoved(lines: seq<string>, closing: bool, r: string)
    requires |lines| >= 1
  {
    var s := JoinLines(lines);
    if |lines| == 1 || (|lines| == 2 && closing) then r == ""
    else if closing then s == lines[0] + "\n" + r + "\n" + lines[|lines| - 1]
    else s == lines[0] + "\n" + r
  }

  lemma DropFenceLinesJoin(lines: seq<string>, closing: bool)
    requires |lines| >= 1
    ensures FenceLinesRemoved(lines, closing, JoinLines(DropFenceLines(lines, closing)))
  {
    var n := |lines|;
    if n >= 2 {
      assert JoinLines(lines) == lines[0] + "\n" + JoinLines(lines[1..]);
      if closing && n >= 3 {
        JoinLinesLast(lines[1..]);
        assert lines[1..][..n - 2] == lines[1..n - 1];
        assert lines[1..][n - 2] == lines[n - 1];
      }
    }
  }

  /** A reply that starts with a fence loses its first line always and its
      last line exactly when that line is a closing fence; the lines are
      those of the stripped reply, which they join back into. */
  lemma StripFenceDropsFenceLines(content: string)
    requires StartsWith(Strip(content), Fence)
    ensures var lines := SplitLines(Strip(content));
      && JoinLines(lines) == Strip(content)
      && FenceLinesRemoved(lines, IsFenceLine(lines[|lines| - 1]), StripFence(content))
  {
    var lines := SplitLines(Strip(content));
    JoinSplitLines(Strip(content));
    assert StripFence(content) == UnfenceLines(lines);
    DropFenceLinesJoin(lines, IsFenceLine(lines[|lines| - 1]));
  }

  /** The lines of a fenced block: the opening line, the body's lines, and
      the closing fence. */
  lemma SplitFencedBlock(tag: string, body: string)
    requires '\n' !in tag
    ensures SplitLines(Fence + tag + "\n" + body + "\n" + Fence) == [Fence + tag] + SplitLines(body) + [Fence]
  {
    assert Fence + tag + "\n" + body + "\n" + Fence == (Fence + tag) + "\n" + (body + "\n" + Fence);
    SplitAtNewline(Fence + tag, body + "\n" + Fence);
    SplitAtNewline(body, Fence);
    SplitSingleLine(Fence + tag);
    SplitSingleLine(Fence);
  }

  /** The lines of a block opened by a fence line: that line, then the body's. */
  lemma SplitOpenedBlock(tag: string, body: string)
    requires '\n' !in tag
    ensures SplitLines(Fence + tag + "\n" + body) == [Fence + tag] + SplitLines(body)
  {
    SplitAtNewline(Fence + tag, body);
    SplitSingleLine(Fence + tag);
  }

  /** A reply wrapped in an opening fence line (with an optional language
      tag) and a closing fence, possibly padded with whitespace, is
      unwrapped to exactly its body. */
  lemma FencedReplyUnwrapped(pre: string, tag: string, body: string, post: string)
    requires IsBlank(pre) && IsBlank(post) && '\n' !in tag
    ensures StripFence(pre + Fence + tag + "\n" + body + "\n" + Fence + post) == body
  {
    var x := Fence + tag + "\n" + body + "\n" + Fence;
    var content := pre + Fence + tag + "\n" + body + "\n" + Fence + post;
    assert Strip(content) == x by {
      assert content == pre + x + post;
      StripPadded(pre, x, post);
    }
    assert StartsWith(x, Fence) by { assert x[..3] == Fence; }
    assert Unfence(x) == body by {
      var lines := SplitLines(x);
      SplitFencedBlock(tag, body);
      assert IsFenceLine(lines[|lines| - 1]) by { StripUnpadded(Fence); }
      assert lines[1..|lines| - 1] == SplitLines(body);
      JoinSplitLines(body);
    }
  }

  /** A reply that opens a fence but never closes it loses only its first
      line. */
  lemma UnclosedFenceLosesFirstLine(tag: string, body: string)
    requires '\n' !in tag
    requires body != [] && !IsSpace(body[|body| - 1])
    requires !IsFenceLine(SplitLines(body)[|SplitLines(body)| - 1])
    ensures StripFence(Fence + tag + "\n" + body) == body
  {
    var x := Fence + tag + "\n" + body;
    assert Strip(x) == x by {
      assert x[0] == '`' && x[|x| - 1] == body[|body| - 1];
      StripUnpadded(x);
    }
    assert StartsWith(x, Fence) by { assert x[..3] == Fence; }
    UnfenceOpened(tag, body);
  }

  /** Without a closing fence line, Unfence keeps every line but the first. */
  lemma UnfenceUnclosed(s: string, first: string, rest: seq<string>)
    requires SplitLines(s) == [first] + rest && |rest| >= 1
    requires !IsFenceLine(rest[|rest| - 1])
    ensures Unfence(s) == JoinLines(rest)
  {
    var lines := SplitLines(s);
    assert lines[1..] == rest;
    assert lines[|lines| - 1] == rest[|rest| - 1];
    UnfenceLinesUnclosed(lines);
  }

  lemma UnfenceLinesUnclosed(lines: seq<string>)
    requires |lines| >= 1 && !IsFenceLine(lines[|lines| - 1])
    ensures UnfenceLines(lines) == JoinLines(lines[1..])
  {
  }

  /** The line-level half of the previous lemma. */
  lemma UnfenceOpened(tag: string, body: string)
    requires '\n' !in tag
    requires !IsFenceLine(SplitLines(body)[|SplitLines(body)| - 1])
    ensures Unfence(Fence + tag + "\n" + body) == body
  {
    var s := Fence + tag + "\n" + body;
    var rest := SplitLines(body);
    assert SplitLines(s) == [Fence + tag] + rest by {
      SplitOpenedBlock(tag, body);
    }
    UnfenceUnclosed(s, Fence + tag, rest);
    JoinSplitLines(body);
  }

  /** A reply made of the opening fence line alone leaves nothing to parse. */
  lemma LoneFenceLineIsEmpty(pre: string, tag: string, post: string)
    requires IsBlank(pre) && IsBlank(post) && '\n' !in tag
    requires tag == [] || !IsSpace(tag[|tag| - 1])
    ensures StripFence(pre + Fence + tag + post) == ""
  {
    var x := Fence + tag;
    var content := pre + Fence + tag + post;
    assert Strip(content) == x by {
      assert content == pre + x + post;
      StripPadded(pre, x, post);
    }
    assert StartsWith(x, Fence) by { assert x[..3] == Fence; }
    SplitSingleLine(x);
  }

  // ---------------------------------------------------------------------
  // The parsed story object
  // ---------------------------------------------------------------------

  /** One episode object of the reply; None is a missing key. */
  datatype RawEpisode = RawEpisode(text: Option<string>, imagePrompt: Option<string>)

  /** The decoded reply object; None is a missing key. */
  datatype RawStory = RawStory(
    title: Option<string>,
    episodes: Option<seq<RawEpisode>>,
    characterDescription: Option<string>,
    artStyle: Option<string>)

  /** The story object once its required fields are checked and its two
      optional description fields are defaulted. */
  datatype StoryJson = StoryJson(
    title: string,
    episodes: seq<RawEpisode>,
    characterDescription: string,
    artStyle: string)

  const MissingFieldsMessage := "Invalid story JSON: missing title or episodes"

  /** Why the story could not be produced. */
  datatype StoryError =
    | HttpFailure(reason: string)
    | JsonDecodeFailure
    | MissingFields(message: string)

  /** A missing or blank description becomes ""; any other value is kept
      as it is, unstripped. */
  function DefaultBlank(v: Option<string>): (r: string)
    ensures r == "" <==> v.None? || IsBlank(v.value)
    ensures r != "" ==> v == Some(r)
  {
    if v.None? || Strip(v.value) == "" then "" else v.value
  }

  /** Defaulting a value that is already defaulted changes nothing. */
  lemma DefaultBlankIdempotent(v: Option<string>)
    ensures DefaultBlank(Some(DefaultBlank(v))) == DefaultBlank(v)
  {
  }

  /** The required-field check and the defaulting of the decoded object. */
  function ValidateStory(raw: RawStory): (r: Result<StoryJson, StoryError>)
    ensures r.Failure? <==> raw.title.None? || raw.episodes.None?
    ensures r.Failure? ==> r.error == MissingFields(MissingFieldsMessage)
    ensures r.Success? ==>
      && Some(r.value.title) == raw.title
      && Some(r.value.episodes) == raw.episodes
      && r.value.characterDescription == DefaultBlank(raw.characterDescription)
      && r.value.artStyle == DefaultBlank(raw.artStyle)
  {
    if raw.title.None? || raw.episodes.None? then Failure(MissingFields(MissingFieldsMessage))
    else Success(StoryJson(raw.title.value, raw.episodes.value,
                           DefaultBlank(raw.characterDescription), DefaultBlank(raw.artStyle)))
  }

  // ---------------------------------------------------------------------
  // The image prompt
  // ---------------------------------------------------------------------

  const SafetySuffix := "friendly, safe for kids, no violence, no dark themes"
  const SameStyle := "same visual style and character design in every scene, "
  const Consistent := "consistent throughout the story, "
  const DefaultArtStyle := "children's book illustration, soft colors, cartoon style, "

  /** Python's `v and v.strip()`: present and not blank. */
  predicate Given(v: Option<string>) {
    v.Some? && !IsBlank(v.value)
  }

  /** The character sentence that opens the prompt. */
  function CharacterBase(characterDescription: Option<string>): string {
    if Given(characterDescription) then Strip(characterDescription.value) + ". " else ""
  }

  /** The style text: the user's style wins, then the story's art style,
      then the default illustration style. */
  function StylePart(styleSuffix: Option<string>, artStyle: Option<string>): string {
    if Given(styleSuffix) then Strip(styleSuffix.value) + ", " + SameStyle + Consistent
    else (if Given(artStyle) then Strip(artStyle.value) + ", " else DefaultArtStyle) + SameStyle
  }

  /** The prompt sent to the image endpoint for one scene. */
  function ImagePrompt(scene: string, styleSuffix: Option<string>,
                       characterDescription: Option<string>, artStyle: Option<string>): (r: string)
    ensures EndsWith(r, SafetySuffix)
    ensures StartsWith(r, CharacterBase(characterDescription) + scene + ", ")
  {
    var head := CharacterBase(characterDescription) + scene + ", ";
    var style := StylePart(styleSuffix, artStyle);
    Concat3(head, style, SafetySuffix);
    head + style + SafetySuffix
  }

  /** A given user style is used, stripped, and asks for consistency
      across the story. */
  lemma UserStyleWins(scene: string, styleSuffix: Option<string>, cd: Option<string>, artStyle: Option<string>)
    requires Given(styleSuffix)
    ensures ImagePrompt(scene, styleSuffix, cd, artStyle)
      == CharacterBase(cd) + scene + ", " + (Strip(styleSuffix.value) + ", " + SameStyle + Consistent) + SafetySuffix
  {
  }

  /** A given user style makes the story's art style irrelevant. */
  lemma UserStyleIgnoresArtStyle(scene: string, styleSuffix: Option<string>, cd: Option<string>,
                                 artStyle1: Option<string>, artStyle2: Option<string>)
    requires Given(styleSuffix)
    ensures ImagePrompt(scene, styleSuffix, cd, artStyle1) == ImagePrompt(scene, styleSuffix, cd, artStyle2)
  {
    UserStyleWins(scene, styleSuffix, cd, artStyle1);
    UserStyleWins(scene, styleSuffix, cd, artStyle2);
  }

  /** Without a user style, the story's stripped art style is used. */
  lemma ArtStyleUsed(scene: string, styleSuffix: Option<string>, cd: Option<string>, artStyle: Option<string>)
    requires !Given(styleSuffix) && Given(artStyle)
    ensures ImagePrompt(scene, styleSuffix, cd, artStyle)
      == CharacterBase(cd) + scene + ", " + (Strip(artStyle.value) + ", " + SameStyle) + SafetySuffix
  {
  }

  /** With neither style, the default illustration style is used. */
  lemma DefaultStyleUsed(scene: string, styleSuffix: Option<string>, cd: Option<string>, artStyle: Option<string>)
    requires !Given(styleSuffix) && !Given(artStyle)
    ensures ImagePrompt(scene, styleSuffix, cd, artStyle)
      == CharacterBase(cd) + scene + ", " + (DefaultArtStyle + SameStyle) + SafetySuffix
  {
  }

  /** A blank value counts as no value. */
  lemma BlankIsAbsent(scene: string, ss: string, cd: string, art: string)
    requires IsBlank(ss) && IsBlank(cd) && IsBlank(art)
    ensures ImagePrompt(scene, Some(ss), Some(cd), Some(art)) == ImagePrompt(scene, None, None, None)
  {
  }

  // ---------------------------------------------------------------------
  // Query parameters of the image request
  // ---------------------------------------------------------------------

  const DefaultImageSize := 1024

  /** A query parameter value. */
  datatype Param = IntParam(i: int) | TextParam(s: string)

  /** The query parameters of an image request, in the order they are
      sent; the key is sent only when one is configured. */
  function ImageParams(apiKey: string, width: int, height: int, model: string): (p: seq<(string, Param)>)
    ensures |p| == if apiKey != "" then 5 else 4
    ensures p[0] == ("width", IntParam(width)) && p[1] == ("height", IntParam(height))
    ensures p[2] == ("enhance", TextParam("false")) && p[3] == ("model", TextParam(model))
    ensures apiKey != "" ==> p[4] == ("key", TextParam(apiKey))
  {
    [("width", IntParam(width)), ("height", IntParam(height)),
     ("enhance", TextParam("false")), ("model", TextParam(model))]
    + (if apiKey != "" then [("key", TextParam(apiKey))] else [])
  }

  // ---------------------------------------------------------------------
  // The two requests, over oracles
  // ---------------------------------------------------------------------

  /** What the chat request is made of: the topic, the episode count, the
      language rule, and the key that goes into the URL when one is set. */
  datatype ChatRequest = ChatRequest(topic: string, numEpisodes: int, langRule: string, key: Option<string>)

  /** An image request: the prompt that forms the URL path and the query. */
  datatype ImageRequest = ImageRequest(prompt: string, params: seq<(string, Param)>)

  /** The outside world of this client. `chat` answers with the message
      content of the first choice (None when the reply has none) or an HTTP
      failure; `parseJson` is the JSON decoder restricted to objects;
      `fetchImage` answers with the image bytes or nothing. */
  datatype Upstream = Upstream(
    apiKey: string,
    chat: ChatRequest -> Result<Option<string>, string>,
    parseJson: string -> Option<RawStory>,
    fetchImage: ImageRequest -> Option<Bytes>)

  /** The chat request for a story. */
  function StoryChatRequest(apiKey: string, topic: string, numEpisodes: int, storyLang: string): (q: ChatRequest)
    ensures q.topic == topic && q.numEpisodes == numEpisodes
    ensures q.langRule == LangRule(storyLang)
    ensures q.key.Some? <==> apiKey != ""
    ensures q.key.Some? ==> q.key.value == apiKey
  {
    ChatRequest(topic, numEpisodes, LangRule(storyLang), if apiKey != "" then Some(apiKey) else None)
  }

  /** Asking for a story and checking the decoded reply. A reply without
      content is decoded as the empty object "{}". */
  function GenerateStoryJson(up: Upstream, topic: string, numEpisodes: int, storyLang: string): (r: Result<StoryJson, StoryError>)
    ensures r.Success? ==>
      var reply := up.chat(StoryChatRequest(up.apiKey, topic, numEpisodes, storyLang));
      && reply.Success?
      && up.parseJson(StripFence(reply.value.GetOr("{}"))).Some?
      && r == ValidateStory(up.parseJson(StripFence(reply.value.GetOr("{}"))).value)
    ensures var reply := up.chat(StoryChatRequest(up.apiKey, topic, numEpisodes, storyLang));
      reply.Failure? ==> r == Failure(HttpFailure(reply.error))
    ensures var reply := up.chat(StoryChatRequest(up.apiKey, topic, numEpisodes, storyLang));
      reply.Success? ==>
        var parsed := up.parseJson(StripFence(reply.value.GetOr("{}")));
        && (parsed.None? ==> r == Failure(JsonDecodeFailure))
        && (parsed.Some? ==> r == ValidateStory(parsed.value))
  {
    var reply := up.chat(StoryChatRequest(up.apiKey, topic, numEpisodes, storyLang));
    if reply.Failure? then Failure(HttpFailure(reply.error))
    else
      var parsed := up.parseJson(StripFence(reply.value.GetOr("{}")));
      if parsed.None? then Failure(JsonDecodeFailure)
      else ValidateStory(parsed.value)
  }

  /** A reply with no message content fails the required-field check,
      given a decoder that reads "{}" as the empty object. */
  lemma MissingContentFails(up: Upstream, topic: string, numEpisodes: int, storyLang: string)
    requires up.chat(StoryChatRequest(up.apiKey, topic, numEpisodes, storyLang)) == Success(None)
    requires up.parseJson("{}") == Some(RawStory(None, None, None, None))
    ensures GenerateStoryJson(up, topic, numEpisodes, storyLang) == Failure(MissingFields(MissingFieldsMessage))
  {
    EmptyObjectUnfenced();
    var reply := up.chat(StoryChatRequest(up.apiKey, topic, numEpisodes, storyLang));
    assert up.parseJson(StripFence(reply.value.GetOr("{}"))) == Some(RawStory(None, None, None, None));
  }

  /** The empty object is handed to the decoder as it is. */
  lemma EmptyObjectUnfenced()
    ensures StripFence("{}") == "{}"
  {
    assert !StartsWith(Strip("{}"), Fence) by {
      StripUnpadded("{}");
    }
  }

  /** One image request: the prompt and the parameters built above. */
  function GenerateImage(up: Upstream, scene: string, width: int, height: int, styleSuffix: Option<string>,
                         model: string, cd: Option<string>, artStyle: Option<string>): Option<Bytes>
  {
    up.fetchImage(ImageRequest(ImagePrompt(scene, styleSuffix, cd, artStyle),
                               ImageParams(up.apiKey, width, height, model)))
  }
}
