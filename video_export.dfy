/** Planning the video of a story (backend/app/services/video_export.py):
    which episodes become clips, in which order, with which picture and for
    how long, and when the export fails. Speech synthesis, audio length,
    base64 and JPEG decoding and the video encoder are oracles carried by a
    `Media` value; durations are whole milliseconds. */
module VideoExport {
  import opened Common
  import Base64
  import StoryService

  /** One episode as the exporter reads it; None is a missing (or null)
      field. */
  datatype EpisodeFields = EpisodeFields(text: Option<string>, imageUrl: Option<string>)

  /** The story handed to the exporter; None is a missing episode list. */
  datatype StoryInput = StoryInput(episodes: Option<seq<EpisodeFields>>)

  /** _ep_text: the text, "" when missing. */
  function EpText(ep: EpisodeFields): (r: string)
    ensures ep.text.None? ==> r == ""
    ensures ep.text.Some? ==> r == ep.text.value
  {
    ep.text.GetOr("")
  }

  /** _ep_image_url: the image URL, "" when missing. */
  function EpImageUrl(ep: EpisodeFields): (r: string)
    ensures ep.imageUrl.None? ==> r == ""
    ensures ep.imageUrl.Some? ==> r == ep.imageUrl.value
  {
    ep.imageUrl.GetOr("")
  }

  /** The outside world of the exporter. `speak` is the speech engine,
      `duration` the length of an audio file, `b64decode` the base64
      decoder, `isImage` whether bytes open as a picture, `encode` the
      video encoder (None when writing the file fails). */
  datatype Media = Media(
    speak: string -> Bytes,
    duration: Bytes -> nat,
    b64decode: string -> Option<Bytes>,
    isImage: Bytes -> bool,
    encode: seq<Clip> -> Option<Bytes>)

  /** What a clip shows: a picture, or a plain colour of the given size. */
  datatype Frame = Still(image: Bytes) | Blank(width: nat, height: nat, red: nat, green: nat, blue: nat)

  /** The white 1024x1024 frame used when there is no usable picture. */
  const Placeholder := Blank(1024, 1024, 255, 255, 255)

  /** A clip: a frame shown for `duration` milliseconds over `audio`. */
  datatype Clip = Clip(frame: Frame, duration: nat, audio: Bytes)

  // ---------------------------------------------------------------------
  // _data_url_to_image_path
  // ---------------------------------------------------------------------

  const DataImagePrefix := "data:image"

  /** Why a data URL could not be read. */
  datatype UrlError = NotADataUrl | NoComma | BadBase64

  /** The payload of a data URL: everything after its first comma. A URL
      not starting with "data:image" is refused; one without a comma has
      no payload. */
  function DataUrlPayload(url: string): (r: Result<string, UrlError>)
    ensures !StartsWith(url, DataImagePrefix) ==> r == Failure(NotADataUrl)
    ensures StartsWith(url, DataImagePrefix) && ',' !in url ==> r == Failure(NoComma)
    ensures StartsWith(url, DataImagePrefix) && ',' in url ==> r.Success?
    ensures r.Success? ==> exists i :: 0 <= i < |url| && url[i] == ',' && ',' !in url[..i] && r.value == url[i + 1..]
  {
    if !StartsWith(url, DataImagePrefix) then Failure(NotADataUrl)
    else match IndexOf(url, ',')
      case None => Failure(NoComma)
      case Some(i) => Success(url[i + 1..])
  }

  /** The image bytes of a data URL. */
  function DataUrlImage(media: Media, url: string): (r: Result<Bytes, UrlError>)
    ensures DataUrlPayload(url).Failure? ==> r == Failure(DataUrlPayload(url).error)
    ensures DataUrlPayload(url).Success? ==>
      r == match media.b64decode(DataUrlPayload(url).value)
           case None => Failure(BadBase64)
           case Some(b) => Success(b)
  {
    match DataUrlPayload(url)
    case Failure(e) => Failure(e)
    case Success(p) =>
      match media.b64decode(p)
      case None => Failure(BadBase64)
      case Some(b) => Success(b)
  }

  /** The payload of an image URL the story service made is its base64
      text. */
  lemma PayloadOfStoredUrl(image: Bytes)
    ensures DataUrlPayload(StoryService.DataUri(image)) == Success(Base64.Encode(image))
  {
    var url := StoryService.DataUri(image);
    var p := StoryService.DataUriPrefix;
    assert url == p + Base64.Encode(image);
    assert StartsWith(url, DataImagePrefix) by {
      assert url[..10] == p[..10];
    }
    assert url[22] == ',';
    assert ',' !in url[..22] by {
      assert url[..22] == p[..22];
    }
    IndexOfAt(url, ',', 22);
    assert url[23..] == Base64.Encode(image);
  }

  // ---------------------------------------------------------------------
  // Clip planning
  // ---------------------------------------------------------------------

  /** The picture of an episode: the decoded image when there is one that
      opens, the placeholder otherwise. */
  function FrameFor(media: Media, imageUrl: string): (f: Frame)
    ensures imageUrl == "" ==> f == Placeholder
    ensures imageUrl != "" && DataUrlImage(media, imageUrl).Failure? ==> f == Placeholder
    ensures f.Still? ==> imageUrl != "" && DataUrlImage(media, imageUrl) == Success(f.image) && media.isImage(f.image)
    ensures f.Blank? ==> f == Placeholder
    ensures imageUrl != "" && DataUrlImage(media, imageUrl).Success? && media.isImage(DataUrlImage(media, imageUrl).value) ==>
      f == Still(DataUrlImage(media, imageUrl).value)
    ensures imageUrl != "" && DataUrlImage(media, imageUrl).Success? && !media.isImage(DataUrlImage(media, imageUrl).value) ==>
      f == Placeholder
  {
    if imageUrl == "" then Placeholder
    else match DataUrlImage(media, imageUrl)
      case Failure(_) => Placeholder
      case Success(b) => if media.isImage(b) then Still(b) else Placeholder
  }

  /** The clip of an episode: its spoken text, as long as that audio. */
  function ClipFor(media: Media, ep: EpisodeFields): Clip {
    var audio := media.speak(EpText(ep));
    Clip(FrameFor(media, EpImageUrl(ep)), media.duration(audio), audio)
  }

  /** The clips of a story, one per episode with text, in episode order. */
  function Clips(media: Media, eps: seq<EpisodeFields>): seq<Clip> {
    if eps == [] then []
    else
      var n := |eps| - 1;
      Clips(media, eps[..n]) + (if EpText(eps[n]) == "" then [] else [ClipFor(media, eps[n])])
  }

  /** The positions of the episodes with text, in increasing order. */
  function Spoken(eps: seq<EpisodeFields>): (r: seq<nat>)
    ensures forall k :: 0 <= k < |r| ==> r[k] < |eps| && EpText(eps[r[k]]) != ""
    ensures forall k, l :: 0 <= k < l < |r| ==> r[k] < r[l]
    ensures forall j :: 0 <= j < |eps| && EpText(eps[j]) != "" ==> j in r
  {
    if eps == [] then []
    else
      var n := |eps| - 1;
      var r := Spoken(eps[..n]);
      assert forall k :: 0 <= k < |r| ==> eps[..n][r[k]] == eps[r[k]];
      assert forall j :: 0 <= j < n ==> eps[..n][j] == eps[j];
      r + (if EpText(eps[n]) == "" then [] else [n])
  }

  /** The clips are exactly the clips of the episodes with text, in the
      order of those episodes. */
  lemma {:induction false} ClipsFollowEpisodes(media: Media, eps: seq<EpisodeFields>)
    ensures |Clips(media, eps)| == |Spoken(eps)|
    ensures forall k :: 0 <= k < |Spoken(eps)| ==> Clips(media, eps)[k] == ClipFor(media, eps[Spoken(eps)[k]])
  {
    if eps != [] {
      var n := |eps| - 1;
      ClipsFollowEpisodes(media, eps[..n]);
      var r := Spoken(eps[..n]);
      var c := Clips(media, eps[..n]);
      forall k | 0 <= k < |r| ensures Clips(media, eps)[k] == ClipFor(media, eps[Spoken(eps)[k]]) {
        assert Clips(media, eps)[k] == c[k];
        assert Spoken(eps)[k] == r[k];
        assert eps[..n][r[k]] == eps[r[k]];
      }
    }
  }

  /** The number of episodes with text. */
  function SpokenCount(eps: seq<EpisodeFields>): nat {
    if eps == [] then 0 else SpokenCount(eps[1..]) + (if EpText(eps[0]) == "" then 0 else 1)
  }

  /** Counting from the back and from the front agree. */
  lemma {:induction false} SpokenCountLast(eps: seq<EpisodeFields>)
    requires eps != []
    ensures SpokenCount(eps) == SpokenCount(eps[..|eps| - 1]) + (if EpText(eps[|eps| - 1]) == "" then 0 else 1)
  {
    if |eps| > 1 {
      SpokenCountLast(eps[1..]);
      assert eps[1..][..|eps| - 2] == eps[..|eps| - 1][1..];
    }
  }

  /** There are as many clips as episodes with text. */
  lemma {:induction false} ClipCount(media: Media, eps: seq<EpisodeFields>)
    ensures |Clips(media, eps)| == SpokenCount(eps)
  {
    if eps != [] {
      ClipCount(media, eps[..|eps| - 1]);
      SpokenCountLast(eps);
    }
  }

  /** The length of the video: the sum of its clips' lengths. */
  function TotalDuration(clips: seq<Clip>): nat {
    if clips == [] then 0 else clips[0].duration + TotalDuration(clips[1..])
  }

  /** The time taken to speak the episodes with text. */
  function SpeechTime(media: Media, eps: seq<EpisodeFields>): nat {
    if eps == [] then 0
    else (if EpText(eps[0]) == "" then 0 else media.duration(media.speak(EpText(eps[0])))) + SpeechTime(media, eps[1..])
  }

  lemma {:induction false} TotalDurationAppend(a: seq<Clip>, b: seq<Clip>)
    ensures TotalDuration(a + b) == TotalDuration(a) + TotalDuration(b)
  {
    if a != [] {
      assert (a + b)[1..] == a[1..] + b;
      TotalDurationAppend(a[1..], b);
    } else {
      assert a + b == b;
    }
  }

  lemma {:induction false} SpeechTimeLast(media: Media, eps: seq<EpisodeFields>)
    requires eps != []
    ensures var n := |eps| - 1;
      SpeechTime(media, eps) == SpeechTime(media, eps[..n])
        + (if EpText(eps[n]) == "" then 0 else media.duration(media.speak(EpText(eps[n]))))
  {
    if |eps| > 1 {
      SpeechTimeLast(media, eps[1..]);
      assert eps[1..][..|eps| - 2] == eps[..|eps| - 1][1..];
    }
  }

  /** The video lasts exactly as long as the speech of its episodes. */
  lemma {:induction false} VideoLastsAsLongAsSpeech(media: Media, eps: seq<EpisodeFields>)
    ensures TotalDuration(Clips(media, eps)) == SpeechTime(media, eps)
  {
    if eps != [] {
      var n := |eps| - 1;
      VideoLastsAsLongAsSpeech(media, eps[..n]);
      SpeechTimeLast(media, eps);
      var last := if EpText(eps[n]) == "" then [] else [ClipFor(media, eps[n])];
      TotalDurationAppend(Clips(media, eps[..n]), last);
      if last != [] {
        assert TotalDuration(last) == last[0].duration + TotalDuration([]);
      }
    }
  }

  /** An image the story service stored is shown in its clip, given a
      decoder that reads canonical base64 and bytes that open as a picture. */
  lemma StoredImageShown(media: Media, image: Bytes)
    requires media.b64decode(Base64.Encode(image)) == Some(image)
    requires media.isImage(image)
    ensures FrameFor(media, StoryService.DataUri(image)) == Still(image)
  {
    PayloadOfStoredUrl(image);
  }

  // ---------------------------------------------------------------------
  // export_story_to_mp4
  // ---------------------------------------------------------------------

  /** Why an export failed: the two ValueErrors of the exporter, and a
      failure to write the video (the exception the encoder raises; its
      message here is this model's own label). */
  datatype ExportError = NoEpisodes | NoValidClips | EncodeFailed {
    /** The message of the error raised. */
    function Message(): string {
      match this
      case NoEpisodes => "No episodes"
      case NoValidClips => "No valid clips"
      case EncodeFailed => "video could not be written"
    }
  }

  /** export_story_to_mp4: one clip per episode with text, then the video
      of the clips in order. */
  method ExportStoryToMp4(media: Media, story: StoryInput) returns (r: Result<Bytes, ExportError>)
    ensures story.episodes.GetOr([]) == [] <==> r == Failure(NoEpisodes)
    ensures story.episodes.GetOr([]) != [] && SpokenCount(story.episodes.GetOr([])) == 0 <==>
      r == Failure(NoValidClips)
    ensures r.Success? ==> media.encode(Clips(media, story.episodes.GetOr([]))) == Some(r.value)
    ensures r == Failure(EncodeFailed) ==>
      SpokenCount(story.episodes.GetOr([])) > 0 && media.encode(Clips(media, story.episodes.GetOr([]))).None?
  {
    var episodes := story.episodes.GetOr([]);
    if |episodes| == 0 {
      return Failure(NoEpisodes);
    }
    var clips: seq<Clip> := [];
    var i := 0;
    while i < |episodes|
      invariant 0 <= i <= |episodes|
      invariant clips == Clips(media, episodes[..i])
    {
      var ep := episodes[i];
      var text := EpText(ep);
      var imageUrl := EpImageUrl(ep);
      assert episodes[..i + 1][..i] == episodes[..i];
      if text == "" {
        i := i + 1;
        continue;
      }
      var audio := media.speak(text);
      var duration := media.duration(audio);
      var frame: Frame;
      if imageUrl != "" {
        match DataUrlImage(media, imageUrl) {
          case Success(bytes) =>
            if media.isImage(bytes) {
              frame := Still(bytes);
            } else {
              frame := Placeholder;
            }
          case Failure(_) =>
            frame := Placeholder;
        }
      } else {
        frame := Placeholder;
      }
      clips := clips + [Clip(frame, duration, audio)];
      i := i + 1;
    }
    assert episodes[..|episodes|] == episodes;
    ClipCount(media, episodes);
    if |clips| == 0 {
      return Failure(NoValidClips);
    }
    var video := media.encode(clips);
    if video.None? {
      return Failure(EncodeFailed);
    }
    return Success(video.value);
  }
}
