# StoryTale in Dafny

StoryTale generates children's picture stories. A FastAPI backend asks a
text-generation service for a story in JSON (a title, a character
description, an art style and a list of episodes). It asks an image service
for one picture per episode and stores the story in SQLite. It serves the
stored stories, reads an episode aloud, and exports a story as an MP4 in
which each spoken episode is shown over its picture. A Kivy mobile client
fills in a generation form and pages through a stored story.

This project models the logic under that glue, module by module:

- `Common`: Option/Result, bytes, and the Python built-ins the code relies
  on. These are `str.strip` over the full `str.isspace` set,
  `str.startswith`, the search for the first comma behind
  `split(",", 1)`, `split("\n")` and `"\n".join`, list slicing
  with negative bounds, code-point ordering of TEXT columns, and a stable
  insertion sort standing for ORDER BY.
- `Base64`: the base64 alphabet of RFC 4648 section 4 with padding, a strict
  decoder, and both round trips.
- `Schemas`: the request and response records, and the validation of a
  generation request with its defaults.
- `Pollinations`: the language rule and the fence stripping of the model's
  reply. Also the required fields and defaults of the parsed story, the image
  prompt and the image query parameters. The HTTP endpoints and the JSON
  decoder are oracles in an `Upstream` value.
- `Repository`: the two tables as in-memory row sequences inside a
  `StoryRepository` class.
  - `SaveStory` inserts rows in a loop. It keeps an invariant: ids are
    unique, every episode has an owner, and each story's ordinals are
    0..n-1.
  - `get_story` and `list_stories` are functions over the tables: a filter,
    an ORDER BY, LIMIT/OFFSET and the preview subquery.
- `StoryService`: `generate`.
  - The episode loop is a method whose two output lists are proved against
    the per-episode result.
  - Images come from an oracle that returns bytes or nothing; a failure
    becomes `""` and a success becomes a `data:image/jpeg;base64,` URL
    (RFC 2397 section 3).
  - The fresh id and the clock reading are parameters.
- `VideoExport`: the clip-planning loop of `export_story_to_mp4`, proved
  against a specification function `Clips`. Speech, the audio length, the
  base64 and JPEG decoders and the encoder are oracles in a `Media` value;
  durations are whole milliseconds.
- `Api`: the routes of `main.py` as the decisions between a result and a
  404, 400, 422 or 500 status. It also covers the path guard of the
  single-page-app route (the route that serves the web client's static
  files), with lexical path resolution.
- `Mobile`: the form normalisation of `on_generate`, including Python's
  `int()` and `str()`. Also the `StoryViewScreen` pager as a class, and the
  list-height formula.

## Model

| member | source | states |
|---|---|---|
| Common.TrimStart | backend/app/services/pollinations.py:89 | lstrip drops only whitespace, and what remains does not start with whitespace |
| Common.TrimEnd | backend/app/services/pollinations.py:89 | rstrip drops only whitespace, and what remains does not end with whitespace |
| Common.Strip | backend/app/services/pollinations.py:89 | the result neither starts nor ends with whitespace; it is empty exactly when the input is blank |
| Common.StripUnpadded | backend/app/services/pollinations.py:89 | a text without surrounding whitespace is its own strip |
| Common.StripIdempotent | backend/app/services/pollinations.py:89 | stripping twice equals stripping once |
| Common.TrimStartBlank | backend/app/services/pollinations.py:89 | lstrip removes exactly a blank prefix |
| Common.TrimEndBlank | backend/app/services/pollinations.py:89 | rstrip removes exactly a blank suffix |
| Common.StripPadded | backend/app/services/pollinations.py:89 | strip of blank + text + blank is the text |
| Common.IndexOf | backend/app/services/video_export.py:29 | the first occurrence of a character, or none exactly when it is absent |
| Common.IndexOfAt | backend/app/services/video_export.py:29 | an occurrence with none before it is the one found |
| Common.SplitLines | backend/app/services/pollinations.py:90 | split("\n") never returns an empty list |
| Common.JoinSplitLines | backend/app/services/pollinations.py:90-91 | joining the lines of a split with "\n" gives back the text |
| Common.JoinLinesLast | backend/app/services/pollinations.py:91 | a join is the join of all but the last line, a newline, and the last line |
| Common.SplitSingleLine | backend/app/services/pollinations.py:90 | a text without newlines splits into itself alone |
| Common.SplitAtNewline | backend/app/services/pollinations.py:90 | splitting a + "\n" + b gives the lines of a followed by the lines of b |
| Common.SliceEnd | backend/app/services/story_service.py:27 | the end index of xs[:n], with negative n counting from the end |
| Common.Take | backend/app/services/story_service.py:27 | xs[:n] is a prefix of length min(n, len) for n >= 0 |
| Common.LexLeTotal | backend/app/db/repository.py:81 | any two created_at texts compare |
| Common.LexLeTransitive | backend/app/db/repository.py:81 | the text order chains |
| Common.LexLeAntisymmetric | backend/app/db/repository.py:81 | texts ordered both ways are equal |
| Common.InsertBy | backend/app/db/repository.py:56 | insertion adds exactly one element |
| Common.SortBy | backend/app/db/repository.py:56 | ORDER BY returns a permutation of the rows |
| Common.InsertBySorted | backend/app/db/repository.py:56 | inserting into a sorted list keeps it sorted |
| Common.SortBySorted | backend/app/db/repository.py:56 | ORDER BY under a total preorder returns sorted rows |
| Common.SortByIdentity | backend/app/db/repository.py:56 | rows already in order come back unchanged |
| Base64.CharOf | backend/app/services/story_service.py:51 | each sextet maps to a character of the base64 alphabet |
| Base64.ValueOfCharOf | backend/app/services/story_service.py:51 | the alphabet decodes back to the sextet |
| Base64.CharOfValueOf | backend/app/services/story_service.py:51 | every alphabet character is the encoding of its value |
| Base64.Encode | backend/app/services/story_service.py:51 | the output has 4 characters per started 3-byte group, all from the alphabet or "=" |
| Base64.DecodeGroup | backend/app/services/story_service.py:51 | a full quantum decodes to 3 bytes |
| Base64.DecodeLast | backend/app/services/story_service.py:51 | a final quantum decodes to 1 to 3 bytes |
| Base64.BytesThroughSextets | backend/app/services/story_service.py:51 | splitting 3 bytes into sextets and joining them back is the identity |
| Base64.SextetsThroughBytes | backend/app/services/story_service.py:51 | joining 4 sextets into bytes and splitting them back is the identity |
| Base64.DecodeGroupOfEncodeGroup | backend/app/services/story_service.py:51 | the quantum of 3 bytes decodes to those bytes |
| Base64.DecodeFirstGroup | backend/app/services/story_service.py:51 | the first quantum of an encoding decodes to the first 3 bytes |
| Base64.EncodeGroupOfDecodeGroup | backend/app/services/story_service.py:51 | a quantum of 4 alphabet characters is the encoding of its decoding |
| Base64.DecodeCons | backend/app/services/story_service.py:51 | decoding a full quantum followed by more is the group's bytes followed by the rest's |
| Base64.PaddingBitsZero | backend/app/services/story_service.py:51 | the pad bits of a short final group are zero |
| Base64.DecodeOneByte | backend/app/services/story_service.py:51 | a final "xx==" quantum decodes to its one byte |
| Base64.DecodeTwoBytes | backend/app/services/story_service.py:51 | a final "xxx=" quantum decodes to its two bytes |
| Base64.EncodeOneDisplay | backend/app/services/story_service.py:51 | one byte encodes to two characters and "==" |
| Base64.EncodeTwoDisplay | backend/app/services/story_service.py:51 | two bytes encode to three characters and "=" |
| Base64.EncodeGroupAlphabet | backend/app/services/story_service.py:51 | a full quantum uses only alphabet characters |
| Base64.DecodeEncodeLong | backend/app/services/story_service.py:51 | the induction step of decode(encode(s)) == s |
| Base64.DecodeEncode | backend/app/services/story_service.py:51 | decode(encode(s)) == s for all bytes s |
| Base64.OneByteSextets | backend/app/services/story_service.py:51 | a one-byte quantum with zero pad bits re-encodes to its sextets |
| Base64.TwoByteSextets | backend/app/services/story_service.py:51 | a two-byte quantum with zero pad bits re-encodes to its sextets |
| Base64.EncodeDecodeFull | backend/app/services/story_service.py:51 | a full quantum is the encoding of what it decodes to |
| Base64.EncodeDecodeOne | backend/app/services/story_service.py:51 | a canonical "xx==" quantum is the encoding of its byte |
| Base64.EncodeDecodeTwo | backend/app/services/story_service.py:51 | a canonical "xxx=" quantum is the encoding of its two bytes |
| Base64.EncodeDecodeLast | backend/app/services/story_service.py:51 | an accepted final quantum is the encoding of its bytes |
| Base64.EncodeDecode | backend/app/services/story_service.py:51 | every text the strict decoder accepts is the encoding of what it decodes to |
| Schemas.ValidateRequest | backend/app/models/schemas.py:10-15 | a body is accepted exactly when the topic has 1..500 characters, the count (default 5) is 1..10, the language (default "en") is en/th, the model (default "flux") is flux/zimage, and the style is absent or at most 100 characters; the accepted request carries those defaults |
| Schemas.DefaultsApply | backend/app/models/schemas.py:12-14 | a body with only a topic gets 5 episodes, "en", "flux" and no style |
| Pollinations.LangRule | backend/app/services/pollinations.py:34-38 | the Thai rule exactly for "th", the English rule for every other value |
| Pollinations.StripFence | backend/app/services/pollinations.py:89 | a reply whose stripped form does not start with ``` is passed on unchanged |
| Pollinations.DropFenceLinesJoin | backend/app/services/pollinations.py:91 | lines[1:-1] or lines[1:] joined is the joined text without its first line, and without its last line when that is dropped |
| Pollinations.StripFenceDropsFenceLines | backend/app/services/pollinations.py:89-91 | a fenced reply loses its first line always and its last line exactly when that line strips to ``` |
| Pollinations.SplitFencedBlock | backend/app/services/pollinations.py:90 | a fenced block splits into the opening line, the body's lines and the closing fence |
| Pollinations.SplitOpenedBlock | backend/app/services/pollinations.py:90 | an opened block splits into the opening line and the body's lines |
| Pollinations.FencedReplyUnwrapped | backend/app/services/pollinations.py:89-91 | a whitespace-padded fenced block with an optional language tag is unwrapped to exactly its body |
| Pollinations.UnclosedFenceLosesFirstLine | backend/app/services/pollinations.py:91 | a block that opens a fence and never closes it loses only its first line |
| Pollinations.UnfenceUnclosed | backend/app/services/pollinations.py:91 | without a closing fence line every line but the first is kept |
| Pollinations.UnfenceLinesUnclosed | backend/app/services/pollinations.py:91 | lines[1:] is taken when the last line is not a fence |
| Pollinations.UnfenceOpened | backend/app/services/pollinations.py:90-91 | dropping the opening line of an unclosed block gives back the body |
| Pollinations.LoneFenceLineIsEmpty | backend/app/services/pollinations.py:89-91 | a reply that is a single fence line leaves the empty text to parse |
| Pollinations.DefaultBlank | backend/app/services/pollinations.py:95-98 | a missing or blank description becomes "", and any other value is kept unstripped |
| Pollinations.DefaultBlankIdempotent | backend/app/services/pollinations.py:95-98 | defaulting twice equals defaulting once |
| Pollinations.ValidateStory | backend/app/services/pollinations.py:93-98 | the object fails exactly when title or episodes is missing, with the source's message; otherwise both are kept and the two descriptions are defaulted |
| Pollinations.ImagePrompt | backend/app/services/pollinations.py:116-126 | the prompt starts with the character sentence and the scene, and ends with the child-safety suffix |
| Pollinations.UserStyleWins | backend/app/services/pollinations.py:118-122 | a non-blank user style is used stripped, followed by the consistency phrases |
| Pollinations.UserStyleIgnoresArtStyle | backend/app/services/pollinations.py:118-125 | with a user style, the story's art style does not change the prompt |
| Pollinations.ArtStyleUsed | backend/app/services/pollinations.py:124-125 | without a user style, the stripped art style is used |
| Pollinations.DefaultStyleUsed | backend/app/services/pollinations.py:124-125 | with neither style, the default illustration style is used |
| Pollinations.BlankIsAbsent | backend/app/services/pollinations.py:116-124 | blank style, description and art style give the same prompt as absent ones |
| Pollinations.ImageParams | backend/app/services/pollinations.py:25-29 | width, height, enhance="false" and model are always sent; key only when one is set |
| Pollinations.StoryChatRequest | backend/app/services/pollinations.py:34-77 | the request carries the topic, the episode count, the language rule, and the key exactly when one is set |
| Pollinations.GenerateStoryJson | backend/app/services/pollinations.py:84-98 | an HTTP failure is passed on; an answered reply whose unfenced content (default "{}") does not decode fails as a decode error, and one that decodes gives exactly the checked and defaulted object; a success means all of that happened |
| Pollinations.MissingContentFails | backend/app/services/pollinations.py:87-94 | a reply without content fails with the missing-fields error |
| Pollinations.EmptyObjectUnfenced | backend/app/services/pollinations.py:87-92 | the default "{}" reaches the decoder unchanged |
| StoryService.NormalizeLang | backend/app/services/story_service.py:24 | a supported language is kept, anything else becomes "en" |
| StoryService.NormalizeModel | backend/app/services/story_service.py:28 | a supported model is kept, anything else becomes "flux" |
| StoryService.DataUri | backend/app/services/story_service.py:51-52 | the image URL starts with data:image/jpeg;base64, |
| StoryService.DataUriLength | backend/app/services/story_service.py:51-52 | the URL is the prefix plus 4 characters per started 3-byte group |
| StoryService.DataUriDecodes | backend/app/services/story_service.py:51-52 | the payload after the prefix decodes back to the image bytes |
| StoryService.ImageUrlOf | backend/app/services/story_service.py:42-55 | the URL is "" exactly when the image failed, otherwise the data URL of the bytes |
| StoryService.ImageUrlShape | backend/app/services/story_service.py:42-55 | each URL is either "" for a failure or a data URL whose payload decodes to the image |
| StoryService.NoneIfEmpty | backend/app/services/story_service.py:47-48 | `s or None`: None exactly for "" |
| StoryService.BuildEpisodes | backend/app/services/story_service.py:36-57 | one response entry and one row per episode, in order: text defaulted to "", image URL of that episode's own image, scene prompt defaulted; the two lists agree on text and URL at every index |
| StoryService.Generate | backend/app/services/story_service.py:24-68 | success exactly when the story is produced and the fresh id is not stored; a story failure is passed on, and a save failure happens exactly for a stored id, both with nothing changed; a success answers the fresh id, the title and one entry per episode among the first num_episodes, appends exactly the story row and its episode rows, and get_story then returns that story with num_episodes equal to the entries returned |
| StoryService.GenerateFrom | backend/app/services/story_service.py:26-68 | after the story is checked: a save failure exactly when the id is already stored, with nothing changed; otherwise the answer as above and exactly the new story row and episode rows appended |
| Repository.FindStory | backend/app/db/repository.py:47-54 | the row with the id, or None exactly when no row has it |
| Repository.FindUnique | backend/app/db/database.py:20 | with unique ids, looking up a stored id finds its own row |
| Repository.EpisodesOf | backend/app/db/repository.py:55-57 | exactly the rows of the story, taken from the table |
| Repository.EpisodesOfAppend | backend/app/db/repository.py:55-57 | filtering distributes over the rows appended |
| Repository.EpisodesOfAll | backend/app/db/repository.py:55-57 | rows all of one story are their own filter |
| Repository.EpisodesOfNone | backend/app/db/repository.py:55-57 | rows of other stories filter to nothing |
| Repository.EpisodeRows | backend/app/db/repository.py:34-38 | the i-th row has ordinal i, its episode's text and URL, and the prompt with None stored as "" |
| Repository.EpisodeRowsSnoc | backend/app/db/repository.py:34-38 | the rows of one more episode are the rows so far plus its row |
| Repository.SaveKeepsValid | backend/app/db/repository.py:30-38 | saving under a new id keeps ids unique, owners stored and ordinals consecutive |
| Repository.SaveKeepsOwners | backend/app/db/repository.py:30-38 | every row, old or new, belongs to a stored story |
| Repository.SaveKeepsOrdinals | backend/app/db/repository.py:34-38 | each story's ordinals stay 0..n-1 after a save |
| Repository.OrdinalLeTotalPreorder | backend/app/db/repository.py:56 | ordering by ordinal is a total preorder |
| Repository.OrderedEpisodes | backend/app/db/repository.py:55-59 | the story's rows, sorted by ordinal and a permutation of the filtered rows |
| Repository.QueryStory | backend/app/db/repository.py:43-72 | None exactly for an unknown id; otherwise the stored row and text/URL of its rows in ordinal order |
| Repository.SavedEpisodes | backend/app/db/repository.py:34-59 | after a save, the ordered rows of the new id are exactly the rows inserted |
| Repository.SaveThenGet | backend/app/db/repository.py:30-72 | get after save returns the same topic, title, count, time and per-episode text and URL in order |
| Repository.OutsOfRows | backend/app/db/repository.py:61-64 | the rows saved give back the text and URL handed to save |
| Repository.StoredOrder | backend/app/db/repository.py:55-64 | in a valid store the k-th episode returned is the row with ordinal k |
| Repository.SortedHeadSmallest | backend/app/db/repository.py:80 | the head of the sorted rows has the lowest ordinal |
| Repository.FirstImage | backend/app/db/repository.py:80-93 | the preview is the URL of a lowest-ordinal episode, None when there is no episode or that URL is "" |
| Repository.NewerFirstTotalPreorder | backend/app/db/repository.py:81 | created_at DESC is a total preorder |
| Repository.PageStart | backend/app/db/repository.py:81 | OFFSET starts within the rows |
| Repository.Page | backend/app/db/repository.py:81 | LIMIT/OFFSET is the slice from the offset, of length limit or the rest (all of it for a negative limit) |
| Repository.ByNewest | backend/app/db/repository.py:81 | the stories newest first, a permutation of the table |
| Repository.PageSlice | backend/app/db/repository.py:81 | a page of sorted rows is sorted and made of those rows |
| Repository.NewestPage | backend/app/db/repository.py:79-82 | the page's rows are stored rows in created_at descending order |
| Repository.QueryList | backend/app/db/repository.py:74-96 | at most limit items, newest first, each a stored story whose preview is its first-episode image |
| Repository.ListAll | backend/app/db/repository.py:74-96 | without limit or offset every stored story is listed |
| Repository.PageOfList | backend/app/db/repository.py:81-82 | a page is the slice of the full list from the offset, at most limit long |
| Repository.PageOfPage | backend/app/db/repository.py:81 | with non-negative bounds a page is xs[offset:][:limit] |
| Repository.ItemsSlice | backend/app/db/repository.py:86-96 | building the items commutes with slicing the rows |
| Repository.StoryRepository.constructor | backend/app/db/repository.py:16-17 | a new store is empty and valid |
| Repository.StoryRepository.SaveStory | backend/app/db/repository.py:19-41 | a new id appends the story row and one row per episode with ordinals 0..n-1, and get then returns it; a stored id changes nothing |
| VideoExport.EpText | backend/app/services/video_export.py:10-12 | the text, "" when missing |
| VideoExport.EpImageUrl | backend/app/services/video_export.py:15-17 | the image URL, "" when missing |
| VideoExport.DataUrlPayload | backend/app/services/video_export.py:27-29 | a URL not starting with data:image is refused, one without a comma has no payload, and one with a comma always yields everything after its first comma |
| VideoExport.DataUrlImage | backend/app/services/video_export.py:27-30 | the image is the decoded payload, and each failure is reported |
| VideoExport.PayloadOfStoredUrl | backend/app/services/video_export.py:27-29 | the payload of a URL the story service made is the base64 of its image |
| VideoExport.FrameFor | backend/app/services/video_export.py:59-66 | an empty or unreadable URL, or bytes that do not open as an image, give the white 1024x1024 placeholder; a URL that decodes to an image that opens gives that picture |
| VideoExport.Spoken | backend/app/services/video_export.py:49-53 | the positions of exactly the episodes with text, increasing |
| VideoExport.ClipsFollowEpisodes | backend/app/services/video_export.py:49-67 | the k-th clip is the clip of the k-th episode with text |
| VideoExport.SpokenCountLast | backend/app/services/video_export.py:52-53 | counting the episodes with text from either end agrees |
| VideoExport.ClipCount | backend/app/services/video_export.py:52-67 | there are as many clips as episodes with text |
| VideoExport.TotalDurationAppend | backend/app/services/video_export.py:72 | the length of concatenated clips adds up |
| VideoExport.SpeechTimeLast | backend/app/services/video_export.py:54-58 | the speech time of the last episode adds to that of the others |
| VideoExport.VideoLastsAsLongAsSpeech | backend/app/services/video_export.py:54-72 | the video lasts exactly as long as the speech of its episodes |
| VideoExport.StoredImageShown | backend/app/services/video_export.py:59-62 | a stored image that decodes and opens is the picture of its clip |
| VideoExport.ExportStoryToMp4 | backend/app/services/video_export.py:36-84 | "No episodes" exactly for an empty list, "No valid clips" exactly when no episode has text; otherwise the encoder's video of the clips in episode order |
| Api.GenerateStory | backend/app/main.py:74-79 | 422 exactly for a body that fails validation; for a valid body, a result exactly when the service succeeds and 500 otherwise, with nothing saved on an error; the result is the service's answer for the generated story, which get then finds |
| Api.GetStory | backend/app/main.py:82-88 | 404 "Story not found" exactly for an unknown id, otherwise the stored story |
| Api.ListStories | backend/app/main.py:91-94 | a missing limit is 20 and a missing offset 0: the bare route gives the first 20 of the full list |
| Api.GetEpisodeAudio | backend/app/main.py:97-112 | 404 for an unknown story or an index out of range, 400 for an episode without text, otherwise the speech of exactly that text |
| Api.AudioIndexIsOrdinal | backend/app/main.py:103-109 | in a valid store the index is the stored ordinal |
| Api.AudioAfterSave | backend/app/main.py:106-112 | right after a save the k-th audio is the speech of the k-th text saved |
| Api.ExportEpisodes | backend/app/main.py:123 | the exporter reads each stored episode's text and URL |
| Api.ExportVideo | backend/app/main.py:115-129 | 404 for an unknown story; for a stored story, 500 "Export failed" exactly when the export cannot succeed, and otherwise the video the encoder made of its clips |
| Api.ExportStory | backend/app/main.py:121-129 | 500 "Export failed" exactly when the story cannot be exported; an exportable story always gets the encoder's video |
| Api.Component | backend/app/main.py:139 | "" and "." name no path component |
| Api.PathParts | backend/app/main.py:139 | the components of a path contain no separator, no "" and no "."; a text without "/" is its own single component, unless it is "" or "." |
| Api.PathPartsJoin | backend/app/main.py:139 | the components of "a/b" are those of a followed by those of b, so the components are exactly the "/"-separated pieces |
| Api.ServeSpa | backend/app/main.py:132-150 | api/ paths and a missing static directory are 404; a path resolving outside the directory is 404; an existing file is sent; otherwise index.html as text/html when it exists, else 404 |
| Api.ResolveStaysInside | backend/app/main.py:139-144 | a path without ".." never leaves the directory |
| Api.RelativePathServed | backend/app/main.py:135-150 | a relative path without ".." passes the guard and is served as a file, as index.html or as 404 |
| Mobile.DigitValue | mobile/main.py:281 | a digit's value is below 10 |
| Mobile.ParseInt | mobile/main.py:281 | int() only accepts text that is not blank, and refuses text with more than 4300 digits |
| Mobile.ParseSigned | mobile/main.py:281 | int() without whitespace rejects the empty text and text with more than 4300 digits |
| Mobile.DigitChar | mobile/main.py:424 | the ASCII digit of a value reads back as that value |
| Mobile.Digits | mobile/main.py:424 | str(n) is a non-empty run of ASCII digits |
| Mobile.DigitsCount | mobile/main.py:424 | every character of str(n) counts against the digit limit |
| Mobile.DigitsValue | mobile/main.py:424 | the digits of n are a numeral whose value is n |
| Mobile.ParseDecimal | mobile/main.py:281 | int(str(n)) == n for every n whose str() is within the 4300-digit limit |
| Mobile.ParseSignedDecimal | mobile/main.py:281 | the signed parse of str(n) is n, within the digit limit |
| Mobile.ParseIgnoresSpaces | mobile/main.py:281 | int() ignores whitespace around a number, within the digit limit |
| Mobile.EpisodeCount | mobile/main.py:280-284 | the count is in 1..10: an empty field, non-integer text and a numeral over 4300 digits give 5, an integer is clamped |
| Mobile.StoryLangOf | mobile/main.py:285 | always a server language; "en" exactly for "English", an unknown label gives "th" |
| Mobile.ImageModelOf | mobile/main.py:286 | always a server model; "zimage" exactly for "Z-Image Turbo", an unknown label gives "flux" |
| Mobile.Find | mobile/main.py:290 | list.index: the first position of the label, -1 exactly when absent |
| Mobile.StyleOf | mobile/main.py:287-292 | no style for "", the placeholder or an unknown label; a style is the non-empty value at its label's index |
| Mobile.KnownStyles | mobile/main.py:287-292 | every label past the placeholder picks the value at its own index |
| Mobile.NoEmptyEntries | mobile/main.py:32-57 | no label is empty, and no value past the placeholder's is empty |
| Mobile.LabelsDistinct | mobile/main.py:32-44 | the style labels are pairwise distinct |
| Mobile.FindDistinct | mobile/main.py:290 | in a list without repeats, list.index of an element is its position |
| Mobile.OnGenerate | mobile/main.py:274-302 | a blank topic only sets the "enter a topic" status; otherwise the payload has the stripped topic and the normalised count, language, model and style |
| Mobile.StyleValuesFit | mobile/main.py:45-57 | every style value fits the server's 100-character limit |
| Mobile.ServerAcceptsPayload | mobile/main.py:295-302 | the server accepts every payload the form sends whose topic is within 500 characters |
| Mobile.IndicatorReads | mobile/main.py:424 | the indicator reads back as index + 1, "/", and the page count, for numbers str() can write |
| Mobile.StoryViewScreen.constructor | mobile/main.py:407-411 | no story, page 0, indicator "1/1" |
| Mobile.StoryViewScreen.UpdatePage | mobile/main.py:419-429 | nothing changes without a story; otherwise the indicator, and the page's text and image when the page exists |
| Mobile.StoryViewScreen.LoadStory | mobile/main.py:413-417 | the story and its title are shown from page 0; for a story without episodes the text and image widgets keep what they showed |
| Mobile.StoryViewScreen.NextPage | mobile/main.py:431-437 | moves forward only before the last page, and otherwise changes no widget; the index stays in 0..max(n-1, 0) |
| Mobile.StoryViewScreen.PrevPage | mobile/main.py:439-442 | moves back only after the first page, and otherwise changes no widget; the index stays in range |
| Mobile.ListHeight | mobile/main.py:397 | for a non-empty list, 82 per story less 10; the formula gives 0 for an empty list, where the source shows a label and sets no height |
| Mobile.ListHeightStep | mobile/main.py:397 | one more story adds a row, and a gap unless the list was empty |

## Left out

- HTTP calls (httpx, `raise_for_status`, timeouts) and JSON decoding are
  the oracles `Upstream.chat`, `Upstream.parseJson` and
  `Upstream.fetchImage`. Only a JSON object whose fields are strings (or
  missing) is modelled; values of other JSON types are not.
- The random seed, the variation hint and the float temperature of the
  chat request (backend/app/services/pollinations.py:55-72) are
  nondeterministic and are not modelled. The full system and user prompt
  texts are not modelled either; only the language rule and the request's
  inputs are.
- The URL quoting of the image prompt and of the key (`urllib.parse.quote`)
  is not modelled; the prompt and the key are carried unquoted.
- The log lines (`print`) are left out.
- Pollinations.GenerateImage: it has no contract of its own. It passes the
  prompt and the parameters to the image oracle, and its parts are stated
  by ImagePrompt and ImageParams.
- Pollinations.ImageParams: the dict is modelled as an ordered sequence of
  pairs.
- Pollinations.ImagePrompt: its own contract states only the start (the
  character sentence and the scene) and the end (the safety suffix). The
  complete prompt of each style case is stated by UserStyleWins,
  ArtStyleUsed and DefaultStyleUsed.
- Common.SplitLines: its own contract states only that the list is not
  empty. What the pieces are is stated by JoinSplitLines, SplitSingleLine
  and SplitAtNewline.
- StoryService.DataUri: its own contract states only the prefix. The
  payload is stated by DataUriLength and DataUriDecodes.
- Mobile.ParseInt: its own contract states only that blank text and
  text over the digit limit are refused. The value it reads is stated by
  ParseDecimal and ParseIgnoresSpaces. The limit is the interpreter's
  default of 4300 digits; a limit changed at run time is not modelled.
- Mobile.ParseSigned: its own contract states only that the empty text and
  text over the digit limit are refused. The value is stated by ParseSignedDecimal.
- Base64.DecodeGroup: its own contract states only the length. What the
  bytes are is stated by DecodeGroupOfEncodeGroup and
  EncodeGroupOfDecodeGroup.
- Base64.DecodeLast: its own contract states only the length. The bytes are
  stated by DecodeOneByte, DecodeTwoBytes and EncodeDecodeLast.
- Common.InsertBy: its own contract states only the length and the
  multiset. Sortedness is stated by InsertBySorted.
- The image service is a function of the request: two episodes with the
  same scene prompt, style and model get the same outcome. The source makes
  one HTTP call per episode, and one call can fail while an identical one
  succeeds; that difference is not captured.
- The speech engine (backend/app/services/tts.py) is a total function from
  text to bytes, so an engine failure is not modelled. Temporary files are
  not modelled.
- moviepy is an oracle in a `Media` value: reading an audio length,
  opening a picture, and writing the video. Durations are whole
  milliseconds, not floats.
- Exceptions raised while a clip is being built, other than a failed image
  decode, are not modelled.
- Python's lenient `b64decode` is an oracle. The model's own strict decoder
  only states the round trip of the URLs the service makes.
- The SQLite engine and the DDL of backend/app/db/database.py are an
  in-memory pair of row sequences. Only the primary key is modelled: a
  duplicate id makes `SaveStory` insert nothing.
- The order SQLite gives to rows with equal `created_at` or equal ordinals
  is represented by a stable insertion sort.
- The `created_at` clock and `new_id` (uuid4, backend/app/db/repository.py:98-100)
  are parameters `now` and `freshId`. The uniqueness of uuid4 is not
  assumed: a collision is the save failure.
- Pydantic's coercion of non-string values and the detail body of the 422
  answer are left out; a body field is either present with its type or
  missing.
- The root, favicon and health routes (backend/app/main.py:49-71) are left
  out; they hold no decision beyond looking up index.html.
- In `serve_spa`, symbolic links are not resolved; resolution is lexical
  over path components. The static directory is given in resolved form.
- `asyncio`, `asyncio.to_thread` and `@mainthread` are concurrency plumbing
  and are left out.
- The mobile client's Kivy widgets and network requests are left out.
  `play_tts` is a network request plus sound playback, and `_format_date`
  relies on the datetime library; both are left out.
- The mobile `int()` accepts ASCII and Thai digits only, not every Unicode
  decimal digit Python accepts.
- A story loaded into `StoryViewScreen` is a `GetStoryResponse`. The
  source's `if not self._data` also treats an empty dictionary as no
  story; that case is not modelled.
- The web client (web/src), backend/app/config.py and
  scripts/ssh-cli-run.js are outside this model; they are UI, environment
  reading and file polling.
