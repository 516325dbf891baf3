/** The mobile client (mobile/main.py): the form of the home screen turned
    into a generation request, the pager of the story screen, and the
    height of the story list. Widgets, network requests and sound playback
    are outside the model. */
module Mobile {
  import opened Common
  import opened Schemas

  // ---------------------------------------------------------------------
  // Decimal numerals: Python's str(n) and int(s)
  // ---------------------------------------------------------------------

  /** A decimal digit int() accepts: ASCII or Thai. */
  predicate IsDigit(c: char) {
    ('0' <= c <= '9') || ('๐' <= c <= '๙')
  }

  function DigitValue(c: char): (d: nat)
    requires IsDigit(c)
    ensures d < 10
  {
    if c <= '9' then c as int - '0' as int else c as int - '๐' as int
  }

  /** Digits, with single underscores allowed between two digits. */
  predicate IsNumeral(s: string) {
    && |s| > 0 && IsDigit(s[0]) && IsDigit(s[|s| - 1])
    && forall k :: 0 <= k < |s| ==> IsDigit(s[k]) || (s[k] == '_' && k + 1 < |s| && s[k + 1] != '_')
  }

  /** The value of the digits of `s`, underscores skipped. */
  function NumeralValue(s: string): nat {
    if s == [] then 0
    else
      var n := |s| - 1;
      if IsDigit(s[n]) then 10 * NumeralValue(s[..n]) + DigitValue(s[n]) else NumeralValue(s[..n])
  }

  /** The default of sys.get_int_max_str_digits(): int() of a text with
      more digits, and str() of a number with more, raise ValueError. */
  const MaxStrDigits := 4300

  /** The number of digits in `s`; underscores and signs do not count. */
  function DigitCount(s: string): nat {
    if s == [] then 0 else (if IsDigit(s[0]) then 1 else 0) + DigitCount(s[1..])
  }

  lemma {:induction false} DigitCountAppend(a: string, b: string)
    ensures DigitCount(a + b) == DigitCount(a) + DigitCount(b)
  {
    if a == [] {
      assert a + b == b;
    } else {
      assert (a + b)[0] == a[0] && (a + b)[1..] == a[1..] + b;
      DigitCountAppend(a[1..], b);
    }
  }

  /** int(s) on a string: surrounding whitespace, an optional sign, a
      numeral of at most MaxStrDigits digits; None is the ValueError. */
  function ParseInt(s: string): (r: Option<int>)
    ensures r.Some? ==> Strip(s) != ""
    ensures DigitCount(Strip(s)) > MaxStrDigits ==> r.None?
  {
    ParseSigned(Strip(s))
  }

  /** int() once the whitespace is gone. */
  function ParseSigned(t: string): (r: Option<int>)
    ensures r.Some? ==> t != ""
    ensures DigitCount(t) > MaxStrDigits ==> r.None?
  {
    if t == [] then None
    else if DigitCount(t) > MaxStrDigits then None
    else if t[0] == '-' || t[0] == '+' then
      if IsNumeral(t[1..]) then
        var v: int := NumeralValue(t[1..]);
        Some(if t[0] == '-' then -v else v)
      else None
    else if IsNumeral(t) then Some(NumeralValue(t))
    else None
  }

  function DigitChar(d: nat): (c: char)
    requires d < 10
    ensures IsDigit(c) && DigitValue(c) == d && '0' <= c <= '9'
  {
    ('0' as int + d) as char
  }

  /** str(n) for n >= 0. */
  function Digits(n: nat): (s: string)
    ensures |s| > 0
    ensures forall k :: 0 <= k < |s| ==> '0' <= s[k] <= '9'
  {
    if n < 10 then [DigitChar(n)] else Digits(n / 10) + [DigitChar(n % 10)]
  }

  /** str(n). */
  function DecimalString(n: int): string {
    if n < 0 then "-" + Digits(-n) else Digits(n)
  }

  /** str(n) does not exceed the digit limit. */
  predicate FitsStr(n: int) {
    |Digits(if n < 0 then -n else n)| <= MaxStrDigits
  }

  /** Every character of str(n) for n >= 0 is a digit. */
  lemma {:induction false} DigitsCount(n: nat)
    ensures DigitCount(Digits(n)) == |Digits(n)|
  {
    if n >= 10 {
      DigitsCount(n / 10);
      DigitCountAppend(Digits(n / 10), [DigitChar(n % 10)]);
    }
  }

  lemma {:induction false} DigitsValue(n: nat)
    ensures IsNumeral(Digits(n)) && NumeralValue(Digits(n)) == n
  {
    if n >= 10 {
      DigitsValue(n / 10);
      var s := Digits(n);
      assert s[..|s| - 1] == Digits(n / 10);
    }
  }

  /** int(str(n)) == n. */
  lemma ParseDecimal(n: int)
    requires FitsStr(n)
    ensures ParseInt(DecimalString(n)) == Some(n)
  {
    var s := DecimalString(n);
    assert !IsSpace(s[0]) && !IsSpace(s[|s| - 1]);
    StripUnpadded(s);
    ParseSignedDecimal(n);
  }

  lemma ParseSignedDecimal(n: int)
    requires FitsStr(n)
    ensures ParseSigned(DecimalString(n)) == Some(n)
  {
    if n < 0 {
      var d := Digits(-n);
      DigitsValue(-n);
      DigitsCount(-n);
      DigitCountAppend("-", d);
      assert ("-" + d)[0] == '-' && ("-" + d)[1..] == d;
    } else {
      var d := Digits(n);
      DigitsValue(n);
      DigitsCount(n);
      assert '0' <= d[0] <= '9';
    }
  }

  /** int() ignores the whitespace around a number. */
  lemma ParseIgnoresSpaces(pre: string, n: int, post: string)
    requires IsBlank(pre) && IsBlank(post) && FitsStr(n)
    ensures ParseInt(pre + DecimalString(n) + post) == Some(n)
  {
    var s := DecimalString(n);
    DigitsValue(if n < 0 then -n else n);
    StripPadded(pre, s, post);
    ParseDecimal(n);
    StripUnpadded(s);
  }

  // ---------------------------------------------------------------------
  // HomeScreen.on_generate
  // ---------------------------------------------------------------------

  const EnterTopicStatus := "กรุณาใส่หัวข้อ"
  const GeneratingStatus := "กำลังสร้างเรื่อง..."

  /** The number of episodes asked for: the field's integer clamped to
      1..10; an empty field counts as 5, and text that is no integer, or
      has more digits than int() converts, gives 5. */
  function EpisodeCount(text: string): (n: int)
    ensures MinEpisodes <= n <= MaxEpisodes
    ensures text == "" ==> n == DefaultEpisodes
    ensures text != "" && ParseInt(text).None? ==> n == DefaultEpisodes
    ensures text != "" && ParseInt(text).Some? ==>
      var v := ParseInt(text).value;
      n == if v < MinEpisodes then MinEpisodes else if v > MaxEpisodes then MaxEpisodes else v
  {
    assert DecimalString(5) == "5";
    ParseDecimal(5);
    match ParseInt(if text == "" then "5" else text)
    case None => 5
    case Some(v) => if v > 10 then 10 else if v < 1 then 1 else v
  }

  /** The language of a label; an unknown label is Thai. */
  function StoryLangOf(choice: string): (r: string)
    ensures IsStoryLang(r)
    ensures choice == "English" <==> r == "en"
  {
    if choice == "ไทย" then "th" else if choice == "English" then "en" else "th"
  }

  /** The image model of a label; an unknown label is flux. */
  function ImageModelOf(choice: string): (r: string)
    ensures IsImageModel(r)
    ensures choice == "Z-Image Turbo" <==> r == "zimage"
  {
    if choice == "Flux Schnell" then "flux" else if choice == "Z-Image Turbo" then "zimage" else "flux"
  }

  const StylePlaceholder := "— เลือก —"

  /** The labels of the style picker and the style each stands for, at the
      same index; the placeholder stands for no style. */
  const StyleLabels: seq<string> := [
    StylePlaceholder,
    "การ์ตูน",
    "วาดน้ำ",
    "เรโทร",
    "สามมิติ (3D)",
    "น่ารักคาวาอิ",
    "ภาพนิทาน",
    "พาสเทลนุ่ม",
    "สไตล์ดิสนีย์/พิกซาร์",
    "ปั้นดินน้ำมัน",
    "การ์ตูนสีสัน"]

  const StyleValues: seq<string> := [
    "",
    "cartoon style",
    "watercolor painting",
    "retro vintage",
    "3d render, cute and child-friendly",
    "cute kawaii style, child-friendly",
    "children's storybook illustration",
    "soft pastel illustration, gentle colors",
    "disney pixar style, family-friendly",
    "claymation style, soft 3d",
    "colorful cartoon, bright and friendly"]

  /** list.index: the first position of `x`, or -1. */
  function Find(xs: seq<string>, x: string): (i: int)
    ensures -1 <= i < |xs|
    ensures i == -1 <==> x !in xs
    ensures i >= 0 ==> xs[i] == x && x !in xs[..i]
  {
    if xs == [] then -1
    else if xs[0] == x then 0
    else
      var i := Find(xs[1..], x);
      assert xs == [xs[0]] + xs[1..];
      if i == -1 then -1
      else
        assert xs[..i + 1] == [xs[0]] + xs[1..][..i];
        i + 1
  }

  /** The style of a label: the value at the label's index, and no style
      for the empty choice, the placeholder, an unknown choice or an empty
      value. */
  function StyleOf(choice: string): (r: Option<string>)
    ensures choice == "" || choice == StylePlaceholder || choice !in StyleLabels ==> r.None?
    ensures r.Some? ==> r.value != "" && exists k :: 0 <= k < |StyleValues| && StyleLabels[k] == choice && StyleValues[k] == r.value
  {
    if choice == "" || choice == StylePlaceholder then None
    else
      var i := Find(StyleLabels, choice);
      if 0 <= i < |StyleValues| then (if StyleValues[i] == "" then None else Some(StyleValues[i])) else None
  }

  /** Every label past the placeholder picks the style at its own index. */
  lemma KnownStyles(k: int)
    requires 1 <= k < |StyleLabels|
    ensures StyleOf(StyleLabels[k]) == Some(StyleValues[k])
  {
    LabelsDistinct();
    FindDistinct(StyleLabels, k);
    assert StyleLabels[k] != StylePlaceholder by { assert StyleLabels[0] == StylePlaceholder; }
    assert StyleLabels[k] != "" by { NoEmptyEntries(); }
    assert StyleValues[k] != "" by { NoEmptyEntries(); }
  }

  /** Every label and every value past the placeholder is non-empty. */
  lemma NoEmptyEntries()
    ensures forall k :: 0 <= k < |StyleLabels| ==> |StyleLabels[k]| > 0
    ensures forall k :: 1 <= k < |StyleValues| ==> |StyleValues[k]| > 0
  {
  }

  /** No two labels of the style picker are the same. */
  lemma LabelsDistinct()
    ensures forall i, j :: 0 <= i < j < |StyleLabels| ==> StyleLabels[i] != StyleLabels[j]
  {
    var labels := StyleLabels;
    forall i, j | 0 <= i < j < |labels| ensures labels[i] != labels[j] {
      assert |labels[i]| != |labels[j]| || labels[i][0] != labels[j][0] || labels[i] != labels[j];
    }
  }

  /** In a list without repeats, the index of an element is its position. */
  lemma FindDistinct(xs: seq<string>, k: int)
    requires 0 <= k < |xs|
    requires forall i, j :: 0 <= i < j < |xs| ==> xs[i] != xs[j]
    ensures Find(xs, xs[k]) == k
  {
    assert xs[k] in xs;
  }

  /** The request body the client sends; `imageStyle` is left out of the
      JSON when None. */
  datatype Payload = Payload(topic: string, numEpisodes: int, storyLang: string, imageModel: string,
                             imageStyle: Option<string>)

  /** What pressing "generate" does: an empty topic only sets the status
      line; otherwise the status says the story is being made and the
      payload is sent. */
  datatype GenerateAction = ShowStatus(status: string) | Send(status: string, payload: Payload)

  /** on_generate. */
  function OnGenerate(topicText: string, numText: string, langLabel: string, modelLabel: string,
                      styleLabel: string): (r: GenerateAction)
    ensures Strip(topicText) == "" <==> r == ShowStatus(EnterTopicStatus)
    ensures r.Send? ==> r.status == GeneratingStatus
    ensures r.Send? ==> r.payload == Payload(Strip(topicText), EpisodeCount(numText), StoryLangOf(langLabel),
                              ImageModelOf(modelLabel), StyleOf(styleLabel))
  {
    var topic := Strip(topicText);
    if topic == "" then ShowStatus(EnterTopicStatus)
    else Send(GeneratingStatus, Payload(topic, EpisodeCount(numText), StoryLangOf(langLabel),
                                        ImageModelOf(modelLabel), StyleOf(styleLabel)))
  }

  /** The body the server receives for a payload. */
  function AsRequestBody(p: Payload): RequestBody {
    RequestBody(Some(p.topic), Some(p.numEpisodes), Some(p.storyLang), Some(p.imageModel), p.imageStyle)
  }

  /** Every style value fits the server's style limit. */
  lemma StyleValuesFit(choice: string)
    ensures StyleOf(choice).Some? ==> |StyleOf(choice).value| <= MaxStyleLength
  {
    var values := StyleValues;
    assert forall k :: 0 <= k < |values| ==> |values[k]| <= MaxStyleLength;
  }

  /** The server accepts whatever the form sends, as long as the topic is
      within the server's length limit. */
  lemma ServerAcceptsPayload(topicText: string, numText: string, langLabel: string, modelLabel: string,
                             styleLabel: string)
    requires OnGenerate(topicText, numText, langLabel, modelLabel, styleLabel).Send?
    requires |Strip(topicText)| <= MaxTopicLength
    ensures var p := OnGenerate(topicText, numText, langLabel, modelLabel, styleLabel).payload;
      ValidateRequest(AsRequestBody(p)) ==
        Some(GenerateStoryRequest(p.topic, p.numEpisodes, p.storyLang, p.imageModel, p.imageStyle))
  {
    StyleValuesFit(styleLabel);
  }

  // ---------------------------------------------------------------------
  // StoryViewScreen
  // ---------------------------------------------------------------------

  /** The page indicator: the page number, a slash, the page count. */
  function Indicator(index: int, n: nat): string {
    DecimalString(index + 1) + "/" + DecimalString(n)
  }

  /** The indicator reads back as the page number and the page count. */
  lemma IndicatorReads(index: int, n: nat)
    requires FitsStr(index + 1) && FitsStr(n)
    ensures var s := Indicator(index, n);
      exists i :: 0 <= i < |s| && s[i] == '/' && ParseInt(s[..i]) == Some(index + 1) && ParseInt(s[i + 1..]) == Some(n)
  {
    var a := DecimalString(index + 1);
    var b := DecimalString(n);
    var s := Indicator(index, n);
    var i := |a|;
    assert s == a + "/" + b;
    assert s[i] == '/';
    assert s[..i] == a;
    assert s[i + 1..] == b;
    ParseDecimal(index + 1);
    ParseDecimal(n);
  }

  /** The story screen: the story shown, the page index, and what the page
      widgets display. */
  class StoryViewScreen {
    var title: string
    var pageIndicator: string
    var data: Option<GetStoryResponse>
    var index: int
    var episodeText: string
    var episodeImage: string

    /** The index is a page of the story (page 0 of a story without
        episodes), and with a story loaded the widgets show that page. */
    ghost predicate Valid()
      reads this
    {
      && 0 <= index
      && (data.Some? ==>
            var n := |data.value.episodes|;
            && index <= (if n == 0 then 0 else n - 1)
            && pageIndicator == Indicator(index, n)
            && (index < n ==> episodeText == data.value.episodes[index].text
                              && episodeImage == data.value.episodes[index].imageUrl))
    }

    constructor()
      ensures Valid() && data.None? && index == 0 && title == "" && pageIndicator == "1/1"
    {
      title := "";
      pageIndicator := "1/1";
      data := None;
      index := 0;
      episodeText := "";
      episodeImage := "";
    }

    /** _update_page: nothing without a story; otherwise the indicator, and
        the text and image of the page when it exists. */
    method UpdatePage()
      requires 0 <= index
      modifies this
      ensures data == old(data) && index == old(index) && title == old(title)
      ensures data.None? ==>
        pageIndicator == old(pageIndicator) && episodeText == old(episodeText) && episodeImage == old(episodeImage)
      ensures data.Some? ==> pageIndicator == Indicator(index, |data.value.episodes|)
      ensures data.Some? && index < |data.value.episodes| ==>
        episodeText == data.value.episodes[index].text && episodeImage == data.value.episodes[index].imageUrl
      ensures data.Some? && index >= |data.value.episodes| ==>
        episodeText == old(episodeText) && episodeImage == old(episodeImage)
    {
      if data.None? {
        return;
      }
      var eps := data.value.episodes;
      var n := |eps|;
      pageIndicator := Indicator(index, n);
      if index < n {
        var ep := eps[index];
        episodeText := ep.text;
        episodeImage := ep.imageUrl;
      }
    }

    /** load_story: the story, its title, and its first page. */
    method LoadStory(story: GetStoryResponse)
      requires Valid()
      modifies this
      ensures Valid()
      ensures data == Some(story) && index == 0 && title == story.title
      ensures pageIndicator == Indicator(0, |story.episodes|)
      ensures |story.episodes| == 0 ==> episodeText == old(episodeText) && episodeImage == old(episodeImage)
    {
      data := Some(story);
      index := 0;
      title := story.title;
      UpdatePage();
    }

    /** next_page: forward when there is a later page. */
    method NextPage()
      requires Valid()
      modifies this
      ensures Valid()
      ensures data == old(data) && title == old(title)
      ensures index == if data.Some? && old(index) < |data.value.episodes| - 1 then old(index) + 1 else old(index)
      ensures index == old(index) ==>
        pageIndicator == old(pageIndicator) && episodeText == old(episodeText) && episodeImage == old(episodeImage)
    {
      if data.None? {
        return;
      }
      var n := |data.value.episodes|;
      if index < n - 1 {
        index := index + 1;
        UpdatePage();
      }
    }

    /** prev_page: back when there is an earlier page. */
    method PrevPage()
      requires Valid()
      modifies this
      ensures Valid()
      ensures data == old(data) && title == old(title)
      ensures index == if old(index) > 0 then old(index) - 1 else old(index)
      ensures index == old(index) ==>
        pageIndicator == old(pageIndicator) && episodeText == old(episodeText) && episodeImage == old(episodeImage)
    {
      if index > 0 {
        index := index - 1;
        UpdatePage();
      }
    }
  }

  // ---------------------------------------------------------------------
  // Story list
  // ---------------------------------------------------------------------

  const RowHeight := 72
  const RowSpacing := 10

  /** The height of the list of `count` stories: rows of 72 with 10
      between neighbours. */
  function ListHeight(count: nat): (h: nat)
    ensures count == 0 ==> h == 0
    ensures count > 0 ==> h == count * (RowHeight + RowSpacing) - RowSpacing
  {
    count * RowHeight + (if count > 0 then count - 1 else 0) * RowSpacing
  }

  /** One more story adds a row, and a gap unless the list was empty. */
  lemma ListHeightStep(count: nat)
    ensures ListHeight(count + 1) == ListHeight(count) + RowHeight + (if count > 0 then RowSpacing else 0)
  {
  }
}
