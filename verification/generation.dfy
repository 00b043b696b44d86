/** The pure helpers of the Flask content generator (`app.py`): the image URL, the
    thumbnail prompt, the `max_length` table, size parsing, the rule for appending
    image markdown, and the keyword phrase of the demo templates. */
module ContentGeneration {

  import opened Wrappers
  import Strings
  import Decimal
  import Json

  /** What `generate_image` returns: the URL with the request echoed, or an error. */
  datatype ImageResult =
    | Image(url: string, prompt: string, style: string, size: string)
    | ImageError(error: string)

  const NoPrompt := "No prompt provided for image generation"
  const ImageHost := "https://source.unsplash.com/"

  /** The image size names and their dimensions; anything else is `medium`. */
  function Dimensions(size: string): (d: string)
    ensures d == "640x360" || d == "800x450" || d == "1280x720"
    ensures d == "640x360" <==> size == "small"
    ensures d == "1280x720" <==> size == "large"
  {
    if size == "small" then "640x360"
    else if size == "large" then "1280x720"
    else "800x450"
  }

  /** The style is added to the query unless it is empty or `realistic`. */
  predicate StyleApplies(style: string)
  {
    style != "" && style != "realistic"
  }

  /** The URL up to the query: host, dimensions, `/?`. */
  function ImagePrefix(size: string): string
  {
    ImageHost + Dimensions(size) + "/?"
  }

  /** The query: the prompt with spaces turned into `+`, then `+style`. */
  function ImageSearch(prompt: string, style: string): (q: string)
    ensures |q| == |prompt| + (if StyleApplies(style) then 1 + |style| else 0)
    ensures forall i :: 0 <= i < |prompt| ==> q[i] == (if prompt[i] == ' ' then '+' else prompt[i])
    ensures StyleApplies(style) ==> q[|prompt|..] == "+" + style
  {
    var clean := Strings.ReplaceChar(prompt, ' ', '+');
    var q := clean + (if StyleApplies(style) then "+" + style else "");
    assert q[|prompt|..] == (if StyleApplies(style) then "+" + style else "");
    q
  }

  /** `generate_image`: an empty prompt is an error; otherwise an Unsplash URL for
      the prompt, with the request echoed. */
  function GenerateImage(prompt: string, style: string, size: string): (r: ImageResult)
    ensures r.ImageError? <==> prompt == ""
    ensures r.ImageError? ==> r.error == NoPrompt
    ensures r.Image? ==> r.prompt == prompt && r.style == style && r.size == size
    ensures r.Image? ==> Strings.StartsWith(r.url, ImageHost + Dimensions(size) + "/?")
    ensures r.Image? ==> |r.url| == |ImagePrefix(size)| + |prompt| + (if StyleApplies(style) then 1 + |style| else 0)
    ensures r.Image? ==> forall i :: 0 <= i < |prompt| ==>
              r.url[|ImagePrefix(size)| + i] == (if prompt[i] == ' ' then '+' else prompt[i])
    ensures r.Image? && StyleApplies(style) ==> r.url[|ImagePrefix(size)| + |prompt|..] == "+" + style
  {
    if prompt == "" then ImageError(NoPrompt)
    else
      ImageUrlShape(prompt, style, size);
      Image(ImagePrefix(size) + ImageSearch(prompt, style), prompt, style, size)
  }

  lemma ImageUrlShape(prompt: string, style: string, size: string)
    ensures var url := ImagePrefix(size) + ImageSearch(prompt, style);
            && Strings.StartsWith(url, ImagePrefix(size))
            && |url| == |ImagePrefix(size)| + |prompt| + (if StyleApplies(style) then 1 + |style| else 0)
            && (forall i :: 0 <= i < |prompt| ==>
                  url[|ImagePrefix(size)| + i] == (if prompt[i] == ' ' then '+' else prompt[i]))
            && (StyleApplies(style) ==> url[|ImagePrefix(size)| + |prompt|..] == "+" + style)
  {
    ImageUrlQuery(ImagePrefix(size), ImageSearch(prompt, style), prompt, style);
  }

  lemma ImageUrlPrefix(url: string, size: string)
    requires Strings.StartsWith(url, ImagePrefix(size))
    ensures Strings.StartsWith(url, ImageHost)
  {
    var prefix := ImagePrefix(size);
    assert prefix[..|ImageHost|] == ImageHost;
    assert url[..|ImageHost|] == prefix[..|ImageHost|];
  }

  lemma ImageUrlQuery(prefix: string, search: string, prompt: string, style: string)
    requires search == ImageSearch(prompt, style)
    ensures var url := prefix + search;
            && Strings.StartsWith(url, prefix)
            && (forall i :: 0 <= i < |prompt| ==>
                  url[|prefix| + i] == (if prompt[i] == ' ' then '+' else prompt[i]))
            && (StyleApplies(style) ==> url[|prefix| + |prompt|..] == "+" + style)
  {
    var url := prefix + search;
    assert url[..|prefix|] == prefix;
    forall i | 0 <= i < |prompt|
      ensures url[|prefix| + i] == (if prompt[i] == ' ' then '+' else prompt[i])
    {
      assert url[|prefix| + i] == search[i];
    }
    if StyleApplies(style) {
      assert url[|prefix| + |prompt|..] == search[|prompt|..];
    }
  }

  /** The query of an image URL, form-decoded (`+` read as a space). */
  function ImageQuery(prompt: string, style: string, size: string): string
    requires prompt != ""
  {
    Strings.ReplaceChar(GenerateImage(prompt, style, size).url[|ImagePrefix(size)|..], '+', ' ')
  }

  /** Form-decoding the query gives back the prompt, then the style after a space
      when it applies, for a prompt and style without literal `+`. */
  lemma ImageSearchDecodes(prompt: string, style: string)
    requires '+' !in prompt && '+' !in style
    ensures Strings.ReplaceChar(ImageSearch(prompt, style), '+', ' ')
            == prompt + (if StyleApplies(style) then " " + style else "")
  {
    var clean := Strings.ReplaceChar(prompt, ' ', '+');
    var suffix := if StyleApplies(style) then "+" + style else "";
    Strings.ReplaceConcat(clean, suffix, '+', ' ');
    Strings.ReplaceBack(prompt, ' ', '+');
    if StyleApplies(style) {
      Strings.ReplaceConcat("+", style, '+', ' ');
      Strings.ReplaceAbsent(style, '+', ' ');
      assert Strings.ReplaceChar("+", '+', ' ') == " ";
    } else {
      assert Strings.ReplaceChar(suffix, '+', ' ') == "";
      assert prompt + "" == prompt;
    }
  }

  /** Decoding the query of the URL gives back the prompt, then the style after a
      space when it applies, for a prompt and style without literal `+`. */
  lemma ImageUrlDecodes(prompt: string, style: string, size: string)
    requires prompt != "" && '+' !in prompt && '+' !in style
    ensures ImageQuery(prompt, style, size) == prompt + (if StyleApplies(style) then " " + style else "")
  {
    var prefix := ImagePrefix(size);
    var search := ImageSearch(prompt, style);
    assert (prefix + search)[|prefix|..] == search;
    ImageSearchDecodes(prompt, style);
  }

  lemma ImagePrefixHasNoSpace(size: string)
    ensures ' ' !in ImagePrefix(size)
  {
    var d := Dimensions(size);
    assert ' ' !in ImageHost;
    assert ' ' !in d;
    assert ImagePrefix(size) == ImageHost + d + "/?";
  }

  lemma ImageSearchHasNoSpace(prompt: string, style: string)
    requires ' ' !in style
    ensures ' ' !in ImageSearch(prompt, style)
  {
    var clean := Strings.ReplaceChar(prompt, ' ', '+');
    var suffix := if StyleApplies(style) then "+" + style else "";
    assert ' ' !in clean by {
      forall i | 0 <= i < |clean| ensures clean[i] != ' ' { }
    }
    assert ' ' !in suffix;
  }

  /** The URL holds no space when the style holds none. */
  lemma ImageUrlHasNoSpace(prompt: string, style: string, size: string)
    requires prompt != "" && ' ' !in style
    ensures ' ' !in GenerateImage(prompt, style, size).url
  {
    var prefix := ImagePrefix(size);
    var search := ImageSearch(prompt, style);
    assert GenerateImage(prompt, style, size).url == prefix + search;
    ImagePrefixHasNoSpace(size);
    ImageSearchHasNoSpace(prompt, style);
  }

  /** The seven thumbnail styles and their prompts. */
  const ClickbaitPrompt := "Create a high-contrast, attention-grabbing thumbnail with bold text and exaggerated facial expressions. Include dramatic elements and strong visual hierarchy."
  const ProfessionalPrompt := "Design a clean, minimal thumbnail with corporate colors (blue, gray). Include a professional headshot or graphic, clear typography, and a subtle gradient background."
  const TutorialPrompt := "Create an instructional thumbnail with step numbers, tool icons, and a 'before and after' composition. Use directional elements to show progression."
  const VlogPrompt := "Design a lifestyle thumbnail with vibrant colors, personal photos, and an informal, approachable style. Add subtle depth effects and warm tones."
  const GamingPrompt := "Create a high-energy gaming thumbnail with game assets, character renders, bright neon effects, action poses, and impact text with stroke effects."
  const NewsPrompt := "Design a formal, information-focused thumbnail with a headline-style text layout, news imagery, red/blue color scheme, and boxed sections for organization."
  const ReviewPrompt := "Create a product-focused thumbnail with star ratings, comparison elements, and decisive text ('Worth it?', 'Best ever?'). Include product imagery on a simple background."

  const ThumbnailPrompts: map<string, string> := map[
    "clickbait" := ClickbaitPrompt,
    "professional" := ProfessionalPrompt,
    "tutorial" := TutorialPrompt,
    "vlog" := VlogPrompt,
    "gaming" := GamingPrompt,
    "news" := NewsPrompt,
    "review" := ReviewPrompt
  ]

  /** `get_thumbnail_prompt`: a non-empty custom prompt wins; otherwise the prompt of
      the lower-cased style, falling back to `clickbait`. */
  function ThumbnailPrompt(style: string, customPrompt: string): (r: string)
    ensures customPrompt != "" ==> r == customPrompt
    ensures customPrompt == "" ==> r in ThumbnailPrompts.Values
    ensures customPrompt == "" && Strings.Lower(style) in ThumbnailPrompts ==> r == ThumbnailPrompts[Strings.Lower(style)]
    ensures customPrompt == "" && Strings.Lower(style) !in ThumbnailPrompts ==> r == ThumbnailPrompts["clickbait"]
  {
    if customPrompt != "" then customPrompt
    else
      var key := Strings.Lower(style);
      if key in ThumbnailPrompts then ThumbnailPrompts[key] else ThumbnailPrompts["clickbait"]
  }

  /** The style lookup ignores case. */
  lemma ThumbnailPromptIgnoresCase(style: string)
    ensures ThumbnailPrompt(style, "") == ThumbnailPrompt(Strings.Lower(style), "")
  {
    Strings.LowerIdempotent(style);
  }

  /** The token budget of `generate_text_with_huggingface`: `short`/`medium`/`long`
      (any case) give 300/500/800, an absent `length` counts as `medium`, any other
      string gives 500. A non-string `length` makes `.lower()` raise, here `None`. */
  function MaxLength(params: map<string, Json.Value>): (r: Option<nat>)
    ensures "length" !in params ==> r == Some(500)
    ensures r.Some? ==> r.value == 300 || r.value == 500 || r.value == 800
    ensures r == Some(300) <==> "length" in params && params["length"].Str? && Strings.Lower(params["length"].s) == "short"
    ensures r == Some(800) <==> "length" in params && params["length"].Str? && Strings.Lower(params["length"].s) == "long"
    ensures r.None? <==> "length" in params && !params["length"].Str?
  {
    var length := if "length" in params then params["length"] else Json.Str("medium");
    match length
    case Str(s) =>
      var key := Strings.Lower(s);
      Some(if key == "short" then 300 else if key == "long" then 800 else 500)
    case _ => None
  }

  /** `size.lower().split('x')`. */
  function SizeParts(size: string): seq<string>
  {
    Strings.Split(Strings.Lower(size), 'x')
  }

  function Min512(n: int): int
  {
    if n < 512 then n else 512
  }

  /** The size parsing of `generate_image_huggingface`: `WxH` (either case of `x`,
      each side a Python integer literal) capped at 512 per side; anything else is
      512 by 512. The cap is an upper bound only. */
  function ParseSize(size: string): (r: (int, int))
    ensures r.0 <= 512 && r.1 <= 512
    ensures |SizeParts(size)| != 2 ==> r == (512, 512)
    ensures |SizeParts(size)| == 2 && (Decimal.ParseInt(SizeParts(size)[0]).None? || Decimal.ParseInt(SizeParts(size)[1]).None?)
            ==> r == (512, 512)
  {
    var parts := SizeParts(size);
    if |parts| != 2 then (512, 512)
    else
      match (Decimal.ParseInt(parts[0]), Decimal.ParseInt(parts[1]))
      case (Some(w), Some(h)) => (Min512(w), Min512(h))
      case _ => (512, 512)
  }

  /** No ASCII capital letter, so lower-casing changes nothing. */
  predicate NoCapitals(s: string)
  {
    forall i :: 0 <= i < |s| ==> !('A' <= s[i] <= 'Z')
  }

  /** Lower-casing sides without capitals and an `x` or `X` separator gives the
      sides joined by `x`. */
  lemma LowerSizeString(a: string, sep: char, b: string)
    requires sep == 'x' || sep == 'X'
    requires NoCapitals(a) && NoCapitals(b)
    ensures Strings.Lower(a + [sep] + b) == Strings.Join([a, b], "x")
  {
    var s := a + [sep] + b;
    var t := Strings.Join([a, b], "x");
    assert t == a + "x" + b;
    assert |Strings.Lower(s)| == |t|;
    forall i | 0 <= i < |s|
      ensures Strings.Lower(s)[i] == t[i]
    {
      if i < |a| {
        assert s[i] == a[i];
      } else if i > |a| {
        assert s[i] == b[i - |a| - 1];
      }
    }
  }

  /** Sides without capitals or `x`, around `x` or `X`, split back into the sides. */
  lemma SizePartsOfSides(a: string, sep: char, b: string)
    requires sep == 'x' || sep == 'X'
    requires NoCapitals(a) && NoCapitals(b) && 'x' !in a && 'x' !in b
    ensures SizeParts(a + [sep] + b) == [a, b]
  {
    LowerSizeString(a, sep, b);
    Strings.JoinSplit([a, b], 'x');
  }

  /** Two parts that parse as integers give the capped sides: the cap is an upper
      bound only, so a side below 512, a negative one included, is kept as parsed. */
  lemma ParseSizeOfParts(s: string, a: string, b: string, w: int, h: int)
    requires SizeParts(s) == [a, b]
    requires Decimal.ParseInt(a) == Some(w) && Decimal.ParseInt(b) == Some(h)
    ensures ParseSize(s) == (Min512(w), Min512(h))
    ensures w < 512 ==> ParseSize(s).0 == w
    ensures h < 512 ==> ParseSize(s).1 == h
  {
    assert SizeParts(s)[0] == a && SizeParts(s)[1] == b;
  }

  /** A side holding an ASCII separator U+001C to U+001F, even at its end, is not
      an integer to `int()`, so the size falls back to 512 by 512. */
  lemma ParseSizeOfSeparatorSide(s: string, a: string, b: string, j: nat)
    requires SizeParts(s) == [a, b]
    requires || (j < |a| && 0x1C <= a[j] as int <= 0x1F)
             || (j < |b| && 0x1C <= b[j] as int <= 0x1F)
    ensures ParseSize(s) == (512, 512)
  {
    assert SizeParts(s)[0] == a && SizeParts(s)[1] == b;
    if j < |a| && 0x1C <= a[j] as int <= 0x1F {
      Decimal.ParseIntRejectsSeparator(a, j);
    } else {
      Decimal.ParseIntRejectsSeparator(b, j);
    }
  }

  /** A rendered natural has no capital and no `x`. */
  lemma RenderedSide(n: nat)
    ensures NoCapitals(Decimal.NatToString(n)) && 'x' !in Decimal.NatToString(n)
  {
  }

  /** A well-formed `WxH` parses to its sides, capped at 512. */
  lemma ParseSizeOfRendered(w: nat, h: nat, sep: char)
    requires sep == 'x' || sep == 'X'
    ensures ParseSize(Decimal.NatToString(w) + [sep] + Decimal.NatToString(h)) == (Min512(w), Min512(h))
  {
    RenderedSide(w);
    RenderedSide(h);
    SizePartsOfSides(Decimal.NatToString(w), sep, Decimal.NatToString(h));
    Decimal.ParseIntOfNatToString(w);
    Decimal.ParseIntOfNatToString(h);
    ParseSizeOfParts(Decimal.NatToString(w) + [sep] + Decimal.NatToString(h), Decimal.NatToString(w), Decimal.NatToString(h), w, h);
  }

  const Fence := "```"

  /** The markdown `generate_content_endpoint` appends for an image. */
  function ImageMarkdown(topic: string, url: string): string
  {
    "\n\n![Generated Image for " + topic + "](" + url + ")"
  }

  /** Whether the endpoint appends image markdown: there is an image URL, the stripped
      content does not end in a code fence, and the content has no `![` yet. */
  predicate WantsImage(content: string, imageUrl: Option<string>)
  {
    && imageUrl.Some?
    && !Strings.EndsWith(Strings.Trim(content, Strings.IsPySpace), Fence)
    && !Strings.Contains(content, "![")
  }

  /** The image markdown carries `![` after whatever it is appended to. */
  lemma ImageMarkdownAppended(content: string, topic: string, url: string)
    ensures var r := content + ImageMarkdown(topic, url);
            && Strings.StartsWith(r, content) && r != content && Strings.Contains(r, "![")
  {
    var r := content + ImageMarkdown(topic, url);
    var k := |content| + 2;
    assert r[k] == '!' && r[k + 1] == '[';
    assert r[k..k + 2] == "![";
    Strings.ContainsAt(r, "![", k);
    assert r[..|content|] == content;
  }

  /** The endpoint's rule for adding the generated image to the content. */
  function AppendImage(content: string, imageUrl: Option<string>, topic: string): (r: string)
    ensures Strings.StartsWith(r, content)
    ensures r != content <==> WantsImage(content, imageUrl)
    ensures WantsImage(content, imageUrl) ==> Strings.Contains(r, "![")
  {
    if WantsImage(content, imageUrl) then
      ImageMarkdownAppended(content, topic, imageUrl.value);
      content + ImageMarkdown(topic, imageUrl.value)
    else
      content
  }

  /** Appending twice with the same image appends once. */
  lemma AppendImageIdempotent(content: string, imageUrl: Option<string>, topic: string)
    ensures AppendImage(AppendImage(content, imageUrl, topic), imageUrl, topic) == AppendImage(content, imageUrl, topic)
  {
  }

  /** `', '.join(keywords[:3]) if keywords else 'this topic'`. */
  function KeywordPhrase(keywords: seq<string>): (r: string)
    ensures keywords == [] ==> r == "this topic"
    ensures keywords != [] ==> Strings.StartsWith(r, keywords[0])
  {
    if keywords == [] then "this topic"
    else
      var first := keywords[..if |keywords| < 3 then |keywords| else 3];
      Strings.JoinStartsWith(first, ", ");
      Strings.Join(first, ", ")
  }

  /** Keywords after the third do not show in the phrase. */
  lemma KeywordPhraseFirstThree(keywords: seq<string>, more: seq<string>)
    requires |keywords| == 3
    ensures KeywordPhrase(keywords + more) == KeywordPhrase(keywords)
  {
    assert (keywords + more)[..3] == keywords == keywords[..3];
  }

}
