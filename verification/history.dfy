/** The Flask backend's content history (`app.py`): the generate endpoint that records
    each piece of generated content, the bound of 50 items, and lookup by id. */
module ContentHistory {

  import opened Wrappers
  import Seqs
  import Strings
  import Json
  import ContentGeneration

  /** One history entry. `image` is `None` for the empty `image_data` of a request
      that asked for no image. */
  datatype HistoryItem = HistoryItem(
    id: string,
    topic: string,
    tone: string,
    contentType: string,
    keywords: seq<string>,
    content: string,
    timestamp: string,
    image: Option<ContentGeneration.ImageResult>)

  type History = seq<HistoryItem>

  /** The history keeps at most this many items. */
  const MaxHistory := 50

  /** Append an item, then drop the oldest one when the history is over the bound. */
  function Remember(h: History, item: HistoryItem): (r: History)
    ensures |h| <= MaxHistory ==> |r| <= MaxHistory
    ensures |h| < MaxHistory ==> r == h + [item]
    ensures |h| <= |r| <= |h| + 1
    ensures r[|r| - 1] == item
    ensures r[..|r| - 1] == h[|h| + 1 - |r|..]
  {
    var appended := h + [item];
    if |appended| > MaxHistory then appended[1..] else appended
  }

  /** The history after a sequence of generate calls. */
  function RememberAll(h: History, items: seq<HistoryItem>): History
    decreases |items|
  {
    if items == [] then h else RememberAll(Remember(h, items[0]), items[1..])
  }

  /** The last `n` elements of `s`, or all of it when it is shorter. */
  function Last<T>(s: seq<T>, n: nat): (r: seq<T>)
    ensures |r| == if |s| <= n then |s| else n
  {
    if |s| <= n then s else s[|s| - n..]
  }

  /** Keeping the last `n`, then appending and keeping the last `n` again, is keeping
      the last `n` of the whole. */
  lemma LastAppend<T>(s: seq<T>, t: seq<T>, n: nat)
    ensures Last(Last(s, n) + t, n) == Last(s + t, n)
  {
    if |s| > n {
      var l := s[|s| - n..];
      if t == [] {
        assert l + t == l;
        assert s + t == s;
      } else {
        assert Last(l + t, n) == (l + t)[|t|..];
        assert Last(s + t, n) == (s + t)[|s| + |t| - n..];
        forall k | |t| <= k < |t| + n
          ensures (l + t)[k] == (s + t)[|s| - n + k]
        {
          if k < n {
            assert (l + t)[k] == s[|s| - n + k];
          }
        }
      }
    }
  }

  /** One step of the bound keeps exactly the newest 50. */
  lemma RememberIsLast(h: History, item: HistoryItem)
    requires |h| <= MaxHistory
    ensures Remember(h, item) == Last(h + [item], MaxHistory)
  {
  }

  /** Starting from a history within the bound, any number of generate calls leaves
      exactly the newest 50 of all items, oldest first. */
  lemma {:induction false} RememberAllKeepsLast(h: History, items: seq<HistoryItem>)
    requires |h| <= MaxHistory
    ensures RememberAll(h, items) == Last(h + items, MaxHistory)
    decreases |items|
  {
    if items == [] {
      assert h + items == h;
    } else {
      var x := items[0];
      var rest := items[1..];
      calc {
        RememberAll(h, items);
        RememberAll(Remember(h, x), rest);
        { RememberAllKeepsLast(Remember(h, x), rest); }
        Last(Remember(h, x) + rest, MaxHistory);
        { RememberIsLast(h, x); }
        Last(Last(h + [x], MaxHistory) + rest, MaxHistory);
        { LastAppend(h + [x], rest, MaxHistory); }
        Last(h + [x] + rest, MaxHistory);
        { assert h + [x] + rest == h + items; }
        Last(h + items, MaxHistory);
      }
    }
  }

  /** So the history never holds more than 50 items, and the newest is last. */
  lemma RememberAllBounded(h: History, items: seq<HistoryItem>)
    requires |h| <= MaxHistory
    ensures |RememberAll(h, items)| <= MaxHistory
    ensures items != [] ==> RememberAll(h, items) != []
    ensures items != [] ==> RememberAll(h, items)[|RememberAll(h, items)| - 1] == items[|items| - 1]
  {
    RememberAllKeepsLast(h, items);
    var all := h + items;
    if items != [] {
      assert all[|all| - 1] == items[|items| - 1];
    }
  }

  function HasId(id: string): HistoryItem -> bool
  {
    (e: HistoryItem) => e.id == id
  }

  /** The `for` loop of `get_content_by_id`: the first entry with the id. */
  function FindContent(h: History, id: string): (r: Option<HistoryItem>)
    ensures r.Some? ==> r.value.id == id
    ensures r.Some? ==> exists i :: 0 <= i < |h| && h[i] == r.value && forall j :: 0 <= j < i ==> h[j].id != id
    ensures r.None? <==> forall i :: 0 <= i < |h| ==> h[i].id != id
  {
    match Seqs.FindFirst(h, HasId(id))
    case None => None
    case Some(i) =>
      assert forall j :: 0 <= j < i ==> h[j].id != id by {
        forall j | 0 <= j < i ensures h[j].id != id {
          assert !HasId(id)(h[j]);
        }
      }
      Some(h[i])
  }

  const ContentNotFound := "Content not found"

  datatype Lookup = Found(item: HistoryItem) | NotFound(error: string)

  datatype LookupResponse = LookupResponse(status: int, body: Lookup)

  /** GET /api/history/<content_id>. */
  function GetContentById(h: History, id: string): (r: LookupResponse)
    ensures r.status == 404 <==> forall i :: 0 <= i < |h| ==> h[i].id != id
    ensures r.status == 404 ==> r.body == NotFound(ContentNotFound)
    ensures r.status != 404 ==> r.status == 200 && r.body.Found? && r.body.item.id == id
    ensures r.status != 404 ==>
              exists i :: 0 <= i < |h| && h[i] == r.body.item && forall j :: 0 <= j < i ==> h[j].id != id
  {
    match FindContent(h, id)
    case None => LookupResponse(404, NotFound(ContentNotFound))
    case Some(item) => LookupResponse(200, Found(item))
  }

  /** The JSON body of POST /api/generate. `None` is an absent key, which takes the
      handler's default. */
  datatype GenerateRequest = GenerateRequest(
    topic: Option<string>,
    tone: Option<string>,
    contentType: Option<string>,
    keywords: Option<seq<string>>,
    params: Option<map<string, Json.Value>>)

  datatype GenerateBody =
    | Generated(content: string, timestamp: string, id: string, image: Option<string>)
    | GenerateError(error: string)

  datatype GenerateResponse = GenerateResponse(status: int, body: GenerateBody)

  datatype GenerateOutcome = GenerateOutcome(history: History, response: GenerateResponse)

  const TopicRequired := "Topic is required"

  function Get<T>(field: Option<T>, default: T): T
  {
    if field.Some? then field.value else default
  }

  /** The value of a string parameter, its default when absent. A non-string value
      also reads as the default. */
  function StringParam(params: map<string, Json.Value>, key: string, default: string): string
  {
    if key in params && params[key].Str? then params[key].s else default
  }

  /** `additional_params.get('generate_image', True)`, as a condition. */
  predicate ImageRequested(params: map<string, Json.Value>)
  {
    "generate_image" !in params || Json.Truthy(params["generate_image"])
  }

  /** The image prompt: the topic, a space, and the first three keywords joined by
      spaces. */
  function ImagePrompt(topic: string, keywords: seq<string>): (r: string)
    ensures Strings.StartsWith(r, topic + " ")
  {
    var first := keywords[..if |keywords| < 3 then |keywords| else 3];
    var r := topic + " " + Strings.Join(first, " ");
    assert r[..|topic + " "|] == topic + " ";
    r
  }

  /** Stands in for the text of the exception `.lower()` raises on a non-string
      `length`, which the endpoint answers with 500. */
  const LengthNotString := "length is not a string"

  /** The image `generate_image` makes for a request: its prompt is never empty, so
      it is always a URL. */
  function RequestedImage(topic: string, keywords: seq<string>, params: map<string, Json.Value>): (r: ContentGeneration.ImageResult)
    requires topic != ""
    ensures r.Image?
    ensures Strings.StartsWith(r.url, ContentGeneration.ImageHost)
    ensures r.style == StringParam(params, "image_style", "realistic")
    ensures r.size == StringParam(params, "image_size", "medium")
    ensures Strings.StartsWith(r.prompt, topic + " ")
  {
    var prompt := ImagePrompt(topic, keywords);
    var r := ContentGeneration.GenerateImage(prompt, StringParam(params, "image_style", "realistic"),
                                             StringParam(params, "image_size", "medium"));
    ContentGeneration.ImageUrlPrefix(r.url, r.size);
    r
  }

  /** The history item a successful generate call stores: the request's fields, the
      image when one is requested, and the text with that image appended by the
      image rule. */
  function GeneratedItem(topic: string, tone: string, contentType: string, keywords: seq<string>,
                         params: map<string, Json.Value>, text: string, id: string, timestamp: string): (r: HistoryItem)
    requires topic != ""
    ensures r.id == id && r.topic == topic && r.timestamp == timestamp
    ensures r.tone == tone && r.contentType == contentType && r.keywords == keywords
    ensures r.image.Some? <==> ImageRequested(params)
    ensures r.image.Some? ==> r.image.value == RequestedImage(topic, keywords, params)
    ensures r.image.Some? ==> r.content == ContentGeneration.AppendImage(text, Some(r.image.value.url), topic)
    ensures r.image.None? ==> r.content == text
    ensures Strings.StartsWith(r.content, text)
  {
    if ImageRequested(params) then
      var image := RequestedImage(topic, keywords, params);
      var content := ContentGeneration.AppendImage(text, Some(image.url), topic);
      HistoryItem(id, topic, tone, contentType, keywords, content, timestamp, Some(image))
    else
      assert text[..|text|] == text;
      HistoryItem(id, topic, tone, contentType, keywords, text, timestamp, None)
  }

  /** POST /api/generate. The generated text (the model call, or its demo fallback),
      the uuid and the timestamp are parameters. */
  function Generate(h: History, req: GenerateRequest, text: string, id: string, timestamp: string): (o: GenerateOutcome)
    ensures Get(req.topic, "") == "" <==> o.response.status == 400
    ensures o.response.status == 400 ==> o == GenerateOutcome(h, GenerateResponse(400, GenerateError(TopicRequired)))
    ensures o.response.status == 500 <==>
              Get(req.topic, "") != "" && ContentGeneration.MaxLength(Get(req.params, map[])).None?
    ensures o.response.status == 500 ==> o == GenerateOutcome(h, GenerateResponse(500, GenerateError(LengthNotString)))
    ensures o.response.status == 200 || o.response.status == 400 || o.response.status == 500
    ensures o.response.status == 200 ==>
              && o.history != [] && o.response.body.Generated?
              && o.history == Remember(h, o.history[|o.history| - 1])
              && o.history[|o.history| - 1].id == id
              && o.history[|o.history| - 1].topic == req.topic.value
              && o.history[|o.history| - 1].timestamp == timestamp
              && o.response.body == Generated(o.history[|o.history| - 1].content, timestamp, id, o.response.body.image)
              && Strings.StartsWith(o.response.body.content, text)
              && (o.response.body.image.Some? <==> ImageRequested(Get(req.params, map[])))
              && (o.response.body.image.Some? <==> o.history[|o.history| - 1].image.Some?)
    ensures o.response.status == 200 ==>
              var last := o.history[|o.history| - 1];
              var params := Get(req.params, map[]);
              && last.tone == Get(req.tone, "professional")
              && last.contentType == Get(req.contentType, "blog")
              && last.keywords == Get(req.keywords, [])
              && (last.image.Some? ==> last.image.value == RequestedImage(last.topic, last.keywords, params))
              && (last.image.Some? ==> o.response.body.image == Some(last.image.value.url))
              && (last.image.Some? ==> last.content == ContentGeneration.AppendImage(text, Some(last.image.value.url), last.topic))
              && (last.image.None? ==> last.content == text)
  {
    var topic := Get(req.topic, "");
    if topic == "" then GenerateOutcome(h, GenerateResponse(400, GenerateError(TopicRequired)))
    else
      var params := Get(req.params, map[]);
      if ContentGeneration.MaxLength(params).None? then
        GenerateOutcome(h, GenerateResponse(500, GenerateError(LengthNotString)))
      else
        var item := GeneratedItem(topic, Get(req.tone, "professional"), Get(req.contentType, "blog"),
                                  Get(req.keywords, []), params, text, id, timestamp);
        var url := if item.image.Some? then Some(item.image.value.url) else None;
        GenerateOutcome(Remember(h, item), GenerateResponse(200, Generated(item.content, timestamp, id, url)))
  }

  /** With an image requested and text that has no image and does not end in a code
      fence, the content returned and stored is the text followed by the markdown of
      the image the response names. */
  lemma GenerateShowsImage(h: History, req: GenerateRequest, text: string, id: string, timestamp: string)
    requires Get(req.topic, "") != ""
    requires ContentGeneration.MaxLength(Get(req.params, map[])).Some?
    requires ImageRequested(Get(req.params, map[]))
    requires !Strings.Contains(text, "![")
    requires !Strings.EndsWith(Strings.Trim(text, Strings.IsPySpace), ContentGeneration.Fence)
    ensures var o := Generate(h, req, text, id, timestamp);
            && o.response.body.Generated? && o.response.body.image.Some?
            && Strings.StartsWith(o.response.body.image.value, ContentGeneration.ImageHost)
            && o.response.body.content == text + ContentGeneration.ImageMarkdown(req.topic.value, o.response.body.image.value)
  {
    var params := Get(req.params, map[]);
    var topic := req.topic.value;
    var prompt := ImagePrompt(topic, Get(req.keywords, []));
    var image := ContentGeneration.GenerateImage(prompt, StringParam(params, "image_style", "realistic"),
                                                 StringParam(params, "image_size", "medium"));
    assert prompt != "";
    assert ContentGeneration.WantsImage(text, Some(image.url));
    assert ContentGeneration.AppendImage(text, Some(image.url), topic)
           == text + ContentGeneration.ImageMarkdown(topic, image.url);
  }

  /** Remembering an item whose id is new makes it the answer to a lookup of that id. */
  lemma RememberThenFind(h: History, item: HistoryItem)
    requires forall i :: 0 <= i < |h| ==> h[i].id != item.id
    ensures GetContentById(Remember(h, item), item.id) == LookupResponse(200, Found(item))
  {
    var r := Remember(h, item);
    var n := |r|;
    assert forall i :: 0 <= i < n - 1 ==> r[i].id != item.id by {
      forall i | 0 <= i < n - 1 ensures r[i].id != item.id {
        assert r[i] == r[..n - 1][i] == h[|h| + 1 - n + i];
      }
    }
  }

  /** What a generate call stores is what `get_content_by_id` returns for its id,
      as long as no older entry carries the same id. */
  lemma GenerateThenLookup(h: History, req: GenerateRequest, text: string, id: string, timestamp: string)
    requires forall i :: 0 <= i < |h| ==> h[i].id != id
    requires Generate(h, req, text, id, timestamp).response.status == 200
    ensures var o := Generate(h, req, text, id, timestamp);
            && GetContentById(o.history, id) == LookupResponse(200, Found(o.history[|o.history| - 1]))
            && o.history[|o.history| - 1].content == o.response.body.content
  {
    var o := Generate(h, req, text, id, timestamp);
    RememberThenFind(h, o.history[|o.history| - 1]);
  }

}
