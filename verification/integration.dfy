/** How the dashboard and the Flask generator fit together: what the dashboard sends
    is what the generator reads, and the generator's image is what the dashboard
    keeps. */
module Integration {

  import opened Wrappers
  import Strings
  import Json
  import Dashboard
  import ContentGeneration
  import ContentHistory

  /** The keyword phrase of the demo templates, typed back into the keyword field,
      parses to the first three keywords. */
  lemma KeywordPhraseParses(keywords: seq<string>)
    requires keywords != []
    requires forall i :: 0 <= i < |keywords| ==> Dashboard.IsKeyword(keywords[i])
    ensures Dashboard.ParseKeywords(ContentGeneration.KeywordPhrase(keywords))
            == keywords[..if |keywords| < 3 then |keywords| else 3]
  {
    var first := keywords[..if |keywords| < 3 then |keywords| else 3];
    assert forall i :: 0 <= i < |first| ==> Dashboard.IsKeyword(first[i]);
    Dashboard.ParseJoinKeywords(first);
  }

  /** The length the dashboard submits always selects a budget, and the budget is
      the one its lower-cased name names. */
  lemma SubmittedLengthBudget(params: map<string, Json.Value>, length: string)
    ensures var r := ContentGeneration.MaxLength(Dashboard.SubmitParams(params, length));
            && r.Some?
            && (r == Some(300) <==> Strings.Lower(length) == "short")
            && (r == Some(800) <==> Strings.Lower(length) == "long")
  {
    Strings.LowerIdempotent(length);
  }

  /** The dashboard always asks the generator for an image. */
  lemma SubmittedParamsRequestImage(params: map<string, Json.Value>, length: string)
    ensures ContentHistory.ImageRequested(Dashboard.SubmitParams(params, length))
  {
  }

  /** A request the dashboard builds with a non-empty topic is answered 200, with an
      image, and recorded in the history. The dashboard's parameter selectors only
      ever store strings. */
  lemma DashboardRequestSucceeds(h: ContentHistory.History, topic: string, tone: string, contentType: string,
                                 keywords: seq<string>, params: map<string, Json.Value>, length: string,
                                 text: string, id: string, timestamp: string)
    requires topic != ""
    requires forall k :: k in params ==> params[k].Str?
    ensures var req := ContentHistory.GenerateRequest(Some(topic), Some(tone), Some(contentType), Some(keywords),
                                                      Some(Dashboard.SubmitParams(params, length)));
            var o := ContentHistory.Generate(h, req, text, id, timestamp);
            && o.response.status == 200
            && o.response.body.image.Some?
            && o.history[|o.history| - 1].id == id
  {
    SubmittedLengthBudget(params, length);
  }

  /** Content to which the generator appended its image is left alone by the
      dashboard's own image rule. */
  lemma GeneratedImageKept(text: string, url: string, topic: string, clientTopic: string)
    requires ContentGeneration.WantsImage(text, Some(url))
    ensures var content := ContentGeneration.AppendImage(text, Some(url), topic);
            Dashboard.EnsureImage(content, clientTopic) == content
  {
  }

}
