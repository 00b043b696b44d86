/** The pure logic of the React content dashboard (`ContentDashboard.jsx`): keyword
    parsing and its inverse, the wizard step, the client-side image rule, and the
    additional-parameter map. */
module Dashboard {

  import opened Wrappers
  import Strings
  import Uri
  import Json

  /** A keyword as the dashboard sends it: non-empty, trimmed, comma-free. */
  predicate IsKeyword(k: string)
  {
    k != "" && Strings.IsTrimmed(k, Strings.IsJsSpace) && ',' !in k
  }

  /** `.map(k => k.trim()).filter(k => k)`. */
  function CleanPieces(pieces: seq<string>): (r: seq<string>)
    requires forall i :: 0 <= i < |pieces| ==> ',' !in pieces[i]
    ensures forall i :: 0 <= i < |r| ==> IsKeyword(r[i])
    ensures |r| <= |pieces|
  {
    if pieces == [] then []
    else
      var k := Strings.Trim(pieces[0], Strings.IsJsSpace);
      (if k == "" then [] else [k]) + CleanPieces(pieces[1..])
  }

  /** The keyword field of the form, as `handleSubmit` turns it into a list. */
  function ParseKeywords(field: string): (r: seq<string>)
    ensures field == "" ==> r == []
    ensures forall i :: 0 <= i < |r| ==> IsKeyword(r[i])
  {
    if field == "" then [] else CleanPieces(Strings.Split(field, ','))
  }

  /** `item.keywords.join(', ')`, as `loadHistoryItem` fills the field back in. */
  function JoinKeywords(keywords: seq<string>): string
  {
    Strings.Join(keywords, ", ")
  }

  /** A keyword behind an optional leading space trims back to itself. */
  lemma TrimLead(lead: string, k: string)
    requires lead == "" || lead == " "
    requires IsKeyword(k)
    ensures Strings.Trim(lead + k, Strings.IsJsSpace) == k
    ensures ',' !in lead + k
  {
    if lead == " " {
      Strings.TrimLeadingSpace(' ', k, Strings.IsJsSpace);
    } else {
      assert lead + k == k;
    }
  }

  /** Joining non-empty keywords behind an optional leading space, splitting at commas
      and cleaning gives the keywords back. */
  lemma {:induction false} CleanJoined(lead: string, keywords: seq<string>)
    requires lead == "" || lead == " "
    requires |keywords| >= 1
    requires forall i :: 0 <= i < |keywords| ==> IsKeyword(keywords[i])
    ensures CleanPieces(Strings.Split(lead + JoinKeywords(keywords), ',')) == keywords
    decreases |keywords|
  {
    if |keywords| == 1 {
      CleanSingle(lead, keywords);
    } else {
      var rest := keywords[1..];
      calc {
        CleanPieces(Strings.Split(lead + JoinKeywords(keywords), ','));
        { CleanStep(lead, keywords); }
        [keywords[0]] + CleanPieces(Strings.Split(" " + JoinKeywords(rest), ','));
        { CleanJoined(" ", rest); }
        [keywords[0]] + rest;
        { assert [keywords[0]] + rest == keywords; }
        keywords;
      }
    }
  }

  lemma CleanSingle(lead: string, keywords: seq<string>)
    requires lead == "" || lead == " "
    requires |keywords| == 1 && IsKeyword(keywords[0])
    ensures CleanPieces(Strings.Split(lead + JoinKeywords(keywords), ',')) == keywords
  {
    var k := keywords[0];
    assert JoinKeywords(keywords) == k;
    TrimLead(lead, k);
    CleanOne(lead + k);
    assert [k] == keywords;
  }

  /** A comma-free piece that does not trim to nothing cleans to its trimmed self. */
  lemma CleanOne(x: string)
    requires ',' !in x
    requires Strings.Trim(x, Strings.IsJsSpace) != ""
    ensures CleanPieces(Strings.Split(x, ',')) == [Strings.Trim(x, Strings.IsJsSpace)]
  {
    Strings.SplitNoSeparator(x, ',');
    assert [x][1..] == [];
  }

  lemma CleanStep(lead: string, keywords: seq<string>)
    requires lead == "" || lead == " "
    requires |keywords| >= 2 && IsKeyword(keywords[0])
    ensures CleanPieces(Strings.Split(lead + JoinKeywords(keywords), ','))
            == [keywords[0]] + CleanPieces(Strings.Split(" " + JoinKeywords(keywords[1..]), ','))
  {
    var k := keywords[0];
    var tail := " " + JoinKeywords(keywords[1..]);
    TrimLead(lead, k);
    JoinKeywordsCons(lead, keywords);
    Strings.SplitAfter(lead + k, ',', tail);
    CleanCons(lead + k, Strings.Split(tail, ','));
  }

  lemma JoinKeywordsCons(lead: string, keywords: seq<string>)
    requires |keywords| >= 2
    ensures lead + JoinKeywords(keywords)
            == (lead + keywords[0]) + [','] + (" " + JoinKeywords(keywords[1..]))
  {
    assert JoinKeywords(keywords) == keywords[0] + ", " + JoinKeywords(keywords[1..]);
  }

  lemma CleanCons(x: string, pieces: seq<string>)
    requires ',' !in x
    requires forall i :: 0 <= i < |pieces| ==> ',' !in pieces[i]
    requires Strings.Trim(x, Strings.IsJsSpace) != ""
    ensures CleanPieces([x] + pieces) == [Strings.Trim(x, Strings.IsJsSpace)] + CleanPieces(pieces)
  {
    assert ([x] + pieces)[1..] == pieces;
  }

  /** Loading a history item and submitting again sends the same keywords: parsing
      is the inverse of the `", "` join on well-formed keywords. */
  lemma ParseJoinKeywords(keywords: seq<string>)
    requires forall i :: 0 <= i < |keywords| ==> IsKeyword(keywords[i])
    ensures ParseKeywords(JoinKeywords(keywords)) == keywords
  {
    if keywords != [] {
      CleanJoined("", keywords);
      assert "" + JoinKeywords(keywords) == JoinKeywords(keywords);
    }
  }

  /** `loadHistoryItem`: a stored keyword list replaces the field with its `", "`
      join; an item without a list leaves the field as it was. Submitting the loaded
      field sends the stored keywords again. */
  function LoadKeywords(field: string, stored: Option<seq<string>>): (r: string)
    ensures stored.None? ==> r == field
    ensures stored.Some? && (forall i :: 0 <= i < |stored.value| ==> IsKeyword(stored.value[i])) ==>
              ParseKeywords(r) == stored.value
  {
    match stored
    case None => field
    case Some(keywords) =>
      assert (forall i :: 0 <= i < |keywords| ==> IsKeyword(keywords[i])) ==>
               ParseKeywords(JoinKeywords(keywords)) == keywords by {
        if forall i :: 0 <= i < |keywords| ==> IsKeyword(keywords[i]) {
          ParseJoinKeywords(keywords);
        }
      }
      JoinKeywords(keywords)
  }

  /** `handleNextStep`: `Math.min(prevStep + 1, 3)`. */
  function NextStep(step: int): (r: int)
    ensures r <= 3
    ensures step >= 3 ==> r == 3
    ensures step < 3 ==> r == step + 1
  {
    if step + 1 < 3 then step + 1 else 3
  }

  /** `handleBackStep`: `Math.max(prevStep - 1, 0)`. */
  function BackStep(step: int): (r: int)
    ensures r >= 0
    ensures step <= 0 ==> r == 0
    ensures step > 0 ==> r == step - 1
  {
    if step - 1 > 0 then step - 1 else 0
  }

  datatype Move = Next | Back

  /** The wizard step after a sequence of button presses. */
  function Walk(step: int, moves: seq<Move>): (r: int)
    ensures 0 <= step <= 3 ==> 0 <= r <= 3
    decreases |moves|
  {
    if moves == [] then step
    else
      var s := if moves[0] == Next then NextStep(step) else BackStep(step);
      Walk(s, moves[1..])
  }

  /** Inside the wizard, back undoes next except at the last step, and next undoes
      back except at the first. */
  lemma StepsInverse(step: int)
    requires 0 <= step <= 3
    ensures step < 3 ==> BackStep(NextStep(step)) == step
    ensures step > 0 ==> NextStep(BackStep(step)) == step
  {
  }

  const FallbackImagePrefix := "https://source.unsplash.com/800x400/?"

  /** The image markdown `handleSubmit` appends to a response without one. */
  function FallbackImage(topic: string): string
  {
    "\n\n![Generated Image](" + (FallbackImagePrefix + Uri.EncodeUriComponent(topic) + ")")
  }

  /** Image markdown appended after a blank line carries `![`, whatever its target. */
  lemma MarkdownAppended(content: string, target: string)
    ensures var r := content + ("\n\n![Generated Image](" + target);
            Strings.StartsWith(r, content) && Strings.Contains(r, "![")
  {
    var r := content + ("\n\n![Generated Image](" + target);
    var k := |content| + 2;
    assert r[k] == '!' && r[k + 1] == '[';
    assert r[k..k + 2] == "![";
    Strings.ContainsAt(r, "![", k);
    assert r[..|content|] == content;
  }

  /** The fallback image carries `![` after whatever it is appended to. */
  lemma FallbackImageAppended(content: string, topic: string)
    ensures var r := content + FallbackImage(topic);
            Strings.StartsWith(r, content) && Strings.Contains(r, "![")
  {
    MarkdownAppended(content, FallbackImagePrefix + Uri.EncodeUriComponent(topic) + ")");
  }

  /** The client-side rule: content already carrying image markdown is kept as is,
      anything else gets the fallback image appended. */
  function EnsureImage(content: string, topic: string): (r: string)
    ensures Strings.Contains(content, "![") ==> r == content
    ensures Strings.StartsWith(r, content)
    ensures Strings.Contains(r, "![")
    ensures !Strings.Contains(content, "![") ==>
              exists q :: && r == content + ("\n\n![Generated Image](" + (FallbackImagePrefix + q + ")"))
                          && Uri.DecodeToBytes(q) == Some(Uri.Utf8String(topic))
  {
    if Strings.Contains(content, "![") then content
    else
      FallbackImageAppended(content, topic);
      Uri.DecodeEncode(topic);
      content + FallbackImage(topic)
  }

  /** Applying the rule twice is applying it once. */
  lemma EnsureImageIdempotent(content: string, topic: string)
    ensures EnsureImage(EnsureImage(content, topic), topic) == EnsureImage(content, topic)
  {
  }

  /** The form state that the content-type selector and the parameter inputs edit. */
  datatype Form = Form(contentType: string, params: map<string, Json.Value>)

  /** `handleContentTypeChange`: switch the type and forget every additional parameter. */
  function ChangeContentType(form: Form, contentType: string): (r: Form)
    ensures r.contentType == contentType
    ensures |r.params| == 0
  {
    Form(contentType, map[])
  }

  /** `handleAdditionalParamChange`: set one parameter, keep every other. */
  function SetParam(params: map<string, Json.Value>, name: string, value: Json.Value): (r: map<string, Json.Value>)
    ensures r.Keys == params.Keys + {name}
    ensures r[name] == value
    ensures forall k :: k in params && k != name ==> r[k] == params[k]
  {
    params[name := value]
  }

  /** The `additional_params` object `handleSubmit` sends: the user's parameters, with
      `length` (lower-cased) and `generate_image: true` laid over them. */
  function SubmitParams(params: map<string, Json.Value>, length: string): (r: map<string, Json.Value>)
    ensures r.Keys == params.Keys + {"length", "generate_image"}
    ensures r["length"] == Json.Str(Strings.Lower(length))
    ensures r["generate_image"] == Json.Bool(true)
    ensures forall k :: k in params && k != "length" && k != "generate_image" ==> r[k] == params[k]
  {
    params["length" := Json.Str(Strings.Lower(length))]["generate_image" := Json.Bool(true)]
  }

}
