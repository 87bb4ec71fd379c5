/** The image-edit service wrapper: how one request's parts are laid out, how
    the reply is scanned for an image, and how the error text for a reply
    without an image is built. The network call itself is a parameter. */
module GeminiService {
  import opened Common
  import opened Strings

  /** One entry of the request's `parts` list. */
  datatype RequestPart =
    | InlineImage(data: Option<string>, mimeType: string)
    | TextPart(text: string)

  /** Inline data of a reply part. */
  datatype InlineData = InlineData(data: string, mimeType: string)

  /** A reply part; text-only parts have no inline data. */
  datatype ResponsePart = ResponsePart(inlineData: Option<InlineData>)

  datatype Content = Content(parts: Option<seq<ResponsePart>>)

  datatype Candidate = Candidate(content: Option<Content>)

  datatype SafetyRating = SafetyRating(category: string, probability: string)

  datatype PromptFeedback = PromptFeedback(blockReason: Option<string>, safetyRatings: Option<seq<SafetyRating>>)

  datatype Response = Response(candidates: Option<seq<Candidate>>, promptFeedback: Option<PromptFeedback>)

  /** How the call to the model settled: with a reply, or by throwing. */
  datatype Reply = Answered(response: Response) | CallThrew(thrown: Thrown)

  const HarmPrefix := "HARM_CATEGORY_"
  const BlockedPrefix := "Request was blocked due to "
  const FlaggedIntro := " The content was flagged for: "
  const AdjustAdvice := " Please adjust your prompt or use a different image."
  const NoImageMessage := "No image was generated. The model may have refused the request. Please try a different prompt or image."

  /** `blobToBase64` after the reader has produced `dataUrl`: the text after
      the first comma, up to the next comma (`dataUrl.split(',')[1]`). */
  function Base64Payload(dataUrl: string): (r: Option<string>)
    ensures r.None? <==> ',' !in dataUrl
    ensures r.Some? ==> ',' !in r.value
  {
    SecondField(dataUrl, ',')
  }

  /** The inline part built for one file; `encode` stands for the browser's
      `FileReader.readAsDataURL`. */
  function ImagePart(f: File, encode: File -> string): RequestPart {
    InlineImage(Base64Payload(encode(f)), f.mime)
  }

  /** The layout of a request: the primary image, each additional image in
      order, and the prompt text last. */
  predicate IsRequestFor(parts: seq<RequestPart>, prompt: string, imageFile: File,
                         additionalImages: seq<File>, encode: File -> string)
  {
    && |parts| == 2 + |additionalImages|
    && parts[0] == ImagePart(imageFile, encode)
    && (forall i :: 0 <= i < |additionalImages| ==> parts[i + 1] == ImagePart(additionalImages[i], encode))
    && parts[|parts| - 1] == TextPart(prompt)
  }

  /** Builds `parts` by pushing onto a list, as the service does. */
  method BuildRequestParts(prompt: string, imageFile: File, additionalImages: seq<File>,
                           encode: File -> string)
    returns (parts: seq<RequestPart>)
    ensures IsRequestFor(parts, prompt, imageFile, additionalImages, encode)
    ensures parts[0].InlineImage? && parts[0].mimeType == imageFile.mime
    ensures forall i :: 0 <= i < |additionalImages| ==>
              parts[i + 1].InlineImage? && parts[i + 1].mimeType == additionalImages[i].mime
    ensures forall i :: 0 <= i < |parts| ==> (parts[i].TextPart? <==> i == |parts| - 1)
  {
    parts := [];
    parts := parts + [ImagePart(imageFile, encode)];
    for k := 0 to |additionalImages|
      invariant |parts| == 1 + k
      invariant parts[0] == ImagePart(imageFile, encode)
      invariant forall i :: 0 <= i < k ==> parts[i + 1] == ImagePart(additionalImages[i], encode)
    {
      parts := parts + [ImagePart(additionalImages[k], encode)];
    }
    parts := parts + [TextPart(prompt)];
    assert forall i :: 1 <= i < |parts| - 1 ==> parts[i] == ImagePart(additionalImages[i - 1], encode);
  }

  /** The optional chain reaches a parts list of the first candidate. */
  predicate HasFirstParts(response: Response) {
    && response.candidates.Some? && response.candidates.value != []
    && response.candidates.value[0].content.Some?
    && response.candidates.value[0].content.value.parts.Some?
  }

  /** `response.candidates?.[0]?.content?.parts || []`: the first candidate's
      parts when the chain reaches them, the empty list otherwise. */
  function FirstCandidateParts(response: Response): (r: seq<ResponsePart>)
    ensures HasFirstParts(response) ==> r == response.candidates.value[0].content.value.parts.value
    ensures !HasFirstParts(response) ==> r == []
  {
    match response.candidates
    case Some(cs) =>
      if cs != [] && cs[0].content.Some? && cs[0].content.value.parts.Some?
      then cs[0].content.value.parts.value else []
    case None => []
  }

  /** The data URL the service returns for an inline image: the `data:`
      scheme, the MIME tag, the base64 marker, then the payload. */
  function ImageDataUrl(d: InlineData): (r: string)
    ensures |r| == 5 + |d.mimeType| + 8 + |d.data|
    ensures r[..5] == "data:"
    ensures r[5..5 + |d.mimeType|] == d.mimeType
    ensures r[5 + |d.mimeType|..5 + |d.mimeType| + 8] == ";base64,"
    ensures r[5 + |d.mimeType| + 8..] == d.data
  {
    "data:" + d.mimeType + ";base64," + d.data
  }

  /** Part `i` is the first reply part that carries inline data. */
  predicate IsFirstImage(parts: seq<ResponsePart>, i: int) {
    0 <= i < |parts| && parts[i].inlineData.Some? && forall j :: 0 <= j < i ==> parts[j].inlineData.None?
  }

  /** The scan over the reply parts with early return: the data URL of the
      first part that has inline data, or none when no part has any. */
  method FindImage(parts: seq<ResponsePart>) returns (r: Option<string>)
    ensures r.None? <==> forall i :: 0 <= i < |parts| ==> parts[i].inlineData.None?
    ensures r.Some? ==>
      exists i :: IsFirstImage(parts, i) && r.value == ImageDataUrl(parts[i].inlineData.value)
  {
    for k := 0 to |parts|
      invariant forall j :: 0 <= j < k ==> parts[j].inlineData.None?
    {
      if parts[k].inlineData.Some? {
        return Some(ImageDataUrl(parts[k].inlineData.value));
      }
    }
    return None;
  }

  /** `toLowerCase()` followed by `replace(/_/g, ' ')`. */
  function Normalize(s: string): (r: string)
    ensures |r| == |s|
    ensures forall i :: 0 <= i < |r| ==> r[i] != '_' && !('A' <= r[i] <= 'Z')
    ensures forall i :: 0 <= i < |s| && s[i] == '_' ==> r[i] == ' '
    ensures forall i :: 0 <= i < |s| ==> r[i] == if s[i] == '_' then ' ' else LowerChar(s[i])
  {
    ReplaceAll(ToLower(s), '_', ' ')
  }

  /** The display name of a harm category: the first `HARM_CATEGORY_` is
      removed, then the rest is normalized. */
  function CategoryLabel(category: string): (r: string)
    ensures StartsWith(category, HarmPrefix) ==> r == Normalize(category[|HarmPrefix|..])
    ensures IndexOf(category, HarmPrefix).None? ==> r == Normalize(category)
    ensures IndexOf(category, HarmPrefix).Some? ==>
      var i := IndexOf(category, HarmPrefix).value;
      r == Normalize(category[..i] + category[i + |HarmPrefix|..])
  {
    var stripped := ReplaceFirst(category, HarmPrefix, "");
    assert StartsWith(category, HarmPrefix) ==> stripped == category[|HarmPrefix|..] by {
      if StartsWith(category, HarmPrefix) {
        assert OccursAt(category, HarmPrefix, 0);
      }
    }
    Normalize(stripped)
  }

  predicate IsFlagged(rating: SafetyRating) {
    rating.probability == "MEDIUM" || rating.probability == "HIGH"
  }

  /** The `filter`/`map` chain over the safety ratings: empty exactly when
      no rating is MEDIUM or HIGH. */
  function FlaggedCategories(ratings: seq<SafetyRating>): (r: seq<string>)
    ensures |r| <= |ratings|
    ensures r == [] <==> forall i :: 0 <= i < |ratings| ==> !IsFlagged(ratings[i])
  {
    if ratings == [] then []
    else (if IsFlagged(ratings[0]) then [CategoryLabel(ratings[0].category)] else [])
         + FlaggedCategories(ratings[1..])
  }

  /** The filter works element by element, so it keeps the original order:
      the list for a concatenation is the concatenation of the lists. */
  lemma {:induction false} FlaggedCategoriesAppend(a: seq<SafetyRating>, b: seq<SafetyRating>)
    ensures FlaggedCategories(a + b) == FlaggedCategories(a) + FlaggedCategories(b)
  {
    if a == [] {
      assert a + b == b;
    } else {
      assert (a + b)[1..] == a[1..] + b;
      FlaggedCategoriesAppend(a[1..], b);
    }
  }

  /** Exactly the MEDIUM and HIGH ratings contribute an entry, and nothing else does. */
  lemma {:induction false} FlaggedCategoriesMembers(ratings: seq<SafetyRating>, name: string)
    ensures name in FlaggedCategories(ratings) <==>
      exists i :: 0 <= i < |ratings| && IsFlagged(ratings[i]) && name == CategoryLabel(ratings[i].category)
    ensures |FlaggedCategories(ratings)| <= |ratings|
  {
    if ratings != [] {
      FlaggedCategoriesMembers(ratings[1..], name);
      if name in FlaggedCategories(ratings[1..]) {
        var i :| 0 <= i < |ratings[1..]| && IsFlagged(ratings[1..][i])
                 && name == CategoryLabel(ratings[1..][i].category);
        assert ratings[i + 1] == ratings[1..][i];
      }
      if exists i :: 0 <= i < |ratings| && IsFlagged(ratings[i]) && name == CategoryLabel(ratings[i].category) {
        var i :| 0 <= i < |ratings| && IsFlagged(ratings[i]) && name == CategoryLabel(ratings[i].category);
        if i > 0 {
          assert ratings[1..][i - 1] == ratings[i];
        }
      }
    }
  }

  /** The `" The content was flagged for: …."` clause: empty exactly when
      nothing is flagged, otherwise the intro, the labels joined by `", "`,
      and a full stop. */
  function FlaggedClause(safetyRatings: Option<seq<SafetyRating>>): (r: string)
    ensures r == "" <==> safetyRatings.None? || FlaggedCategories(safetyRatings.value) == []
    ensures r != "" ==>
      && |FlaggedIntro| < |r| && r[..|FlaggedIntro|] == FlaggedIntro && r[|r| - 1] == '.'
      && r[|FlaggedIntro|..|r| - 1] == Join(FlaggedCategories(safetyRatings.value), ", ")
  {
    match safetyRatings
    case None => ""
    case Some(ratings) =>
      var issues := FlaggedCategories(ratings);
      if |issues| > 0 then FlaggedIntro + Join(issues, ", ") + "." else ""
  }

  /** The message thrown when the reply has no image but a block reason. */
  function BlockedMessage(reason: string, safetyRatings: Option<seq<SafetyRating>>): (r: string)
    ensures StartsWith(r, BlockedPrefix + Normalize(reason) + ".")
    ensures |AdjustAdvice| <= |r| && r[|r| - |AdjustAdvice|..] == AdjustAdvice
    ensures |r| == |BlockedPrefix| + |reason| + 1 + |FlaggedClause(safetyRatings)| + |AdjustAdvice|
    ensures |r| == |BlockedPrefix| + |reason| + 1 + |AdjustAdvice| <==>
              safetyRatings.None? || FlaggedCategories(safetyRatings.value) == []
    ensures safetyRatings.Some? && FlaggedCategories(safetyRatings.value) != [] ==>
      r[|BlockedPrefix| + |reason| + 1..|r| - |AdjustAdvice|]
        == FlaggedIntro + Join(FlaggedCategories(safetyRatings.value), ", ") + "."
  {
    var head := BlockedPrefix + Normalize(reason) + ".";
    var clause := FlaggedClause(safetyRatings);
    var r := head + clause + AdjustAdvice;
    assert r[..|head|] == head;
    assert r[|head|..|r| - |AdjustAdvice|] == clause;
    r
  }

  /** What the call settles to for a given reply from the model. */
  method EditImageWithPrompt(prompt: string, imageFile: File, additionalImages: seq<File>,
                             encode: File -> string, reply: Reply)
    returns (sent: seq<RequestPart>, outcome: Outcome)
    ensures IsRequestFor(sent, prompt, imageFile, additionalImages, encode)
    ensures reply.CallThrew? ==> outcome == Threw(reply.thrown)
    ensures reply.Answered? ==>
      var parts := FirstCandidateParts(reply.response);
      var feedback := reply.response.promptFeedback;
      if exists i :: 0 <= i < |parts| && parts[i].inlineData.Some? then
        exists i :: IsFirstImage(parts, i) && outcome == Returned(ImageDataUrl(parts[i].inlineData.value))
      else if feedback.Some? && Truthy(feedback.value.blockReason) then
        outcome == Threw(ErrorObject(BlockedMessage(feedback.value.blockReason.value,
                                                    feedback.value.safetyRatings)))
      else
        outcome == Threw(ErrorObject(NoImageMessage))
  {
    sent := BuildRequestParts(prompt, imageFile, additionalImages, encode);
    match reply
    case CallThrew(t) =>
      outcome := Threw(t);
    case Answered(response) =>
      var found := FindImage(FirstCandidateParts(response));
      if found.Some? {
        outcome := Returned(found.value);
      } else if response.promptFeedback.Some? && Truthy(response.promptFeedback.value.blockReason) {
        var feedback := response.promptFeedback.value;
        outcome := Threw(ErrorObject(BlockedMessage(feedback.blockReason.value, feedback.safetyRatings)));
      } else {
        outcome := Threw(ErrorObject(NoImageMessage));
      }
  }

  /** Reading back the image the service returned recovers its payload, when
      the MIME tag and the payload hold no comma (base64 never does). */
  lemma PayloadOfImageDataUrl(d: InlineData)
    requires ',' !in d.mimeType && ',' !in d.data
    ensures Base64Payload(ImageDataUrl(d)) == Some(d.data)
  {
    var a := "data:" + d.mimeType + ";base64";
    assert ',' !in a by {
      assert a == "data:" + d.mimeType + ";base64";
      forall i | 0 <= i < |a| ensures a[i] != ',' {
        if i < 5 { assert a[i] == "data:"[i]; }
        else if i < 5 + |d.mimeType| { assert a[i] == d.mimeType[i - 5]; }
        else { assert a[i] == ";base64"[i - 5 - |d.mimeType|]; }
      }
    }
    assert ImageDataUrl(d) == a + [','] + d.data + [];
    SecondFieldOfJoined(a, ',', d.data, []);
  }
}
