/** The OCR analysis of the backend: it reads the text of a photographed
    label with the Vision service, has the Python service normalize the text
    and analyze the ingredients against the user's allergies, converts the
    loosely typed answer into a typed response and keeps a record of it. */
module OcrAnalysis {
  import opened Wrappers
  import Text
  import opened Json
  import opened Repositories
  import AllergyService

  /** `OcrAnalysisResponse.IngredientRisk`; a field never set is None (Java null). */
  datatype IngredientRisk = IngredientRisk(
    ingredientName: Option<string>, content: Option<string>, allergyRisk: Option<string>,
    riskLevel: Option<string>, reason: Option<string>)

  /** `OcrAnalysisResponse.IngredientAnalysis` */
  datatype IngredientAnalysis = IngredientAnalysis(
    safetyLevel: Option<string>,
    ingredientRisks: Option<seq<IngredientRisk>>,
    expectedSideEffects: Option<seq<string>>,
    overallAssessment: Option<string>,
    recommendations: Option<seq<string>>)

  /** An analysis as `new IngredientAnalysis()` creates it. */
  const Unset := IngredientAnalysis(None, None, None, None, None)

  datatype OcrAnalysisResponse = OcrAnalysisResponse(
    ocrText: string, cleanedText: string, extractedIngredients: seq<string>, analysis: IngredientAnalysis)

  const UserIdMissing := "사용자 ID가 설정되지 않았습니다"
  const UserNotFoundPrefix := "사용자를 찾을 수 없습니다: "
  const NoTextExtracted := "이미지에서 텍스트를 추출할 수 없습니다"
  const NormalizationFailedPrefix := "OCR 텍스트 정규화 중 오류가 발생했습니다: "
  const AnalysisFailedPrefix := "OCR 분석 중 오류가 발생했습니다: "
  /** The image reference stored in place of inline Base64 data. */
  const Base64Placeholder := "base64_data"

  // ---------------------------------------------------------------------
  // Conversion of the analysis map

  /** `if (map.containsKey(key)) set(value != null ? value.toString() : null)`:
      never throws; an absent key and a null value both leave the field null. */
  function NullableText(fields: Fields, key: string): Option<string> {
    match Get(fields, key)
    case None => None
    case Some(v) => if v.Null? then None else Some(Show(v))
  }

  /** `convertToIngredientRisk`, applied to one element of the risk list: a
      null element fails on `containsKey`, a non-map on the cast. */
  function ToIngredientRisk(v: Value): (r: Result<IngredientRisk>)
    ensures r.Ok? <==> v.Obj?
  {
    match AsFields(v)
    case Err(e) => Err(e)
    case Ok(m) =>
      Ok(IngredientRisk(NullableText(m, "ingredient_name"), NullableText(m, "content"),
                        NullableText(m, "allergy_risk"), NullableText(m, "risk_level"),
                        NullableText(m, "reason")))
  }

  /** The `ingredientRisks` a present "ingredient_risks" value leads to: a
      non-list (null included) leaves the field unset, a list is converted
      element by element, and any failure while converting is caught and
      replaced by the empty list. */
  function RisksOf(v: Value): Option<seq<IngredientRisk>> {
    if !v.Arr? then None
    else
      match ConvertAll(v.items, ToIngredientRisk)
      case Ok(risks) => Some(risks)
      case Err(_) => Some([])
  }

  /** `(List<String>) map.get(key)` for a present key, unset for an absent one. */
  function ListField(fields: Fields, key: string): Result<Option<seq<string>>> {
    match Get(fields, key)
    case None => Ok(None)
    case Some(v) => AsStringList(v)
  }

  /** The analysis part of `convertToOcrAnalysisResponse`: the keys are read in
      order and the first exception aborts the conversion. */
  function AnalysisFor(fields: Fields): Result<IngredientAnalysis> {
    match CopiedText(fields, "safety_level")
    case Err(e) => Err(e)
    case Ok(safety) =>
      var risks := match Get(fields, "ingredient_risks") case None => None case Some(v) => RisksOf(v);
      match ListField(fields, "expected_side_effects")
      case Err(e) => Err(e)
      case Ok(sideEffects) =>
        match CopiedText(fields, "overall_assessment")
        case Err(e) => Err(e)
        case Ok(overall) =>
          match ListField(fields, "recommendations")
          case Err(e) => Err(e)
          case Ok(recommendations) => Ok(IngredientAnalysis(safety, risks, sideEffects, overall, recommendations))
  }

  /** `convertToOcrAnalysisResponse`: the texts and the ingredient list are
      copied, a null cleaned text falls back to the OCR text. */
  function ResponseFor(fields: Fields, ocrText: string, cleanedText: Option<string>, ingredients: seq<string>)
    : Result<OcrAnalysisResponse>
  {
    match AnalysisFor(fields)
    case Err(e) => Err(e)
    case Ok(analysis) => Ok(OcrAnalysisResponse(ocrText, cleanedText.GetOr(ocrText), ingredients, analysis))
  }

  /** The conversion as the service performs it: setters called on a fresh
      response one key at a time. */
  method ConvertToOcrAnalysisResponse(fields: Fields, ocrText: string, cleanedText: Option<string>,
                                      ingredients: seq<string>)
    returns (r: Result<OcrAnalysisResponse>)
    ensures r == ResponseFor(fields, ocrText, cleanedText, ingredients)
  {
    var cleaned := if cleanedText.Some? then cleanedText.value else ocrText;
    var analysis := Unset;
    var safety := Get(fields, "safety_level");
    if safety.Some? {
      var text := ToStringOrNpe(safety.value);
      if text.Err? {
        return Err(text.error);
      }
      analysis := analysis.(safetyLevel := Some(text.value));
    }
    var risks := Get(fields, "ingredient_risks");
    if risks.Some? {
      if risks.value.Arr? {
        var converted := ConvertAll(risks.value.items, ToIngredientRisk);
        if converted.Ok? {
          analysis := analysis.(ingredientRisks := Some(converted.value));
        } else {
          analysis := analysis.(ingredientRisks := Some([]));
        }
      }
    }
    var sideEffects := Get(fields, "expected_side_effects");
    if sideEffects.Some? {
      var list := AsStringList(sideEffects.value);
      if list.Err? {
        return Err(list.error);
      }
      analysis := analysis.(expectedSideEffects := list.value);
    }
    var overall := Get(fields, "overall_assessment");
    if overall.Some? {
      var text := ToStringOrNpe(overall.value);
      if text.Err? {
        return Err(text.error);
      }
      analysis := analysis.(overallAssessment := Some(text.value));
    }
    var recommendations := Get(fields, "recommendations");
    if recommendations.Some? {
      var list := AsStringList(recommendations.value);
      if list.Err? {
        return Err(list.error);
      }
      analysis := analysis.(recommendations := list.value);
    }
    r := Ok(OcrAnalysisResponse(ocrText, cleaned, ingredients, analysis));
  }

  /** The three outcomes of "ingredient_risks": absent or not a list leaves
      the field unset; a list of maps is converted element by element in
      order; a list holding a null or a non-map yields the empty list. The
      risk list never makes the whole conversion fail. */
  lemma IngredientRisksRule(fields: Fields)
    ensures AnalysisFor(fields).Ok? ==>
      (AnalysisFor(fields).value.ingredientRisks.None?
       <==> Get(fields, "ingredient_risks").None? || !Get(fields, "ingredient_risks").value.Arr?)
    ensures Get(fields, "ingredient_risks").Some? && Get(fields, "ingredient_risks").value.Arr? ==>
      var items := Get(fields, "ingredient_risks").value.items;
      AnalysisFor(fields).Ok? ==>
        ((forall i :: 0 <= i < |items| ==> items[i].Obj?) ==>
           |AnalysisFor(fields).value.ingredientRisks.value| == |items|
           && forall i :: 0 <= i < |items| ==>
                ToIngredientRisk(items[i]) == Ok(AnalysisFor(fields).value.ingredientRisks.value[i]))
        && ((exists i :: 0 <= i < |items| && !items[i].Obj?) ==>
              AnalysisFor(fields).value.ingredientRisks == Some([]))
  {
    var risks := Get(fields, "ingredient_risks");
    if risks.Some? && risks.value.Arr? {
      ConvertAllSpec(risks.value.items, ToIngredientRisk);
    }
  }

  /** The analysis conversion fails exactly when a scalar field holds null or
      a list field holds something other than null or a list of strings;
      the risk list plays no part. */
  lemma AnalysisFailsOnlyOnScalarsAndLists(fields: Fields)
    ensures AnalysisFor(fields).Err? <==>
      Get(fields, "safety_level") == Some(Null)
      || ListField(fields, "expected_side_effects").Err?
      || Get(fields, "overall_assessment") == Some(Null)
      || ListField(fields, "recommendations").Err?
  {
  }

  /** A risk entry carries a field exactly when its key is present with a
      non-null value, and a string value verbatim. */
  lemma IngredientRiskFields(fields: Fields, key: string)
    requires key in ["ingredient_name", "content", "allergy_risk", "risk_level", "reason"]
    ensures NullableText(fields, key).Some? <==> Get(fields, key).Some? && !Get(fields, key).value.Null?
    ensures Get(fields, key).Some? && Get(fields, key).value.Str? ==>
      NullableText(fields, key) == Some(Get(fields, key).value.s)
    ensures ToIngredientRisk(Obj(fields)).Ok?
  {
  }

  /** The response repeats the OCR text and the ingredient list it was given,
      and its cleaned text is the given one or, when that is null, the OCR text. */
  lemma ResponseCopiesItsInputs(fields: Fields, ocrText: string, cleanedText: Option<string>, ingredients: seq<string>)
    ensures ResponseFor(fields, ocrText, cleanedText, ingredients).Ok? <==> AnalysisFor(fields).Ok?
    ensures var r := ResponseFor(fields, ocrText, cleanedText, ingredients);
      r.Ok? ==>
        r.value.ocrText == ocrText && r.value.extractedIngredients == ingredients
        && (cleanedText.None? ==> r.value.cleanedText == ocrText)
        && (cleanedText.Some? ==> r.value.cleanedText == cleanedText.value)
  {
  }

  // ---------------------------------------------------------------------
  // Normalization of the OCR text

  /** The extracted ingredient list and the cleaned text taken from the
      normalization answer: a missing or null ingredient list is empty, a
      missing cleaned text keeps the OCR text, and a failure of the call, of
      the list cast or of `toString` on a null cleaned text is wrapped in
      one message. */
  function Normalization(answer: Result<Fields>, ocrText: string): (r: Result<(seq<string>, string)>)
    ensures answer.Err? ==> r == Err(NormalizationFailedPrefix + answer.error)
    ensures r.Err? ==> |NormalizationFailedPrefix| <= |r.error| && r.error[..|NormalizationFailedPrefix|] == NormalizationFailedPrefix
  {
    match answer
    case Err(e) => Err(NormalizationFailedPrefix + e)
    case Ok(m) =>
      match ListField(m, "normalized_ingredients")
      case Err(e) => Err(NormalizationFailedPrefix + e)
      case Ok(list) =>
        var ingredients := list.GetOr([]);
        match Get(m, "cleaned_text")
        case None => Ok((ingredients, ocrText))
        case Some(v) =>
          match ToStringOrNpe(v)
          case Err(e) => Err(NormalizationFailedPrefix + e)
          case Ok(cleaned) => Ok((ingredients, cleaned))
  }

  /** What normalization keeps: a string list under "normalized_ingredients"
      is the ingredient list, an absent or null one the empty list; a string
      "cleaned_text" is the cleaned text, an absent one the OCR text. */
  lemma NormalizationDefaults(m: Fields, ocrText: string)
    ensures var r := Normalization(Ok(m), ocrText);
      (!Has(m, "normalized_ingredients") || Get(m, "normalized_ingredients") == Some(Null)) && r.Ok? ==> r.value.0 == []
    ensures var r := Normalization(Ok(m), ocrText);
      !Has(m, "cleaned_text") && r.Ok? ==> r.value.1 == ocrText
    ensures var r := Normalization(Ok(m), ocrText);
      Get(m, "cleaned_text").Some? && Get(m, "cleaned_text").value.Str? && r.Ok? ==>
        r.value.1 == Get(m, "cleaned_text").value.s
    ensures var r := Normalization(Ok(m), ocrText);
      Get(m, "normalized_ingredients").Some? && Get(m, "normalized_ingredients").value.Arr? &&
      AllStrings(Get(m, "normalized_ingredients").value.items) && r.Ok? ==>
        r.value.0 == Strings(Get(m, "normalized_ingredients").value.items)
  {
  }

  // ---------------------------------------------------------------------
  // The analysis flow

  datatype OcrAnalysisRequest = OcrAnalysisRequest(userId: Option<Id>, imageData: string, isBase64: bool)

  /** The outbound calls of one analysis, in order. */
  datatype Call =
    | ExtractText(imageData: string, isBase64: bool)
    | NormalizeText(ocrText: string)
    | AnalyzeIngredients(ingredients: seq<string>, allergyNames: seq<string>)

  /** The collaborators: the Vision OCR (the text, null, or the message of the
      exception it throws, which reaches the caller unwrapped), the Python
      normalization and ingredient analysis (an answer map or an exception
      message), the JSON writer and the record save (the message of the
      exception it throws, None when it succeeds). */
  datatype Services = Services(
    extractText: (string, bool) -> Result<Option<string>>,
    normalize: string -> Result<Fields>,
    analyze: (seq<string>, seq<string>) -> Result<Fields>,
    serialize: OcrAnalysisResponse -> Result<string>,
    saveError: Option<string>)

  /** The result of one analysis, the calls it made and the record it stored. */
  datatype Run = Run(result: Result<OcrAnalysisResponse>, calls: seq<Call>, saved: Option<OcrRecord>)

  /** The image reference a record keeps. */
  function StoredImage(request: OcrAnalysisRequest): string {
    if request.isBase64 then Base64Placeholder else request.imageData
  }

  /** The stage after normalization: analysis, conversion and the record. A
      failure of the analysis call or of the conversion is wrapped; a failure
      to serialize or save the record is swallowed and the response returned. */
  function AnalysisStage(request: OcrAnalysisRequest, userId: Id, allergyNames: seq<string>, services: Services,
                         calls: seq<Call>, ocrText: string, ingredients: seq<string>, cleaned: string): Run
  {
    var calls' := calls + [AnalyzeIngredients(ingredients, allergyNames)];
    match services.analyze(ingredients, allergyNames)
    case Err(e) => Run(Err(AnalysisFailedPrefix + e), calls', None)
    case Ok(fields) =>
      match ResponseFor(fields, ocrText, Some(cleaned), ingredients)
      case Err(e) => Run(Err(AnalysisFailedPrefix + e), calls', None)
      case Ok(response) =>
        match services.serialize(response)
        case Err(_) => Run(Ok(response), calls', None)
        case Ok(json) =>
          var saved := if services.saveError.Some? then None
                       else Some(OcrRecord(userId, StoredImage(request), ocrText, ingredients, json));
          Run(Ok(response), calls', saved)
  }

  /** `analyzeOcrImage` as a function of the user table's answer and the
      user's allergy names: the checks run in source order and the first
      failure ends the run. */
  function OcrRun(request: OcrAnalysisRequest, userKnown: bool, allergyNames: seq<string>, services: Services): Run {
    if request.userId.None? then Run(Err(UserIdMissing), [], None)
    else if !userKnown then Run(Err(UserNotFoundPrefix + IntToString(request.userId.value)), [], None)
    else
      var calls := [ExtractText(request.imageData, request.isBase64)];
      match services.extractText(request.imageData, request.isBase64)
      case Err(e) => Run(Err(e), calls, None)
      case Ok(text) =>
        if text.None? || Text.JavaTrim(text.value) == [] then Run(Err(NoTextExtracted), calls, None)
        else
          var ocrText := text.value;
          var calls := calls + [NormalizeText(ocrText)];
          match Normalization(services.normalize(ocrText), ocrText)
          case Err(e) => Run(Err(e), calls, None)
          case Ok(pair) =>
            AnalysisStage(request, request.userId.value, allergyNames, services, calls, ocrText, pair.0, pair.1)
  }

  /** A request without a user, or for an unknown one, fails before any
      outbound call and stores nothing. */
  lemma UserChecksComeFirst(request: OcrAnalysisRequest, userKnown: bool, allergyNames: seq<string>, services: Services)
    ensures request.userId.None? ==> OcrRun(request, userKnown, allergyNames, services) == Run(Err(UserIdMissing), [], None)
    ensures request.userId.Some? && !userKnown ==>
      OcrRun(request, userKnown, allergyNames, services)
        == Run(Err(UserNotFoundPrefix + IntToString(request.userId.value)), [], None)
    ensures request.userId.Some? && userKnown ==>
      |OcrRun(request, userKnown, allergyNames, services).calls| >= 1
      && OcrRun(request, userKnown, allergyNames, services).calls[0] == ExtractText(request.imageData, request.isBase64)
  {
  }

  /** Text that is null or only whitespace stops the run before the Python
      service is called; any other text is what the normalization receives. */
  lemma BlankTextStopsBeforeNormalization(request: OcrAnalysisRequest, allergyNames: seq<string>, services: Services)
    requires request.userId.Some?
    ensures var extracted := services.extractText(request.imageData, request.isBase64);
      var run := OcrRun(request, true, allergyNames, services);
      extracted.Ok? && (extracted.value.None? || Text.JavaTrim(extracted.value.value) == []) ==>
        run == Run(Err(NoTextExtracted), [ExtractText(request.imageData, request.isBase64)], None)
    ensures var extracted := services.extractText(request.imageData, request.isBase64);
      var run := OcrRun(request, true, allergyNames, services);
      extracted.Ok? && extracted.value.Some? && Text.JavaTrim(extracted.value.value) != [] ==>
        |run.calls| >= 2 && run.calls[1] == NormalizeText(extracted.value.value)
        && !Text.AllSatisfy(extracted.value.value, Text.IsJavaTrimmable)
  {
    var extracted := services.extractText(request.imageData, request.isBase64);
    if extracted.Ok? && extracted.value.Some? && Text.JavaTrim(extracted.value.value) != [] {
      Text.StripEmptyIffBlank(extracted.value.value, Text.IsJavaTrimmable);
    }
  }

  /** The record is best effort: whether serializing or saving it fails
      changes neither the result nor the calls, only whether a record is kept. */
  lemma SaveFailureIsSwallowed(request: OcrAnalysisRequest, userKnown: bool, allergyNames: seq<string>,
                               services: Services, other: Services)
    requires other.extractText == services.extractText && other.normalize == services.normalize
    requires other.analyze == services.analyze
    ensures OcrRun(request, userKnown, allergyNames, other).result == OcrRun(request, userKnown, allergyNames, services).result
    ensures OcrRun(request, userKnown, allergyNames, other).calls == OcrRun(request, userKnown, allergyNames, services).calls
  {
  }

  /** A stored record belongs to a successful run: it repeats the requesting
      user, the OCR text and the ingredient list of the response, and keeps
      the image URL only when the image was not sent inline. */
  lemma SavedRecordMatchesResponse(request: OcrAnalysisRequest, userKnown: bool, allergyNames: seq<string>,
                                   services: Services)
    ensures var run := OcrRun(request, userKnown, allergyNames, services);
      run.saved.Some? ==>
        run.result.Ok? && request.userId == Some(run.saved.value.userId)
        && run.saved.value.ocrText == run.result.value.ocrText
        && run.saved.value.ingredientList == run.result.value.extractedIngredients
        && services.serialize(run.result.value) == Ok(run.saved.value.analysisResult)
        && (request.isBase64 ==> run.saved.value.imageUrl == Base64Placeholder)
        && (!request.isBase64 ==> run.saved.value.imageUrl == request.imageData)
  {
  }

  /** Every failure after the OCR step is wrapped with the message of its
      stage, and the analysis sees exactly the user's allergy names. */
  lemma FailuresCarryTheirStage(request: OcrAnalysisRequest, allergyNames: seq<string>, services: Services)
    requires request.userId.Some?
    ensures var run := OcrRun(request, true, allergyNames, services);
      |run.calls| == 2 && run.result.Err? ==>
        |NormalizationFailedPrefix| <= |run.result.error|
        && run.result.error[..|NormalizationFailedPrefix|] == NormalizationFailedPrefix
    ensures var run := OcrRun(request, true, allergyNames, services);
      |run.calls| == 3 ==>
        run.calls[2].AnalyzeIngredients? && run.calls[2].allergyNames == allergyNames
        && (run.result.Err? ==>
              |AnalysisFailedPrefix| <= |run.result.error|
              && run.result.error[..|AnalysisFailedPrefix|] == AnalysisFailedPrefix)
  {
  }

  class OcrAnalysisService {
    const users: Table<User>
    const allergies: Table<AllergyRecord>
    const records: Table<OcrRecord>

    ghost predicate Valid()
      reads this, users, allergies, records
    {
      users.Valid() && allergies.Valid() && records.Valid()
    }

    constructor (users: Table<User>, allergies: Table<AllergyRecord>, records: Table<OcrRecord>)
      requires users.Valid() && allergies.Valid() && records.Valid()
      ensures Valid()
      ensures this.users == users && this.allergies == allergies && this.records == records
    {
      this.users := users;
      this.allergies := allergies;
      this.records := records;
    }

    /** `analyzeOcrImage`: the result and calls are those of `OcrRun` for the
        stored user and allergy names, and the record table gains exactly the
        record the run keeps. */
    method AnalyzeOcrImage(request: OcrAnalysisRequest, services: Services)
      returns (r: Result<OcrAnalysisResponse>, ghost calls: seq<Call>)
      requires Valid()
      modifies records
      ensures Valid()
      ensures var run := OcrRun(request, request.userId.Some? && FindById(users.rows, request.userId.value).Some?,
                                if request.userId.Some? then AllergyService.AllAllergies(allergies.rows, request.userId.value) else [],
                                services);
        r == run.result && calls == run.calls
        && records.rows == old(records.rows) + (if run.saved.Some? then [Row(old(records.nextId), run.saved.value)] else [])
    {
      if request.userId.None? {
        return Err(UserIdMissing), [];
      }
      var userId := request.userId.value;
      if FindById(users.rows, userId).None? {
        return Err(UserNotFoundPrefix + IntToString(userId)), [];
      }
      var allergyNames := AllergyService.AllAllergies(allergies.rows, userId);
      calls := [ExtractText(request.imageData, request.isBase64)];
      var extracted := services.extractText(request.imageData, request.isBase64);
      if extracted.Err? {
        return Err(extracted.error), calls;
      }
      if extracted.value.None? || Text.JavaTrim(extracted.value.value) == [] {
        return Err(NoTextExtracted), calls;
      }
      var ocrText := extracted.value.value;
      calls := calls + [NormalizeText(ocrText)];
      var normalized := Normalization(services.normalize(ocrText), ocrText);
      if normalized.Err? {
        return Err(normalized.error), calls;
      }
      var ingredients := normalized.value.0;
      var cleanedText := normalized.value.1;
      calls := calls + [AnalyzeIngredients(ingredients, allergyNames)];
      var analysis := services.analyze(ingredients, allergyNames);
      if analysis.Err? {
        return Err(AnalysisFailedPrefix + analysis.error), calls;
      }
      var response := ConvertToOcrAnalysisResponse(analysis.value, ocrText, Some(cleanedText), ingredients);
      if response.Err? {
        return Err(AnalysisFailedPrefix + response.error), calls;
      }
      var json := services.serialize(response.value);
      if json.Ok? && services.saveError.None? {
        var _ := records.Insert(OcrRecord(userId, StoredImage(request), ocrText, ingredients, json.value));
      }
      r := Ok(response.value);
    }
  }
}
