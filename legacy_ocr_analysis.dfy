/** The earlier OCR analysis of the backend, which asks the language model
    directly: it reads a label's text with the Vision service, has the model
    list the ingredients (falling back to a plain split of the text), has the
    model analyze them against the user's allergies, and keeps a record. */
module LegacyOcrAnalysis {
  import opened Wrappers
  import Text
  import opened Json
  import opened Repositories
  import AllergyService
  import OcrAnalysis

  /** A Java `List<String>` whose elements may be null (None). */
  type NullableStrings = seq<Option<string>>

  /** The response the model's answer is read into; `ocrText` and
      `extractedIngredients` are whatever the model wrote until the service
      overwrites them. */
  datatype LegacyResponse = LegacyResponse(
    ocrText: Option<string>, extractedIngredients: Option<NullableStrings>,
    analysis: Option<OcrAnalysis.IngredientAnalysis>)

  /** The stored `OcrIngredient` row of this service: its ingredient list is
      the parsed list as it came, null elements included. */
  datatype LegacyOcrRecord = LegacyOcrRecord(
    userId: Id, imageUrl: string, ocrText: string, ingredientList: NullableStrings, analysisResult: string)

  const ConversionFailed: string := "java.lang.IllegalArgumentException"

  /** `parseIngredientsFromText`: split on ',' and '\n', `trim` each piece,
      drop the empty ones. */
  function ParseIngredientsFromText(ocrText: string): (r: seq<string>)
    ensures forall k :: 0 <= k < |r| ==> r[k] != [] && Text.Trimmed(r[k], Text.IsJavaTrimmable)
  {
    Text.SplitTrimDrop(ocrText, Text.IsJavaTrimmable)
  }

  /** The basic parse keeps exactly the non-blank pieces, trimmed, and no
      token holds a separator. */
  lemma {:induction false} ParseIngredientsFromTextMembers(ocrText: string, x: string)
    ensures x in ParseIngredientsFromText(ocrText) <==>
      x != [] && exists k :: 0 <= k < |Text.Split(ocrText, Text.IsListSeparator)|
                             && Text.JavaTrim(Text.Split(ocrText, Text.IsListSeparator)[k]) == x
    ensures x in ParseIngredientsFromText(ocrText) ==> forall j :: 0 <= j < |x| ==> !Text.IsListSeparator(x[j])
  {
    var pieces := Text.Split(ocrText, Text.IsListSeparator);
    assert ParseIngredientsFromText(ocrText) == Text.StripAndDropEmpty(pieces, Text.IsJavaTrimmable);
    Text.StripAndDropEmptyMembers(pieces, Text.IsJavaTrimmable, x);
    if x in ParseIngredientsFromText(ocrText) {
      var k :| 0 <= k < |pieces| && Text.Strip(pieces[k], Text.IsJavaTrimmable) == x;
      assert 0 <= k < |Text.Split(ocrText, Text.IsListSeparator)|
        && Text.JavaTrim(Text.Split(ocrText, Text.IsListSeparator)[k]) == x;
      Text.SplitTrimDropHasNoSeparator(ocrText, Text.IsJavaTrimmable, x);
    }
  }

  /** The tokens are trimmed pieces at strictly increasing positions of the
      split text: the order of the text is kept. */
  lemma ParseIngredientsFromTextKeepsOrder(ocrText: string)
    ensures var pieces := Text.Split(ocrText, Text.IsListSeparator);
      |Text.KeptFrom(pieces, Text.IsJavaTrimmable, 0)| == |ParseIngredientsFromText(ocrText)|
      && (forall k, l :: 0 <= k < l < |Text.KeptFrom(pieces, Text.IsJavaTrimmable, 0)| ==>
            Text.KeptFrom(pieces, Text.IsJavaTrimmable, 0)[k] < Text.KeptFrom(pieces, Text.IsJavaTrimmable, 0)[l])
      && (forall k :: 0 <= k < |ParseIngredientsFromText(ocrText)| ==>
            Text.KeptFrom(pieces, Text.IsJavaTrimmable, 0)[k] < |pieces|
            && ParseIngredientsFromText(ocrText)[k]
               == Text.JavaTrim(pieces[Text.KeptFrom(pieces, Text.IsJavaTrimmable, 0)[k]]))
  {
    Text.StripAndDropEmptyKeepsOrder(Text.Split(ocrText, Text.IsListSeparator), Text.IsJavaTrimmable);
  }

  /** A list of strings as a list of non-null references. */
  function NonNull(s: seq<string>): (r: NullableStrings)
    ensures |r| == |s| && forall i :: 0 <= i < |s| ==> r[i] == Some(s[i])
  {
    seq(|s|, i requires 0 <= i < |s| => Some(s[i]))
  }

  /** Jackson's `convertValue(node, List<String>)`: a null node gives a null
      list (None). An array converts element by element: a null element stays
      a null reference, a scalar becomes its text. A nested array or object
      element, and any node that is not an array, fails. */
  function ConvertToStringList(v: Value): (r: Result<Option<NullableStrings>>)
    ensures r == Ok(None) <==> v.Null?
    ensures r.Ok? <==> v.Null? || (v.Arr? && forall i :: 0 <= i < |v.items| ==> !v.items[i].Arr? && !v.items[i].Obj?)
    ensures r.Ok? && r.value.Some? ==>
      v.Arr? && |r.value.value| == |v.items|
      && forall i :: 0 <= i < |v.items| ==>
           (r.value.value[i].None? <==> v.items[i].Null?)
           && (v.items[i].Str? ==> r.value.value[i] == Some(v.items[i].s))
  {
    match v
    case Null => Ok(None)
    case Arr(items) =>
      if forall i :: 0 <= i < |items| ==> !items[i].Arr? && !items[i].Obj? then
        Ok(Some(seq(|items|, i requires 0 <= i < |items| => if items[i].Null? then None else Some(AsText(items[i])))))
      else Err(ConversionFailed)
    case _ => Err(ConversionFailed)
  }

  /** A null element of the model's list is kept as a null reference; it does
      not make the conversion fail. */
  lemma NullElementIsKept(v: Value)
    requires v == Arr([Str("a"), Null])
    ensures ConvertToStringList(v) == Ok(Some([Some("a"), None]))
  {
    var r := ConvertToStringList(v);
    assert r.Ok? && r.value.Some? && |r.value.value| == 2;
    assert r.value.value[0] == Some("a") && r.value.value[1] == None;
    assert r.value.value == [Some("a"), None];
  }

  /** `parseIngredientsFromOcrText`: the model's "ingredients" array when the
      answer has one and it converts; a failed call, an unreadable answer, a
      missing key or a failed conversion falls back to the basic parse.
      `ask` is the model's answer to the parsing prompt for this text, read as
      a JSON tree. None is the null list of an "ingredients": null answer. */
  function ParseIngredientsFromOcrText(ocrText: string, ask: string -> Result<Value>): Option<NullableStrings> {
    match ask(ocrText)
    case Err(_) => Some(NonNull(ParseIngredientsFromText(ocrText)))
    case Ok(tree) =>
      match NodeGet(tree, "ingredients")
      case None => Some(NonNull(ParseIngredientsFromText(ocrText)))
      case Some(node) =>
        match ConvertToStringList(node)
        case Err(_) => Some(NonNull(ParseIngredientsFromText(ocrText)))
        case Ok(list) => list
  }

  /** The model's list is used exactly when the answer has an "ingredients"
      member that converts; in every other case the basic parse is the
      result. The list is null only for an explicit null member. */
  lemma ModelListPreferred(ocrText: string, ask: string -> Result<Value>)
    ensures var answer := ask(ocrText);
      answer.Ok? && NodeGet(answer.value, "ingredients").Some?
      && ConvertToStringList(NodeGet(answer.value, "ingredients").value).Ok? ==>
        ParseIngredientsFromOcrText(ocrText, ask) == ConvertToStringList(NodeGet(answer.value, "ingredients").value).value
    ensures var answer := ask(ocrText);
      answer.Err? || NodeGet(answer.value, "ingredients").None?
      || ConvertToStringList(NodeGet(answer.value, "ingredients").value).Err? ==>
        ParseIngredientsFromOcrText(ocrText, ask) == Some(NonNull(ParseIngredientsFromText(ocrText)))
    ensures ParseIngredientsFromOcrText(ocrText, ask).None? <==>
      ask(ocrText).Ok? && NodeGet(ask(ocrText).value, "ingredients") == Some(Null)
  {
  }

  datatype Call =
    | ExtractText(imageData: string, isBase64: bool)
    | AskIngredients(ocrText: string)
    | AskAnalysis(ingredients: NullableStrings, allergyNames: seq<string>, ocrText: string)

  /** The collaborators: the Vision OCR, the model's ingredient answer read
      as a JSON tree, the model's analysis for the prompt built from the
      ingredients, the allergy names and the text (already read into a
      response), the JSON writer and the record save. */
  datatype Services = Services(
    extractText: (string, bool) -> Result<Option<string>>,
    askIngredients: string -> Result<Value>,
    askAnalysis: (NullableStrings, seq<string>, string) -> Result<LegacyResponse>,
    serialize: LegacyResponse -> Result<string>,
    saveError: Option<string>)

  datatype Run = Run(result: Result<LegacyResponse>, calls: seq<Call>, saved: Option<LegacyOcrRecord>)

  /** `analyzeOcrImage` as a function of the stored user and allergy names.
      The prompt is built outside the guarded block, so a null ingredient
      list fails there unwrapped; inside it every failure, the save
      included, is wrapped in one message. */
  function LegacyRun(userId: Id, imageData: string, isBase64: bool, userKnown: bool, allergyNames: seq<string>,
                     services: Services): Run
  {
    if !userKnown then Run(Err(OcrAnalysis.UserNotFoundPrefix + IntToString(userId)), [], None)
    else
      var calls := [ExtractText(imageData, isBase64)];
      match services.extractText(imageData, isBase64)
      case Err(e) => Run(Err(e), calls, None)
      case Ok(text) =>
        if text.None? || Text.JavaTrim(text.value) == [] then Run(Err(OcrAnalysis.NoTextExtracted), calls, None)
        else
          var ocrText := text.value;
          var calls := calls + [AskIngredients(ocrText)];
          match ParseIngredientsFromOcrText(ocrText, services.askIngredients)
          case None => Run(Err(NullPointer), calls, None)
          case Some(ingredients) =>
            var calls := calls + [AskAnalysis(ingredients, allergyNames, ocrText)];
            match services.askAnalysis(ingredients, allergyNames, ocrText)
            case Err(e) => Run(Err(OcrAnalysis.AnalysisFailedPrefix + e), calls, None)
            case Ok(answer) =>
              var response := answer.(ocrText := Some(ocrText), extractedIngredients := Some(ingredients));
              match services.serialize(response)
              case Err(e) => Run(Err(OcrAnalysis.AnalysisFailedPrefix + e), calls, None)
              case Ok(json) =>
                if services.saveError.Some? then
                  Run(Err(OcrAnalysis.AnalysisFailedPrefix + services.saveError.value), calls, None)
                else
                  var image := if isBase64 then OcrAnalysis.Base64Placeholder else imageData;
                  Run(Ok(response), calls, Some(LegacyOcrRecord(userId, image, ocrText, ingredients, json)))
  }

  /** An unknown user fails before OCR; null or blank text fails before the
      ingredients are parsed. */
  lemma GuardsComeFirst(userId: Id, imageData: string, isBase64: bool, allergyNames: seq<string>, services: Services)
    ensures LegacyRun(userId, imageData, isBase64, false, allergyNames, services)
      == Run(Err(OcrAnalysis.UserNotFoundPrefix + IntToString(userId)), [], None)
    ensures var text := services.extractText(imageData, isBase64);
      text.Ok? && (text.value.None? || Text.AllSatisfy(text.value.value, Text.IsJavaTrimmable)) ==>
        LegacyRun(userId, imageData, isBase64, true, allergyNames, services)
          == Run(Err(OcrAnalysis.NoTextExtracted), [ExtractText(imageData, isBase64)], None)
  {
    var text := services.extractText(imageData, isBase64);
    if text.Ok? && text.value.Some? {
      Text.StripEmptyIffBlank(text.value.value, Text.IsJavaTrimmable);
    }
  }

  /** A successful response carries the service's own OCR text and
      ingredient list in place of whatever the model wrote, keeps the
      model's analysis, and is exactly what was stored. */
  lemma ResponseCarriesLocalValues(userId: Id, imageData: string, isBase64: bool, allergyNames: seq<string>,
                                   services: Services)
    ensures var run := LegacyRun(userId, imageData, isBase64, true, allergyNames, services);
      run.result.Ok? ==>
        var text := services.extractText(imageData, isBase64).value.value;
        var ingredients := ParseIngredientsFromOcrText(text, services.askIngredients).value;
        run.result.value.ocrText == Some(text)
        && run.result.value.extractedIngredients == Some(ingredients)
        && run.result.value.analysis == services.askAnalysis(ingredients, allergyNames, text).value.analysis
        && run.saved.Some? && run.saved.value.ocrText == text && run.saved.value.ingredientList == ingredients
        && services.serialize(run.result.value) == Ok(run.saved.value.analysisResult)
  {
  }

  /** Unlike the newer service, a failed save is not swallowed: the run
      fails with the wrapped message and no record is kept. */
  lemma SaveFailureFailsTheRun(userId: Id, imageData: string, isBase64: bool, allergyNames: seq<string>,
                               services: Services)
    requires services.saveError.Some?
    ensures LegacyRun(userId, imageData, isBase64, true, allergyNames, services).result.Err?
    ensures LegacyRun(userId, imageData, isBase64, true, allergyNames, services).saved.None?
  {
  }

  class LegacyOcrAnalysisService {
    const users: Table<User>
    const allergies: Table<AllergyRecord>
    const records: Table<LegacyOcrRecord>

    ghost predicate Valid()
      reads this, users, allergies, records
    {
      users.Valid() && allergies.Valid() && records.Valid()
    }

    constructor (users: Table<User>, allergies: Table<AllergyRecord>, records: Table<LegacyOcrRecord>)
      requires users.Valid() && allergies.Valid() && records.Valid()
      ensures Valid()
      ensures this.users == users && this.allergies == allergies && this.records == records
    {
      this.users := users;
      this.allergies := allergies;
      this.records := records;
    }

    /** `analyzeOcrImage`: the result and calls are those of `LegacyRun` for
        the stored user and allergy names, and the record table gains exactly
        the record the run keeps. */
    method AnalyzeOcrImage(userId: Id, imageData: string, isBase64: bool, services: Services)
      returns (r: Result<LegacyResponse>, ghost calls: seq<Call>)
      requires Valid()
      modifies records
      ensures Valid()
      ensures var run := LegacyRun(userId, imageData, isBase64, FindById(users.rows, userId).Some?,
                                   AllergyService.AllAllergies(allergies.rows, userId), services);
        r == run.result && calls == run.calls
        && records.rows == old(records.rows) + (if run.saved.Some? then [Row(old(records.nextId), run.saved.value)] else [])
    {
      if FindById(users.rows, userId).None? {
        return Err(OcrAnalysis.UserNotFoundPrefix + IntToString(userId)), [];
      }
      var allergyNames := AllergyService.AllAllergies(allergies.rows, userId);
      calls := [ExtractText(imageData, isBase64)];
      var extracted := services.extractText(imageData, isBase64);
      if extracted.Err? {
        return Err(extracted.error), calls;
      }
      if extracted.value.None? || Text.JavaTrim(extracted.value.value) == [] {
        return Err(OcrAnalysis.NoTextExtracted), calls;
      }
      var ocrText := extracted.value.value;
      calls := calls + [AskIngredients(ocrText)];
      var ingredients := ParseIngredientsFromOcrText(ocrText, services.askIngredients);
      if ingredients.None? {
        return Err(NullPointer), calls;
      }
      calls := calls + [AskAnalysis(ingredients.value, allergyNames, ocrText)];
      var answer := services.askAnalysis(ingredients.value, allergyNames, ocrText);
      if answer.Err? {
        return Err(OcrAnalysis.AnalysisFailedPrefix + answer.error), calls;
      }
      var response := answer.value;
      response := response.(ocrText := Some(ocrText));
      response := response.(extractedIngredients := Some(ingredients.value));
      var json := services.serialize(response);
      if json.Err? {
        return Err(OcrAnalysis.AnalysisFailedPrefix + json.error), calls;
      }
      if services.saveError.Some? {
        return Err(OcrAnalysis.AnalysisFailedPrefix + services.saveError.value), calls;
      }
      var image := if isBase64 then OcrAnalysis.Base64Placeholder else imageData;
      var _ := records.Insert(LegacyOcrRecord(userId, image, ocrText, ingredients.value, json.value));
      r := Ok(response);
    }
  }
}
