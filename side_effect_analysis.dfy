/** The side-effect analysis of the backend: it gathers the user's
    sensitivities and the ingredients of each requested medicine, asks the
    Python service for an analysis, converts the loosely typed answer into a
    typed response and files a report. */
module SideEffectAnalysis {
  import opened Wrappers
  import opened Json
  import opened Repositories
  import MedicationDb
  import AllergyService

  datatype SensitiveIngredient = SensitiveIngredient(
    ingredientName: Option<string>, reason: Option<string>, severity: Option<string>)

  datatype CommonSideEffectIngredient = CommonSideEffectIngredient(
    ingredientName: Option<string>, sideEffectDescription: Option<string>, frequency: Option<string>)

  /** `SideEffectAnalysisResponse`; a field that was never set is None (Java null). */
  datatype SideEffectResponse = SideEffectResponse(
    commonIngredients: Option<seq<string>>,
    userSensitiveIngredients: Option<seq<SensitiveIngredient>>,
    commonSideEffectIngredients: Option<seq<CommonSideEffectIngredient>>,
    summary: Option<string>)

  /** A response as `new SideEffectAnalysisResponse()` creates it. */
  const Unset := SideEffectResponse(None, None, None, None)

  const UserNotFoundPrefix := "사용자를 찾을 수 없습니다: "
  const AnalysisFailedPrefix := "부작용 분석 중 오류가 발생했습니다: "

  // ---------------------------------------------------------------------
  // Conversion of the analysis map

  /** `convertToSensitiveIngredient`: the three fields in order, the first failure winning. */
  function ToSensitiveIngredient(v: Value): Result<SensitiveIngredient> {
    match AsFields(v)
    case Err(e) => Err(e)
    case Ok(m) =>
      match CopiedText(m, "ingredient_name")
      case Err(e) => Err(e)
      case Ok(name) =>
        match CopiedText(m, "reason")
        case Err(e) => Err(e)
        case Ok(reason) =>
          match CopiedText(m, "severity")
          case Err(e) => Err(e)
          case Ok(severity) => Ok(SensitiveIngredient(name, reason, severity))
  }

  /** `convertToCommonSideEffectIngredient` */
  function ToCommonSideEffectIngredient(v: Value): Result<CommonSideEffectIngredient> {
    match AsFields(v)
    case Err(e) => Err(e)
    case Ok(m) =>
      match CopiedText(m, "ingredient_name")
      case Err(e) => Err(e)
      case Ok(name) =>
        match CopiedText(m, "side_effect_description")
        case Err(e) => Err(e)
        case Ok(description) =>
          match CopiedText(m, "frequency")
          case Err(e) => Err(e)
          case Ok(frequency) => Ok(CommonSideEffectIngredient(name, description, frequency))
  }

  /** The value under a list key, cast to a list of maps and streamed: a
      null value fails on `stream()`, a non-list on the cast. */
  function ConvertedList<T>(v: Value, convert: Value -> Result<T>): Result<seq<T>> {
    if v.Null? then Err(NullPointer)
    else if !v.Arr? then Err(ClassCast)
    else ConvertAll(v.items, convert)
  }

  /** The value each response field receives: None when its key is absent. */
  function CommonIngredientsField(analysis: Fields): Result<Option<Option<seq<string>>>> {
    match Get(analysis, "common_ingredients")
    case None => Ok(None)
    case Some(v) =>
      match AsStringList(v)
      case Err(e) => Err(e)
      case Ok(list) => Ok(Some(list))
  }

  function SensitiveField(analysis: Fields): Result<Option<seq<SensitiveIngredient>>> {
    match Get(analysis, "user_sensitive_ingredients")
    case None => Ok(None)
    case Some(v) =>
      match ConvertedList(v, ToSensitiveIngredient)
      case Err(e) => Err(e)
      case Ok(list) => Ok(Some(list))
  }

  function SideEffectField(analysis: Fields): Result<Option<seq<CommonSideEffectIngredient>>> {
    match Get(analysis, "common_side_effect_ingredients")
    case None => Ok(None)
    case Some(v) =>
      match ConvertedList(v, ToCommonSideEffectIngredient)
      case Err(e) => Err(e)
      case Ok(list) => Ok(Some(list))
  }

  /** `convertToSideEffectAnalysisResponse`: the fields are set in order and
      the first failing conversion aborts with its exception. */
  function ResponseFor(analysis: Fields): Result<SideEffectResponse> {
    match CommonIngredientsField(analysis)
    case Err(e) => Err(e)
    case Ok(common) =>
      match SensitiveField(analysis)
      case Err(e) => Err(e)
      case Ok(sensitive) =>
        match SideEffectField(analysis)
        case Err(e) => Err(e)
        case Ok(sideEffects) =>
          match CopiedText(analysis, "summary")
          case Err(e) => Err(e)
          case Ok(summary) =>
            Ok(SideEffectResponse(if common.Some? then common.value else None, sensitive, sideEffects, summary))
  }

  /** The conversion as the service performs it: a fresh response whose
      setters are called one key at a time. */
  method ConvertToSideEffectAnalysisResponse(analysis: Fields) returns (r: Result<SideEffectResponse>)
    ensures r == ResponseFor(analysis)
  {
    var response := Unset;
    var common := Get(analysis, "common_ingredients");
    if common.Some? {
      var list := AsStringList(common.value);
      if list.Err? {
        return Err(list.error);
      }
      response := response.(commonIngredients := list.value);
    }
    var sensitive := Get(analysis, "user_sensitive_ingredients");
    if sensitive.Some? {
      var list := ConvertedList(sensitive.value, ToSensitiveIngredient);
      if list.Err? {
        return Err(list.error);
      }
      response := response.(userSensitiveIngredients := Some(list.value));
    }
    var sideEffects := Get(analysis, "common_side_effect_ingredients");
    if sideEffects.Some? {
      var list := ConvertedList(sideEffects.value, ToCommonSideEffectIngredient);
      if list.Err? {
        return Err(list.error);
      }
      response := response.(commonSideEffectIngredients := Some(list.value));
    }
    var summary := CopiedText(analysis, "summary");
    if summary.Err? {
      return Err(summary.error);
    }
    if summary.value.Some? {
      response := response.(summary := summary.value);
    }
    r := Ok(response);
  }

  /** A response field is set only when its key is in the analysis map; an
      absent key leaves it unset rather than empty. */
  lemma AbsentKeysLeaveFieldsUnset(analysis: Fields)
    ensures var r := ResponseFor(analysis);
      r.Ok? ==>
        (!Has(analysis, "common_ingredients") ==> r.value.commonIngredients.None?)
        && (!Has(analysis, "user_sensitive_ingredients") <==> r.value.userSensitiveIngredients.None?)
        && (!Has(analysis, "common_side_effect_ingredients") <==> r.value.commonSideEffectIngredients.None?)
        && (!Has(analysis, "summary") <==> r.value.summary.None?)
  {
  }

  /** A present "common_ingredients" list of strings is copied as it is. */
  lemma CommonIngredientsCopied(analysis: Fields, items: seq<Value>)
    requires Get(analysis, "common_ingredients") == Some(Arr(items)) && AllStrings(items)
    ensures ResponseFor(analysis).Ok? ==> ResponseFor(analysis).value.commonIngredients == Some(Strings(items))
  {
  }

  /** The sensitive-ingredient list is converted element by element, keeping
      its length and order. */
  lemma SensitiveListPointwise(analysis: Fields, items: seq<Value>)
    requires Get(analysis, "user_sensitive_ingredients") == Some(Arr(items))
    ensures var r := ResponseFor(analysis);
      r.Ok? ==>
        r.value.userSensitiveIngredients.Some?
        && |r.value.userSensitiveIngredients.value| == |items|
        && forall i :: 0 <= i < |items| ==>
             ToSensitiveIngredient(items[i]) == Ok(r.value.userSensitiveIngredients.value[i])
  {
    ConvertAllSpec(items, ToSensitiveIngredient);
  }

  /** The side-effect list is converted element by element, keeping its
      length and order. */
  lemma SideEffectListPointwise(analysis: Fields, items: seq<Value>)
    requires Get(analysis, "common_side_effect_ingredients") == Some(Arr(items))
    ensures var r := ResponseFor(analysis);
      r.Ok? ==>
        r.value.commonSideEffectIngredients.Some?
        && |r.value.commonSideEffectIngredients.value| == |items|
        && forall i :: 0 <= i < |items| ==>
             ToCommonSideEffectIngredient(items[i]) == Ok(r.value.commonSideEffectIngredients.value[i])
  {
    ConvertAllSpec(items, ToCommonSideEffectIngredient);
  }

  /** A nested item copies a field exactly when its key is present, and the
      text of a string value unchanged. */
  lemma SensitiveIngredientFields(fields: Fields)
    ensures var r := ToSensitiveIngredient(Obj(fields));
      r.Ok? ==>
        (r.value.ingredientName.Some? <==> Has(fields, "ingredient_name"))
        && (r.value.reason.Some? <==> Has(fields, "reason"))
        && (r.value.severity.Some? <==> Has(fields, "severity"))
    ensures ToSensitiveIngredient(Obj(fields)).Err? <==>
      Get(fields, "ingredient_name") == Some(Null) || Get(fields, "reason") == Some(Null)
      || Get(fields, "severity") == Some(Null)
  {
  }

  lemma CommonSideEffectIngredientFields(fields: Fields)
    ensures var r := ToCommonSideEffectIngredient(Obj(fields));
      r.Ok? ==>
        (r.value.ingredientName.Some? <==> Has(fields, "ingredient_name"))
        && (r.value.sideEffectDescription.Some? <==> Has(fields, "side_effect_description"))
        && (r.value.frequency.Some? <==> Has(fields, "frequency"))
    ensures ToCommonSideEffectIngredient(Obj(fields)).Err? <==>
      Get(fields, "ingredient_name") == Some(Null) || Get(fields, "side_effect_description") == Some(Null)
      || Get(fields, "frequency") == Some(Null)
  {
  }

  /** An empty answer converts to a response with every field unset. */
  lemma EmptyAnswerExample()
    ensures ResponseFor([]) == Ok(Unset)
  {
  }

  // ---------------------------------------------------------------------
  // The analysis flow

  /** The ingredient list of each medicine record, in order. */
  function IngredientLists(infos: seq<MedicationDb.MedicationInfo>): (r: seq<seq<string>>)
    ensures |r| == |infos|
    decreases |infos|
  {
    if infos == [] then [] else IngredientLists(infos[..|infos| - 1]) + [infos[|infos| - 1].ingredients]
  }

  /** The ingredient lists sent downstream run parallel to the medication
      names: same length, and the i-th list is the lookup of the i-th name. */
  lemma {:induction false} IngredientListsParallelToNames(apiUrl: Option<string>, fetch: string -> MedicationDb.Reply,
                                                        names: seq<string>)
    ensures |IngredientLists(MedicationDb.MedicationInfoList(apiUrl, fetch, names))| == |names|
    ensures forall i :: 0 <= i < |names| ==>
      IngredientLists(MedicationDb.MedicationInfoList(apiUrl, fetch, names))[i]
        == MedicationDb.MedicationInfoFor(apiUrl, fetch, names[i]).ingredients
    decreases |names|
  {
    MedicationDb.MedicationInfoListPointwise(apiUrl, fetch, names);
    if names != [] {
      IngredientListsParallelToNames(apiUrl, fetch, names[..|names| - 1]);
    }
  }

  datatype SideEffectRequest = SideEffectRequest(userId: Id, medicationNames: seq<string>, description: Option<string>)

  /** The outbound calls of one analysis, in order. */
  datatype Call =
    | RegistryLookup(names: seq<string>)
    | PythonAnalysis(names: seq<string>, ingredientLists: seq<seq<string>>, allergyNames: seq<string>, description: Option<string>)

  /** The Python service's `analyzeSideEffects`: an analysis map, or the
      message of the exception it throws. */
  type Analyzer = (seq<string>, seq<seq<string>>, seq<string>, Option<string>) -> Result<Fields>

  /** The response and the serialized report text, or the wrapped failure. */
  function AnalysisOutcome(analysis: Result<Fields>, serialize: SideEffectResponse -> Result<string>,
                           saveError: Option<string>): (r: Result<(SideEffectResponse, string)>)
    ensures r.Err? ==> StartsWithPrefix(r.error, AnalysisFailedPrefix)
  {
    match analysis
    case Err(e) => Err(AnalysisFailedPrefix + e)
    case Ok(fields) =>
      match ResponseFor(fields)
      case Err(e) => Err(AnalysisFailedPrefix + e)
      case Ok(response) =>
        match serialize(response)
        case Err(e) => Err(AnalysisFailedPrefix + e)
        case Ok(json) =>
          if saveError.Some? then Err(AnalysisFailedPrefix + saveError.value) else Ok((response, json))
  }

  predicate StartsWithPrefix(s: string, prefix: string) {
    |prefix| <= |s| && s[..|prefix|] == prefix
  }

  class SideEffectAnalysisService {
    const users: Table<User>
    const allergies: Table<AllergyRecord>
    const reports: Table<SideEffectReport>
    /** The registry configuration of the injected `MedicationDbService`. */
    const apiUrl: Option<string>
    const fetch: string -> MedicationDb.Reply

    ghost predicate Valid()
      reads this, users, allergies, reports
    {
      users.Valid() && allergies.Valid() && reports.Valid()
    }

    constructor (users: Table<User>, allergies: Table<AllergyRecord>, reports: Table<SideEffectReport>,
                 apiUrl: Option<string>, fetch: string -> MedicationDb.Reply)
      requires users.Valid() && allergies.Valid() && reports.Valid()
      ensures Valid()
      ensures this.users == users && this.allergies == allergies && this.reports == reports
      ensures this.apiUrl == apiUrl && this.fetch == fetch
    {
      this.users := users;
      this.allergies := allergies;
      this.reports := reports;
      this.apiUrl := apiUrl;
      this.fetch := fetch;
    }

    /** `analyzeSideEffect`. `analyze` is the Python service, `serialize` the
        JSON writer, and `saveError` the message of an exception thrown by
        the report save (None when it succeeds). An unknown user fails
        before any outbound call; every later failure is wrapped in one
        message and files nothing. */
    method AnalyzeSideEffect(request: SideEffectRequest, analyze: Analyzer,
                             serialize: SideEffectResponse -> Result<string>, saveError: Option<string>)
      returns (r: Result<SideEffectResponse>, ghost calls: seq<Call>)
      requires Valid()
      modifies reports
      ensures Valid()
      ensures FindById(users.rows, request.userId).None? ==>
        r == Err(UserNotFoundPrefix + IntToString(request.userId)) && calls == [] && reports.rows == old(reports.rows)
      ensures FindById(users.rows, request.userId).Some? ==>
        var names := request.medicationNames;
        var lists := IngredientLists(MedicationDb.MedicationInfoList(apiUrl, fetch, names));
        var allergyNames := AllergyService.AllAllergies(allergies.rows, request.userId);
        var outcome := AnalysisOutcome(analyze(names, lists, allergyNames, request.description), serialize, saveError);
        calls == [RegistryLookup(names), PythonAnalysis(names, lists, allergyNames, request.description)]
        && (outcome.Err? ==> r == Err(outcome.error) && reports.rows == old(reports.rows))
        && (outcome.Ok? ==>
              (r == Ok(outcome.value.0)
               && reports.rows == old(reports.rows)
                    + [Row(old(reports.nextId), SideEffectReport(request.userId, names, request.description, outcome.value.1))]))
    {
      if FindById(users.rows, request.userId).None? {
        return Err(UserNotFoundPrefix + IntToString(request.userId)), [];
      }
      var allergyNames := AllergyService.AllAllergies(allergies.rows, request.userId);
      var infos := MedicationDb.MedicationInfoList(apiUrl, fetch, request.medicationNames);
      var lists := IngredientLists(infos);
      calls := [RegistryLookup(request.medicationNames),
                PythonAnalysis(request.medicationNames, lists, allergyNames, request.description)];
      var analysis := analyze(request.medicationNames, lists, allergyNames, request.description);
      if analysis.Err? {
        return Err(AnalysisFailedPrefix + analysis.error), calls;
      }
      var response := ConvertToSideEffectAnalysisResponse(analysis.value);
      if response.Err? {
        return Err(AnalysisFailedPrefix + response.error), calls;
      }
      var json := serialize(response.value);
      if json.Err? {
        return Err(AnalysisFailedPrefix + json.error), calls;
      }
      if saveError.Some? {
        return Err(AnalysisFailedPrefix + saveError.value), calls;
      }
      var _ := reports.Insert(SideEffectReport(request.userId, request.medicationNames, request.description, json.value));
      r := Ok(response.value);
    }
  }
}
