# A Dafny model of the med services

This project models the decision logic of the SxxMWolf/med back end and its Python analysis service, a medication-safety application. The modelled parts are:

- **Food-allergy matching.** `FoodAllergenMapper`, in Python, maps a user's food allergies to excipient trigger names. It matches the triggers against a medicine's ingredients by exact match, gelatin containment or whole-word match. It scores the total number of matches as LOW, MEDIUM or HIGH.
- **Analysis services.** These include:
  - the allergy lists of a user, split by allergy type;
  - the medication registry lookup with its fallback record;
  - the side-effect analysis flow and the conversion of its loosely typed answer;
  - the common-ingredient intersection.
- **OCR flows.** Both OCR analysis services (the current one and the legacy one) are modelled. So is the Python ingredient normaliser with its basic comma and newline splitting.
- **Community services.** Likes, posts and comments are modelled as small state machines over repository tables.
- **Account services.** Registration, login, temporary passwords, password change, username reminder and nickname change are modelled.
- **The JWT request filter.**

**How the model is built.**
- Repositories are instances of a generic `Repositories.Table<T>` class. Its `rows` field is a sequence of `Row(id, value)` in id order, and `nextId` is the next id to hand out. Services are classes that hold their tables.
- Methods that change a table state the whole new table in `ensures`, so they say what changes and that nothing else does.
- Pure logic is written as functions. Each has lemmas relating it to an independent description. For example, membership in the result is characterised by a quantifier, order is preserved, or a round trip holds.
- Where the source loops or fills objects setter by setter, a method does the same. It is proved equal to the specification function.
- External collaborators are function-typed parameters:
  - GPT and the Python API;
  - the Vision OCR;
  - the drug-registry HTTP call;
  - the password encoder;
  - JWT parsing;
  - the content validator;
  - the random source;
  - the serialiser.
  
  A collaborator that may throw returns a `Result`. Orchestrators also return a ghost trace of the outbound calls they made, so the order of checks can be stated.
- Loosely typed JSON and `Map<String, Object>` payloads are the `Json.Value` datatype. An object keeps its key order.
- Java `toString()`, Jackson `asText()` and Python truthiness are written out.
- Errors are `Err(message)` values carrying the source's own (Korean) messages. JVM exception texts become fixed tags.

## Model

| member | source | states |
|---|---|---|
| AllergyMapper.TableKeys | medPY/app/services/allergy_mapper.py:17-28 | The trigger table has distinct keys, none holding an ASCII letter, and every trigger list is non-empty |
| AllergyMapper.Lookup | medPY/app/services/allergy_mapper.py:45-46 | A dict lookup succeeds exactly when the key is present |
| AllergyMapper.LookupFindsStoredValue | medPY/app/services/allergy_mapper.py:45-46 | A successful lookup returns a value stored under that key |
| AllergyMapper.LookupDistinct | medPY/app/services/allergy_mapper.py:45-46 | With distinct keys, looking up the i-th key gives the i-th value |
| AllergyMapper.Put | medPY/app/services/allergy_mapper.py:137 | Assigning a present key overwrites its entry in place; a new key is appended at the end |
| AllergyMapper.PutSpec | medPY/app/services/allergy_mapper.py:137 | Assignment keeps keys distinct, makes the key map to the value and leaves every other key's lookup unchanged |
| AllergyMapper.CaseInsensitiveIndex | medPY/app/services/allergy_mapper.py:49-51 | The scan returns the first index from `from` whose lower-cased key equals the lower-cased name, or reports that none does |
| AllergyMapper.GetTriggersForAllergy | medPY/app/services/allergy_mapper.py:31-54 | The method (exact lookup, then the case-insensitive loop, then the stripped name) computes the trigger-lookup function |
| AllergyMapper.LowerMatchIsExact | medPY/app/services/allergy_mapper.py:49-51 | For a key without ASCII letters, lower-case equality is plain equality |
| AllergyMapper.CaseInsensitiveScanIsRedundant | medPY/app/services/allergy_mapper.py:42-54 | For a table whose keys hold no ASCII letter, the triggers are the table entry for the stripped name, or else the stripped name alone |
| AllergyMapper.LatinNamedAllergyIsOwnTrigger | medPY/app/services/allergy_mapper.py:53-54 | A stripped name containing an ASCII letter falls through to the singleton list of itself |
| AllergyMapper.TriggersNeverEmpty | medPY/app/services/allergy_mapper.py:42-54 | The trigger list is never empty |
| AllergyMapper.KnownAllergyExample | medPY/app/services/allergy_mapper.py:45-46 | "땅콩" yields its table entry |
| AllergyMapper.UnknownAllergyExample | medPY/app/services/allergy_mapper.py:53-54 | " Mango" yields ["Mango"] |
| AllergyMapper.SearchWholeWord | medPY/app/services/allergy_mapper.py:90-94 | The search is true exactly when the word occurs at some position from `from` on with a word boundary on both sides |
| AllergyMapper.IsMatch | medPY/app/services/allergy_mapper.py:57-109 | A match is: equality after lower-casing and stripping; for a gelatin trigger, containment of "젤라틴" or "gelatin"; otherwise a whole-word occurrence |
| AllergyMapper.MatchImpliesOccurrence | medPY/app/services/allergy_mapper.py:71-94 | A match means the trigger, or a gelatin spelling, occurs in the ingredient |
| AllergyMapper.MatchIgnoresCase | medPY/app/services/allergy_mapper.py:71-72 | Lower-casing either argument first does not change the answer |
| AllergyMapper.MatchOfNormalized | medPY/app/services/allergy_mapper.py:74-94 | On already lower-cased, stripped inputs the three rules apply directly |
| AllergyMapper.NoMatchInsideWordExample | medPY/app/services/allergy_mapper.py:84-94 | "락토스" does not match "락토스프리" |
| AllergyMapper.WordMatchExample | medPY/app/services/allergy_mapper.py:84-94 | "락토스" matches "락토스 모노하이드레이트" |
| AllergyMapper.GelatinCompoundExample | medPY/app/services/allergy_mapper.py:78-82 | "젤라틴" matches "소젤라틴" |
| AllergyMapper.CaseInsensitiveMatchExample | medPY/app/services/allergy_mapper.py:71-94 | "Lactose" matches "LACTOSE Monohydrate" |
| AllergyMapper.AddMatchesMembers | medPY/app/services/allergy_mapper.py:131-134 | The inner loop keeps the list duplicate-free, extends it at the end, and adds exactly the ingredients the trigger matches |
| AllergyMapper.CollectMatchesMembers | medPY/app/services/allergy_mapper.py:129-134 | Over all triggers, the list gains exactly the ingredients some trigger matches, without duplicates |
| AllergyMapper.MatchedIngredientsSpec | medPY/app/services/allergy_mapper.py:126-134 | An allergy's matched list is duplicate-free and holds exactly the input ingredients that some trigger of that allergy matches |
| AllergyMapper.GroupMatchesSpec | medPY/app/services/allergy_mapper.py:125-139 | The result dict has distinct keys, and an allergy maps to its matches exactly when it is listed and its matches are non-empty |
| AllergyMapper.FindMatchesSpec | medPY/app/services/allergy_mapper.py:111-139 | `find_matching_excipients` includes an allergy only when it matched something, mapped to its duplicate-free matched list |
| AllergyMapper.GroupMatchesValuesNonEmpty | medPY/app/services/allergy_mapper.py:136-137 | No entry of the result dict has an empty list |
| AllergyMapper.ScanIngredients | medPY/app/services/allergy_mapper.py:131-134 | The loop over ingredients computes the append-if-new fold |
| AllergyMapper.MatchAllergy | medPY/app/services/allergy_mapper.py:126-134 | The nested loops compute one allergy's matched list |
| AllergyMapper.FindMatchesStep | medPY/app/services/allergy_mapper.py:125-137 | One more allergy either assigns its non-empty matched list into the dict or leaves the dict alone |
| AllergyMapper.FindMatchingExcipients | medPY/app/services/allergy_mapper.py:111-139 | The dict-filling loop computes the specification of the matches |
| AllergyMapper.ExplanationLines | medPY/app/services/allergy_mapper.py:209-211 | There is one explanation clause per matched allergy |
| AllergyMapper.Report | medPY/app/services/allergy_mapper.py:190-220 | The summing and explaining loop computes the report for a dict of matches |
| AllergyMapper.CheckFoodAllergyRisk | medPY/app/services/allergy_mapper.py:142-229 | The method returns the specified assessment; it is total and never fails |
| AllergyMapper.RiskIffSomeTriggerMatches | medPY/app/services/allergy_mapper.py:160-220 | has_risk holds exactly when some listed allergy has a trigger matching some ingredient, and exactly when the matched map is non-empty |
| AllergyMapper.TotalMatchesAtLeastEntries | medPY/app/services/allergy_mapper.py:199 | With non-empty lists, the total count is at least the number of entries |
| AllergyMapper.ReportLevel | medPY/app/services/allergy_mapper.py:199-206 | Two matched allergies give at least MEDIUM, three give HIGH |
| AllergyMapper.GroupedReportLevel | medPY/app/services/allergy_mapper.py:199-206 | The same holds for any dict built by the grouping |
| AllergyMapper.SeveralAllergiesRaiseTheLevel | medPY/app/services/allergy_mapper.py:190-220 | The same holds for the full assessment |
| AllergyMapper.NoInformationExample | medPY/app/services/allergy_mapper.py:160-166 | An empty ingredient list gives no risk, LOW, an empty map and the no-information text |
| AllergyService.FindByUserId | medBE/src/main/java/com/sxxm/med/analysis/service/AllergyService.java:28 | The repository query returns exactly the records of that user |
| AllergyService.NamesWhereMembers | medBE/src/main/java/com/sxxm/med/analysis/service/AllergyService.java:29-33 | A name is in the filtered list exactly when some kept record carries it |
| AllergyService.NamesWhereConcat | medBE/src/main/java/com/sxxm/med/analysis/service/AllergyService.java:29-33 | Filtering and mapping distributes over concatenation, so repository order is kept |
| AllergyService.AllNamesInOrder | medBE/src/main/java/com/sxxm/med/analysis/service/AllergyService.java:50-55 | The unfiltered list is every record's name, in order |
| AllergyService.ComplementaryFiltersSplit | medBE/src/main/java/com/sxxm/med/analysis/service/AllergyService.java:30-31 | Two complementary filters split a list into parts whose lengths sum to its length |
| AllergyService.TypesAreComplementary | medBE/src/main/java/com/sxxm/med/analysis/service/AllergyService.java:30-31 | A record is a medication allergy (null type included) exactly when it is not a food allergy |
| AllergyService.MedicationAndFoodPartitionAll | medBE/src/main/java/com/sxxm/med/analysis/service/AllergyService.java:27-55 | The medication and food lists together have as many names as the full list |
| AllergyService.MedicationAllergiesMembers | medBE/src/main/java/com/sxxm/med/analysis/service/AllergyService.java:27-34 | A name is a medication allergy exactly when a record of that user with a null or MEDICATION type carries it |
| AllergyService.FoodAllergiesMembers | medBE/src/main/java/com/sxxm/med/analysis/service/AllergyService.java:39-45 | A name is a food allergy exactly when a FOOD record of that user carries it |
| MedicationDb.Texts | medBE/src/main/java/com/SxxM/med/analysis/service/MedicationDbService.java:93-95 | There is one text per ingredient node |
| MedicationDb.TextsPointwise | medBE/src/main/java/com/SxxM/med/analysis/service/MedicationDbService.java:93-95 | The i-th text is the `asText` of the i-th node; all-string arrays give their strings |
| MedicationDb.ParseMedicationInfo | medBE/src/main/java/com/SxxM/med/analysis/service/MedicationDbService.java:88-104 | The forEach/add loop computes the parsed record |
| MedicationDb.ParsedSpec | medBE/src/main/java/com/SxxM/med/analysis/service/MedicationDbService.java:91-103 | Absent keys give "" for name, description and manufacturer (`asText` of a missing node) and no ingredients; a string name is copied |
| MedicationDb.ParsedIngredientsExample | medBE/src/main/java/com/SxxM/med/analysis/service/MedicationDbService.java:91-96 | An all-string "ingredients" array is copied in order |
| MedicationDb.UnconfiguredGivesFallback | medBE/src/main/java/com/SxxM/med/analysis/service/MedicationDbService.java:35-37 | A null or empty API URL gives the fallback record: the query name, no ingredients, the not-found description and no manufacturer |
| MedicationDb.NoAnswerGivesFallback | medBE/src/main/java/com/SxxM/med/analysis/service/MedicationDbService.java:56-65 | A null body or any transport or parse failure gives the fallback record |
| MedicationDb.ManufacturerSetIffRegistryAnswered | medBE/src/main/java/com/SxxM/med/analysis/service/MedicationDbService.java:31-86 | The manufacturer is set exactly when the registry was configured and answered; the fallback leaves it unset |
| MedicationDb.MedicationInfoListPointwise | medBE/src/main/java/com/SxxM/med/analysis/service/MedicationDbService.java:68-72 | The list has the names' length and its i-th element is the lookup of the i-th name |
| SideEffectAnalysis.ConvertToSideEffectAnalysisResponse | medBE/src/main/java/com/SxxM/med/analysis/service/SideEffectAnalysisService.java:82-114 | The setter-by-setter conversion computes the specified response, including its failures |
| SideEffectAnalysis.AbsentKeysLeaveFieldsUnset | medBE/src/main/java/com/SxxM/med/analysis/service/SideEffectAnalysisService.java:85-111 | An absent key leaves its field unset; for the two object lists and the summary, the field is set exactly when its key is present |
| SideEffectAnalysis.CommonIngredientsCopied | medBE/src/main/java/com/SxxM/med/analysis/service/SideEffectAnalysisService.java:85-89 | A list of strings under "common_ingredients" is copied unchanged |
| SideEffectAnalysis.SensitiveListPointwise | medBE/src/main/java/com/SxxM/med/analysis/service/SideEffectAnalysisService.java:91-98 | The sensitive-ingredient list is converted element by element, keeping length and order |
| SideEffectAnalysis.SideEffectListPointwise | medBE/src/main/java/com/SxxM/med/analysis/service/SideEffectAnalysisService.java:100-107 | The side-effect list is converted element by element, keeping length and order |
| SideEffectAnalysis.SensitiveIngredientFields | medBE/src/main/java/com/SxxM/med/analysis/service/SideEffectAnalysisService.java:116-128 | Each field is set exactly when its key is present; a present null value throws |
| SideEffectAnalysis.CommonSideEffectIngredientFields | medBE/src/main/java/com/SxxM/med/analysis/service/SideEffectAnalysisService.java:130-142 | Each field is set exactly when its key is present; a present null value throws |
| SideEffectAnalysis.EmptyAnswerExample | medBE/src/main/java/com/SxxM/med/analysis/service/SideEffectAnalysisService.java:82-114 | An empty answer gives a response with every field unset |
| SideEffectAnalysis.IngredientLists | medBE/src/main/java/com/SxxM/med/analysis/service/SideEffectAnalysisService.java:50-52 | There is one ingredient list per medication record |
| SideEffectAnalysis.IngredientListsParallelToNames | medBE/src/main/java/com/SxxM/med/analysis/service/SideEffectAnalysisService.java:46-52 | The lists sent downstream are parallel to the requested names: same length, and the i-th is the i-th name's ingredients |
| SideEffectAnalysis.AnalysisOutcome | medBE/src/main/java/com/SxxM/med/analysis/service/SideEffectAnalysisService.java:55-79 | Every failure inside the try block surfaces as one error carrying the "부작용 분석 중 오류가 발생했습니다: " prefix |
| SideEffectAnalysis.SideEffectAnalysisService.AnalyzeSideEffect | medBE/src/main/java/com/SxxM/med/analysis/service/SideEffectAnalysisService.java:35-80 | An unknown user fails before any call with nothing saved. Otherwise the registry is looked up and then the analysis called, in that order. A failure saves nothing. Success appends one report holding the names, the description and the serialised response, and returns the response |
| SideEffectService.Elements | medPY/app/services/sideeffect_service.py:49-52 | `set(list)` holds exactly the list's elements |
| SideEffectService.CommonSetMembers | medPY/app/services/sideeffect_service.py:48-52 | An ingredient is in the intersection exactly when it occurs in every list |
| SideEffectService.ListOf | medPY/app/services/sideeffect_service.py:54 | `list(set)` has no duplicates, the set's size and exactly the set's elements |
| SideEffectService.ExtractCommonIngredients | medPY/app/services/sideeffect_service.py:38-54 | No lists give []. One list is returned unchanged. Two or more give a duplicate-free list holding exactly the ingredients common to all lists |
| SideEffectService.CommonWithItself | medPY/app/services/sideeffect_service.py:48-52 | Intersecting a list with itself gives its elements |
| OcrAnalysis.ToIngredientRisk | medBE/src/main/java/com/SxxM/med/ocr/service/OcrAnalysisService.java:174-199 | Converting a list element succeeds exactly when it is a map (a null or non-map element throws the cast) |
| OcrAnalysis.IngredientRiskFields | medBE/src/main/java/com/SxxM/med/ocr/service/OcrAnalysisService.java:174-199 | Each risk field is set to a value exactly when its key holds a non-null value; a string is copied; converting a map never fails |
| OcrAnalysis.ConvertToOcrAnalysisResponse | medBE/src/main/java/com/SxxM/med/ocr/service/OcrAnalysisService.java:115-172 | The setter-by-setter conversion computes the specified response, including its failures |
| OcrAnalysis.IngredientRisksRule | medBE/src/main/java/com/SxxM/med/ocr/service/OcrAnalysisService.java:133-152 | Absent or non-list risks leave the field unset. A list of maps is converted element by element in order. A list holding a non-map becomes the empty list |
| OcrAnalysis.AnalysisFailsOnlyOnScalarsAndLists | medBE/src/main/java/com/SxxM/med/ocr/service/OcrAnalysisService.java:129-168 | The conversion fails exactly when safety_level or overall_assessment is a present null, or a string-list key holds a non-list |
| OcrAnalysis.ResponseCopiesItsInputs | medBE/src/main/java/com/SxxM/med/ocr/service/OcrAnalysisService.java:121-124 | The response copies ocrText and the ingredients unchanged; a null cleaned text falls back to ocrText |
| OcrAnalysis.Normalization | medBE/src/main/java/com/SxxM/med/ocr/service/OcrAnalysisService.java:69-81 | A failed normalisation call, and any failure reading its answer, surfaces as an error with the "OCR 텍스트 정규화 중 오류가 발생했습니다: " prefix |
| OcrAnalysis.NormalizationDefaults | medBE/src/main/java/com/SxxM/med/ocr/service/OcrAnalysisService.java:70-75 | Absent or null ingredients become [], a missing cleaned_text falls back to the OCR text, and present strings are copied |
| OcrAnalysis.UserChecksComeFirst | medBE/src/main/java/com/SxxM/med/ocr/service/OcrAnalysisService.java:36-44 | A null userId and an unknown user fail before any call; otherwise OCR is the first call |
| OcrAnalysis.BlankTextStopsBeforeNormalization | medBE/src/main/java/com/SxxM/med/ocr/service/OcrAnalysisService.java:56-70 | Null or blank OCR text fails right after OCR; otherwise normalisation of that text is the second call |
| OcrAnalysis.SaveFailureIsSwallowed | medBE/src/main/java/com/SxxM/med/ocr/service/OcrAnalysisService.java:93-108 | Whether the save succeeds changes neither the returned result nor the calls made |
| OcrAnalysis.SavedRecordMatchesResponse | medBE/src/main/java/com/SxxM/med/ocr/service/OcrAnalysisService.java:93-101 | A saved record belongs to the requesting user, holds the response's texts and its serialised form, and holds "base64_data" for base64 images |
| OcrAnalysis.FailuresCarryTheirStage | medBE/src/main/java/com/SxxM/med/ocr/service/OcrAnalysisService.java:78-112 | A failure at normalisation carries its prefix. The analysis call gets the user's allergies, and a failure after it carries the analysis prefix |
| OcrAnalysis.OcrAnalysisService.AnalyzeOcrImage | medBE/src/main/java/com/SxxM/med/ocr/service/OcrAnalysisService.java:35-113 | The method computes the specified run: its result and its calls. The record table gains the saved record when there is one, and is otherwise unchanged |
| LegacyOcrAnalysis.ParseIngredientsFromText | medBE/src/main/java/com/SxxM/med/service/OcrAnalysisService.java:112-120 | Every token is non-empty and trimmed |
| LegacyOcrAnalysis.ParseIngredientsFromTextMembers | medBE/src/main/java/com/SxxM/med/service/OcrAnalysisService.java:112-120 | A token is in the result exactly when it is the non-empty trim of some comma- or newline-separated piece; no token holds a separator |
| LegacyOcrAnalysis.ParseIngredientsFromTextKeepsOrder | medBE/src/main/java/com/SxxM/med/service/OcrAnalysisService.java:115-119 | The k-th token is the trim of the k-th kept piece, and kept pieces appear in input order |
| LegacyOcrAnalysis.ConvertToStringList | medBE/src/main/java/com/SxxM/med/service/OcrAnalysisService.java:101 | Converting to List<String> yields null exactly for a JSON null. It succeeds exactly for null or an array without nested arrays or objects. A converted array keeps its length, has a null element exactly where the array holds a JSON null, and copies string elements |
| LegacyOcrAnalysis.NullElementIsKept | medBE/src/main/java/com/SxxM/med/service/OcrAnalysisService.java:101 | ["a", null] converts to the list "a", null rather than failing |
| LegacyOcrAnalysis.ModelListPreferred | medBE/src/main/java/com/SxxM/med/service/OcrAnalysisService.java:82-110 | A convertible "ingredients" value is used. A failed call, a missing key or a failed conversion falls back to basic parsing. A null list results exactly from a JSON null |
| LegacyOcrAnalysis.GuardsComeFirst | medBE/src/main/java/com/SxxM/med/service/OcrAnalysisService.java:37-51 | An unknown user fails before OCR, and null or blank text fails before parsing |
| LegacyOcrAnalysis.ResponseCarriesLocalValues | medBE/src/main/java/com/SxxM/med/service/OcrAnalysisService.java:61-73 | The returned response's ocrText and ingredients are the locally computed ones, and the saved record holds them and the serialised response |
| LegacyOcrAnalysis.SaveFailureFailsTheRun | medBE/src/main/java/com/SxxM/med/service/OcrAnalysisService.java:60-79 | Here a failed save fails the whole run, and nothing is saved |
| LegacyOcrAnalysis.LegacyOcrAnalysisService.AnalyzeOcrImage | medBE/src/main/java/com/SxxM/med/service/OcrAnalysisService.java:35-80 | The method computes the specified run and appends the saved record when there is one |
| OcrService.ParseIngredientsBasic | medPY/app/services/ocr_service.py:46-57 | Every token is non-empty and stripped |
| OcrService.BasicParsingKeepsOrder | medPY/app/services/ocr_service.py:51-56 | The split pieces interleaved with the separators give back the text. The k-th token is the strip of the k-th kept piece, in order, and every piece with non-blank content is kept |
| OcrService.BasicTokensHaveNoSeparator | medPY/app/services/ocr_service.py:51-56 | No token is empty or contains ',' or a newline |
| OcrService.CleanedLlmList | medPY/app/services/ocr_service.py:34-38 | A cleaned LLM list holds only non-empty stripped strings |
| OcrService.CleanedLlmListSpec | medPY/app/services/ocr_service.py:30-39 | The comprehension fails (the except path) exactly when a truthy non-string element is present; otherwise it strips the strings and drops empty or falsy ones, in order |
| OcrService.NormalizeOcrText | medPY/app/services/ocr_service.py:9-44 | On both paths, every returned token is non-empty and stripped |
| OcrService.BlankTextSkipsTheModel | medPY/app/services/ocr_service.py:13-14 | Empty or whitespace-only text returns [] whatever the model would answer |
| OcrService.UsableAnswerIsUsed | medPY/app/services/ocr_service.py:28-39 | A dict answer whose "ingredients" list has no truthy non-string gives that list cleaned |
| OcrService.UnusableAnswerFallsBack | medPY/app/services/ocr_service.py:28-44 | A failed call, a non-dict, a missing key, a non-list or a truthy non-string element gives the basic parse |
| Text.SplitRoundTrip | medPY/app/services/ocr_service.py:51 | Splitting on separator characters and interleaving the pieces with the separators gives back the text |
| Text.StripEmptyIffBlank | medPY/app/services/ocr_service.py:13 | Stripping gives "" exactly when the text is all whitespace |
| Text.StripIdempotent | medPY/app/services/ocr_service.py:35 | Stripping twice is stripping once |
| LikeService.FirstPairIffLiked | medBE/src/main/java/com/SxxM/med/community/service/LikeService.java:42-60 | The find-by-pair query succeeds exactly when the exists-by-pair query is true |
| LikeService.LikeEffect | medBE/src/main/java/com/SxxM/med/community/service/LikeService.java:41-53 | After a like, the pair is liked. The target's count grows by one unless the pair was already liked. No other pair changes, and at most one like per pair is kept |
| LikeService.LikeIsIdempotent | medBE/src/main/java/com/SxxM/med/community/service/LikeService.java:41-44 | Liking twice is liking once |
| LikeService.UnlikeEffect | medBE/src/main/java/com/SxxM/med/community/service/LikeService.java:59-68 | After an unlike, the pair is not liked. The count drops by one when it was liked. No other pair changes, and the invariant is kept |
| LikeService.LikeThenUnlikeRestores | medBE/src/main/java/com/SxxM/med/community/service/LikeService.java:34-68 | Liking a pair not yet liked and then unliking it restores the table |
| LikeService.UnlikeWithoutLikeIsNoOp | medBE/src/main/java/com/SxxM/med/community/service/LikeService.java:60-65 | Unliking a pair that is not liked changes nothing |
| LikeService.LikeService.LikePost | medBE/src/main/java/com/SxxM/med/community/service/LikeService.java:34-54 | A missing post, then a missing user, fails with nothing changed. Otherwise the like is added if new, and the response counts the post's likes and says liked. The comment-like table is untouched |
| LikeService.LikeService.UnlikePost | medBE/src/main/java/com/SxxM/med/community/service/LikeService.java:59-68 | The pair's like is removed if present, with no post check. The response says not liked, and the comment-like table is untouched |
| LikeService.LikeService.LikeComment | medBE/src/main/java/com/SxxM/med/community/service/LikeService.java:73-93 | The same as liking a post, on the comment-like table; the post-like table is untouched |
| LikeService.LikeService.UnlikeComment | medBE/src/main/java/com/SxxM/med/community/service/LikeService.java:98-107 | The same as unliking a post, on the comment-like table; the post-like table is untouched |
| PostService.ResponseLikes | medBE/src/main/java/com/SxxM/med/community/service/PostService.java:151-167 | A null userId gives isLiked false; isLiked implies a userId and at least one like |
| PostService.ListedPosts | medBE/src/main/java/com/SxxM/med/community/service/PostService.java:104-109 | A non-null, non-empty category keeps exactly the posts of that category; otherwise all posts are listed |
| PostService.Responses | medBE/src/main/java/com/SxxM/med/community/service/PostService.java:110 | The page is mapped post by post through `toResponse` |
| PostService.GetAllPosts | medBE/src/main/java/com/SxxM/med/community/service/PostService.java:103-111 | A page holds at most `size` posts |
| PostService.ListingFilter | medBE/src/main/java/com/SxxM/med/community/service/PostService.java:103-111 | With a category, every listed post has it and exists; without one, the page is the plain page of all posts |
| PostService.PostService.CreatePost | medBE/src/main/java/com/SxxM/med/community/service/PostService.java:34-52 | An unknown author, then rejected content, fails with nothing saved. Otherwise one post by that author is appended, with a null category defaulting to "자유게시판". The response says not liked |
| PostService.PostService.UpdatePost | medBE/src/main/java/com/SxxM/med/community/service/PostService.java:113-137 | Failure order is missing post, then a non-author, then rejected content, each leaving the table unchanged. Otherwise title and content are replaced, and the category only when given; nothing else changes. The response is `toResponse` of the updated post for the caller's id. Success implies authorship |
| PostService.PostService.DeletePost | medBE/src/main/java/com/SxxM/med/community/service/PostService.java:139-149 | A missing post or a non-author fails with the post kept. The author's delete removes exactly that row |
| CommentService.ResponseLikes | medBE/src/main/java/com/SxxM/med/community/service/CommentService.java:112-126 | A null userId gives isLiked false; isLiked implies a userId and at least one like |
| CommentService.InsertByCreatedAtKeepsComments | medBE/src/main/java/com/SxxM/med/community/service/CommentService.java:74 | Insertion adds exactly the one comment |
| CommentService.InsertByCreatedAtKeepsOrder | medBE/src/main/java/com/SxxM/med/community/service/CommentService.java:74 | Insertion into a createdAt-ordered list keeps it ordered |
| CommentService.SortByCreatedAtSpec | medBE/src/main/java/com/SxxM/med/community/service/CommentService.java:74 | The sort orders by createdAt ascending and is a permutation |
| CommentService.Responses | medBE/src/main/java/com/SxxM/med/community/service/CommentService.java:76 | The page is mapped comment by comment through `toResponse` |
| CommentService.GetCommentsByPostIdWithPagination | medBE/src/main/java/com/SxxM/med/community/service/CommentService.java:73-77 | A negative page, then a size below one, fails as `PageRequest.of` does; a page holds at most `size` comments |
| CommentService.PageRowsOfPost | medBE/src/main/java/com/SxxM/med/community/service/CommentService.java:73-77 | A page holds only that post's comments and is ordered by createdAt |
| CommentService.PagedCommentsAreOrdered | medBE/src/main/java/com/SxxM/med/community/service/CommentService.java:73-77 | Paged responses belong to the post, come from stored comments, and are ordered by createdAt ascending |
| CommentService.SortedRunHoldsThePostsComments | medBE/src/main/java/com/SxxM/med/community/service/CommentService.java:73-75 | The sorted run holds exactly that post's comments |
| CommentService.CommentService.CreateComment | medBE/src/main/java/com/SxxM/med/community/service/CommentService.java:37-57 | Failure order is unknown user, then missing post, then rejected content, each with nothing saved. Otherwise one comment is appended. The response says not liked and carries the post and content |
| CommentService.CommentService.UpdateComment | medBE/src/main/java/com/SxxM/med/community/service/CommentService.java:79-98 | Failure order is missing comment, then a non-author, then rejected content, each with nothing changed. Otherwise only the content changes, and the response is `toResponse` of the updated comment for the caller's id |
| CommentService.CommentService.DeleteComment | medBE/src/main/java/com/SxxM/med/community/service/CommentService.java:100-110 | A missing comment or a non-author fails with the comment kept. The author's delete removes exactly that row |
| Repositories.PagesCoverEachItemOnce | medBE/src/main/java/com/SxxM/med/community/service/CommentService.java:74-75 | With a positive size, every item lies on exactly one page, at offset `j % size` of page `j / size` |
| Repositories.CallerId | medBE/src/main/java/com/SxxM/med/community/service/PostService.java:134-135 | The caller's id is present exactly when some user has the username, and it is that user's id |
| AuthService.RewriteKeepsAccountsUnique | medBE/src/main/java/com/SxxM/med/auth/service/PasswordService.java:38-39 | Rewriting a user without touching username or e-mail keeps accounts unique |
| AuthService.FoundUserIsTheOnly | medBE/src/main/java/com/SxxM/med/auth/service/AuthService.java:23-24 | With unique accounts, the user found by username is the one holding it |
| AuthService.Login | medBE/src/main/java/com/SxxM/med/auth/service/AuthService.java:22-31 | Every failure is the same bad-credentials error; success is the token generated for that username |
| AuthService.LoginSucceedsIffCredentialsMatch | medBE/src/main/java/com/SxxM/med/auth/service/AuthService.java:22-31 | Login succeeds exactly when some user has the username and a hash the password matches; an unknown username gives the same error |
| AuthService.GetUserByUsername | medBE/src/main/java/com/SxxM/med/auth/service/AuthService.java:33-36 | The lookup fails exactly when no user has the username; success returns a stored user with that username |
| AuthService.AuthService.Register | medBE/src/main/java/com/SxxM/med/auth/service/AuthService.java:38-59 | A taken username, then a taken e-mail, fails with nothing saved. Otherwise the user is appended with the encoder's hash of the password, and usernames and e-mails stay unique |
| PasswordService.AlphabetLayout | medBE/src/main/java/com/SxxM/med/auth/service/PasswordService.java:24-27 | The alphabet has 62 characters: a-z, then A-Z, then 0-9 |
| PasswordService.UpperIsShiftedLower | medBE/src/main/java/com/SxxM/med/auth/service/PasswordService.java:24-25 | The upper-case letters are the lower-case ones shifted by the ASCII case offset, and lower-casing them gives the lower-case letters back |
| PasswordService.AlphabetIsAlphanumeric | medBE/src/main/java/com/SxxM/med/auth/service/PasswordService.java:24-27 | Every alphabet character is in [a-zA-Z0-9] |
| PasswordService.AlphanumericIsInAlphabet | medBE/src/main/java/com/SxxM/med/auth/service/PasswordService.java:24-27 | Every character of [a-zA-Z0-9] is in the alphabet |
| PasswordService.TemporaryPassword | medBE/src/main/java/com/SxxM/med/auth/service/PasswordService.java:59-67 | The password has 8 characters, the i-th being the alphabet character at the i-th draw |
| PasswordService.TemporaryPasswordsAreExactlyAlphanumericOfEight | medBE/src/main/java/com/SxxM/med/auth/service/PasswordService.java:59-67 | Every temporary password is 8 alphanumeric characters, and every such string is produced by some draws |
| PasswordService.DrawsFor | medBE/src/main/java/com/SxxM/med/auth/service/PasswordService.java:61-64 | Any 8-character alphanumeric string is spelled by some in-range draws |
| PasswordService.GenerateTemporaryPassword | medBE/src/main/java/com/SxxM/med/auth/service/PasswordService.java:59-67 | The StringBuilder loop computes the temporary password of the draws: 8 alphanumeric characters |
| PasswordService.PasswordService.SendTemporaryPassword | medBE/src/main/java/com/SxxM/med/auth/service/PasswordService.java:30-43 | Without a user holding both username and e-mail, it fails with nothing changed. Otherwise only that user's password changes, to the hash of the temporary password, and the plain temporary password is mailed to the address |
| PasswordService.PasswordService.ChangePassword | medBE/src/main/java/com/SxxM/med/auth/service/PasswordService.java:45-57 | An unknown user, then a non-matching current password, fails with nothing changed. Otherwise only the stored password changes, to the hash of the new one |
| UserService.FindUsername | medBE/src/main/java/com/SxxM/med/auth/service/UserService.java:21-32 | It never fails. A mail is sent exactly when some user holds the address, and it names such a user |
| UserService.ReminderNamesTheOwner | medBE/src/main/java/com/SxxM/med/auth/service/UserService.java:25-30 | With unique accounts, the mail names the one user holding the address |
| UserService.UserService.ChangeNickname | medBE/src/main/java/com/SxxM/med/auth/service/UserService.java:34-40 | An unknown username fails with nothing changed; otherwise only that user's nickname changes |
| JwtAuthenticationFilter.GetTokenFromRequest | medBE/src/main/java/com/SxxM/med/security/JwtAuthenticationFilter.java:74-80 | A token is returned exactly when the header starts with "Bearer ", and the header is "Bearer " followed by the token |
| JwtAuthenticationFilter.BearerHeaderHasText | medBE/src/main/java/com/SxxM/med/security/JwtAuthenticationFilter.java:76 | A header starting with "Bearer " always passes `hasText` |
| JwtAuthenticationFilter.BearerHeaderRoundTrip | medBE/src/main/java/com/SxxM/med/security/JwtAuthenticationFilter.java:74-80 | The header built from a token gives that token back |
| JwtAuthenticationFilter.SkippedPathsAreClosedUnderExtension | medBE/src/main/java/com/SxxM/med/security/JwtAuthenticationFilter.java:67-72 | Extending a skipped path keeps it skipped |
| JwtAuthenticationFilter.ShortPathsAreFiltered | medBE/src/main/java/com/SxxM/med/security/JwtAuthenticationFilter.java:67-72 | A path shorter than both skipped prefixes ("/api/health" and "/actuator/") is filtered |
| JwtAuthenticationFilter.AuthenticatedIffTokenValidates | medBE/src/main/java/com/SxxM/med/security/JwtAuthenticationFilter.java:32-54 | A request is authenticated as a user exactly when it is not a preflight, carries a bearer token, and the token yields that username without throwing and is validated for it |
| JwtAuthenticationFilter.PreflightIgnoresTheToken | medBE/src/main/java/com/SxxM/med/security/JwtAuthenticationFilter.java:32-35 | An OPTIONS request is never authenticated, whatever the token operations say |
| JwtAuthenticationFilter.ThrowingTokenIsIgnored | medBE/src/main/java/com/SxxM/med/security/JwtAuthenticationFilter.java:55-58 | A token whose processing throws leaves the request unauthenticated |
| JwtAuthenticationFilter.DoFilterInternal | medBE/src/main/java/com/SxxM/med/security/JwtAuthenticationFilter.java:27-65 | The chain gets the request exactly once on every path. The context gets the earned authentication and is otherwise left as it was |

## Left out

- **Regex-failure fallback.** The substring fallback of `_is_match` (allergy_mapper.py:95-107) runs only if the escaped pattern fails to compile, which `re.escape` rules out.
- **Exception handlers of `check_food_allergy_risk`.** The handlers at allergy_mapper.py:159, 169-188 and 221-229 are not modelled. The model is total on lists of strings, so those handlers are unreachable here.
- **Case folding.** `str.lower()`, `String.trim()`, `toLowerCase` and `equalsIgnoreCase` are modelled on ASCII only. Non-ASCII case mappings, such as the Turkish dotless i or the long s, are not modelled.
- **Python's `\b`.** `IsWordChar` takes the ASCII, Latin-1 and Hangul letters and digits as word characters. Other Unicode letters are not modelled.
- **Group resolution.** The group resolution pipeline, multi-envelope registry parsing and the group DTOs are not part of this model.
- **JVM exceptions.** Exception messages of `NullPointerException` and `ClassCastException` become fixed tags. Unchecked casts of `List<String>` that the JVM would let through are treated as failures when an element is not a string.
- **Prompt construction.** GPT prompts are built but not modelled. `readTree` and the GPT, Vision, registry and Python API calls are folded into oracle parameters that either answer or fail.
- **The legacy null userId.** In the legacy OCR service a null userId would throw inside `findById`. The model takes a present id.
- **Transactions.** Rollback of the surrounding transaction on an exception is not modelled. Each error path already leaves the tables unchanged.
- **Clock-dependent fields.** `createdAt` of a new comment is a `now` parameter. `updatedAt`, and `createdAt` of posts, are omitted from the responses.
- **Post listing order.** The post listing pages over table order, because the `Pageable` sort of posts comes from the caller.
- **Comment sort ties.** Comments with equal `createdAt` keep table order, as in a stable insertion sort. The database may order such ties differently.
- **Password encoder.** `PasswordEncoder.encode` is a function, so its BCrypt salt is not modelled.
- **Logging** is not modelled.
- **Unnamed read paths.** `getPost`, `getPostWithComments`, `toCommentResponse` of PostService, and `getCommentsByPostId` and `getCommentsByPostIdOrdered` of CommentService are plain read paths that reuse the modelled `toResponse`, and are not modelled separately.
- **Filter dispatch.** Dispatch of the `OncePerRequestFilter` is not modelled; `shouldNotFilter` is modelled as a predicate on its own. `setDetails` on the authentication is also left out.
- **Referential integrity.** Referential integrity between tables is not enforced, so `authorNickname` is an `Option`.
- **Side effects outside the tables.**
  - The mail service is modelled by the `Email` value a method returns.
  - `SecureRandom` is a `draw` function with values in range.
  - The content validator is a predicate parameter.
- **Out of scope.** Controllers, routers, configuration classes, the front end and floating point are not modelled.
- **Legacy duplicates.** The duplicate `PostService`, `CommentService`, `AuthService` and `SideEffectAnalysisService` under `com.SxxM.med.service` and `src/` follow the same rules and are not modelled again.
- **Read-only queries.** The allergy queries are functions, so that they change no state is true by construction rather than stated as a contract.
- **Conversion methods.** `ConvertToSideEffectAnalysisResponse` and `ConvertToOcrAnalysisResponse` build the response by successive assignments to a datatype value. They do not update a mutable response object, so aliasing of that object is not modelled.
