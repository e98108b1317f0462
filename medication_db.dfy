/** The drug-registry lookup of the analysis service. A lookup never fails:
    when the registry is not configured, does not answer, answers with no body
    or with something that is not JSON, the caller gets a fallback record that
    carries only the queried name. */
module MedicationDb {
  import opened Wrappers
  import opened Json

  /** `MedicationInfo`; the fallback record leaves `manufacturer` unset (None). */
  datatype MedicationInfo = MedicationInfo(
    name: string, ingredients: seq<string>, description: string, manufacturer: Option<string>)

  /** What the registry call for one name comes back with: a parsed JSON
      body, no body, or an exception from the transport or the JSON reader. */
  datatype Reply = Body(json: Value) | NoBody | Failed

  const NotFound := "의약품 정보를 찾을 수 없습니다"

  /** `getMedicationInfoFromInternalDb`: the record for a name nothing is known about. */
  function Fallback(medicationName: string): MedicationInfo {
    MedicationInfo(medicationName, [], NotFound, None)
  }

  /** `asText()` of each node, in order. */
  function Texts(nodes: seq<Value>): (r: seq<string>)
    ensures |r| == |nodes|
    decreases |nodes|
  {
    if nodes == [] then [] else Texts(nodes[..|nodes| - 1]) + [AsText(nodes[|nodes| - 1])]
  }

  /** The text of a member, or "" when the node has no such member. */
  function FieldText(node: Value, key: string): string {
    match NodeGet(node, key)
    case Some(v) => AsText(v)
    case None => ""
  }

  /** The nodes `forEach` visits under "ingredients", none when the member is absent. */
  function IngredientNodes(node: Value): seq<Value> {
    match NodeGet(node, "ingredients")
    case Some(v) => Children(v)
    case None => []
  }

  /** The record `parseMedicationInfo` builds from a registry answer. */
  function Parsed(node: Value): MedicationInfo {
    MedicationInfo(FieldText(node, "name"), Texts(IngredientNodes(node)),
                   FieldText(node, "description"), Some(FieldText(node, "manufacturer")))
  }

  /** `parseMedicationInfo`: the ingredient list is filled element by element. */
  method ParseMedicationInfo(node: Value) returns (info: MedicationInfo)
    ensures info == Parsed(node)
  {
    var ingredients: seq<string> := [];
    var nodes := IngredientNodes(node);
    var i := 0;
    while i < |nodes|
      invariant 0 <= i <= |nodes|
      invariant ingredients == Texts(nodes[..i])
    {
      ingredients := ingredients + [AsText(nodes[i])];
      assert nodes[..i + 1][..i] == nodes[..i];
      i := i + 1;
    }
    assert nodes[..i] == nodes;
    info := MedicationInfo(FieldText(node, "name"), ingredients,
                           FieldText(node, "description"), Some(FieldText(node, "manufacturer")));
  }

  /** Whether the registry URL is set and non-empty. */
  predicate Configured(apiUrl: Option<string>) {
    apiUrl.Some? && apiUrl.value != ""
  }

  /** `getMedicationInfo`: `apiUrl` is the configured registry URL (None
      when the property is missing) and `fetch` the registry's answer for a
      name. */
  function MedicationInfoFor(apiUrl: Option<string>, fetch: string -> Reply, medicationName: string): MedicationInfo {
    if !Configured(apiUrl) then Fallback(medicationName)
    else match fetch(medicationName)
      case Body(json) => Parsed(json)
      case NoBody => Fallback(medicationName)
      case Failed => Fallback(medicationName)
  }

  /** `getMedicationInfoList`: one lookup per name. */
  function MedicationInfoList(apiUrl: Option<string>, fetch: string -> Reply, medicationNames: seq<string>): seq<MedicationInfo>
    decreases |medicationNames|
  {
    if medicationNames == [] then []
    else MedicationInfoList(apiUrl, fetch, medicationNames[..|medicationNames| - 1])
         + [MedicationInfoFor(apiUrl, fetch, medicationNames[|medicationNames| - 1])]
  }

  /** The batch lookup keeps the length and the order of the names. */
  lemma {:induction false} MedicationInfoListPointwise(apiUrl: Option<string>, fetch: string -> Reply, medicationNames: seq<string>)
    ensures |MedicationInfoList(apiUrl, fetch, medicationNames)| == |medicationNames|
    ensures forall i :: 0 <= i < |medicationNames| ==>
      MedicationInfoList(apiUrl, fetch, medicationNames)[i] == MedicationInfoFor(apiUrl, fetch, medicationNames[i])
    decreases |medicationNames|
  {
    if medicationNames != [] {
      MedicationInfoListPointwise(apiUrl, fetch, medicationNames[..|medicationNames| - 1]);
    }
  }

  /** Without a registry URL every lookup is the fallback record of the
      queried name, with no ingredients and the not-found description. */
  lemma UnconfiguredGivesFallback(apiUrl: Option<string>, fetch: string -> Reply, medicationName: string)
    requires apiUrl.None? || apiUrl == Some("")
    ensures var r := MedicationInfoFor(apiUrl, fetch, medicationName);
      r.name == medicationName && r.ingredients == [] && r.description == NotFound && r.manufacturer.None?
  {
  }

  /** A registry that fails or answers with no body gives the fallback record. */
  lemma NoAnswerGivesFallback(apiUrl: Option<string>, fetch: string -> Reply, medicationName: string)
    requires !fetch(medicationName).Body?
    ensures MedicationInfoFor(apiUrl, fetch, medicationName) == Fallback(medicationName)
  {
  }

  /** Only a record parsed from a registry answer has a manufacturer; the
      fallback record never does. */
  lemma ManufacturerSetIffRegistryAnswered(apiUrl: Option<string>, fetch: string -> Reply, medicationName: string)
    ensures MedicationInfoFor(apiUrl, fetch, medicationName).manufacturer.Some?
        <==> Configured(apiUrl) && fetch(medicationName).Body?
  {
  }

  /** The parsed ingredients are the text of each element of "ingredients",
      in order; without that member there are none. Strings are copied as
      they are. */
  lemma {:induction false} TextsPointwise(nodes: seq<Value>)
    ensures forall i :: 0 <= i < |nodes| ==> Texts(nodes)[i] == AsText(nodes[i])
    ensures AllStrings(nodes) ==> Texts(nodes) == Strings(nodes)
    decreases |nodes|
  {
    if nodes != [] {
      TextsPointwise(nodes[..|nodes| - 1]);
    }
  }

  /** A parsed record takes each text field from its member and "" when the
      member is absent, and reads the ingredients from the "ingredients" array. */
  lemma ParsedSpec(node: Value)
    ensures var r := Parsed(node);
      (NodeGet(node, "name").None? ==> r.name == "")
      && (NodeGet(node, "description").None? ==> r.description == "")
      && (NodeGet(node, "manufacturer").None? ==> r.manufacturer == Some(""))
      && (NodeGet(node, "ingredients").None? ==> r.ingredients == [])
      && (NodeGet(node, "name").Some? && NodeGet(node, "name").value.Str? ==> r.name == NodeGet(node, "name").value.s)
  {
  }

  /** A registry answer listing string ingredients yields exactly those ingredients. */
  lemma ParsedIngredientsExample(node: Value, items: seq<Value>)
    requires node.Obj? && NodeGet(node, "ingredients") == Some(Arr(items)) && AllStrings(items)
    ensures Parsed(node).ingredients == Strings(items)
  {
    TextsPointwise(items);
  }
}
