/** The loosely typed payloads the services exchange with the Python API, the
    drug registry and the language model: a JSON value as Jackson or Python's
    `json` module hands it over (a `Map<String, Object>`, a `JsonNode`, a
    `dict`). An object keeps its members in document order, as Jackson's
    `LinkedHashMap` and Python's `dict` do. */
module Json {
  import opened Wrappers
  import Text

  datatype Value =
    | Null
    | Bool(b: bool)
    | Num(n: int)
    | Str(s: string)
    | Arr(items: seq<Value>)
    | Obj(fields: seq<(string, Value)>)

  /** A JSON object as a Java `Map<String, Object>`. */
  type Fields = seq<(string, Value)>

  /** `map.containsKey(key)` */
  predicate Has(fields: Fields, key: string) {
    exists i :: 0 <= i < |fields| && fields[i].0 == key
  }

  /** `map.get(key)`, or None when the key is absent; when a document repeats a
      key the last occurrence wins, as in Jackson and Python. */
  function Get(fields: Fields, key: string): (r: Option<Value>)
    ensures r.Some? <==> Has(fields, key)
    ensures r.Some? ==> exists i :: 0 <= i < |fields| && fields[i] == (key, r.value)
    decreases |fields|
  {
    if fields == [] then None
    else if fields[|fields| - 1].0 == key then Some(fields[|fields| - 1].1)
    else
      var r := Get(fields[..|fields| - 1], key);
      assert forall i :: 0 <= i < |fields| - 1 ==> fields[..|fields| - 1][i] == fields[i];
      r
  }

  /** Jackson's `JsonNode.get(fieldName)`: the member of an object node,
      None for a missing member and for any node that is not an object (whose
      `has` is false). */
  function NodeGet(v: Value, key: string): (r: Option<Value>)
    ensures r.Some? <==> v.Obj? && Has(v.fields, key)
    ensures r.Some? ==> exists i :: 0 <= i < |v.fields| && v.fields[i] == (key, r.value)
  {
    if v.Obj? then Get(v.fields, key) else None
  }

  function DigitChar(d: int): char
    requires 0 <= d < 10
  {
    "0123456789"[d]
  }

  function NatToString(n: nat): (r: string)
    ensures |r| >= 1
    decreases n
  {
    if n < 10 then [DigitChar(n)] else NatToString(n / 10) + [DigitChar(n % 10)]
  }

  /** Java's `Long.toString` / Python's `str` of an integer. */
  function IntToString(n: int): string {
    if n < 0 then "-" + NatToString(-n) else NatToString(n)
  }

  /** Java's `String.valueOf(value)`: `toString()` of a string, a boxed number
      or boolean, an `ArrayList` ("[a, b]") or a `LinkedHashMap` ("{k=v}");
      "null" for null. */
  function Show(v: Value): string
    decreases v
  {
    match v
    case Null => "null"
    case Bool(b) => if b then "true" else "false"
    case Num(n) => IntToString(n)
    case Str(s) => s
    case Arr(items) =>
      "[" + Text.Join(seq(|items|, i requires 0 <= i < |items| => Show(items[i])), ", ") + "]"
    case Obj(fields) =>
      "{" + Text.Join(seq(|fields|, i requires 0 <= i < |fields| =>
                            assert fields[i] in fields; fields[i].0 + "=" + Show(fields[i].1)), ", ") + "}"
  }

  /** `value.toString()`: throws a NullPointerException on null. */
  function ToStringOrNpe(v: Value): (r: Result<string>)
    ensures r.Err? <==> v.Null?
    ensures v.Str? ==> r == Ok(v.s)
  {
    if v.Null? then Err(NullPointer) else Ok(Show(v))
  }

  /** Jackson's `JsonNode.asText()`: the text of a string node, the printed
      form of a number or boolean, "null" for a null node, "" for a container. */
  function AsText(v: Value): (r: string)
    ensures v.Str? ==> r == v.s
    ensures v.Arr? || v.Obj? ==> r == ""
  {
    match v
    case Null => "null"
    case Bool(b) => if b then "true" else "false"
    case Num(n) => IntToString(n)
    case Str(s) => s
    case Arr(_) => ""
    case Obj(_) => ""
  }

  /** What Jackson's `JsonNode.forEach` visits: the elements of an array, the
      member values of an object, nothing for a scalar. */
  function Children(v: Value): (r: seq<Value>)
    ensures v.Arr? ==> r == v.items
    ensures !v.Arr? && !v.Obj? ==> r == []
  {
    match v
    case Arr(items) => items
    case Obj(fields) => seq(|fields|, i requires 0 <= i < |fields| => fields[i].1)
    case _ => []
  }

  /** Python truth value: None, False, 0, "", [] and {} are falsy. */
  predicate Truthy(v: Value) {
    match v
    case Null => false
    case Bool(b) => b
    case Num(n) => n != 0
    case Str(s) => s != ""
    case Arr(items) => items != []
    case Obj(fields) => fields != []
  }

  predicate AllStrings(items: seq<Value>) {
    forall i :: 0 <= i < |items| ==> items[i].Str?
  }

  function Strings(items: seq<Value>): (r: seq<string>)
    requires AllStrings(items)
    ensures |r| == |items| && forall i :: 0 <= i < |items| ==> r[i] == items[i].s
  {
    seq(|items|, i requires 0 <= i < |items| => items[i].s)
  }

  /** An unchecked Java cast `(List<String>) value`: null stays null (None), a
      list of strings is the list; anything else throws a ClassCastException
      (for a list with non-string elements Jackson throws it when it writes
      the typed list out). */
  function AsStringList(v: Value): (r: Result<Option<seq<string>>>)
    ensures v.Null? ==> r == Ok(None)
    ensures v.Arr? && AllStrings(v.items) ==> r == Ok(Some(Strings(v.items)))
    ensures r.Ok? <==> v.Null? || (v.Arr? && AllStrings(v.items))
  {
    match v
    case Null => Ok(None)
    case Arr(items) => if AllStrings(items) then Ok(Some(Strings(items))) else Err(ClassCast)
    case _ => Err(ClassCast)
  }

  /** `if (map.containsKey(key)) set(map.get(key).toString())`: unset when the
      key is absent, a NullPointerException when its value is null. */
  function CopiedText(fields: Fields, key: string): (r: Result<Option<string>>)
    ensures !Has(fields, key) ==> r == Ok(None)
    ensures r.Err? <==> Get(fields, key) == Some(Null)
    ensures r.Ok? && Has(fields, key) ==> r.value.Some?
    ensures Get(fields, key).Some? && Get(fields, key).value.Str? ==> r == Ok(Some(Get(fields, key).value.s))
  {
    match Get(fields, key)
    case None => Ok(None)
    case Some(v) =>
      match ToStringOrNpe(v)
      case Ok(s) => Ok(Some(s))
      case Err(e) => Err(e)
  }

  /** An element of a `List<Map<String, Object>>` as the converter receives
      it: a null element fails on `containsKey`, a non-map on the cast. */
  function AsFields(v: Value): (r: Result<Fields>)
    ensures r.Ok? <==> v.Obj?
  {
    if v.Null? then Err(NullPointer) else if v.Obj? then Ok(v.fields) else Err(ClassCast)
  }

  /** `list.stream().map(convert).collect(...)`: every element converted in
      order; the first element that fails stops the stream. */
  function ConvertAll<T>(items: seq<Value>, convert: Value -> Result<T>): Result<seq<T>>
    decreases |items|
  {
    if items == [] then Ok([])
    else
      match ConvertAll(items[..|items| - 1], convert)
      case Err(e) => Err(e)
      case Ok(done) =>
        match convert(items[|items| - 1])
        case Err(e) => Err(e)
        case Ok(x) => Ok(done + [x])
  }

  /** The conversion succeeds exactly when every element converts, and then
      keeps the length and the order; a failure is the first element's failure. */
  lemma {:induction false} ConvertAllSpec<T>(items: seq<Value>, convert: Value -> Result<T>)
    ensures ConvertAll(items, convert).Ok? <==> forall i :: 0 <= i < |items| ==> convert(items[i]).Ok?
    ensures ConvertAll(items, convert).Ok? ==>
      |ConvertAll(items, convert).value| == |items|
      && forall i :: 0 <= i < |items| ==> ConvertAll(items, convert).value[i] == convert(items[i]).value
    ensures ConvertAll(items, convert).Err? ==>
      exists i :: 0 <= i < |items| && convert(items[i]) == Err(ConvertAll(items, convert).error)
        && forall j :: 0 <= j < i ==> convert(items[j]).Ok?
    decreases |items|
  {
    if items != [] {
      var init := items[..|items| - 1];
      ConvertAllSpec(init, convert);
      assert forall i :: 0 <= i < |init| ==> init[i] == items[i];
    }
  }

  /** Messages of the JVM exceptions the conversions can raise. */
  const NullPointer: string := "java.lang.NullPointerException"
  const ClassCast: string := "java.lang.ClassCastException"

  /** Concrete renderings. */
  lemma ShowExamples()
    ensures IntToString(-42) == "-42"
    ensures Show(Arr([Str("a"), Num(7)])) == "[a, 7]"
  {
    assert NatToString(42) == NatToString(4) + [DigitChar(2)];
    var items := [Str("a"), Num(7)];
    assert Show(Num(7)) == "7" by { assert NatToString(7) == [DigitChar(7)]; }
    assert seq(|items|, i requires 0 <= i < |items| => Show(items[i])) == ["a", "7"];
    assert Text.Join(["a", "7"], ", ") == "a" + ", " + Text.Join(["7"], ", ");
  }
}
