/** The Python service's OCR normalization: the ingredient list of a label's
    OCR text, taken from the language model's answer when that answer is
    usable and otherwise from a plain split of the text. */
module OcrService {
  import opened Wrappers
  import opened Text
  import opened Json

  /** `_parse_ingredients_basic`: split on ',' and '\n', strip each piece with
      `str.strip()`, drop the pieces left empty. */
  function ParseIngredientsBasic(ocrText: string): (r: seq<string>)
    ensures forall k :: 0 <= k < |r| ==> r[k] != [] && Trimmed(r[k], IsPySpace)
  {
    SplitTrimDrop(ocrText, IsPySpace)
  }

  /** The basic parse is the split pieces of the text, stripped, at strictly
      increasing positions, with exactly the blank pieces left out; the
      pieces themselves are the text between separators. */
  lemma BasicParsingKeepsOrder(ocrText: string)
    ensures var pieces := Split(ocrText, IsListSeparator);
      |Separators(ocrText, IsListSeparator)| + 1 == |pieces|
      && Interleave(pieces, Separators(ocrText, IsListSeparator)) == ocrText
      && |KeptFrom(pieces, IsPySpace, 0)| == |ParseIngredientsBasic(ocrText)|
      && (forall k :: 0 <= k < |ParseIngredientsBasic(ocrText)| ==>
            KeptFrom(pieces, IsPySpace, 0)[k] < |pieces|
            && ParseIngredientsBasic(ocrText)[k] == PyStrip(pieces[KeptFrom(pieces, IsPySpace, 0)[k]]))
      && (forall k, l :: 0 <= k < l < |KeptFrom(pieces, IsPySpace, 0)| ==>
            KeptFrom(pieces, IsPySpace, 0)[k] < KeptFrom(pieces, IsPySpace, 0)[l])
      && (forall j :: 0 <= j < |pieces| && PyStrip(pieces[j]) != [] ==> j in KeptFrom(pieces, IsPySpace, 0))
  {
    SplitRoundTrip(ocrText, IsListSeparator);
    StripAndDropEmptyKeepsOrder(Split(ocrText, IsListSeparator), IsPySpace);
  }

  /** No token of the basic parse contains a separator. */
  lemma BasicTokensHaveNoSeparator(ocrText: string, x: string)
    requires x in ParseIngredientsBasic(ocrText)
    ensures x != [] && forall j :: 0 <= j < |x| ==> !IsListSeparator(x[j])
  {
    SplitTrimDropHasNoSeparator(ocrText, IsPySpace, x);
  }

  /** `[ing.strip() for ing in ingredients if ing and ing.strip()]`: falsy
      entries are dropped, strings are stripped and kept when something is
      left, and a truthy entry that is not a string has no `strip` and raises
      (None). */
  function CleanedLlmList(items: seq<Value>): (r: Option<seq<string>>)
    ensures r.Some? ==> forall k :: 0 <= k < |r.value| ==> r.value[k] != [] && Trimmed(r.value[k], IsPySpace)
    decreases |items|
  {
    if items == [] then Some([])
    else
      var head := items[0];
      if Truthy(head) && !head.Str? then None
      else
        match CleanedLlmList(items[1..])
        case None => None
        case Some(rest) =>
          if head.Str? && PyStrip(head.s) != [] then Some([PyStrip(head.s)] + rest) else Some(rest)
  }

  /** The texts of the string entries, in order. */
  function StringsAmong(items: seq<Value>): seq<string>
    decreases |items|
  {
    if items == [] then []
    else (if items[0].Str? then [items[0].s] else []) + StringsAmong(items[1..])
  }

  /** The comprehension fails exactly when some entry is truthy and not a
      string, and otherwise is the string entries stripped with the blank
      ones dropped. */
  lemma {:induction false} CleanedLlmListSpec(items: seq<Value>)
    ensures CleanedLlmList(items).None? <==> exists i :: 0 <= i < |items| && Truthy(items[i]) && !items[i].Str?
    ensures CleanedLlmList(items).Some? ==>
      CleanedLlmList(items).value == StripAndDropEmpty(StringsAmong(items), IsPySpace)
    decreases |items|
  {
    if items != [] {
      CleanedLlmListSpec(items[1..]);
      assert forall i :: 1 <= i < |items| ==> items[1..][i - 1] == items[i];
      if items[0].Str? {
        assert StringsAmong(items) == [items[0].s] + StringsAmong(items[1..]);
      } else {
        assert StringsAmong(items) == StringsAmong(items[1..]);
      }
    }
  }

  /** The ingredient list of the model's answer when it is usable: a dict
      with an "ingredients" list whose comprehension does not raise. */
  function LlmIngredients(answer: Result<Value>): Option<seq<string>> {
    match answer
    case Err(_) => None
    case Ok(v) =>
      match NodeGet(v, "ingredients")
      case None => None
      case Some(list) => if list.Arr? then CleanedLlmList(list.items) else None
  }

  /** `normalize_ocr_text`: blank text gives the empty list without asking
      the model; otherwise the model's list when usable, else the basic parse.
      `ask` is the language model, given the OCR text. Every token is
      non-empty and carries no surrounding whitespace. */
  function NormalizeOcrText(ocrText: string, ask: string -> Result<Value>): (r: seq<string>)
    ensures forall k :: 0 <= k < |r| ==> r[k] != [] && Trimmed(r[k], IsPySpace)
  {
    if PyStrip(ocrText) == [] then []
    else
      match LlmIngredients(ask(ocrText))
      case Some(list) => list
      case None => ParseIngredientsBasic(ocrText)
  }

  /** Blank text gives the empty list whatever the model would answer. */
  lemma BlankTextSkipsTheModel(ocrText: string, ask: string -> Result<Value>)
    requires AllSatisfy(ocrText, IsPySpace)
    ensures NormalizeOcrText(ocrText, ask) == []
  {
    StripEmptyIffBlank(ocrText, IsPySpace);
  }

  /** A usable answer decides the result: its string entries, stripped, with
      the blank ones dropped, in order. */
  lemma UsableAnswerIsUsed(ocrText: string, ask: string -> Result<Value>, fields: Fields, items: seq<Value>)
    requires !AllSatisfy(ocrText, IsPySpace)
    requires ask(ocrText) == Ok(Obj(fields)) && Get(fields, "ingredients") == Some(Arr(items))
    requires forall i :: 0 <= i < |items| ==> !Truthy(items[i]) || items[i].Str?
    ensures NormalizeOcrText(ocrText, ask) == StripAndDropEmpty(StringsAmong(items), IsPySpace)
  {
    StripEmptyIffBlank(ocrText, IsPySpace);
    CleanedLlmListSpec(items);
  }

  /** A failed call, an answer that is not a dict, lacks "ingredients", holds
      a non-list there, or a list with a truthy non-string entry all fall
      back to the basic parse. */
  lemma UnusableAnswerFallsBack(ocrText: string, ask: string -> Result<Value>)
    requires !AllSatisfy(ocrText, IsPySpace)
    requires ask(ocrText).Err?
      || !ask(ocrText).value.Obj?
      || !Has(ask(ocrText).value.fields, "ingredients")
      || !Get(ask(ocrText).value.fields, "ingredients").value.Arr?
      || exists i :: 0 <= i < |Get(ask(ocrText).value.fields, "ingredients").value.items|
           && Truthy(Get(ask(ocrText).value.fields, "ingredients").value.items[i])
           && !Get(ask(ocrText).value.fields, "ingredients").value.items[i].Str?
    ensures NormalizeOcrText(ocrText, ask) == ParseIngredientsBasic(ocrText)
  {
    StripEmptyIffBlank(ocrText, IsPySpace);
    if ask(ocrText).Ok? && ask(ocrText).value.Obj? && Has(ask(ocrText).value.fields, "ingredients")
       && Get(ask(ocrText).value.fields, "ingredients").value.Arr? {
      CleanedLlmListSpec(Get(ask(ocrText).value.fields, "ingredients").value.items);
    }
  }
}
