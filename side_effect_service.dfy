/** The common-ingredient step of the Python side-effect analysis: the
    ingredients every requested medicine shares. */
module SideEffectService {

  /** Python's `set(a_list)`. */
  function Elements(s: seq<string>): (r: set<string>)
    ensures forall x :: x in r <==> x in s
  {
    set x | x in s
  }

  /** The ingredients of the first list that every later list also has. */
  function CommonSet(lists: seq<seq<string>>): set<string>
    requires lists != []
    decreases |lists|
  {
    if |lists| == 1 then Elements(lists[0])
    else CommonSet(lists[..|lists| - 1]) * Elements(lists[|lists| - 1])
  }

  /** An ingredient is common exactly when it is in every list. */
  lemma {:induction false} CommonSetMembers(lists: seq<seq<string>>, x: string)
    requires lists != []
    ensures x in CommonSet(lists) <==> forall i :: 0 <= i < |lists| ==> x in lists[i]
    decreases |lists|
  {
    if |lists| > 1 {
      var init := lists[..|lists| - 1];
      CommonSetMembers(init, x);
      assert forall i :: 0 <= i < |init| ==> init[i] == lists[i];
    }
  }

  predicate NoDuplicates(s: seq<string>) {
    forall i, j :: 0 <= i < j < |s| ==> s[i] != s[j]
  }

  /** Python's `list(a_set)`: every element once, in an order the model
      leaves open. */
  method ListOf(s: set<string>) returns (r: seq<string>)
    ensures NoDuplicates(r)
    ensures forall x :: x in r <==> x in s
    ensures |r| == |s|
  {
    r := [];
    var rest := s;
    while rest != {}
      invariant NoDuplicates(r)
      invariant forall x :: x in r ==> x in s && x !in rest
      invariant forall x :: x in s ==> x in r || x in rest
      invariant rest <= s
      invariant |r| + |rest| == |s|
      decreases |rest|
    {
      var x :| x in rest;
      r := r + [x];
      rest := rest - {x};
    }
  }

  /** `_extract_common_ingredients`: nothing for no medicine, the single
      list unchanged for one, and otherwise the ingredients in every list,
      each once. */
  method ExtractCommonIngredients(medicationIngredients: seq<seq<string>>) returns (r: seq<string>)
    ensures medicationIngredients == [] ==> r == []
    ensures |medicationIngredients| == 1 ==> r == medicationIngredients[0]
    ensures |medicationIngredients| >= 2 ==>
      NoDuplicates(r)
      && forall x :: x in r <==> forall i :: 0 <= i < |medicationIngredients| ==> x in medicationIngredients[i]
  {
    if medicationIngredients == [] {
      return [];
    }
    if |medicationIngredients| == 1 {
      return medicationIngredients[0];
    }
    var common := Elements(medicationIngredients[0]);
    var i := 1;
    while i < |medicationIngredients|
      invariant 1 <= i <= |medicationIngredients|
      invariant common == CommonSet(medicationIngredients[..i])
    {
      assert medicationIngredients[..i + 1][..i] == medicationIngredients[..i];
      common := common * Elements(medicationIngredients[i]);
      i := i + 1;
    }
    assert medicationIngredients[..i] == medicationIngredients;
    r := ListOf(common);
    forall x
      ensures x in r <==> forall k :: 0 <= k < |medicationIngredients| ==> x in medicationIngredients[k]
    {
      CommonSetMembers(medicationIngredients, x);
    }
  }

  /** Taking the common ingredients of a list with itself changes nothing but duplicates. */
  lemma CommonWithItself(list: seq<string>)
    ensures CommonSet([list, list]) == Elements(list)
  {
  }
}
