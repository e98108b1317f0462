/** The allergy queries of the analysis service: a user's registered
    sensitivities split by type. Each query is a filter and a map over the
    user's rows in repository order and changes nothing. */
module AllergyService {
  import opened Wrappers
  import opened Repositories

  /** A record with no type was written before types existed and counts as
      a medication allergy. */
  predicate IsMedicationAllergy(r: AllergyRecord) {
    r.allergyType.None? || r.allergyType == Some(Medication)
  }

  predicate IsFoodAllergy(r: AllergyRecord) {
    r.allergyType == Some(Food)
  }

  predicate AnyAllergy(r: AllergyRecord) {
    true
  }

  /** `findByUserId`: the records of one user, in table order. */
  function FindByUserId(rows: seq<Row<AllergyRecord>>, userId: Id): (r: seq<AllergyRecord>)
    ensures forall x :: x in r <==> exists i :: 0 <= i < |rows| && rows[i].value == x && x.userId == userId
    decreases |rows|
  {
    if rows == [] then []
    else
      var init := rows[..|rows| - 1];
      var last := rows[|rows| - 1].value;
      assert forall i :: 0 <= i < |init| ==> init[i] == rows[i];
      FindByUserId(init, userId) + (if last.userId == userId then [last] else [])
  }

  /** The ingredient names of the records satisfying `keep`, in order. */
  function NamesWhere(records: seq<AllergyRecord>, keep: AllergyRecord -> bool): seq<string>
    decreases |records|
  {
    if records == [] then []
    else
      var last := records[|records| - 1];
      NamesWhere(records[..|records| - 1], keep) + (if keep(last) then [last.ingredientName] else [])
  }

  /** `getMedicationAllergies` */
  function MedicationAllergies(rows: seq<Row<AllergyRecord>>, userId: Id): seq<string> {
    NamesWhere(FindByUserId(rows, userId), IsMedicationAllergy)
  }

  /** `getFoodAllergies` */
  function FoodAllergies(rows: seq<Row<AllergyRecord>>, userId: Id): seq<string> {
    NamesWhere(FindByUserId(rows, userId), IsFoodAllergy)
  }

  /** `getAllAllergies` */
  function AllAllergies(rows: seq<Row<AllergyRecord>>, userId: Id): seq<string> {
    NamesWhere(FindByUserId(rows, userId), AnyAllergy)
  }

  /** A name is listed exactly when some kept record carries it. */
  lemma {:induction false} NamesWhereMembers(records: seq<AllergyRecord>, keep: AllergyRecord -> bool, x: string)
    ensures x in NamesWhere(records, keep)
        <==> exists i :: 0 <= i < |records| && keep(records[i]) && records[i].ingredientName == x
    decreases |records|
  {
    if records != [] {
      var init := records[..|records| - 1];
      NamesWhereMembers(init, keep, x);
      assert forall i :: 0 <= i < |init| ==> init[i] == records[i];
    }
  }

  /** The names of two runs of records are the names of the first run
      followed by those of the second: the filter keeps the order. */
  lemma {:induction false} NamesWhereConcat(a: seq<AllergyRecord>, b: seq<AllergyRecord>, keep: AllergyRecord -> bool)
    ensures NamesWhere(a + b, keep) == NamesWhere(a, keep) + NamesWhere(b, keep)
    decreases |b|
  {
    if b == [] {
      assert a + b == a;
    } else {
      var init := b[..|b| - 1];
      NamesWhereConcat(a, init, keep);
      assert (a + b)[..|a + b| - 1] == a + init;
    }
  }

  /** Without a filter every record's name is listed, in order. */
  lemma {:induction false} AllNamesInOrder(records: seq<AllergyRecord>)
    ensures |NamesWhere(records, AnyAllergy)| == |records|
    ensures forall i :: 0 <= i < |records| ==> NamesWhere(records, AnyAllergy)[i] == records[i].ingredientName
    decreases |records|
  {
    if records != [] {
      AllNamesInOrder(records[..|records| - 1]);
    }
  }

  /** Two complementary filters split the records between them. */
  lemma {:induction false} ComplementaryFiltersSplit(records: seq<AllergyRecord>, p: AllergyRecord -> bool, q: AllergyRecord -> bool)
    requires forall r :: p(r) != q(r)
    ensures |NamesWhere(records, p)| + |NamesWhere(records, q)| == |records|
    decreases |records|
  {
    if records != [] {
      ComplementaryFiltersSplit(records[..|records| - 1], p, q);
    }
  }

  /** Every record is a medication allergy or a food allergy, never both. */
  lemma TypesAreComplementary(r: AllergyRecord)
    ensures IsMedicationAllergy(r) != IsFoodAllergy(r)
  {
    match r.allergyType
    case None =>
    case Some(t) =>
      match t
      case Medication =>
      case Food =>
  }

  /** The medication and food lists partition the full list: every record
      lands in exactly one, and the lengths add up. */
  lemma MedicationAndFoodPartitionAll(rows: seq<Row<AllergyRecord>>, userId: Id)
    ensures |MedicationAllergies(rows, userId)| + |FoodAllergies(rows, userId)| == |AllAllergies(rows, userId)|
  {
    var records := FindByUserId(rows, userId);
    forall r: AllergyRecord
      ensures IsMedicationAllergy(r) != IsFoodAllergy(r)
    {
      TypesAreComplementary(r);
    }
    ComplementaryFiltersSplit(records, IsMedicationAllergy, IsFoodAllergy);
    AllNamesInOrder(records);
  }

  /** A name is a medication allergy of the user exactly when one of the
      user's records carries it with no type or the MEDICATION type. */
  lemma MedicationAllergiesMembers(rows: seq<Row<AllergyRecord>>, userId: Id, x: string)
    ensures x in MedicationAllergies(rows, userId)
        <==> exists i :: 0 <= i < |rows| && rows[i].value.userId == userId
               && IsMedicationAllergy(rows[i].value) && rows[i].value.ingredientName == x
  {
    var records := FindByUserId(rows, userId);
    NamesWhereMembers(records, IsMedicationAllergy, x);
    if x in MedicationAllergies(rows, userId) {
      var j :| 0 <= j < |records| && IsMedicationAllergy(records[j]) && records[j].ingredientName == x;
      assert records[j] in records;
    }
    if exists i :: 0 <= i < |rows| && rows[i].value.userId == userId
               && IsMedicationAllergy(rows[i].value) && rows[i].value.ingredientName == x {
      var i :| 0 <= i < |rows| && rows[i].value.userId == userId
               && IsMedicationAllergy(rows[i].value) && rows[i].value.ingredientName == x;
      assert rows[i].value in records;
    }
  }

  /** A name is a food allergy of the user exactly when one of the user's
      records carries it with the FOOD type. */
  lemma FoodAllergiesMembers(rows: seq<Row<AllergyRecord>>, userId: Id, x: string)
    ensures x in FoodAllergies(rows, userId)
        <==> exists i :: 0 <= i < |rows| && rows[i].value.userId == userId
               && IsFoodAllergy(rows[i].value) && rows[i].value.ingredientName == x
  {
    var records := FindByUserId(rows, userId);
    NamesWhereMembers(records, IsFoodAllergy, x);
    if x in FoodAllergies(rows, userId) {
      var j :| 0 <= j < |records| && IsFoodAllergy(records[j]) && records[j].ingredientName == x;
      assert records[j] in records;
    }
    if exists i :: 0 <= i < |rows| && rows[i].value.userId == userId
               && IsFoodAllergy(rows[i].value) && rows[i].value.ingredientName == x {
      var i :| 0 <= i < |rows| && rows[i].value.userId == userId
               && IsFoodAllergy(rows[i].value) && rows[i].value.ingredientName == x;
      assert rows[i].value in records;
    }
  }
}
