/** The food-allergy to excipient mapper of the Python analysis service: which
    ingredients of a medicine can set off a food allergy the user has, and how
    risky that is. The specification functions take the trigger table as a
    parameter, as the class methods read it through `cls`; the methods use
    the table the class defines. */
module AllergyMapper {
  import opened Wrappers
  import opened Text

  /** An ordered association list, as a Python `dict` keeps its insertion order. */
  type Assoc = seq<(string, seq<string>)>

  /** `FOOD_ALLERGEN_TRIGGERS`: for each food allergy, the excipient names
      that may carry it. */
  function FoodAllergenTriggers(): Assoc {
    [
    ("땅콩", ["땅콩", "땅콩유", "땅콩기름", "peanut", "peanut oil", "arachis oil"]),
    ("글루텐", ["글루텐", "밀전분", "밀단백질", "gluten", "wheat", "밀", "wheat starch", "wheat protein"]),
    ("유당", ["유당", "락토스", "lactose", "lactose monohydrate"]),
    ("갑각류", ["새우", "게", "크랩", "shrimp", "crab", "crustacean", "갑각류"]),
    ("계란", ["계란", "난백", "계란알부민", "egg", "albumin", "egg white", "ovalbumin", "lysozyme"]),
    ("대두", ["대두", "콩", "콩유", "대두유", "레시틴", "대두레시틴", "soy", "soybean", "lecithin", "soy lecithin"]),
    ("우유", ["우유", "카제인", "우유단백질", "milk", "casein", "milk protein", "whey", "유청"]),
    ("젤라틴", ["젤라틴", "소젤라틴", "돼지젤라틴", "gelatin", "bovine gelatin", "porcine gelatin", "gelatin capsule"]),
    ("견과류", ["호두", "아몬드", "헤이즐넛", "walnut", "almond", "hazelnut", "nuts"]),
    ("참깨", ["참깨", "sesame", "sesame oil", "sesame seed"])
    ]
  }

  /** The trigger names matched by substring rather than as a whole word. */
  const GelatinVariants: seq<string> := ["젤라틴", "gelatin"]

  const NoInformation := "식품 알러지 또는 약물 성분 정보가 없습니다."
  const NothingDetected := "식품 알러지와 관련된 부형제가 감지되지 않았습니다."
  const DetectedPrefix := "식품 알러지 관련 부형제가 감지되었습니다. "

  // ---------------------------------------------------------------------
  // Association lists

  predicate DistinctKeys(m: Assoc) {
    forall i, j :: 0 <= i < j < |m| ==> m[i].0 != m[j].0
  }

  predicate HasKey(m: Assoc, key: string) {
    exists i :: 0 <= i < |m| && m[i].0 == key
  }

  /** `d.get(key)` */
  function Lookup(m: Assoc, key: string): (r: Option<seq<string>>)
    ensures r.Some? <==> HasKey(m, key)
    decreases |m|
  {
    if m == [] then None
    else if m[0].0 == key then Some(m[0].1)
    else
      var r := Lookup(m[1..], key);
      assert forall i :: 0 < i < |m| ==> m[i] == m[1..][i - 1];
      r
  }

  /** A value found is the value stored beside the first occurrence of
      the key. */
  lemma {:induction false} LookupFindsStoredValue(m: Assoc, key: string)
    requires Lookup(m, key).Some?
    ensures exists i :: 0 <= i < |m| && m[i] == (key, Lookup(m, key).value)
    decreases |m|
  {
    if m[0].0 != key {
      LookupFindsStoredValue(m[1..], key);
      var i :| 0 <= i < |m[1..]| && m[1..][i] == (key, Lookup(m[1..], key).value);
      assert m[i + 1] == m[1..][i];
    } else {
      assert m[0] == (key, Lookup(m, key).value);
    }
  }

  /** With distinct keys, a key maps to the value stored beside it. */
  lemma {:induction false} LookupDistinct(m: Assoc, i: nat)
    requires DistinctKeys(m) && i < |m|
    ensures Lookup(m, m[i].0) == Some(m[i].1)
    decreases i
  {
    if i > 0 {
      LookupDistinct(m[1..], i - 1);
    }
  }

  /** `d[key] = value`: an existing key gets the new value where it stands,
      a new key is appended. */
  function Put(m: Assoc, key: string, value: seq<string>): (r: Assoc)
    ensures DistinctKeys(m) && HasKey(m, key) ==>
      |r| == |m| && forall i :: 0 <= i < |m| ==> r[i] == (if m[i].0 == key then (key, value) else m[i])
    ensures !HasKey(m, key) ==> r == m + [(key, value)]
    decreases |m|
  {
    if m == [] then [(key, value)]
    else if m[0].0 == key then [(key, value)] + m[1..]
    else
      var r := [m[0]] + Put(m[1..], key, value);
      assert forall i :: 0 < i < |m| ==> m[i] == m[1..][i - 1];
      assert HasKey(m, key) ==> HasKey(m[1..], key);
      r
  }

  /** After `d[key] = value` the key maps to `value`, every other key keeps
      its value, and keys stay distinct. */
  lemma PutSpec(m: Assoc, key: string, value: seq<string>)
    requires DistinctKeys(m)
    ensures DistinctKeys(Put(m, key, value))
    ensures Lookup(Put(m, key, value), key) == Some(value)
    ensures forall k :: k != key ==> Lookup(Put(m, key, value), k) == Lookup(m, k)
  {
    var r := Put(m, key, value);
    assert forall i :: 0 <= i < |m| ==> r[i].0 == m[i].0;
    assert DistinctKeys(r);
    if HasKey(m, key) {
      var i :| 0 <= i < |m| && m[i].0 == key;
      LookupDistinct(r, i);
    } else {
      LookupDistinct(r, |m|);
    }
    forall k | k != key
      ensures Lookup(r, k) == Lookup(m, k)
    {
      if HasKey(m, k) {
        var i :| 0 <= i < |m| && m[i].0 == k;
        LookupDistinct(m, i);
        LookupDistinct(r, i);
      } else {
        assert forall i :: 0 <= i < |r| ==> r[i].0 != k;
      }
    }
  }

  // ---------------------------------------------------------------------
  // get_triggers_for_allergy

  /** Position of the first table entry, from `from` on, whose key equals
      `name` once both are lower-cased. */
  function CaseInsensitiveIndex(table: Assoc, name: string, from: nat): (r: Option<nat>)
    ensures r.Some? ==> from <= r.value < |table| && Lower(table[r.value].0) == Lower(name)
    ensures r.None? ==> forall j :: from <= j < |table| ==> Lower(table[j].0) != Lower(name)
    decreases |table| - from
  {
    if from >= |table| then None
    else if Lower(table[from].0) == Lower(name) then Some(from)
    else CaseInsensitiveIndex(table, name, from + 1)
  }

  /** The trigger names for one food allergy: the table entry for the stripped
      name, else the first entry equal to it ignoring case, else the stripped
      name itself. */
  function Triggers(table: Assoc, foodAllergy: string): seq<string> {
    var name := PyStrip(foodAllergy);
    match Lookup(table, name)
    case Some(t) => t
    case None =>
      match CaseInsensitiveIndex(table, name, 0)
      case Some(i) => table[i].1
      case None => [name]
  }

  /** `get_triggers_for_allergy`: the direct lookup, then a scan of the table
      in order comparing lower-cased keys. */
  method GetTriggersForAllergy(foodAllergy: string) returns (triggers: seq<string>)
    ensures triggers == Triggers(FoodAllergenTriggers(), foodAllergy)
  {
    var table := FoodAllergenTriggers();
    var name := PyStrip(foodAllergy);
    var direct := Lookup(table, name);
    if direct.Some? {
      return direct.value;
    }
    var i := 0;
    while i < |table|
      invariant 0 <= i <= |table|
      invariant CaseInsensitiveIndex(table, name, i) == CaseInsensitiveIndex(table, name, 0)
    {
      var (key, t) := table[i];
      if Lower(key) == Lower(name) {
        return t;
      }
      i := i + 1;
    }
    return [name];
  }

  predicate IsAsciiLetter(c: char) {
    ('a' <= c <= 'z') || ('A' <= c <= 'Z')
  }

  predicate HasNoAsciiLetter(s: string) {
    forall j :: 0 <= j < |s| ==> !IsAsciiLetter(s[j])
  }

  /** The keys of the table are distinct and hold no ASCII letter (they are Hangul). */
  lemma TableKeys()
    ensures DistinctKeys(FoodAllergenTriggers())
    ensures forall i :: 0 <= i < |FoodAllergenTriggers()| ==> HasNoAsciiLetter(FoodAllergenTriggers()[i].0)
    ensures forall i :: 0 <= i < |FoodAllergenTriggers()| ==> FoodAllergenTriggers()[i].1 != []
  {
  }

  /** A key without ASCII letters lower-cases to the same string as a name
      only when it is that name. */
  lemma LowerMatchIsExact(key: string, name: string)
    requires HasNoAsciiLetter(key)
    ensures Lower(key) == Lower(name) <==> key == name
  {
    if Lower(key) == Lower(name) {
      assert Lower(key) == key;
      forall j | 0 <= j < |name|
        ensures name[j] == key[j]
      {
        assert LowerChar(name[j]) == key[j];
      }
    }
  }

  /** With keys free of ASCII letters, the case-insensitive scan never finds
      an entry the direct lookup missed: the triggers are the table entry of
      the stripped name, or the stripped name alone. */
  lemma CaseInsensitiveScanIsRedundant(table: Assoc, foodAllergy: string)
    requires forall i :: 0 <= i < |table| ==> HasNoAsciiLetter(table[i].0)
    ensures var name := PyStrip(foodAllergy);
      Triggers(table, foodAllergy) == match Lookup(table, name)
        case Some(t) => t
        case None => [name]
  {
    var name := PyStrip(foodAllergy);
    forall i | 0 <= i < |table|
      ensures Lower(table[i].0) == Lower(name) <==> table[i].0 == name
    {
      LowerMatchIsExact(table[i].0, name);
    }
  }

  /** An allergy whose name holds a Latin letter is in no entry of a table
      with Hangul keys, so its only trigger is its own stripped name. */
  lemma LatinNamedAllergyIsOwnTrigger(table: Assoc, foodAllergy: string)
    requires forall i :: 0 <= i < |table| ==> HasNoAsciiLetter(table[i].0)
    requires !HasNoAsciiLetter(PyStrip(foodAllergy))
    ensures Triggers(table, foodAllergy) == [PyStrip(foodAllergy)]
  {
    CaseInsensitiveScanIsRedundant(table, foodAllergy);
    assert forall i :: 0 <= i < |table| ==> table[i].0 != PyStrip(foodAllergy);
  }

  /** With no empty entry in the table, every allergy has at least one
      trigger. */
  lemma TriggersNeverEmpty(table: Assoc, foodAllergy: string)
    requires forall i :: 0 <= i < |table| ==> table[i].1 != []
    ensures Triggers(table, foodAllergy) != []
  {
    var name := PyStrip(foodAllergy);
    if Lookup(table, name).Some? {
      LookupFindsStoredValue(table, name);
    }
  }

  /** A listed allergy gets its table entry. */
  lemma KnownAllergyExample()
    ensures Triggers(FoodAllergenTriggers(), "땅콩") == FoodAllergenTriggers()[0].1
  {
    TrimmedIsFixpoint("땅콩", IsPySpace);
  }

  lemma MangoFacts(a: string)
    requires a == " Mango"
    ensures PyStrip(a) == "Mango" && !HasNoAsciiLetter(PyStrip(a))
  {
    assert LeadEnd(a, IsPySpace, 0) == 1;
    assert TrailStart(a, IsPySpace, 1, |a|) == |a|;
    assert IsAsciiLetter(PyStrip(a)[0]);
  }

  /** An allergy missing from the table is its own only trigger, stripped. */
  lemma UnknownAllergyExample(a: string)
    requires a == " Mango"
    ensures Triggers(FoodAllergenTriggers(), a) == ["Mango"]
  {
    MangoFacts(a);
    TableKeys();
    LatinNamedAllergyIsOwnTrigger(FoodAllergenTriggers(), a);
  }

  // ---------------------------------------------------------------------
  // _is_match

  /** A character Python's `\b` counts as part of a word: ASCII letters and
      digits, the underscore, the Latin-1 letters and numerals and the Hangul
      syllables and jamo. */
  predicate IsWordChar(c: char) {
    ('a' <= c <= 'z') || ('A' <= c <= 'Z') || ('0' <= c <= '9') || c == '_'
    || c == '\U{aa}' || c == '\U{b2}' || c == '\U{b3}' || c == '\U{b5}' || c == '\U{b9}' || c == '\U{ba}'
    || ('\U{bc}' <= c <= '\U{be}')
    || ('\U{c0}' <= c <= '\U{ff}' && c != '\U{d7}' && c != '\U{f7}')
    || ('\U{1100}' <= c <= '\U{11ff}') || ('\U{3131}' <= c <= '\U{318e}') || ('\U{ac00}' <= c <= '\U{d7a3}')
  }

  /** Python's `\b` at position `p`: a word character on exactly one side. */
  predicate IsBoundary(s: string, p: int)
    requires 0 <= p <= |s|
  {
    (p > 0 && IsWordChar(s[p - 1])) != (p < |s| && IsWordChar(s[p]))
  }

  /** `\b` + `word` + `\b` matches `s` at position `i`. */
  predicate WholeWordAt(s: string, word: string, i: int) {
    OccursAt(s, word, i) && IsBoundary(s, i) && IsBoundary(s, i + |word|)
  }

  /** `re.search` of `\b` + `re.escape(word)` + `\b`, from position `from` on. */
  function SearchWholeWord(s: string, word: string, from: nat): (found: bool)
    ensures found <==> exists i :: from <= i && WholeWordAt(s, word, i)
    decreases |s| - from
  {
    if from + |word| > |s| then false
    else WholeWordAt(s, word, from) || SearchWholeWord(s, word, from + 1)
  }

  /** `_is_match`: both names are lower-cased and stripped; equal names match,
      a gelatin trigger matches any ingredient naming gelatin, and any other
      trigger must occur in the ingredient as a whole word. */
  function IsMatch(trigger: string, ingredient: string): (r: bool)
    ensures var t := PyStrip(Lower(trigger)); var g := PyStrip(Lower(ingredient));
      r <==> (t == g
        || (t in GelatinVariants && (Contains(g, "젤라틴") || Contains(g, "gelatin")))
        || (t !in GelatinVariants && exists i :: WholeWordAt(g, t, i)))
  {
    var t := PyStrip(Lower(trigger));
    var g := PyStrip(Lower(ingredient));
    if t == g then true
    else if t in GelatinVariants then Contains(g, "젤라틴") || Contains(g, "gelatin")
    else SearchWholeWord(g, t, 0)
  }

  /** A match always finds the trigger, or gelatin, inside the normalised ingredient. */
  lemma MatchImpliesOccurrence(trigger: string, ingredient: string)
    requires IsMatch(trigger, ingredient)
    ensures var t := PyStrip(Lower(trigger)); var g := PyStrip(Lower(ingredient));
      Contains(g, t) || Contains(g, "젤라틴") || Contains(g, "gelatin")
  {
    var t := PyStrip(Lower(trigger));
    var g := PyStrip(Lower(ingredient));
    if t == g {
      assert OccursAt(g, t, 0);
    }
  }

  /** Matching ignores ASCII case on both sides. */
  lemma MatchIgnoresCase(trigger: string, ingredient: string)
    ensures IsMatch(Lower(trigger), Lower(ingredient)) == IsMatch(trigger, ingredient)
  {
    assert Lower(Lower(trigger)) == Lower(trigger);
    assert Lower(Lower(ingredient)) == Lower(ingredient);
  }

  /** Lower-case already and stripped already. */
  predicate Normalized(s: string) {
    Lower(s) == s && Trimmed(s, IsPySpace)
  }

  /** On names that are normalised already, `_is_match` compares them as given. */
  lemma MatchOfNormalized(t: string, g: string)
    requires Normalized(t) && Normalized(g)
    ensures IsMatch(t, g) <==> (t == g
        || (t in GelatinVariants && (Contains(g, "젤라틴") || Contains(g, "gelatin")))
        || (t !in GelatinVariants && exists i :: WholeWordAt(g, t, i)))
  {
    TrimmedIsFixpoint(t, IsPySpace);
    TrimmedIsFixpoint(g, IsPySpace);
  }

  lemma LactoseInsideWordFacts(t: string, g: string)
    requires t == "락토스" && g == "락토스프리"
    ensures Normalized(t) && Normalized(g) && t != g && t !in GelatinVariants
    ensures forall i :: !WholeWordAt(g, t, i)
  {
    assert !WholeWordAt(g, t, 0);
    assert !WholeWordAt(g, t, 1);
    assert !WholeWordAt(g, t, 2);
  }

  /** A trigger is not found inside a longer word. */
  lemma NoMatchInsideWordExample(t: string, g: string)
    requires t == "락토스" && g == "락토스프리"
    ensures !IsMatch(t, g)
  {
    LactoseInsideWordFacts(t, g);
    MatchOfNormalized(t, g);
  }

  lemma LactoseWordFacts(t: string, g: string)
    requires t == "락토스" && g == "락토스 모노하이드레이트"
    ensures Normalized(t) && Normalized(g) && t !in GelatinVariants && WholeWordAt(g, t, 0)
  {
  }

  /** A trigger is found as a word of a longer name. */
  lemma WordMatchExample(t: string, g: string)
    requires t == "락토스" && g == "락토스 모노하이드레이트"
    ensures IsMatch(t, g)
  {
    LactoseWordFacts(t, g);
    MatchOfNormalized(t, g);
  }

  lemma GelatinCompoundFacts(t: string, g: string)
    requires t == "젤라틴" && g == "소젤라틴"
    ensures Normalized(t) && Normalized(g) && t in GelatinVariants && OccursAt(g, t, 1)
  {
  }

  /** Gelatin is found inside a compound, where a whole word is not needed. */
  lemma GelatinCompoundExample(t: string, g: string)
    requires t == "젤라틴" && g == "소젤라틴"
    ensures IsMatch(t, g)
  {
    GelatinCompoundFacts(t, g);
    MatchOfNormalized(t, g);
  }

  lemma LowerCaseFacts(t: string, g: string)
    requires t == "Lactose" && g == "LACTOSE Monohydrate"
    ensures Lower(t) == "lactose" && Lower(g) == "lactose monohydrate"
    ensures Normalized(Lower(t)) && Normalized(Lower(g)) && Lower(t) !in GelatinVariants
    ensures WholeWordAt(Lower(g), Lower(t), 0)
  {
  }

  /** Case is ignored. */
  lemma CaseInsensitiveMatchExample(t: string, g: string)
    requires t == "Lactose" && g == "LACTOSE Monohydrate"
    ensures IsMatch(t, g)
  {
    LowerCaseFacts(t, g);
    MatchOfNormalized(Lower(t), Lower(g));
    MatchIgnoresCase(t, g);
  }

  // ---------------------------------------------------------------------
  // find_matching_excipients

  predicate NoDuplicates(s: seq<string>) {
    forall i, j :: 0 <= i < j < |s| ==> s[i] != s[j]
  }

  /** `if x not in acc: acc.append(x)` */
  function AppendIfNew(acc: seq<string>, x: string): seq<string> {
    if x in acc then acc else acc + [x]
  }

  /** The matched list after scanning `ingredients` for one trigger,
      starting from `acc`; `matches` is the matching relation. */
  function AddMatches(acc: seq<string>, trigger: string, ingredients: seq<string>, matches: (string, string) -> bool): seq<string>
    decreases |ingredients|
  {
    if ingredients == [] then acc
    else
      var before := AddMatches(acc, trigger, ingredients[..|ingredients| - 1], matches);
      var x := ingredients[|ingredients| - 1];
      if matches(trigger, x) then AppendIfNew(before, x) else before
  }

  /** The matched list after scanning `ingredients` for each trigger in turn, starting from `acc`. */
  function CollectMatches(acc: seq<string>, triggers: seq<string>, ingredients: seq<string>, matches: (string, string) -> bool): seq<string>
    decreases |triggers|
  {
    if triggers == [] then acc
    else
      AddMatches(CollectMatches(acc, triggers[..|triggers| - 1], ingredients, matches),
        triggers[|triggers| - 1], ingredients, matches)
  }

  /** The ingredients that one food allergy is matched to, in order of detection. */
  function MatchedIngredients(table: Assoc, foodAllergy: string, ingredients: seq<string>): seq<string> {
    CollectMatches([], Triggers(table, foodAllergy), ingredients, IsMatch)
  }

  /** The dictionary built by visiting the allergies in order and storing
      each one's matched list under its name when that list is not empty;
      `matchedOf` gives the matched list of an allergy. */
  function GroupMatches(foodAllergies: seq<string>, matchedOf: string -> seq<string>): Assoc
    decreases |foodAllergies|
  {
    if foodAllergies == [] then []
    else
      var before := GroupMatches(foodAllergies[..|foodAllergies| - 1], matchedOf);
      var a := foodAllergies[|foodAllergies| - 1];
      if matchedOf(a) != [] then Put(before, a, matchedOf(a)) else before
  }

  /** The matched list of each allergy against one list of ingredients. */
  function MatchedOf(table: Assoc, ingredients: seq<string>): string -> seq<string> {
    a => MatchedIngredients(table, a, ingredients)
  }

  /** The allergy-to-ingredients dictionary `find_matching_excipients` returns. */
  function FindMatches(table: Assoc, foodAllergies: seq<string>, ingredients: seq<string>): Assoc {
    GroupMatches(foodAllergies, MatchedOf(table, ingredients))
  }

  /** Scanning for one trigger keeps what was found, lists nothing twice and
      adds exactly the ingredients the trigger matches. */
  lemma {:induction false} AddMatchesMembers(acc: seq<string>, trigger: string, ingredients: seq<string>,
                                             matches: (string, string) -> bool)
    requires NoDuplicates(acc)
    ensures var r := AddMatches(acc, trigger, ingredients, matches);
      NoDuplicates(r) && |acc| <= |r| && r[..|acc|] == acc
      && forall x :: x in r <==> x in acc || (x in ingredients && matches(trigger, x))
    decreases |ingredients|
  {
    if ingredients != [] {
      var init := ingredients[..|ingredients| - 1];
      AddMatchesMembers(acc, trigger, init, matches);
      assert ingredients == init + [ingredients[|ingredients| - 1]];
    }
  }

  /** Scanning for each trigger in turn keeps what was found, lists nothing
      twice and adds exactly the ingredients some trigger matches. */
  lemma {:induction false} CollectMatchesMembers(acc: seq<string>, triggers: seq<string>, ingredients: seq<string>,
                                                 matches: (string, string) -> bool)
    requires NoDuplicates(acc)
    ensures var r := CollectMatches(acc, triggers, ingredients, matches);
      NoDuplicates(r) && |acc| <= |r| && r[..|acc|] == acc
      && forall x :: x in r <==>
        x in acc || (x in ingredients && exists j :: 0 <= j < |triggers| && matches(triggers[j], x))
    decreases |triggers|
  {
    if triggers != [] {
      var init := triggers[..|triggers| - 1];
      var last := triggers[|triggers| - 1];
      CollectMatchesMembers(acc, init, ingredients, matches);
      var mid := CollectMatches(acc, init, ingredients, matches);
      AddMatchesMembers(mid, last, ingredients, matches);
      assert forall j :: 0 <= j < |init| ==> init[j] == triggers[j];
    }
  }

  /** The ingredients matched to an allergy are exactly the listed
      ingredients that some trigger of the allergy matches, each listed once. */
  lemma MatchedIngredientsSpec(table: Assoc, foodAllergy: string, ingredients: seq<string>)
    ensures var r := MatchedIngredients(table, foodAllergy, ingredients);
      NoDuplicates(r)
      && forall x :: x in r <==> x in ingredients && exists t :: t in Triggers(table, foodAllergy) && IsMatch(t, x)
  {
    CollectMatchesMembers([], Triggers(table, foodAllergy), ingredients, IsMatch);
  }

  /** The dictionary has one entry per allergy with a non-empty matched
      list, holding that list, and no other entry. */
  lemma {:induction false} GroupMatchesSpec(foodAllergies: seq<string>, matchedOf: string -> seq<string>)
    ensures var m := GroupMatches(foodAllergies, matchedOf);
      DistinctKeys(m)
      && (forall a :: Lookup(m, a) ==
            (if a in foodAllergies && matchedOf(a) != [] then Some(matchedOf(a)) else None))
    decreases |foodAllergies|
  {
    if foodAllergies != [] {
      var init := foodAllergies[..|foodAllergies| - 1];
      var last := foodAllergies[|foodAllergies| - 1];
      GroupMatchesSpec(init, matchedOf);
      var before := GroupMatches(init, matchedOf);
      var m := GroupMatches(foodAllergies, matchedOf);
      if matchedOf(last) != [] {
        PutSpec(before, last, matchedOf(last));
      }
      forall a
        ensures Lookup(m, a) == (if a in foodAllergies && matchedOf(a) != [] then Some(matchedOf(a)) else None)
      {
        assert a in foodAllergies <==> a in init || a == last;
      }
    }
  }

  /** No entry of the dictionary holds an empty list. */
  lemma GroupMatchesValuesNonEmpty(foodAllergies: seq<string>, matchedOf: string -> seq<string>)
    ensures forall i :: 0 <= i < |GroupMatches(foodAllergies, matchedOf)| ==> GroupMatches(foodAllergies, matchedOf)[i].1 != []
  {
    var m := GroupMatches(foodAllergies, matchedOf);
    GroupMatchesSpec(foodAllergies, matchedOf);
    forall i | 0 <= i < |m|
      ensures m[i].1 != []
    {
      LookupDistinct(m, i);
    }
  }

  /** `find_matching_excipients` maps an allergy to its matched ingredients
      exactly when it is one of the allergies and something matched. */
  lemma FindMatchesSpec(table: Assoc, foodAllergies: seq<string>, ingredients: seq<string>)
    ensures var m := FindMatches(table, foodAllergies, ingredients);
      DistinctKeys(m)
      && (forall a :: Lookup(m, a) ==
            (if a in foodAllergies && MatchedIngredients(table, a, ingredients) != []
             then Some(MatchedIngredients(table, a, ingredients)) else None))
  {
    var f := MatchedOf(table, ingredients);
    GroupMatchesSpec(foodAllergies, f);
    assert forall a :: f(a) == MatchedIngredients(table, a, ingredients);
  }

  /** One pass of the innermost loop of `find_matching_excipients`: every
      ingredient the trigger matches is appended unless already listed. */
  method ScanIngredients(matched: seq<string>, trigger: string, ingredients: seq<string>) returns (r: seq<string>)
    ensures r == AddMatches(matched, trigger, ingredients, IsMatch)
  {
    r := matched;
    var k := 0;
    while k < |ingredients|
      invariant 0 <= k <= |ingredients|
      invariant r == AddMatches(matched, trigger, ingredients[..k], IsMatch)
    {
      var ingredient := ingredients[k];
      if IsMatch(trigger, ingredient) {
        if ingredient !in r {
          r := r + [ingredient];
        }
      }
      assert ingredients[..k + 1][..k] == ingredients[..k];
      k := k + 1;
    }
    assert ingredients[..k] == ingredients;
  }

  /** The ingredients one food allergy is matched to: each trigger in turn
      scanned against every ingredient. */
  method MatchAllergy(foodAllergy: string, ingredients: seq<string>) returns (matched: seq<string>)
    ensures matched == MatchedIngredients(FoodAllergenTriggers(), foodAllergy, ingredients)
  {
    var triggers := GetTriggersForAllergy(foodAllergy);
    matched := [];
    var j := 0;
    while j < |triggers|
      invariant 0 <= j <= |triggers|
      invariant matched == CollectMatches([], triggers[..j], ingredients, IsMatch)
    {
      matched := ScanIngredients(matched, triggers[j], ingredients);
      assert triggers[..j + 1][..j] == triggers[..j];
      j := j + 1;
    }
    assert triggers[..j] == triggers;
  }

  /** The dictionary over one more allergy. */
  lemma FindMatchesStep(table: Assoc, foodAllergies: seq<string>, i: nat, ingredients: seq<string>)
    requires i < |foodAllergies|
    ensures var matched := MatchedIngredients(table, foodAllergies[i], ingredients);
      FindMatches(table, foodAllergies[..i + 1], ingredients) ==
        if matched != [] then Put(FindMatches(table, foodAllergies[..i], ingredients), foodAllergies[i], matched)
        else FindMatches(table, foodAllergies[..i], ingredients)
  {
    assert foodAllergies[..i + 1][..i] == foodAllergies[..i];
    assert MatchedOf(table, ingredients)(foodAllergies[i]) == MatchedIngredients(table, foodAllergies[i], ingredients);
  }

  /** `find_matching_excipients`: the allergies in order, each with a
      non-empty list of matched ingredients stored under its name. */
  method FindMatchingExcipients(foodAllergies: seq<string>, ingredients: seq<string>) returns (matches: Assoc)
    ensures matches == FindMatches(FoodAllergenTriggers(), foodAllergies, ingredients)
  {
    ghost var table := FoodAllergenTriggers();
    matches := [];
    var i := 0;
    while i < |foodAllergies|
      invariant 0 <= i <= |foodAllergies|
      invariant matches == FindMatches(table, foodAllergies[..i], ingredients)
    {
      var foodAllergy := foodAllergies[i];
      var matched := MatchAllergy(foodAllergy, ingredients);
      if matched != [] {
        matches := Put(matches, foodAllergy, matched);
      }
      FindMatchesStep(table, foodAllergies, i, ingredients);
      i := i + 1;
    }
    assert foodAllergies[..i] == foodAllergies;
  }

  // ---------------------------------------------------------------------
  // check_food_allergy_risk

  datatype RiskLevel = Low | Medium | High

  datatype RiskReport = RiskReport(hasRisk: bool, riskLevel: RiskLevel, matchedAllergens: Assoc, explanation: string)

  /** The number of matched ingredients summed over all allergies. */
  function TotalMatches(m: Assoc): nat
    decreases |m|
  {
    if m == [] then 0 else TotalMatches(m[..|m| - 1]) + |m[|m| - 1].1|
  }

  /** One clause of the explanation per allergy: "<allergy> 알러지: <ingredients>". */
  function ExplanationLines(m: Assoc): (r: seq<string>)
    ensures |r| == |m|
    decreases |m|
  {
    if m == [] then []
    else ExplanationLines(m[..|m| - 1]) + [m[|m| - 1].0 + " 알러지: " + Join(m[|m| - 1].1, ", ")]
  }

  /** HIGH from three matched ingredients on, MEDIUM from two, LOW below. */
  function LevelFor(total: nat): RiskLevel {
    if total >= 3 then High else if total >= 2 then Medium else Low
  }

  /** The report for a given dictionary of matches. */
  function ReportFor(m: Assoc): RiskReport {
    if m == [] then RiskReport(false, Low, [], NothingDetected)
    else RiskReport(true, LevelFor(TotalMatches(m)), m, DetectedPrefix + Join(ExplanationLines(m), ", "))
  }

  /** The assessment `check_food_allergy_risk` returns. */
  function FoodAllergyRisk(table: Assoc, foodAllergies: seq<string>, ingredients: seq<string>): RiskReport {
    if foodAllergies == [] || ingredients == [] then RiskReport(false, Low, [], NoInformation)
    else ReportFor(FindMatches(table, foodAllergies, ingredients))
  }

  /** The report built from a dictionary of matches: the total and the
      explanation clauses are accumulated over the entries in order. */
  method Report(matches: Assoc) returns (report: RiskReport)
    ensures report == ReportFor(matches)
  {
    if matches == [] {
      return RiskReport(false, Low, [], NothingDetected);
    }
    var total := 0;
    var explanations: seq<string> := [];
    var i := 0;
    while i < |matches|
      invariant 0 <= i <= |matches|
      invariant total == TotalMatches(matches[..i])
      invariant explanations == ExplanationLines(matches[..i])
    {
      var (allergy, matched) := matches[i];
      total := total + |matched|;
      explanations := explanations + [allergy + " 알러지: " + Join(matched, ", ")];
      assert matches[..i + 1][..i] == matches[..i];
      i := i + 1;
    }
    assert matches[..i] == matches;
    var level := if total >= 3 then High else if total >= 2 then Medium else Low;
    report := RiskReport(true, level, matches, DetectedPrefix + Join(explanations, ", "));
  }

  /** `check_food_allergy_risk` */
  method CheckFoodAllergyRisk(foodAllergies: seq<string>, ingredients: seq<string>) returns (report: RiskReport)
    ensures report == FoodAllergyRisk(FoodAllergenTriggers(), foodAllergies, ingredients)
  {
    if foodAllergies == [] || ingredients == [] {
      return RiskReport(false, Low, [], NoInformation);
    }
    var matches := FindMatchingExcipients(foodAllergies, ingredients);
    report := Report(matches);
  }

  /** A risk is reported exactly when some listed ingredient matches a
      trigger of some listed allergy, and then the dictionary is non-empty. */
  lemma RiskIffSomeTriggerMatches(table: Assoc, foodAllergies: seq<string>, ingredients: seq<string>)
    ensures var r := FoodAllergyRisk(table, foodAllergies, ingredients);
      r.hasRisk <==> exists a, x, t :: a in foodAllergies && x in ingredients && t in Triggers(table, a) && IsMatch(t, x)
    ensures var r := FoodAllergyRisk(table, foodAllergies, ingredients);
      r.hasRisk <==> r.matchedAllergens != []
  {
    var m := FindMatches(table, foodAllergies, ingredients);
    FindMatchesSpec(table, foodAllergies, ingredients);
    if exists a, x, t :: a in foodAllergies && x in ingredients && t in Triggers(table, a) && IsMatch(t, x) {
      var a, x, t :| a in foodAllergies && x in ingredients && t in Triggers(table, a) && IsMatch(t, x);
      MatchedIngredientsSpec(table, a, ingredients);
      assert x in MatchedIngredients(table, a, ingredients);
      assert Lookup(m, a).Some?;
    }
    if m != [] {
      var a := m[0].0;
      assert Lookup(m, a).Some?;
      var mi := MatchedIngredients(table, a, ingredients);
      MatchedIngredientsSpec(table, a, ingredients);
      var x := mi[0];
      assert x in mi;
    }
  }

  /** Each entry holding at least one ingredient, the total is at least the number of entries. */
  lemma {:induction false} TotalMatchesAtLeastEntries(m: Assoc)
    requires forall i :: 0 <= i < |m| ==> m[i].1 != []
    ensures TotalMatches(m) >= |m|
    decreases |m|
  {
    if m != [] {
      TotalMatchesAtLeastEntries(m[..|m| - 1]);
    }
  }

  /** With no empty entry, two entries make the level at least MEDIUM and three HIGH. */
  lemma ReportLevel(m: Assoc)
    requires forall i :: 0 <= i < |m| ==> m[i].1 != []
    ensures var r := ReportFor(m);
      (|r.matchedAllergens| >= 2 ==> r.riskLevel != Low) && (|r.matchedAllergens| >= 3 ==> r.riskLevel == High)
  {
    TotalMatchesAtLeastEntries(m);
  }

  lemma GroupedReportLevel(foodAllergies: seq<string>, matchedOf: string -> seq<string>)
    ensures var r := ReportFor(GroupMatches(foodAllergies, matchedOf));
      (|r.matchedAllergens| >= 2 ==> r.riskLevel != Low) && (|r.matchedAllergens| >= 3 ==> r.riskLevel == High)
  {
    GroupMatchesValuesNonEmpty(foodAllergies, matchedOf);
    ReportLevel(GroupMatches(foodAllergies, matchedOf));
  }

  /** Two allergies with a match each make the risk at least MEDIUM, three HIGH. */
  lemma SeveralAllergiesRaiseTheLevel(table: Assoc, foodAllergies: seq<string>, ingredients: seq<string>)
    ensures var r := FoodAllergyRisk(table, foodAllergies, ingredients);
      (|r.matchedAllergens| >= 2 ==> r.riskLevel != Low) && (|r.matchedAllergens| >= 3 ==> r.riskLevel == High)
  {
    GroupedReportLevel(foodAllergies, MatchedOf(table, ingredients));
  }

  /** Examples of the assessment for the missing-input and nothing-found cases. */
  lemma NoInformationExample(table: Assoc, foodAllergies: seq<string>)
    ensures FoodAllergyRisk(table, foodAllergies, []) == RiskReport(false, Low, [], NoInformation)
  {
  }
}
