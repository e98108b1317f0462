/** The persistent entities and the JPA repositories that hold them. A
    repository is a table of rows in insertion order; the database assigns
    each saved row the next identity value. */
module Repositories {
  import opened Wrappers

  /** A database identity (a Java `Long`). */
  type Id = int

  datatype Row<T> = Row(id: Id, value: T)

  datatype User = User(username: string, password: string, email: string, nickname: string)

  datatype AllergyType = Medication | Food

  /** A registered sensitivity; `allergyType` is None for rows written before
      the column existed. */
  datatype AllergyRecord = AllergyRecord(userId: Id, ingredientName: string, allergyType: Option<AllergyType>)

  datatype Post = Post(authorId: Id, title: string, content: string, category: string)

  /** `createdAt` is the clock reading taken when the comment was persisted. */
  datatype Comment = Comment(postId: Id, authorId: Id, content: string, createdAt: int)

  /** A row of the post-like or the comment-like table: who liked which target. */
  datatype Like = Like(targetId: Id, userId: Id)

  datatype SideEffectReport = SideEffectReport(
    userId: Id, medicationNames: seq<string>, description: Option<string>, analysisResult: string)

  datatype OcrRecord = OcrRecord(
    userId: Id, imageUrl: string, ocrText: string, ingredientList: seq<string>, analysisResult: string)

  predicate IdsIncreasing<T>(rows: seq<Row<T>>) {
    forall i, j :: 0 <= i < j < |rows| ==> rows[i].id < rows[j].id
  }

  /** Position of the row with identity `id`. */
  function IndexOfId<T>(rows: seq<Row<T>>, id: Id): (r: Option<nat>)
    ensures r.Some? ==> r.value < |rows| && rows[r.value].id == id
    ensures r.None? ==> forall i :: 0 <= i < |rows| ==> rows[i].id != id
    decreases |rows|
  {
    if rows == [] then None
    else if rows[0].id == id then Some(0)
    else match IndexOfId(rows[1..], id)
      case None => None
      case Some(i) => Some(i + 1)
  }

  /** `findById`: the value stored under `id`, if any. */
  function FindById<T>(rows: seq<Row<T>>, id: Id): (r: Option<T>)
    ensures r.Some? <==> exists i :: 0 <= i < |rows| && rows[i].id == id
    ensures r.Some? ==> exists i :: 0 <= i < |rows| && rows[i] == Row(id, r.value)
  {
    match IndexOfId(rows, id)
    case None => None
    case Some(i) => Some(rows[i].value)
  }

  /** Position of the first row whose value satisfies `p` (a derived query
      such as `findByUsername`). */
  function FirstWhere<T>(rows: seq<Row<T>>, p: T -> bool): (r: Option<nat>)
    ensures r.Some? ==> r.value < |rows| && p(rows[r.value].value)
    ensures r.Some? ==> forall i :: 0 <= i < r.value ==> !p(rows[i].value)
    ensures r.None? ==> forall i :: 0 <= i < |rows| ==> !p(rows[i].value)
    decreases |rows|
  {
    if rows == [] then None
    else if p(rows[0].value) then Some(0)
    else match FirstWhere(rows[1..], p)
      case None => None
      case Some(i) => Some(i + 1)
  }

  /** `countBy...`: the number of rows whose value satisfies `p`. */
  function CountWhere<T>(rows: seq<Row<T>>, p: T -> bool): (n: nat)
    ensures n <= |rows|
    ensures n == 0 <==> forall i :: 0 <= i < |rows| ==> !p(rows[i].value)
    decreases |rows|
  {
    if rows == [] then 0
    else (if p(rows[0].value) then 1 else 0) + CountWhere(rows[1..], p)
  }

  /** The values of the rows satisfying `p`, in table order (`findBy...` returning a list). */
  function ValuesWhere<T(!new)>(rows: seq<Row<T>>, p: T -> bool): (r: seq<T>)
    ensures |r| == CountWhere(rows, p)
    ensures forall x :: x in r <==> exists i :: 0 <= i < |rows| && rows[i].value == x && p(x)
    decreases |rows|
  {
    if rows == [] then []
    else
      var rest := ValuesWhere(rows[1..], p);
      assert forall i :: 0 < i < |rows| ==> rows[i] == rows[1..][i - 1];
      if p(rows[0].value) then [rows[0].value] + rest else rest
  }

  /** The rows satisfying `p`, in table order. */
  function RowsWhere<T(!new)>(rows: seq<Row<T>>, p: T -> bool): (r: seq<Row<T>>)
    ensures |r| == CountWhere(rows, p)
    ensures forall row :: row in r <==> row in rows && p(row.value)
    decreases |rows|
  {
    if rows == [] then []
    else
      var rest := RowsWhere(rows[1..], p);
      assert forall row :: row in rows <==> row == rows[0] || row in rows[1..];
      if p(rows[0].value) then [rows[0]] + rest else rest
  }

  /** The first row satisfying `p` (a derived query such as `findByUsername`
      or `findByEmail` returning an `Optional`). */
  function FirstRowWhere<T>(rows: seq<Row<T>>, p: T -> bool): (r: Option<Row<T>>)
    ensures r.Some? <==> exists i :: 0 <= i < |rows| && p(rows[i].value)
    ensures r.Some? ==> r.value in rows && p(r.value.value)
  {
    match FirstWhere(rows, p)
    case None => None
    case Some(k) => Some(rows[k])
  }

  function HasUsername(name: string): User -> bool {
    (u: User) => u.username == name
  }

  function HasEmail(email: string): User -> bool {
    (u: User) => u.email == email
  }

  /** `findByUsername` */
  function FindByUsername(users: seq<Row<User>>, name: string): Option<Row<User>> {
    FirstRowWhere(users, HasUsername(name))
  }

  /** The caller's id for a response: `findByUsername(username).orElse(null)`,
      then its id, or null when no user has that name. */
  function CallerId(users: seq<Row<User>>, username: string): (r: Option<Id>)
    ensures r.Some? <==> exists i :: 0 <= i < |users| && users[i].value.username == username
    ensures r.Some? ==> exists i :: 0 <= i < |users| && users[i].value.username == username && users[i].id == r.value
  {
    match FindByUsername(users, username)
    case None => None
    case Some(row) => Some(row.id)
  }

  /** `findByEmail` */
  function FindByEmail(users: seq<Row<User>>, email: string): Option<Row<User>> {
    FirstRowWhere(users, HasEmail(email))
  }

  function Min(a: int, b: int): int {
    if a <= b then a else b
  }

  /** Page `page` of `size` items of an ordered result (`PageRequest.of(page,
      size)`): the run of at most `size` items starting at `page * size`. */
  function PageOf<T>(items: seq<T>, page: nat, size: nat): (r: seq<T>)
    ensures |r| == if |items| <= page * size then 0 else Min(size, |items| - page * size)
    ensures forall k :: 0 <= k < |r| ==> r[k] == items[page * size + k]
  {
    if |items| <= page * size then [] else items[page * size..Min(page * size + size, |items|)]
  }

  /** A page is a contiguous run of the result. */
  lemma PageIsARun<T>(items: seq<T>, page: nat, size: nat) returns (start: nat, end: nat)
    ensures start <= end <= |items| && PageOf(items, page, size) == items[start..end]
  {
    if |items| <= page * size {
      start, end := 0, 0;
    } else {
      start, end := page * size, Min(page * size + size, |items|);
    }
  }

  /** Pages are laid end to end: a later page starts no earlier than the
      end of a full earlier one. */
  lemma {:induction false} PageStartsAreOrdered(a: nat, b: nat, size: nat)
    requires a < b
    ensures a * size + size <= b * size
    decreases b
  {
    assert b * size == (b - 1) * size + size;
    if b - 1 > a {
      PageStartsAreOrdered(a, b - 1, size);
    }
  }

  /** Every item lies on exactly one page: item `j` is entry `j % size` of
      page `j / size`, and lies in the range of no other page. */
  lemma PagesCoverEachItemOnce<T>(items: seq<T>, size: nat, j: nat)
    requires size > 0 && j < |items|
    ensures j % size < |PageOf(items, j / size, size)|
    ensures PageOf(items, j / size, size)[j % size] == items[j]
    ensures forall page: nat :: page != j / size ==>
      !(page * size <= j < page * size + |PageOf(items, page, size)|)
  {
    PageOfItem(j, size);
    forall page: nat | page != j / size
      ensures !(page * size <= j < page * size + |PageOf(items, page, size)|)
    {
      ItemOffOtherPage(items, size, j, page);
    }
  }

  /** Item `j` sits at offset `j % size` from the start of page `j / size`. */
  lemma PageOfItem(j: nat, size: nat)
    requires size > 0
    ensures j == (j / size) * size + j % size && 0 <= j % size < size
  {
  }

  lemma ItemOffOtherPage<T>(items: seq<T>, size: nat, j: nat, page: nat)
    requires size > 0 && j < |items| && page != j / size
    ensures !(page * size <= j < page * size + |PageOf(items, page, size)|)
  {
    var q := j / size;
    PageOfItem(j, size);
    if page < q {
      PageStartsAreOrdered(page, q, size);
    } else {
      PageStartsAreOrdered(q, page, size);
    }
  }

  /** Counting over two runs of rows adds up. */
  lemma {:induction false} CountConcat<T>(a: seq<Row<T>>, b: seq<Row<T>>, p: T -> bool)
    ensures CountWhere(a + b, p) == CountWhere(a, p) + CountWhere(b, p)
    decreases |a|
  {
    if a != [] {
      assert (a + b)[1..] == a[1..] + b;
      CountConcat(a[1..], b, p);
    } else {
      assert a + b == b;
    }
  }

  lemma CountAppend<T>(rows: seq<Row<T>>, row: Row<T>, p: T -> bool)
    ensures CountWhere(rows + [row], p) == CountWhere(rows, p) + (if p(row.value) then 1 else 0)
  {
    CountConcat(rows, [row], p);
  }

  lemma {:induction false} CountRemove<T>(rows: seq<Row<T>>, k: nat, p: T -> bool)
    requires k < |rows|
    ensures CountWhere(rows, p) == CountWhere(rows[..k] + rows[k + 1..], p) + (if p(rows[k].value) then 1 else 0)
    decreases k
  {
    if k == 0 {
      assert rows[..0] + rows[1..] == rows[1..];
    } else {
      var tail := rows[1..];
      CountRemove(tail, k - 1, p);
      var removed := rows[..k] + rows[k + 1..];
      assert removed == [rows[0]] + (tail[..k - 1] + tail[k..]);
      assert removed[1..] == tail[..k - 1] + tail[k..];
    }
  }

  /** A JPA repository over one entity type. */
  class Table<T> {
    var rows: seq<Row<T>>
    /** The identity the database hands out on the next insert. */
    var nextId: Id

    ghost predicate Valid()
      reads this
    {
      1 <= nextId && IdsIncreasing(rows)
      && forall i :: 0 <= i < |rows| ==> 1 <= rows[i].id < nextId
    }

    constructor ()
      ensures Valid() && rows == [] && nextId == 1
    {
      rows := [];
      nextId := 1;
    }

    /** `save` of a new entity: appends it under a fresh identity. */
    method Insert(v: T) returns (id: Id)
      requires Valid()
      modifies this
      ensures Valid()
      ensures id == old(nextId) && nextId == id + 1
      ensures rows == old(rows) + [Row(id, v)]
      ensures forall i :: 0 <= i < |old(rows)| ==> old(rows)[i].id != id
    {
      id := nextId;
      rows := rows + [Row(id, v)];
      nextId := nextId + 1;
    }

    /** `save` of an entity that was loaded from row `k` and changed. */
    method Update(k: nat, v: T)
      requires Valid() && k < |rows|
      modifies this
      ensures Valid() && nextId == old(nextId)
      ensures rows == old(rows)[k := Row(old(rows)[k].id, v)]
    {
      rows := rows[k := Row(rows[k].id, v)];
    }

    /** `delete` of the entity loaded from row `k`. */
    method Delete(k: nat)
      requires Valid() && k < |rows|
      modifies this
      ensures Valid() && nextId == old(nextId)
      ensures rows == old(rows)[..k] + old(rows)[k + 1..]
    {
      rows := rows[..k] + rows[k + 1..];
    }
  }
}
