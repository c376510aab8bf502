/**
 * The relational store as the services see it: a table is a sequence of rows in storage
 * order, each carrying the primary key the database assigned. The functions here are the
 * scans the services run on tables: `.filter(...).first()`, `.offset(...).limit(...)`,
 * an UPDATE or DELETE of one row, and `list.remove` on a relationship list.
 */
module Tables {
  import opened Wrappers

  /** One row: the primary key and the mapped columns. */
  datatype Row<T> = Row(id: int, data: T)

  /** Primary keys are pairwise distinct. */
  ghost predicate UniqueKeys<T>(rows: seq<Row<T>>) {
    forall i, j :: 0 <= i < j < |rows| ==> rows[i].id != rows[j].id
  }

  /** Every key is below the next key the autoincrement will hand out. */
  ghost predicate KeysBelow<T>(rows: seq<Row<T>>, next: int) {
    forall x :: x in rows ==> x.id < next
  }

  /** No element occurs twice. */
  ghost predicate NoDup<T>(s: seq<T>) {
    forall i, j :: 0 <= i < j < |s| ==> s[i] != s[j]
  }

  function Min(a: int, b: int): int {
    if a <= b then a else b
  }

  /** Position of the first element at or after `from` that satisfies `p`. */
  function IndexWhereFrom<T>(s: seq<T>, p: T -> bool, from: nat): (r: Option<nat>)
    requires from <= |s|
    decreases |s| - from
    ensures r.Some? ==> from <= r.value < |s| && p(s[r.value])
    ensures r.Some? ==> forall j :: from <= j < r.value ==> !p(s[j])
    ensures r.None? ==> forall j :: from <= j < |s| ==> !p(s[j])
  {
    if from == |s| then None
    else if p(s[from]) then Some(from)
    else IndexWhereFrom(s, p, from + 1)
  }

  /** Position of the first element that satisfies `p`: what `.filter(p).first()` finds. */
  function IndexWhere<T>(s: seq<T>, p: T -> bool): (r: Option<nat>)
    ensures r.Some? ==> r.value < |s| && p(s[r.value]) && forall j :: 0 <= j < r.value ==> !p(s[j])
    ensures r.None? ==> forall j :: 0 <= j < |s| ==> !p(s[j])
  {
    IndexWhereFrom(s, p, 0)
  }

  /** Position of the row whose primary key is `id`. */
  function IndexOfKey<T>(rows: seq<Row<T>>, id: int): (r: Option<nat>)
    ensures r.Some? ==> r.value < |rows| && rows[r.value].id == id
    ensures r.None? ==> forall x :: x in rows ==> x.id != id
    ensures UniqueKeys(rows) ==> forall i :: 0 <= i < |rows| && rows[i].id == id ==> r == Some(i)
  {
    IndexWhere(rows, (x: Row<T>) => x.id == id)
  }

  /** `.filter(id == key).first()`: the row with that primary key, if there is one. */
  function FindById<T>(rows: seq<Row<T>>, id: int): (r: Option<Row<T>>)
    ensures r.Some? ==> r.value in rows && r.value.id == id
    ensures r.None? <==> forall x :: x in rows ==> x.id != id
    ensures UniqueKeys(rows) ==> forall x :: x in rows && x.id == id ==> r == Some(x)
  {
    match IndexOfKey(rows, id)
    case Some(k) => Some(rows[k])
    case None => None
  }

  /** `.offset(skip).limit(limit)`: at most `limit` consecutive rows starting at position `skip`. */
  function Paginate<T>(rows: seq<T>, skip: nat, limit: nat): (page: seq<T>)
    ensures |page| == if skip >= |rows| then 0 else Min(limit, |rows| - skip)
    ensures forall i :: 0 <= i < |page| ==> page[i] == rows[skip + i]
  {
    if skip >= |rows| then [] else rows[skip..skip + Min(limit, |rows| - skip)]
  }

  /** Two consecutive pages make up the page that spans both: paging through a table skips no row and repeats none. */
  lemma PaginateConsecutive<T>(rows: seq<T>, skip: nat, a: nat, b: nat)
    ensures Paginate(rows, skip, a) + Paginate(rows, skip + a, b) == Paginate(rows, skip, a + b)
  {
    var p, q, whole := Paginate(rows, skip, a), Paginate(rows, skip + a, b), Paginate(rows, skip, a + b);
    assert |p + q| == |whole|;
    forall i | 0 <= i < |whole| ensures (p + q)[i] == whole[i] {
      if i >= |p| {
        assert (p + q)[i] == q[i - |p|];
      }
    }
  }

  /** The table after an UPDATE of the row at position `k`, which keeps its key. */
  function ReplaceRow<T(!new)>(rows: seq<Row<T>>, k: nat, row: Row<T>): (r: seq<Row<T>>)
    requires UniqueKeys(rows) && k < |rows| && rows[k].id == row.id
    ensures |r| == |rows| && r[k] == row
    ensures forall i :: 0 <= i < |rows| && i != k ==> r[i] == rows[i]
    ensures UniqueKeys(r)
    ensures forall x :: x in r <==> x == row || (x in rows && x.id != row.id)
  {
    var r := rows[k := row];
    assert forall x :: x in rows && x.id != row.id ==> x in r by {
      forall x | x in rows && x.id != row.id ensures x in r {
        var i :| 0 <= i < |rows| && rows[i] == x;
        assert r[i] == x;
      }
    }
    r
  }

  /** The table after deleting the row whose primary key is `id`. */
  function DeleteById<T(!new)>(rows: seq<Row<T>>, id: int): (r: seq<Row<T>>)
    requires UniqueKeys(rows)
    ensures UniqueKeys(r)
    ensures forall x :: x in r <==> x in rows && x.id != id
    ensures |r| == if FindById(rows, id).Some? then |rows| - 1 else |rows|
    ensures FindById(rows, id).None? ==> r == rows
    ensures FindById(rows, id).Some? ==> exists k :: 0 <= k < |rows| && rows[k].id == id && r == rows[..k] + rows[k + 1..]
  {
    match IndexOfKey(rows, id)
    case None => rows
    case Some(k) =>
      var r := rows[..k] + rows[k + 1..];
      assert rows == rows[..k] + [rows[k]] + rows[k + 1..];
      assert forall i :: 0 <= i < |r| ==> r[i] == rows[if i < k then i else i + 1];
      r
  }

  /** Position of the first occurrence of `x`. */
  function FirstIndex<T(==)>(s: seq<T>, x: T): (k: nat)
    requires x in s
    ensures k < |s| && s[k] == x && x !in s[..k]
  {
    if s[0] == x then 0
    else
      assert x in s[1..];
      var k := 1 + FirstIndex(s[1..], x);
      assert s[..k] == [s[0]] + s[1..][..k - 1];
      k
  }

  /**
   * Python's `list.remove(x)`: drops the first occurrence of `x`, and only that one, keeping the
   * order of the rest; a list without `x` is returned as it is.
   */
  function RemoveFirst<T(==)>(s: seq<T>, x: T): (r: seq<T>)
    ensures x !in s ==> r == s
    ensures x in s ==> r == s[..FirstIndex(s, x)] + s[FirstIndex(s, x) + 1..]
  {
    if s == [] then []
    else if s[0] == x then
      assert s == [s[0]] + s[1..] && s[..0] + s[1..] == s[1..];
      s[1..]
    else
      var rest := RemoveFirst(s[1..], x);
      assert s == [s[0]] + s[1..];
      assert x in s ==> [s[0]] + rest == s[..FirstIndex(s, x)] + s[FirstIndex(s, x) + 1..] by {
        if x in s {
          RemoveFirstSkipHead(s, x, rest);
        }
      }
      [s[0]] + rest
  }

  /** `list.remove(x)` takes exactly one `x` out of the multiset of elements, when there is one. */
  lemma RemoveFirstMultiset<T>(s: seq<T>, x: T)
    ensures multiset(RemoveFirst(s, x)) == multiset(s) - multiset{x}
  {
    if x in s {
      var k := FirstIndex(s, x);
      assert s == s[..k] + [x] + s[k + 1..];
      MultisetSplice(s[..k], x, s[k + 1..]);
    } else {
      assert multiset(s)[x] == 0;
    }
  }

  /** Cutting one element out of a sequence takes one copy of it out of the multiset. */
  lemma MultisetSplice<T>(front: seq<T>, x: T, back: seq<T>)
    ensures multiset(front + back) == multiset(front + [x] + back) - multiset{x}
  {
    assert multiset(front + [x] + back) == multiset(front) + multiset{x} + multiset(back);
  }

  /** Removing `x` past a head that is not `x` keeps the head in front of the shortened tail. */
  lemma RemoveFirstSkipHead<T>(s: seq<T>, x: T, rest: seq<T>)
    requires s != [] && s[0] != x && x in s
    requires x in s[1..] && rest == s[1..][..FirstIndex(s[1..], x)] + s[1..][FirstIndex(s[1..], x) + 1..]
    ensures [s[0]] + rest == s[..FirstIndex(s, x)] + s[FirstIndex(s, x) + 1..]
  {
    var k := FirstIndex(s, x);
    assert k == 1 + FirstIndex(s[1..], x);
    assert s[..k] == [s[0]] + s[1..][..k - 1];
    assert s[k + 1..] == s[1..][k..];
  }

  /** Appending `x` to a list that did not hold it and then removing `x` gives back the list. */
  lemma {:induction false} RemoveFirstAppended<T>(s: seq<T>, x: T)
    requires x !in s
    ensures RemoveFirst(s + [x], x) == s
  {
    if s != [] {
      assert (s + [x])[0] == s[0];
      assert (s + [x])[1..] == s[1..] + [x];
      RemoveFirstAppended(s[1..], x);
    }
  }

  /** On a list without duplicates, removing `x` removes exactly `x` and keeps the list duplicate-free. */
  lemma {:induction false} RemoveFirstNoDup<T>(s: seq<T>, x: T)
    requires NoDup(s)
    ensures NoDup(RemoveFirst(s, x))
    ensures forall y :: y in RemoveFirst(s, x) <==> y in s && y != x
  {
    if s != [] {
      assert s == [s[0]] + s[1..];
      NoDupTail(s);
      RemoveFirstNoDup(s[1..], x);
      if s[0] != x {
        assert RemoveFirst(s, x) == [s[0]] + RemoveFirst(s[1..], x);
        ConsNoDup(s[0], RemoveFirst(s[1..], x));
      }
    }
  }

  /** Appending an element not yet present keeps a list duplicate-free. */
  lemma AppendNoDup<T>(s: seq<T>, x: T)
    requires NoDup(s) && x !in s
    ensures NoDup(s + [x])
  {
    forall i, j | 0 <= i < j < |s + [x]| ensures (s + [x])[i] != (s + [x])[j] {
      assert (s + [x])[i] == s[i];
      if j < |s| {
        assert (s + [x])[j] == s[j];
      }
    }
  }

  /** The tail of a duplicate-free list is duplicate-free and does not hold the head. */
  lemma NoDupTail<T>(s: seq<T>)
    requires NoDup(s) && s != []
    ensures NoDup(s[1..]) && s[0] !in s[1..]
  {
    forall i, j | 0 <= i < j < |s[1..]| ensures s[1..][i] != s[1..][j] {
      assert s[1..][i] == s[i + 1] && s[1..][j] == s[j + 1];
    }
    forall j | 0 <= j < |s[1..]| ensures s[1..][j] != s[0] {
      assert s[1..][j] == s[j + 1];
    }
  }

  /** Putting an element not yet present in front keeps a list duplicate-free. */
  lemma ConsNoDup<T>(x: T, s: seq<T>)
    requires NoDup(s) && x !in s
    ensures NoDup([x] + s)
  {
    forall i, j | 0 <= i < j < |[x] + s| ensures ([x] + s)[i] != ([x] + s)[j] {
      assert ([x] + s)[j] == s[j - 1];
      if i == 0 {
        assert s[j - 1] in s;
      } else {
        assert ([x] + s)[i] == s[i - 1];
      }
    }
  }

  /** Rows with pairwise distinct keys are pairwise distinct. */
  lemma UniqueKeysNoDup<T>(rows: seq<Row<T>>)
    requires UniqueKeys(rows)
    ensures NoDup(rows)
  {
    forall i, j | 0 <= i < j < |rows| ensures rows[i] != rows[j] {
      assert rows[i].id != rows[j].id;
    }
  }

  /** Inserting a row under the next key of the sequence keeps keys unique and below the advanced sequence. */
  lemma AppendKeepsKeys<T>(rows: seq<Row<T>>, next: int, row: Row<T>)
    requires UniqueKeys(rows) && KeysBelow(rows, next) && row.id == next
    ensures UniqueKeys(rows + [row]) && KeysBelow(rows + [row], next + 1)
  {
    forall i, j | 0 <= i < j < |rows + [row]| ensures (rows + [row])[i].id != (rows + [row])[j].id {
      assert (rows + [row])[i] == rows[i] && rows[i] in rows;
    }
  }
}
