/** The sorted list of forum categories (forum-categories.service.ts): ORDER BY sort_order,
    name. Names are compared character by character. */
module ForumListing {
  import opened Sorting

  /** A deleted category keeps its position but is `gone`. */
  datatype Category = Category(name: string, slug: string, sortOrder: int, threadsCount: int, gone: bool)

  datatype Listed = Listed(id: nat, category: Category)

  function CompareNames(a: string, b: string): int {
    if a == b then 0
    else if a == [] then -1
    else if b == [] then 1
    else if a[0] < b[0] then -1
    else if a[0] > b[0] then 1
    else CompareNames(a[1..], b[1..])
  }

  lemma {:induction false} NamesAntisymmetric(a: string, b: string)
    ensures CompareNames(a, b) > 0 ==> CompareNames(b, a) <= 0
  {
    if a != [] && b != [] && a[0] == b[0] {
      NamesAntisymmetric(a[1..], b[1..]);
    }
  }

  lemma {:induction false} NamesTransitive(a: string, b: string, c: string)
    requires CompareNames(a, b) <= 0 && CompareNames(b, c) <= 0
    ensures CompareNames(a, c) <= 0
  {
    if a != [] && b != [] && c != [] && a[0] == b[0] == c[0] {
      SameHead(a, b);
      SameHead(b, c);
      SameHead(a, c);
      NamesTransitive(a[1..], b[1..], c[1..]);
    }
  }

  lemma SameHead(a: string, b: string)
    requires a != [] && b != [] && a[0] == b[0]
    ensures CompareNames(a, b) == CompareNames(a[1..], b[1..])
  {
    assert a == [a[0]] + a[1..] && b == [b[0]] + b[1..];
  }

  function CompareListed(): (Listed, Listed) -> int {
    (a: Listed, b: Listed) =>
      if a.category.sortOrder < b.category.sortOrder then -1
      else if a.category.sortOrder > b.category.sortOrder then 1
      else CompareNames(a.category.name, b.category.name)
  }

  lemma ListedConsistent(rows: seq<Listed>)
    ensures Consistent(Elems(rows), CompareListed())
  {
    var cmp := CompareListed();
    forall a, b | a in rows && b in rows && cmp(a, b) > 0 ensures cmp(b, a) <= 0 {
      NamesAntisymmetric(a.category.name, b.category.name);
    }
    forall a, b, c | a in rows && b in rows && c in rows && cmp(a, b) <= 0 && cmp(b, c) <= 0
      ensures cmp(a, c) <= 0
    {
      if a.category.sortOrder == c.category.sortOrder {
        NamesTransitive(a.category.name, b.category.name, c.category.name);
      }
    }
  }

  /** The rows of the table, in no particular order. */
  function Rows(table: seq<Category>): seq<Listed> {
    if table == [] then []
    else
      var k := |table| - 1;
      Rows(table[..k]) + if table[k].gone then [] else [Listed(k, table[k])]
  }

  function IdOf(): Listed -> nat {
    (r: Listed) => r.id
  }

  predicate IsRow(r: Listed, table: seq<Category>) {
    r.id < |table| && !table[r.id].gone && r.category == table[r.id]
  }

  lemma {:induction false} RowsAreTheTable(table: seq<Category>)
    ensures forall r :: r in Rows(table) <==> IsRow(r, table)
    ensures DistinctKeys(Rows(table), IdOf())
  {
    if table != [] {
      var k := |table| - 1;
      RowsAreTheTable(table[..k]);
      var front := Rows(table[..k]);
      forall i | 0 <= i < |front| ensures front[i].id < k {
        assert front[i] in front;
      }
      forall r ensures r in Rows(table) <==> IsRow(r, table) {
        assert r in Rows(table[..k]) <==> IsRow(r, table[..k]);
      }
    }
  }

  /** A name stands in front of another that it begins, and otherwise the first character
      in which they differ decides. */
  ghost predicate NameBefore(a: string, b: string) {
    a <= b || exists k :: 0 <= k < |a| && FirstDifference(a, b, k) && a[k] < b[k]
  }

  ghost predicate FirstDifference(a: string, b: string, k: nat) {
    k < |a| && k < |b| && a[..k] == b[..k] && a[k] != b[k]
  }

  /** Neither of two rows that stand so should stand the other way. */
  ghost predicate Before(a: Listed, b: Listed) {
    a.category.sortOrder < b.category.sortOrder ||
    (a.category.sortOrder == b.category.sortOrder && NameBefore(a.category.name, b.category.name))
  }

  lemma {:induction false} ComparedNames(a: string, b: string)
    ensures CompareNames(a, b) <= 0 <==> NameBefore(a, b)
  {
    if a != [] && b != [] && a[0] == b[0] {
      SameHead(a, b);
      ComparedNames(a[1..], b[1..]);
      NameBeforeTail(a, b);
    } else if a != [] && b != [] {
      assert FirstDifference(a, b, 0);
    }
  }

  lemma NameBeforeTail(a: string, b: string)
    requires a != [] && b != [] && a[0] == b[0]
    ensures NameBefore(a, b) <==> NameBefore(a[1..], b[1..])
  {
    assert a == [a[0]] + a[1..] && b == [b[0]] + b[1..];
    forall k: nat ensures FirstDifference(a[1..], b[1..], k) <==> FirstDifference(a, b, k + 1) {
      if k < |a[1..]| && k < |b[1..]| {
        assert a[..k + 1] == [a[0]] + a[1..][..k] && b[..k + 1] == [b[0]] + b[1..][..k];
      }
    }
    forall k: nat | FirstDifference(a, b, k) ensures k > 0 && FirstDifference(a[1..], b[1..], k - 1) {
    }
  }

  ghost predicate InOrder(list: seq<Listed>) {
    forall i, j | 0 <= i < j < |list| :: Before(list[i], list[j])
  }

  lemma OrderedIsInOrder(list: seq<Listed>)
    requires Ordered(list, CompareListed())
    ensures InOrder(list)
  {
    var cmp := CompareListed();
    forall i, j | 0 <= i < j < |list| ensures Before(list[i], list[j]) {
      assert cmp(list[i], list[j]) <= 0;
      ComparedNames(list[i].category.name, list[j].category.name);
    }
  }

  /** `list` shows every category that is there once, as it is now, by sort order and then
      by name. */
  ghost predicate IsListing(list: seq<Listed>, table: seq<Category>) {
    && (forall r :: r in list <==> IsRow(r, table))
    && DistinctKeys(list, IdOf())
    && InOrder(list)
  }

  function Listing(table: seq<Category>): seq<Listed> {
    SortBy(Rows(table), CompareListed())
  }

  lemma ListingIsRight(table: seq<Category>)
    ensures IsListing(Listing(table), table)
  {
    var rows := Rows(table);
    RowsAreTheTable(table);
    ListedConsistent(rows);
    SortByOrders(rows, CompareListed());
    OrderedIsInOrder(Listing(table));
    SameMembers(rows, Listing(table));
    RearrangedStaysDistinct(rows, Listing(table), IdOf());
  }
}
