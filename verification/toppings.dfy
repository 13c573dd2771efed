/**
 The fixed topping catalog and the two list edits a checkbox makes to the selected
 topping ids: appending on check, filtering out on uncheck.
 */
module Toppings {

  datatype Topping = Topping(id: string, text: string)

  const Catalog: seq<Topping> := [
    Topping("1", "Pepperoni"),
    Topping("2", "Green Peppers"),
    Topping("3", "Pineapple"),
    Topping("4", "Mushrooms"),
    Topping("5", "Ham")
  ]

  predicate InCatalog(id: string) {
    exists i :: 0 <= i < |Catalog| && Catalog[i].id == id
  }

  predicate Distinct(l: seq<string>) {
    forall i, j :: 0 <= i < j < |l| ==> l[i] != l[j]
  }

  /** The catalog has five entries with ids "1" to "5", no two alike. */
  lemma CatalogShape()
    ensures |Catalog| == 5
    ensures forall i, j :: 0 <= i < j < |Catalog| ==> Catalog[i].id != Catalog[j].id
    ensures forall id :: InCatalog(id) <==> id in {"1", "2", "3", "4", "5"}
  {
    forall id | id in {"1", "2", "3", "4", "5"} ensures InCatalog(id) {
      if id == "1" { assert Catalog[0].id == id; }
      else if id == "2" { assert Catalog[1].id == id; }
      else if id == "3" { assert Catalog[2].id == id; }
      else if id == "4" { assert Catalog[3].id == id; }
      else { assert Catalog[4].id == id; }
    }
  }

  /** `l.filter((t) => t !== x)` */
  function Remove(l: seq<string>, x: string): seq<string> {
    if |l| == 0 then []
    else if l[0] == x then Remove(l[1..], x)
    else [l[0]] + Remove(l[1..], x)
  }

  /** Filtering out `x` removes every occurrence of it and keeps every other id as
      often as it was there. */
  lemma {:induction false} RemoveSpec(l: seq<string>, x: string)
    ensures x !in Remove(l, x)
    ensures forall y :: y != x ==> (y in Remove(l, x) <==> y in l)
    ensures multiset(Remove(l, x)) == multiset(l)[x := 0]
    ensures x !in l ==> Remove(l, x) == l
  {
    if |l| > 0 {
      assert l == [l[0]] + l[1..];
      RemoveSpec(l[1..], x);
    }
  }

  /** Filtering works piece by piece: together with its effect on one element, this
      says that the ids left keep their original order. */
  lemma {:induction false} RemoveConcat(a: seq<string>, b: seq<string>, x: string)
    ensures Remove(a + b, x) == Remove(a, x) + Remove(b, x)
  {
    if |a| == 0 {
      assert a + b == b;
    } else {
      assert (a + b)[1..] == a[1..] + b;
      RemoveConcat(a[1..], b, x);
    }
  }

  lemma RemoveSingleton(y: string, x: string)
    ensures Remove([y], x) == if y == x then [] else [y]
  {
  }

  /** Checking an id that was not selected and then unchecking it gives back the
      original selection, order included. */
  lemma CheckThenUncheck(l: seq<string>, x: string)
    requires x !in l
    ensures Remove(l + [x], x) == l
  {
    RemoveConcat(l, [x], x);
    RemoveSpec(l, x);
    assert Remove([x], x) == [];
  }

  /** Unchecking keeps a duplicate-free selection duplicate-free. */
  lemma {:induction false} RemoveKeepsDistinct(l: seq<string>, x: string)
    requires Distinct(l)
    ensures Distinct(Remove(l, x))
  {
    if |l| > 0 {
      assert Distinct(l[1..]);
      RemoveKeepsDistinct(l[1..], x);
      if l[0] != x {
        assert l[0] !in l[1..];
        var r := Remove(l[1..], x);
        RemoveSpec(l[1..], x);
        assert l[0] !in r;
        assert Remove(l, x) == [l[0]] + r;
      }
    }
  }

  /** Checking an id not yet selected keeps the selection duplicate-free. */
  lemma AppendKeepsDistinct(l: seq<string>, x: string)
    requires Distinct(l) && x !in l
    ensures Distinct(l + [x])
  {
  }
}
