/** The items the budget controller stores and the rules it applies to its
    two item lists: how a new id is chosen, how an item is found and removed
    by id, how a list is totalled and how a percentage of income is rounded.
    Amounts are whole numbers of cents. */
module Ledger {

  /** The two lists of the store, "inc" and "exp". */
  datatype Kind = Inc | Exp

  function Other(kind: Kind): Kind {
    if kind == Inc then Exp else Inc
  }

  /** An income has no percentage; an expense carries its rounded share of
      total income, or `NoPercentage` while that share is unknown. */
  datatype Item =
    | Income(id: nat, description: string, value: nat)
    | Expense(id: nat, description: string, value: nat, percentage: int)

  /** The sentinel an expense holds before its share is computed, and after
      a recompute while total income is zero. */
  const NoPercentage: int := -1

  /** What the Income and Expense constructors build. */
  function NewItem(kind: Kind, id: nat, description: string, value: nat): Item {
    if kind == Inc then Income(id, description, value)
    else Expense(id, description, value, NoPercentage)
  }

  /** Every item of `s` is of the variant its list holds. */
  predicate OfKind(s: seq<Item>, kind: Kind) {
    forall i :: 0 <= i < |s| ==> (s[i].Income? <==> kind == Inc)
  }

  /** Ids strictly increase along a list; in particular no id occurs twice. */
  predicate IdsIncreasing(s: seq<Item>) {
    forall i, j :: 0 <= i < j < |s| ==> s[i].id < s[j].id
  }

  predicate HasId(s: seq<Item>, id: int) {
    exists i :: 0 <= i < |s| && s[i].id == id
  }

  // ---------------------------------------------------------------------
  // Adding

  /** addItem's id rule: the last item's id plus one, or 0 for an empty list. */
  function NextId(s: seq<Item>): nat {
    if |s| > 0 then s[|s| - 1].id + 1 else 0
  }

  /** The list after addItem appended a new item to it. */
  function Pushed(s: seq<Item>, kind: Kind, description: string, value: nat): seq<Item> {
    s + [NewItem(kind, NextId(s), description, value)]
  }

  /** The id addItem picks is above every id in the list, so appending keeps
      ids increasing and the new id is not already in use. */
  lemma PushedKeepsIdsIncreasing(s: seq<Item>, kind: Kind, description: string, value: nat)
    requires IdsIncreasing(s)
    ensures !HasId(s, NextId(s))
    ensures IdsIncreasing(Pushed(s, kind, description, value))
    ensures OfKind(s, kind) ==> OfKind(Pushed(s, kind, description, value), kind)
  {
    var t := Pushed(s, kind, description, value);
    forall i, j | 0 <= i < j < |t| ensures t[i].id < t[j].id {
      if j == |s| && i < |s| - 1 {
        assert s[i].id < s[|s| - 1].id;
      }
    }
  }

  /** One addItem request: the description and amount the caller passes. */
  datatype Entry = Entry(description: string, value: nat)

  /** The list after one addItem call per entry, in order. */
  function PushedAll(s: seq<Item>, kind: Kind, entries: seq<Entry>): seq<Item>
    decreases |entries|
  {
    if entries == [] then s
    else PushedAll(Pushed(s, kind, entries[0].description, entries[0].value), kind, entries[1..])
  }

  /** A run of addItem calls keeps the old items and appends one item per
      call, carrying that call's description and amount, with ids counting
      up by one from the id the first call picks. */
  lemma {:induction false} PushedAllIds(s: seq<Item>, kind: Kind, entries: seq<Entry>)
    ensures var r := PushedAll(s, kind, entries);
      |r| == |s| + |entries| && r[..|s|] == s &&
      forall i :: |s| <= i < |r| ==>
        r[i].id == NextId(s) + (i - |s|) &&
        r[i].description == entries[i - |s|].description &&
        r[i].value == entries[i - |s|].value
    decreases |entries|
  {
    if entries == [] {
      assert s[..|s|] == s;
    } else {
      var t := Pushed(s, kind, entries[0].description, entries[0].value);
      PushedAllIds(t, kind, entries[1..]);
      var r := PushedAll(s, kind, entries);
      assert r == PushedAll(t, kind, entries[1..]);
      assert r[..|s|] == r[..|t|][..|s|];
      assert NextId(t) == NextId(s) + 1;
      forall i | |s| <= i < |r|
        ensures r[i].id == NextId(s) + (i - |s|)
        ensures r[i].description == entries[i - |s|].description
        ensures r[i].value == entries[i - |s|].value
      {
        if i == |s| {
          assert r[|s|] == r[..|t|][|s|] == t[|s|];
        } else {
          assert entries[1..][i - |t|] == entries[i - |s|];
        }
      }
    }
  }

  /** Starting from an empty list, the ids handed out are 0, 1, 2, ... in
      call order. */
  lemma SequentialIds(kind: Kind, entries: seq<Entry>)
    ensures var r := PushedAll([], kind, entries);
      |r| == |entries| && forall i :: 0 <= i < |r| ==> r[i].id == i
  {
    PushedAllIds([], kind, entries);
  }

  // ---------------------------------------------------------------------
  // Finding and removing

  /** What `indexOf` gives on the list of ids: the first position holding
      `id`, or -1 when there is none. */
  function IndexOf(s: seq<Item>, id: int): (k: int)
    ensures -1 <= k < |s|
    ensures k == -1 <==> !HasId(s, id)
    ensures k >= 0 ==> s[k].id == id && forall j :: 0 <= j < k ==> s[j].id != id
    decreases |s|
  {
    if s == [] then -1
    else if s[0].id == id then 0
    else
      var k := IndexOf(s[1..], id);
      assert forall j :: 1 <= j < |s| ==> s[j] == s[1..][j - 1];
      if k == -1 then -1 else k + 1
  }

  /** `indexOf` on the list's ids: a scan from the front that stops at the
      first item carrying `id`. */
  method FindIndex(s: seq<Item>, id: int) returns (index: int)
    ensures index == IndexOf(s, id)
  {
    index := 0;
    while index < |s| && s[index].id != id
      invariant 0 <= index <= |s|
      invariant forall j :: 0 <= j < index ==> s[j].id != id
    {
      index := index + 1;
    }
    if index == |s| {
      index := -1;
    }
  }

  /** The list after deleteItem: the item at `IndexOf` spliced out, or the
      list as it was when no item has the id. */
  function Remove(s: seq<Item>, id: int): seq<Item> {
    var k := IndexOf(s, id);
    if k < 0 then s else s[..k] + s[k + 1..]
  }

  /** Splicing out position `k` keeps the items before it in place and moves
      the items after it one position to the front. */
  lemma SpliceShifts<T>(s: seq<T>, k: nat)
    requires k < |s|
    ensures var r := s[..k] + s[k + 1..];
      |r| == |s| - 1 && forall j :: 0 <= j < |r| ==> r[j] == if j < k then s[j] else s[j + 1]
  {
  }

  /** With ids increasing, the matching item is the only one with that id,
      so deleting it removes exactly one item and leaves no item with that
      id. */
  lemma RemoveExactlyOne(s: seq<Item>, id: int)
    requires IdsIncreasing(s)
    ensures var k := IndexOf(s, id);
      k >= 0 ==> forall j :: 0 <= j < |s| && j != k ==> s[j].id != id
    ensures HasId(s, id) ==> |Remove(s, id)| == |s| - 1
    ensures !HasId(Remove(s, id), id)
  {
    var k := IndexOf(s, id);
    if k >= 0 {
      forall j | 0 <= j < |s| && j != k ensures s[j].id != id {
        if j < k { assert s[j].id < s[k].id; } else { assert s[k].id < s[j].id; }
      }
      SpliceShifts(s, k);
    }
  }

  /** The items that remain after a delete keep their variant and their
      increasing ids. */
  lemma RemoveKeepsInvariant(s: seq<Item>, id: int, kind: Kind)
    requires IdsIncreasing(s) && OfKind(s, kind)
    ensures IdsIncreasing(Remove(s, id)) && OfKind(Remove(s, id), kind)
  {
    var k := IndexOf(s, id);
    if k >= 0 {
      var r := s[..k] + s[k + 1..];
      assert IdsIncreasing(r) by {
        SpliceShifts(s, k);
        forall i, j | 0 <= i < j < |r| ensures r[i].id < r[j].id {
          var i', j' := if i < k then i else i + 1, if j < k then j else j + 1;
          assert r[i].id == s[i'].id && r[j].id == s[j'].id;
        }
      }
      assert OfKind(r, kind) by {
        SpliceShifts(s, k);
      }
    }
  }

  /** Adding an item and deleting it again, with nothing in between, gives
      the list back, so the next add hands out the same id again. */
  lemma RemoveUndoesPush(s: seq<Item>, kind: Kind, description: string, value: nat)
    requires IdsIncreasing(s)
    ensures Remove(Pushed(s, kind, description, value), NextId(s)) == s
  {
    var t := Pushed(s, kind, description, value);
    PushedKeepsIdsIncreasing(s, kind, description, value);
    assert forall j :: 0 <= j < |s| ==> t[j] == s[j];
    assert t[|s|].id == NextId(s);
    assert t[..|s|] == s;
  }

  /** Deleting any item but the last leaves the next id as it was; deleting
      the last item lets the next add hand out an id no greater than the
      deleted one, which may be an id an earlier delete freed. */
  lemma NextIdAfterRemove(s: seq<Item>, id: int)
    requires IdsIncreasing(s) && HasId(s, id)
    ensures IndexOf(s, id) < |s| - 1 ==> NextId(Remove(s, id)) == NextId(s)
    ensures IndexOf(s, id) == |s| - 1 ==> NextId(Remove(s, id)) <= id
  {
    var k := IndexOf(s, id);
    var r := Remove(s, id);
    if k < |s| - 1 {
      assert r[|r| - 1] == s[|s| - 1];
    } else if |r| > 0 {
      assert r[|r| - 1] == s[|s| - 2];
      assert s[|s| - 2].id < s[|s| - 1].id;
    }
  }

  // ---------------------------------------------------------------------
  // Totals

  /** The sum of the amounts of a list, accumulated front to back. */
  function Sum(s: seq<Item>): nat
    decreases |s|
  {
    if s == [] then 0 else Sum(s[..|s| - 1]) + s[|s| - 1].value
  }

  lemma {:induction false} SumConcat(a: seq<Item>, b: seq<Item>)
    ensures Sum(a + b) == Sum(a) + Sum(b)
    decreases |b|
  {
    if b == [] {
      assert a + b == a;
    } else {
      SumConcat(a, b[..|b| - 1]);
      assert (a + b)[..|a + b| - 1] == a + b[..|b| - 1];
    }
  }

  /** Deleting an item lowers the list's total by exactly that item's
      amount; deleting a missing id leaves the total as it was. */
  lemma SumAfterRemove(s: seq<Item>, id: int)
    ensures var k := IndexOf(s, id);
      Sum(Remove(s, id)) == Sum(s) - (if k >= 0 then s[k].value else 0)
  {
    var k := IndexOf(s, id);
    if k >= 0 {
      assert s == s[..k] + [s[k]] + s[k + 1..];
      SumConcat(s[..k] + [s[k]], s[k + 1..]);
      SumConcat(s[..k], [s[k]]);
      SumConcat(s[..k], s[k + 1..]);
      assert Sum([s[k]]) == s[k].value by {
        assert [s[k]][..0] == [];
      }
    }
  }

  // ---------------------------------------------------------------------
  // Percentages

  /** `Math.round(part / whole * 100)` for non-negative amounts: the whole
      number nearest to 100 * part / whole, halves rounded up. */
  function RoundPercent(part: nat, whole: nat): (r: nat)
    requires whole > 0
    ensures whole * (2 * r - 1) <= 200 * part < whole * (2 * r + 1)
  {
    var n, d := 200 * part + whole, 2 * whole;
    var r := n / d;
    assert d * r <= n < d * r + d;
    assert whole * (2 * r - 1) == d * r - whole;
    assert whole * (2 * r + 1) == d * r + whole;
    r
  }

  /** An expense no larger than income is at most 100 percent of it. */
  lemma PercentAtMostHundred(part: nat, whole: nat)
    requires 0 < whole && part <= whole
    ensures RoundPercent(part, whole) <= 100
  {
    var r: int := RoundPercent(part, whole);
    var m := 2 * r - 1;
    assert whole * m <= 200 * part <= 200 * whole;
    assert whole * m == whole * 201 + whole * (m - 201);
    assert m >= 201 ==> whole * (m - 201) >= 0;
  }

  /** The rounded share is above 100 exactly when the amount is at least
      100.5 percent of the whole: an expense of 10.01 against an income of
      10.00 still shows 100. */
  lemma PercentAboveHundred(part: nat, whole: nat)
    requires 0 < whole
    ensures RoundPercent(part, whole) > 100 <==> 200 * part >= 201 * whole
  {
    var r: int := RoundPercent(part, whole);
    if r > 100 {
      ScaleMonotone(whole, 201, 2 * r - 1);
    } else {
      ScaleMonotone(whole, 2 * r + 1, 201);
    }
  }

  /** Scaling by a non-negative factor keeps the order. */
  lemma ScaleMonotone(a: nat, b: int, c: int)
    requires b <= c
    ensures a * b <= a * c
  {
    assert a * c == a * b + a * (c - b);
  }

  /** calcPercentage: the rounded share of `totalIncome` an amount is, or
      the sentinel when total income is not positive. */
  function CalcPercentage(value: nat, totalIncome: nat): (p: int)
    ensures p == NoPercentage <==> totalIncome == 0
    ensures totalIncome > 0 ==>
      0 <= p && totalIncome * (2 * p - 1) <= 200 * value < totalIncome * (2 * p + 1)
  {
    if totalIncome > 0 then RoundPercent(value, totalIncome) else NoPercentage
  }
}
