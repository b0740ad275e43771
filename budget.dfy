/** The budget controller: the one store of the application, holding the
    income and expense lists and the aggregates last computed from them.
    Aggregates are recomputed only when a caller asks for it. */
module Budget {
  import opened Ledger
  import Decimal

  /** The overall expense percentage. Before the first recompute it is the
      number -1; afterwards it is the text "<n>%" or, with no income, "---". */
  datatype Share = Unset | Percent(n: nat) | Dashes

  /** The share computeBudget stores for the given totals. */
  function BudgetShare(totalExpense: nat, totalIncome: nat): Share {
    if totalIncome > 0 then Percent(RoundPercent(totalExpense, totalIncome)) else Dashes
  }

  /** The text the page shows for a share. */
  function ShareText(s: Share): string {
    match s
    case Unset => "-1"
    case Percent(n) => Decimal.Digits(n) + "%"
    case Dashes => "---"
  }

  /** Different shares are shown differently, so the datatype loses nothing
      the stored text carries. */
  lemma ShareTextInjective(a: Share, b: Share)
    ensures ShareText(a) == ShareText(b) ==> a == b
  {
    var ta, tb := ShareText(a), ShareText(b);
    assert |ta| >= 2 && (ta[|ta| - 1] == '%' <==> a.Percent?);
    assert |tb| >= 2 && (tb[|tb| - 1] == '%' <==> b.Percent?);
    assert a.Unset? ==> ta[0] == '-' && |ta| == 2;
    assert b.Unset? ==> tb[0] == '-' && |tb| == 2;
    assert a.Dashes? ==> |ta| == 3 && ta[1] == '-';
    assert b.Dashes? ==> |tb| == 3 && tb[1] == '-';
    if ta == tb && a.Percent? && b.Percent? {
      assert Decimal.Digits(a.n) == ta[..|ta| - 1];
      assert Decimal.Digits(b.n) == tb[..|tb| - 1];
      Decimal.DigitsInjective(a.n, b.n);
    }
  }

  /** What getBudget returns. */
  datatype BudgetSummary = BudgetSummary(totalIncome: nat, totalExpense: nat, budget: int, percentage: Share)

  class BudgetController {
    var inc: seq<Item>
    var exp: seq<Item>
    var totalInc: nat
    var totalExp: nat
    var budget: int
    var percentage: Share

    /** Each list holds its own variant, with strictly increasing ids. */
    ghost predicate Valid()
      reads this
    {
      OfKind(inc, Inc) && OfKind(exp, Exp) && IdsIncreasing(inc) && IdsIncreasing(exp)
    }

    /** The aggregates agree with the lists, as they do right after
        CalculateBudget and until the next add or delete. */
    ghost predicate Current()
      reads this
    {
      totalInc == Sum(inc) && totalExp == Sum(exp) &&
      budget == totalInc - totalExp && percentage == BudgetShare(totalExp, totalInc)
    }

    function List(kind: Kind): seq<Item>
      reads this
    {
      if kind == Inc then inc else exp
    }

    /** The store as the module starts it: no items, zero totals and the
        percentage -1. */
    constructor ()
      ensures Valid()
      ensures inc == [] && exp == [] && totalInc == 0 && totalExp == 0 && budget == 0
      ensures percentage == Unset
    {
      inc, exp := [], [];
      totalInc, totalExp, budget := 0, 0, 0;
      percentage := Unset;
    }

    /** addItem: append a new item, with the next id, to the list of its
        kind and return that id. Nothing else changes. */
    method AddItem(kind: Kind, description: string, value: nat) returns (id: nat)
      requires Valid()
      requires description != "" && value > 0
      modifies this
      ensures Valid()
      ensures id == NextId(old(List(kind)))
      ensures List(kind) == Pushed(old(List(kind)), kind, description, value)
      ensures !HasId(old(List(kind)), id)
      ensures |List(kind)| == |old(List(kind))| + 1 && List(kind)[..|old(List(kind))|] == old(List(kind))
      ensures var x := List(kind)[|List(kind)| - 1];
        x.id == id && x.description == description && x.value == value &&
        (x.Income? <==> kind == Inc) && (x.Expense? ==> x.percentage == NoPercentage)
      ensures List(Other(kind)) == old(List(Other(kind)))
      ensures totalInc == old(totalInc) && totalExp == old(totalExp)
      ensures budget == old(budget) && percentage == old(percentage)
    {
      var items := List(kind);
      if |items| > 0 {
        id := items[|items| - 1].id + 1;
      } else {
        id := 0;
      }
      var list := items + [NewItem(kind, id, description, value)];
      assert list == Pushed(items, kind, description, value);
      PushedKeepsIdsIncreasing(items, kind, description, value);
      if kind == Inc {
        inc := list;
      } else {
        exp := list;
      }
    }

    /** deleteItem: find the position of `id` among the list's ids and, if
        it is there, splice that item out; a missing id changes nothing. */
    method DeleteItem(kind: Kind, id: int)
      requires Valid()
      modifies this
      ensures Valid()
      ensures List(kind) == Remove(old(List(kind)), id)
      ensures !HasId(old(List(kind)), id) ==> List(kind) == old(List(kind))
      ensures HasId(old(List(kind)), id) ==> |List(kind)| == |old(List(kind))| - 1
      ensures !HasId(List(kind), id)
      ensures List(Other(kind)) == old(List(Other(kind)))
      ensures totalInc == old(totalInc) && totalExp == old(totalExp)
      ensures budget == old(budget) && percentage == old(percentage)
    {
      var items := List(kind);
      var index := FindIndex(items, id);
      var list := items;
      if index != -1 {
        list := items[..index] + items[index + 1..];
      }
      RemoveExactlyOne(items, id);
      RemoveKeepsInvariant(items, id, kind);
      if kind == Inc {
        inc := list;
      } else {
        exp := list;
      }
    }

    /** calculateBudget: total both lists, take their difference and the
        rounded expense share of income (or "---" without income). */
    method CalculateBudget()
      requires Valid()
      modifies this
      ensures Valid() && Current()
      ensures totalInc == Sum(inc) && totalExp == Sum(exp)
      ensures budget == totalInc - totalExp
      ensures totalInc > 0 ==> percentage == Percent(RoundPercent(totalExp, totalInc))
      ensures totalInc == 0 ==> percentage == Dashes
      ensures inc == old(inc) && exp == old(exp)
    {
      var sumInc := 0;
      var i := 0;
      while i < |inc|
        invariant 0 <= i <= |inc|
        invariant sumInc == Sum(inc[..i])
      {
        assert inc[..i + 1][..i] == inc[..i];
        sumInc := sumInc + inc[i].value;
        i := i + 1;
      }
      assert inc[..i] == inc;
      totalInc := sumInc;

      var sumExp := 0;
      i := 0;
      while i < |exp|
        invariant 0 <= i <= |exp|
        invariant sumExp == Sum(exp[..i])
      {
        assert exp[..i + 1][..i] == exp[..i];
        sumExp := sumExp + exp[i].value;
        i := i + 1;
      }
      assert exp[..i] == exp;
      totalExp := sumExp;

      budget := totalInc - totalExp;
      if totalInc > 0 {
        percentage := Percent(RoundPercent(totalExp, totalInc));
      } else {
        percentage := Dashes;
      }
    }

    /** calculatePercentages: every expense takes its rounded share of the
        income total last computed (the stored total, which is stale if items
        changed since the last CalculateBudget), or -1 without income. */
    method CalculatePercentages()
      requires Valid()
      modifies this
      ensures Valid()
      ensures |exp| == |old(exp)|
      ensures forall i :: 0 <= i < |exp| ==>
        exp[i] == old(exp)[i].(percentage := CalcPercentage(old(exp)[i].value, totalInc))
      ensures forall i :: 0 <= i < |exp| ==> GetPercentages()[i] == CalcPercentage(exp[i].value, totalInc)
      ensures inc == old(inc) && totalInc == old(totalInc) && totalExp == old(totalExp)
      ensures budget == old(budget) && percentage == old(percentage)
    {
      var i := 0;
      while i < |exp|
        invariant 0 <= i <= |exp| && |exp| == |old(exp)|
        invariant forall j :: 0 <= j < i ==>
          exp[j] == old(exp)[j].(percentage := CalcPercentage(old(exp)[j].value, totalInc))
        invariant forall j :: i <= j < |exp| ==> exp[j] == old(exp)[j]
        invariant inc == old(inc) && totalInc == old(totalInc) && totalExp == old(totalExp)
        invariant budget == old(budget) && percentage == old(percentage)
      {
        exp := exp[i := exp[i].(percentage := CalcPercentage(exp[i].value, totalInc))];
        i := i + 1;
      }
    }

    /** getPercentages: the expense percentages, one per expense, in list
        order. */
    function GetPercentages(): (r: seq<int>)
      reads this
      requires Valid()
      ensures |r| == |exp| && forall i :: 0 <= i < |r| ==> r[i] == exp[i].percentage
    {
      seq(|exp|, i requires 0 <= i < |exp| && exp[i].Expense? reads this => exp[i].percentage)
    }

    /** getBudget: a copy of the aggregates; when they are current, the
        totals are the sums of the lists and the budget their difference. */
    function GetBudget(): (b: BudgetSummary)
      reads this
      ensures Current() ==>
        b.totalIncome == Sum(inc) && b.totalExpense == Sum(exp) &&
        b.budget == b.totalIncome - b.totalExpense &&
        b.percentage == BudgetShare(b.totalExpense, b.totalIncome)
    {
      BudgetSummary(totalInc, totalExp, budget, percentage)
    }
  }
}
