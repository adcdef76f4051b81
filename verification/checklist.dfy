/**
 * The emergency-kit checklist of the preparedness view: ten items, each
 * ticked or not; a click toggles the item with that id, and the view shows
 * how many are done, how many remain, and whether the kit is complete.
 */
module Checklist {
  import Decimal
  import Keys

  datatype Item = Item(id: string, icon: string, text: string, completed: bool)

  predicate DistinctIds(c: seq<Item>) {
    Keys.Distinct(c, (x: Item) => x.id)
  }

  predicate HasId(c: seq<Item>, id: string) {
    exists i :: 0 <= i < |c| && c[i].id == id
  }

  /** The checklist the view starts with. */
  function Initial(): (c: seq<Item>)
    ensures |c| == 10
    ensures forall i :: 0 <= i < |c| ==> c[i].id == Decimal.FromNat(i + 1) && !c[i].completed
  {
    Decimal.RenderTen();
    [ Item("1", "💧", "Agua potable (3 litros por persona)", false),
      Item("2", "🍞", "Alimentos no perecederos", false),
      Item("3", "🔦", "Linterna con pilas", false),
      Item("4", "📻", "Radio portátil", false),
      Item("5", "💊", "Botiquín de primeros auxilios", false),
      Item("6", "📱", "Cargador portátil", false),
      Item("7", "📄", "Documentos importantes", false),
      Item("8", "👕", "Cambio de ropa", false),
      Item("9", "🧴", "Artículos de higiene", false),
      Item("10", "💰", "Dinero en efectivo", false) ]
  }

  /** The ten initial ids are pairwise different. */
  lemma InitialDistinct()
    ensures DistinctIds(Initial())
  {
    var c := Initial();
    forall i, j | 0 <= i < |c| && 0 <= j < |c| && i != j
      ensures c[i].id != c[j].id
    {
      Decimal.FromNatInjective(i + 1, j + 1);
    }
  }

  /**
   * `toggleItem(id)`: every item keeps its position, id, icon and text; its
   * `completed` flag flips exactly when its id is the one clicked.
   */
  function Toggle(c: seq<Item>, id: string): (r: seq<Item>)
    ensures |r| == |c|
    ensures forall i :: 0 <= i < |c| ==>
      && r[i].id == c[i].id
      && r[i].icon == c[i].icon
      && r[i].text == c[i].text
      && (r[i].completed != c[i].completed <==> c[i].id == id)
  {
    if |c| == 0 then []
    else
      var head := if c[0].id == id then c[0].(completed := !c[0].completed) else c[0];
      [head] + Toggle(c[1..], id)
  }

  /** Toggling the same id twice restores the list. */
  lemma ToggleTwice(c: seq<Item>, id: string)
    ensures Toggle(Toggle(c, id), id) == c
  {
    var r := Toggle(Toggle(c, id), id);
    assert forall i :: 0 <= i < |c| ==> r[i] == c[i];
  }

  /** Toggling an id no item carries changes nothing. */
  lemma ToggleAbsent(c: seq<Item>, id: string)
    requires !HasId(c, id)
    ensures Toggle(c, id) == c
  {
    var r := Toggle(c, id);
    assert forall i :: 0 <= i < |c| ==> r[i] == c[i];
  }

  /** `completedCount`: the number of ticked items. */
  function CompletedCount(c: seq<Item>): (n: nat)
    ensures n <= |c|
  {
    if |c| == 0 then 0
    else (if c[0].completed then 1 else 0) + CompletedCount(c[1..])
  }

  /** The `completed` flags of the list, position by position. */
  function Flags(c: seq<Item>): (f: seq<bool>)
    ensures |f| == |c| && forall i :: 0 <= i < |c| ==> f[i] == c[i].completed
  {
    seq(|c|, i requires 0 <= i < |c| => c[i].completed)
  }

  /** The count is the multiplicity of `true` among the flags. */
  lemma {:induction false} CountIsTrueFlags(c: seq<Item>)
    ensures CompletedCount(c) == multiset(Flags(c))[true]
  {
    if |c| > 0 {
      CountIsTrueFlags(c[1..]);
      assert Flags(c) == [c[0].completed] + Flags(c[1..]);
    }
  }

  /** Every item is ticked exactly when the count reaches the length. */
  lemma {:induction false} AllCompletedIff(c: seq<Item>)
    ensures CompletedCount(c) == |c| <==> forall i :: 0 <= i < |c| ==> c[i].completed
  {
    if |c| > 0 {
      AllCompletedIff(c[1..]);
      assert forall i :: 1 <= i < |c| ==> c[i] == c[1..][i - 1];
    }
  }

  /** No item is ticked exactly when the count is zero. */
  lemma {:induction false} NoneCompletedIff(c: seq<Item>)
    ensures CompletedCount(c) == 0 <==> forall i :: 0 <= i < |c| ==> !c[i].completed
  {
    if |c| > 0 {
      NoneCompletedIff(c[1..]);
      assert forall i :: 1 <= i < |c| ==> c[i] == c[1..][i - 1];
    }
  }

  /**
   * With distinct ids, toggling the item at position k moves the count by
   * one: down if it was ticked, up if it was not.
   */
  lemma {:induction false} ToggleCount(c: seq<Item>, k: nat)
    requires DistinctIds(c) && k < |c|
    ensures CompletedCount(Toggle(c, c[k].id))
         == if c[k].completed then CompletedCount(c) - 1 else CompletedCount(c) + 1
  {
    var id := c[k].id;
    var r := Toggle(c, id);
    if k == 0 {
      ToggleAbsent(c[1..], id);
      assert r[1..] == Toggle(c[1..], id);
    } else {
      assert c[1..][k - 1] == c[k];
      ToggleCount(c[1..], k - 1);
      assert r[1..] == Toggle(c[1..], id);
    }
  }

  /** Items still to gather: the "Faltan N elementos" figure. */
  function Remaining(c: seq<Item>): (n: nat)
    ensures n + CompletedCount(c) == |c|
  {
    |c| - CompletedCount(c)
  }

  /**
   * The completion banner condition. The view compares a floating-point
   * percentage with 100; for a non-empty list that holds exactly when the
   * count equals the length, and for an empty list the percentage is NaN.
   */
  predicate KitComplete(c: seq<Item>) {
    |c| > 0 && CompletedCount(c) == |c|
  }

  lemma KitCompleteIff(c: seq<Item>)
    ensures KitComplete(c) <==> |c| > 0 && Remaining(c) == 0
    ensures KitComplete(c) <==> |c| > 0 && forall i :: 0 <= i < |c| ==> c[i].completed
  {
    AllCompletedIff(c);
  }

  /** The line under the progress bar. */
  function ProgressMessage(c: seq<Item>): (m: string)
    ensures KitComplete(c) ==> m == "¡Excelente! Tu kit está completo"
    ensures !KitComplete(c) ==> m == "Faltan " + Decimal.FromNat(|c| - CompletedCount(c)) + " elementos"
  {
    if KitComplete(c) then "¡Excelente! Tu kit está completo"
    else "Faltan " + Decimal.FromNat(Remaining(c)) + " elementos"
  }

  /** A list of ten unticked items shows none done and all ten remaining. */
  lemma FreshProgress(c: seq<Item>)
    requires |c| == 10 && forall i :: 0 <= i < |c| ==> !c[i].completed
    ensures CompletedCount(c) == 0
    ensures Remaining(c) == 10
    ensures !KitComplete(c)
    ensures ProgressMessage(c) == "Faltan 10 elementos"
  {
    NoneCompletedIff(c);
    assert !KitComplete(c);
    Decimal.RenderTen();
  }

  /** The freshly opened view shows none done and all ten remaining. */
  lemma InitialProgress()
    ensures CompletedCount(Initial()) == 0
    ensures ProgressMessage(Initial()) == "Faltan 10 elementos"
  {
    FreshProgress(Initial());
  }
}
