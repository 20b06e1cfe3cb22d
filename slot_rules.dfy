/** The twelve tower slots of `TowerDefenseFrame` and the guard of its two
    "add tower" buttons. */
module SlotRules {
  import opened Common
  import opened Path

  /** `posicionesTorres`, in the order the buttons hand them out. */
  const Slots: seq<Point> := [
    Point(100, 100), Point(300, 100), Point(500, 100),
    Point(100, 200), Point(300, 200), Point(500, 200),
    Point(100, 300), Point(300, 300), Point(500, 300),
    Point(100, 400), Point(300, 400), Point(500, 400)
  ]

  /** The slot a button press takes, if any, and the next index. */
  datatype Placement = Placement(slot: Option<Point>, indice: nat)

  /** A press places a tower only while `indicePosicionActual` is below the
      number of slots, and then moves the index on by exactly one. */
  function Place(slots: seq<Point>, indice: nat): (r: Placement)
    ensures indice < |slots| ==> r == Placement(Some(slots[indice]), indice + 1)
    ensures indice >= |slots| ==> r == Placement(None, indice)
  {
    if indice < |slots| then Placement(Some(slots[indice]), indice + 1) else Placement(None, indice)
  }

  /** The slots taken by `n` consecutive presses from index `indice`. */
  function Placements(slots: seq<Point>, indice: nat, n: nat): seq<Point>
    decreases n
  {
    if n == 0 then []
    else
      var p := Place(slots, indice);
      (if p.slot.Some? then [p.slot.value] else []) + Placements(slots, p.indice, n - 1)
  }

  /** Presses take the slots in order and stop at the last one. */
  lemma {:induction false} PlacementsTakeSlotsInOrder(slots: seq<Point>, indice: nat, n: nat)
    requires indice <= |slots|
    ensures Placements(slots, indice, n) == slots[indice..Min(indice + n, |slots|)]
    decreases n
  {
    if n > 0 {
      var hi := Min(indice + n, |slots|);
      if indice < |slots| {
        var rest := Placements(slots, indice + 1, n - 1);
        assert Place(slots, indice) == Placement(Some(slots[indice]), indice + 1);
        assert Placements(slots, indice, n) == [slots[indice]] + rest;
        PlacementsTakeSlotsInOrder(slots, indice + 1, n - 1);
        assert hi == Min(indice + 1 + (n - 1), |slots|);
        assert slots[indice..hi] == [slots[indice]] + slots[indice + 1..hi];
      } else {
        assert Place(slots, indice) == Placement(None, indice);
        assert Placements(slots, indice, n) == Placements(slots, indice, n - 1);
        PlacementsTakeSlotsInOrder(slots, indice, n - 1);
      }
    }
  }

  /** From a fresh frame, `n` presses place `min(n, 12)` towers and never
      put two of them on the same slot. */
  lemma NoSlotUsedTwice(n: nat)
    ensures |Placements(Slots, 0, n)| == Min(n, |Slots|)
    ensures forall a, b :: 0 <= a < b < |Placements(Slots, 0, n)| ==>
      Placements(Slots, 0, n)[a] != Placements(Slots, 0, n)[b]
  {
    PlacementsTakeSlotsInOrder(Slots, 0, n);
  }
}
