/** The scores of the fusion, as a sum over the places of an id. */
module FusionScores {
  import opened Wrappers
  import opened Text
  import opened Ranking
  import opened Fusion

  /** Over the items of one list from rank `rank` on: one over `k + rank` for each that has the id. */
  function Places(items: seq<Item>, k: nat, rank: nat, id: string): real
    requires rank > 0
  {
    if items == [] then 0.0
    else (if items[0].id == id then 1.0 / (k + rank) as real else 0.0) + Places(items[1..], k, rank + 1, id)
  }

  /** Over all lists; ranks count from one in each. */
  function AllPlaces(lists: seq<seq<Item>>, k: nat, id: string): real {
    if lists == [] then 0.0 else Places(lists[0], k, 1, id) + AllPlaces(lists[1..], k, id)
  }

  lemma {:induction false} PlacesAppend(items: seq<Item>, last: Item, k: nat, rank: nat, id: string, at: nat)
    requires rank > 0 && at == rank + |items|
    ensures Places(items + [last], k, rank, id)
         == Places(items, k, rank, id) + (if last.id == id then 1.0 / (k + at) as real else 0.0)
  {
    if items == [] {
      assert items + [last] == [last];
      assert [last][1..] == [];
    } else {
      PlacesAppend(items[1..], last, k, rank + 1, id, at);
      assert (items + [last])[1..] == items[1..] + [last];
    }
  }

  lemma {:induction false} ListScoreIsPlaces(items: seq<Item>, k: nat, id: string)
    ensures ListScore(items, k, id) == Places(items, k, 1, id)
  {
    if items != [] {
      var front, last := items[..|items| - 1], items[|items| - 1];
      ListScoreIsPlaces(front, k, id);
      PlacesAppend(front, last, k, 1, id, |items|);
      assert items == front + [last];
    }
  }

  lemma {:induction false} AllPlacesAppend(lists: seq<seq<Item>>, last: seq<Item>, k: nat, id: string)
    ensures AllPlaces(lists + [last], k, id) == AllPlaces(lists, k, id) + Places(last, k, 1, id)
  {
    if lists == [] {
      assert lists + [last] == [last];
      assert [last][1..] == [];
    } else {
      AllPlacesAppend(lists[1..], last, k, id);
      assert (lists + [last])[1..] == lists[1..] + [last];
    }
  }

  lemma {:induction false} ScoreIsPlaces(lists: seq<seq<Item>>, k: nat, id: string)
    ensures Score(lists, k, id) == AllPlaces(lists, k, id)
  {
    if lists != [] {
      var front, last := lists[..|lists| - 1], lists[|lists| - 1];
      ScoreIsPlaces(front, k, id);
      ListScoreIsPlaces(last, k, id);
      AllPlacesAppend(front, last, k, id);
      assert lists == front + [last];
    }
  }

  /** Every entry of the fusion scores the sum of one over `k` plus the rank, over all places of its id. */
  lemma FusedInFull(lists: seq<seq<Item>>, k: nat, i: nat)
    requires i < |Fused(lists, k)|
    ensures Fused(lists, k)[i].score == AllPlaces(lists, k, Fused(lists, k)[i].item.id)
  {
    var r := Fused(lists, k)[i];
    assert r in Fused(lists, k);
    FusedOnce(lists, k);
    ScoreIsPlaces(lists, k, r.item.id);
  }

  /** In particular, a single list of distinct ids scores one over `k + 1`, `k + 2` and so on. */
  lemma {:induction false} OnePlace(items: seq<Item>, k: nat, rank: nat, j: nat)
    requires rank > 0 && j < |items| && DistinctIds(items)
    ensures Places(items, k, rank, items[j].id) == 1.0 / (k + rank + j) as real
  {
    if j == 0 {
      NoPlace(items[1..], k, rank + 1, items[0].id);
    } else {
      assert items[0].id != items[j].id;
      OnePlace(items[1..], k, rank + 1, j - 1);
    }
  }

  lemma {:induction false} NoPlace(items: seq<Item>, k: nat, rank: nat, id: string)
    requires rank > 0 && forall i :: 0 <= i < |items| ==> items[i].id != id
    ensures Places(items, k, rank, id) == 0.0
  {
    if items != [] { NoPlace(items[1..], k, rank + 1, id); }
  }
}
