/** Reciprocal rank fusion, and the merging of query rows with document passages built on it. */
module Fusion {
  import opened Wrappers
  import opened Text
  import opened Ranking

  datatype Item = Item(id: string, payload: string)

  datatype Ranked = Ranked(item: Item, score: real)

  function ScoreOf(r: Ranked): real { r.score }

  // ----- what the loops compute -----

  function Weight(k: nat, rank: nat): real
    requires rank > 0
  {
    1.0 / ((k + rank) as real)
  }

  /** What one list gives to an id: the weight of every rank at which it stands. */
  function ListScore(items: seq<Item>, k: nat, id: string): real {
    if items == [] then 0.0
    else ListScore(items[..|items| - 1], k, id) + (if items[|items| - 1].id == id then Weight(k, |items|) else 0.0)
  }

  function Score(lists: seq<seq<Item>>, k: nat, id: string): real {
    if lists == [] then 0.0
    else Score(lists[..|lists| - 1], k, id) + ListScore(lists[|lists| - 1], k, id)
  }

  function Flat(lists: seq<seq<Item>>): seq<Item> {
    if lists == [] then [] else Flat(lists[..|lists| - 1]) + lists[|lists| - 1]
  }

  /** The first item of every id, in the order in which the ids are met. */
  function Firsts(items: seq<Item>): seq<Item> {
    if items == [] then []
    else
      var before, last := Firsts(items[..|items| - 1]), items[|items| - 1];
      if HasId(before, last.id) then before else before + [last]
  }

  predicate HasId(items: seq<Item>, id: string) { exists i :: 0 <= i < |items| && items[i].id == id }

  function Scored(items: seq<Item>, lists: seq<seq<Item>>, k: nat): (r: seq<Ranked>)
    ensures |r| == |items| && forall i :: 0 <= i < |r| ==> r[i] == Ranked(items[i], Score(lists, k, items[i].id))
  {
    seq(|items|, i requires 0 <= i < |items| => Ranked(items[i], Score(lists, k, items[i].id)))
  }

  function Fused(lists: seq<seq<Item>>, k: nat): seq<Ranked> {
    SortDesc(Scored(Firsts(Flat(lists)), lists, k), ScoreOf)
  }

  // ----- the nested loops -----

  /** The two dictionaries of the loops: the ids in insertion order with the item first met, and the running scores. */
  datatype Dictionaries = Dictionaries(order: seq<Item>, scores: map<string, real>)

  function WithItem(d: Dictionaries, item: Item, rank: nat, k: nat): Dictionaries
    requires rank > 0
  {
    Dictionaries(if HasId(d.order, item.id) then d.order else d.order + [item],
                 d.scores[item.id := (if item.id in d.scores then d.scores[item.id] else 0.0) + Weight(k, rank)])
  }

  function WithItems(d: Dictionaries, items: seq<Item>, j: nat, k: nat): Dictionaries
    requires j <= |items|
  {
    if j == 0 then d else WithItem(WithItems(d, items, j - 1, k), items[j - 1], j, k)
  }

  function WithLists(lists: seq<seq<Item>>, i: nat, k: nat): Dictionaries
    requires i <= |lists|
  {
    if i == 0 then Dictionaries([], map[])
    else WithItems(WithLists(lists, i - 1, k), lists[i - 1], |lists[i - 1]|, k)
  }

  method ReciprocalRankFusion(lists: seq<seq<Item>>, k: nat) returns (merged: seq<Ranked>)
    ensures merged == Fused(lists, k)
  {
    var order: seq<Item> := [];
    var scores: map<string, real> := map[];
    var i := 0;
    while i < |lists|
      invariant 0 <= i <= |lists|
      invariant Dictionaries(order, scores) == WithLists(lists, i, k)
    {
      ghost var before := Dictionaries(order, scores);
      var j := 0;
      while j < |lists[i]|
        invariant 0 <= j <= |lists[i]|
        invariant Dictionaries(order, scores) == WithItems(before, lists[i], j, k)
      {
        WithItemsNext(before, lists[i], j, j + 1, k);
        order, scores := AddItem(order, scores, lists[i][j], j + 1, k);
        j := j + 1;
      }
      i := i + 1;
    }
    ListsMerged(lists, i, k);
    assert lists[..i] == lists;
    merged := SortByScore(order, scores, lists, k);
  }

  /** The body of the inner loop: the score is added and `setdefault` keeps the item met first. */
  method AddItem(order: seq<Item>, scores: map<string, real>, item: Item, rank: nat, k: nat)
    returns (longer: seq<Item>, added: map<string, real>)
    requires rank > 0
    ensures Dictionaries(longer, added) == WithItem(Dictionaries(order, scores), item, rank, k)
  {
    added := scores[item.id := (if item.id in scores then scores[item.id] else 0.0) + Weight(k, rank)];
    longer := order;
    if !HasId(order, item.id) { longer := order + [item]; }
  }

  lemma WithItemsNext(d: Dictionaries, items: seq<Item>, j: nat, rank: nat, k: nat)
    requires j < |items| && rank == j + 1
    ensures WithItems(d, items, rank, k) == WithItem(WithItems(d, items, j, k), items[j], rank, k)
  {
  }

  /** After the whole `lists` and the part `now` of the next one. */
  ghost predicate Merged(d: Dictionaries, lists: seq<seq<Item>>, now: seq<Item>, k: nat) {
    d.order == Firsts(Flat(lists) + now) && Tallied(d.scores, d.order, lists, now, k)
  }

  lemma {:induction false} ItemsMerged(d: Dictionaries, lists: seq<seq<Item>>, items: seq<Item>, j: nat, k: nat)
    requires j <= |items| && Merged(d, lists, [], k)
    ensures Merged(WithItems(d, items, j, k), lists, items[..j], k)
  {
    if j == 0 {
      assert items[..j] == [];
    } else {
      ItemsMerged(d, lists, items, j - 1, k);
      ItemMerged(WithItems(d, items, j - 1, k), lists, items, j - 1, j, k);
    }
  }

  lemma ItemMerged(d: Dictionaries, lists: seq<seq<Item>>, items: seq<Item>, j: nat, rank: nat, k: nat)
    requires j < |items| && rank == j + 1 && Merged(d, lists, items[..j], k)
    ensures Merged(WithItem(d, items[j], rank, k), lists, items[..rank], k)
  {
    FirstsNext(Flat(lists), items, j);
    TalliedNext(d.scores, d.order, lists, items, j, k);
  }

  lemma {:induction false} ListsMerged(lists: seq<seq<Item>>, i: nat, k: nat)
    requires i <= |lists|
    ensures Merged(WithLists(lists, i, k), lists[..i], [], k)
  {
    if i == 0 {
      assert lists[..i] == [];
    } else {
      var d, list := WithLists(lists, i - 1, k), lists[i - 1];
      ListsMerged(lists, i - 1, k);
      ItemsMerged(d, lists[..i - 1], list, |list|, k);
      assert list[..|list|] == list;
      ListMerged(WithItems(d, list, |list|, k), lists, i - 1, i, k);
    }
  }

  lemma ListMerged(d: Dictionaries, lists: seq<seq<Item>>, i: nat, next: nat, k: nat)
    requires i < |lists| && next == i + 1 && Merged(d, lists[..i], lists[i], k)
    ensures Merged(d, lists[..next], [], k)
  {
    FlatNext(lists, i);
    TalliedList(d.scores, d.order, lists, i, k);
    assert Flat(lists[..next]) + [] == Flat(lists[..i]) + lists[i];
  }

  /** The entries of the dictionaries, best score first. */
  method SortByScore(order: seq<Item>, scores: map<string, real>, ghost lists: seq<seq<Item>>, ghost k: nat)
    returns (merged: seq<Ranked>)
    requires Merged(Dictionaries(order, scores), lists, [], k)
    ensures merged == Fused(lists, k)
  {
    var entries := seq(|order|, n requires 0 <= n < |order| && HasId(order, order[n].id) =>
      Ranked(order[n], scores[order[n].id]));
    assert entries == Scored(order, lists, k);
    assert Flat(lists) + [] == Flat(lists);
    merged := SortDesc(entries, ScoreOf);
  }

  /** After the whole `lists` and the part `now` of the next one. */
  ghost predicate Tallied(scores: map<string, real>, order: seq<Item>, lists: seq<seq<Item>>, now: seq<Item>, k: nat) {
    && (forall id :: id in scores <==> HasId(order, id))
    && (forall id :: id in scores ==> scores[id] == Score(lists, k, id) + ListScore(now, k, id))
    && (forall id :: id !in scores ==> Score(lists, k, id) + ListScore(now, k, id) == 0.0)
  }

  lemma FlatNext(lists: seq<seq<Item>>, i: nat)
    requires i < |lists|
    ensures Flat(lists[..i]) + lists[i][..0] == Flat(lists[..i])
    ensures Flat(lists[..i + 1]) == Flat(lists[..i]) + lists[i]
    ensures lists[i][..0] == []
  {
    assert lists[..i + 1][..i] == lists[..i];
  }

  lemma FirstsNext(before: seq<Item>, items: seq<Item>, j: nat)
    requires j < |items|
    ensures var order := Firsts(before + items[..j]);
            Firsts(before + items[..j + 1]) == if HasId(order, items[j].id) then order else order + [items[j]]
  {
    var all := before + items[..j + 1];
    assert all[..|all| - 1] == before + items[..j];
  }

  lemma HasIdAppend(items: seq<Item>, item: Item)
    ensures forall id :: HasId(items + [item], id) <==> HasId(items, id) || id == item.id
  {
    forall id
      ensures HasId(items + [item], id) <==> HasId(items, id) || id == item.id
    {
      assert (items + [item])[|items|] == item;
      if HasId(items, id) {
        var i :| 0 <= i < |items| && items[i].id == id;
        assert (items + [item])[i].id == id;
      }
    }
  }

  lemma TalliedNext(
      scores: map<string, real>, order: seq<Item>, lists: seq<seq<Item>>, items: seq<Item>, j: nat, k: nat)
    requires j < |items| && Tallied(scores, order, lists, items[..j], k)
    ensures var item := items[j];
            Tallied(scores[item.id := (if item.id in scores then scores[item.id] else 0.0) + Weight(k, j + 1)],
                    if HasId(order, item.id) then order else order + [item], lists, items[..j + 1], k)
  {
    var item := items[j];
    assert items[..j + 1][..j] == items[..j];
    assert forall id :: ListScore(items[..j + 1], k, id)
                     == ListScore(items[..j], k, id) + (if item.id == id then Weight(k, j + 1) else 0.0);
    HasIdAppend(order, item);
  }

  lemma TalliedList(scores: map<string, real>, order: seq<Item>, lists: seq<seq<Item>>, i: nat, k: nat)
    requires i < |lists| && Tallied(scores, order, lists[..i], lists[i], k)
    ensures Tallied(scores, order, lists[..i + 1], [], k)
  {
    assert lists[..i + 1][..i] == lists[..i];
    assert forall id :: Score(lists[..i + 1], k, id) == Score(lists[..i], k, id) + ListScore(lists[i], k, id);
  }

  // ----- properties of the fusion -----

  predicate DistinctIds(items: seq<Item>) { forall i, j :: 0 <= i < j < |items| ==> items[i].id != items[j].id }

  lemma {:induction false} FirstsDistinct(items: seq<Item>)
    ensures DistinctIds(Firsts(items))
    ensures forall id :: HasId(Firsts(items), id) <==> HasId(items, id)
  {
    if items != [] {
      var front, last := items[..|items| - 1], items[|items| - 1];
      FirstsDistinct(front);
      assert items == front + [last];
      HasIdAppend(front, last);
      HasIdAppend(Firsts(front), last);
    }
  }

  lemma {:induction false} FlatHas(lists: seq<seq<Item>>, id: string)
    ensures HasId(Flat(lists), id) <==> InLists(lists, id)
  {
    if lists != [] {
      var front, last := lists[..|lists| - 1], lists[|lists| - 1];
      FlatHas(front, id);
      HasIdEither(Flat(front), last, id);
      if n :| 0 <= n < |lists| && HasId(lists[n], id) {
        if n < |front| { assert HasId(front[n], id); }
      }
      if n :| 0 <= n < |front| && HasId(front[n], id) { assert HasId(lists[n], id); }
    }
  }

  lemma HasIdEither(a: seq<Item>, b: seq<Item>, id: string)
    ensures HasId(a + b, id) <==> HasId(a, id) || HasId(b, id)
  {
    if i :| 0 <= i < |a| && a[i].id == id { assert (a + b)[i].id == id; }
    if i :| 0 <= i < |b| && b[i].id == id { assert (a + b)[|a| + i].id == id; }
  }

  /** Every id of the lists comes out once, with its own score, and scores never rise. */
  lemma FusedOnce(lists: seq<seq<Item>>, k: nat)
    ensures forall i, j :: 0 <= i < j < |Fused(lists, k)| ==>
              && Fused(lists, k)[i].item.id != Fused(lists, k)[j].item.id
              && Fused(lists, k)[i].score >= Fused(lists, k)[j].score
    ensures forall r :: r in Fused(lists, k) ==> r.score == Score(lists, k, r.item.id)
  {
    var entries := Scored(Firsts(Flat(lists)), lists, k);
    FirstsDistinct(Flat(lists));
    SortDescSorts(entries, ScoreOf);
    SortDescMembers(entries, ScoreOf);
    SortedDistinct(entries);
  }

  predicate InLists(lists: seq<seq<Item>>, id: string) { exists n :: 0 <= n < |lists| && HasId(lists[n], id) }

  predicate InRanking(rs: seq<Ranked>, id: string) { exists r :: r in rs && r.item.id == id }

  lemma FusedHas(lists: seq<seq<Item>>, k: nat, id: string)
    ensures InRanking(Fused(lists, k), id) <==> InLists(lists, id)
  {
    var firsts := Firsts(Flat(lists));
    var entries := Scored(firsts, lists, k);
    FirstsDistinct(Flat(lists));
    SortDescMembers(entries, ScoreOf);
    FlatHas(lists, id);
    if HasId(firsts, id) {
      var i :| 0 <= i < |firsts| && firsts[i].id == id;
      assert entries[i] in Fused(lists, k);
    }
  }

  predicate DistinctEntries(rs: seq<Ranked>) { forall i, j :: 0 <= i < j < |rs| ==> rs[i].item.id != rs[j].item.id }

  lemma SortedDistinct(entries: seq<Ranked>)
    requires DistinctEntries(entries)
    ensures DistinctEntries(SortDesc(entries, ScoreOf))
  {
    var sorted := SortDesc(entries, ScoreOf);
    SortDescSorts(entries, ScoreOf);
    SortDescMembers(entries, ScoreOf);
    forall i, j | 0 <= i < j < |sorted|
      ensures sorted[i].item.id != sorted[j].item.id
    {
      assert sorted[i] in entries && sorted[j] in entries;
      if sorted[i] == sorted[j] {
        Twice(sorted, i, j);
        Once(entries, sorted[i]);
      }
    }
  }

  lemma Twice(rs: seq<Ranked>, i: nat, j: nat)
    requires i < j < |rs| && rs[i] == rs[j]
    ensures multiset(rs)[rs[i]] >= 2
  {
    assert rs == rs[..j] + rs[j..];
    assert rs[i] in rs[..j] && rs[i] in rs[j..] by { assert rs[..j][i] == rs[i]; assert rs[j..][0] == rs[i]; }
  }

  lemma {:induction false} Once(rs: seq<Ranked>, r: Ranked)
    requires DistinctEntries(rs) && r in rs
    ensures multiset(rs)[r] == 1
  {
    var i :| 0 <= i < |rs| && rs[i] == r;
    assert rs == rs[..i] + [r] + rs[i + 1..];
    assert r !in rs[..i] && r !in rs[i + 1..];
  }

  // ----- an item that is always ahead -----

  lemma WeightFalls(k: nat, rank: nat, lower: nat)
    requires 0 < rank < lower
    ensures Weight(k, rank) > Weight(k, lower)
  {
    var a, b := (k + rank) as real, (k + lower) as real;
    var p, q := Weight(k, rank), Weight(k, lower);
    assert p * a == 1.0 && q * b == 1.0;
    if q >= p {
      assert q * b >= p * b;
      assert p * b > p * a;
    }
  }

  lemma {:induction false} ListScoreAtLeast(items: seq<Item>, k: nat, i: nat)
    requires i < |items|
    ensures ListScore(items, k, items[i].id) >= Weight(k, i + 1)
  {
    ListScoreNonNegative(items[..|items| - 1], k, items[i].id);
    if i < |items| - 1 { ListScoreAtLeast(items[..|items| - 1], k, i); }
  }

  lemma {:induction false} ListScoreNonNegative(items: seq<Item>, k: nat, id: string)
    ensures ListScore(items, k, id) >= 0.0
    ensures !HasId(items, id) ==> ListScore(items, k, id) == 0.0
  {
    if items != [] {
      var front := items[..|items| - 1];
      ListScoreNonNegative(front, k, id);
      assert HasId(front, id) ==> HasId(items, id);
    }
  }

  predicate OnlyAt(items: seq<Item>, j: nat, id: string)
    requires j < |items|
  {
    items[j].id == id && forall n :: 0 <= n < |items| && n != j ==> items[n].id != id
  }

  lemma {:induction false} ListScoreOnce(items: seq<Item>, k: nat, j: nat, id: string)
    requires j < |items| && OnlyAt(items, j, id)
    ensures ListScore(items, k, id) == Weight(k, j + 1)
  {
    var front := items[..|items| - 1];
    if j < |items| - 1 {
      ListScoreOnce(front, k, j, id);
    } else {
      ListScoreNonNegative(front, k, id);
    }
  }

  /** In this list `x` stands above the only place of `y`, or `y` does not stand in it. */
  ghost predicate Ahead(items: seq<Item>, x: string, y: string) {
    HasId(items, y) ==> exists i, j :: 0 <= i < j < |items| && items[i].id == x && OnlyAt(items, j, y)
  }

  lemma AheadScores(items: seq<Item>, k: nat, x: string, y: string)
    requires Ahead(items, x, y)
    ensures ListScore(items, k, x) >= ListScore(items, k, y)
    ensures HasId(items, y) ==> ListScore(items, k, x) > ListScore(items, k, y)
  {
    ListScoreNonNegative(items, k, x);
    ListScoreNonNegative(items, k, y);
    if HasId(items, y) {
      var i, j :| 0 <= i < j < |items| && items[i].id == x && OnlyAt(items, j, y);
      ListScoreAtLeast(items, k, i);
      ListScoreOnce(items, k, j, y);
      WeightFalls(k, i + 1, j + 1);
    }
  }

  lemma {:induction false} AheadEverywhere(lists: seq<seq<Item>>, k: nat, x: string, y: string)
    requires forall n :: 0 <= n < |lists| ==> Ahead(lists[n], x, y)
    ensures Score(lists, k, x) >= Score(lists, k, y)
    ensures InLists(lists, y) ==> Score(lists, k, x) > Score(lists, k, y)
  {
    if lists != [] {
      var front := lists[..|lists| - 1];
      AheadEverywhere(front, k, x, y);
      AheadScores(lists[|lists| - 1], k, x, y);
      if n :| 0 <= n < |lists| && HasId(lists[n], y) {
        if n < |front| { assert HasId(front[n], y); }
      }
    }
  }

  /** An item ranked above another in every list that holds the other comes out before it. */
  lemma AheadComesFirst(lists: seq<seq<Item>>, k: nat, i: nat, j: nat)
    requires i < |Fused(lists, k)| && j < |Fused(lists, k)|
    requires forall n :: 0 <= n < |lists| ==> Ahead(lists[n], Fused(lists, k)[i].item.id, Fused(lists, k)[j].item.id)
    ensures i < j
  {
    var ranking := Fused(lists, k);
    var x, y := ranking[i], ranking[j];
    FusedOnce(lists, k);
    FusedHas(lists, k, y.item.id);
    assert x in ranking && y in ranking;
    AheadEverywhere(lists, k, x.item.id, y.item.id);
    assert x.score > y.score;
  }

  /** The fused entry of an id carries the item that was met first under it. */
  lemma {:induction false} FirstMet(items: seq<Item>, i: nat) returns (at: nat)
    requires i < |Firsts(items)|
    ensures at < |items| && items[at] == Firsts(items)[i]
    ensures forall n :: 0 <= n < at ==> items[n].id != items[at].id
  {
    var front, last := items[..|items| - 1], items[|items| - 1];
    if i < |Firsts(front)| {
      at := FirstMet(front, i);
    } else {
      at := |items| - 1;
      FirstsDistinct(front);
      assert forall n :: 0 <= n < at ==> items[n].id == front[n].id;
    }
  }

  // ----- query rows and passages -----

  datatype Chunk = Chunk(documentId: string, pageNumber: nat, score: real, text: string)

  function SqlItems(rows: seq<string>): (r: seq<Item>)
    ensures |r| == |rows|
  {
    seq(|rows|, i requires 0 <= i < |rows| => Item("sql:" + Dec(i), rows[i]))
  }

  function RagEntries(chunks: seq<Chunk>): (r: seq<Ranked>)
    ensures |r| == |chunks|
  {
    seq(|chunks|, i requires 0 <= i < |chunks| =>
      Ranked(Item("rag:" + chunks[i].documentId + ":" + Dec(chunks[i].pageNumber), chunks[i].text), chunks[i].score))
  }

  /** Rows are named by their place, passages by their document and page, and a passage keeps its similarity. */
  lemma NamesInFull(rows: seq<string>, chunks: seq<Chunk>)
    ensures forall i :: 0 <= i < |rows| ==> SqlItems(rows)[i] == Item("sql:" + Dec(i), rows[i])
    ensures forall i :: 0 <= i < |chunks| ==>
              RagEntries(chunks)[i]
              == Ranked(Item("rag:" + chunks[i].documentId + ":" + Dec(chunks[i].pageNumber), chunks[i].text),
                        chunks[i].score)
  {
  }

  function Items(rs: seq<Ranked>): (r: seq<Item>)
    ensures |r| == |rs|
  {
    seq(|rs|, i requires 0 <= i < |rs| => rs[i].item)
  }

  /** The passages by similarity, best first. */
  function RagItems(chunks: seq<Chunk>): seq<Item> { Items(SortDesc(RagEntries(chunks), ScoreOf)) }

  /** The entries of the rows, each with the score of its place. */
  method SqlEntries(rows: seq<string>) returns (entries: seq<Ranked>)
    ensures Items(entries) == SqlItems(rows)
    ensures forall i :: 0 <= i < |entries| ==> entries[i].score == 1.0 / (i + 1) as real
  {
    entries := [];
    var i := 0;
    while i < |rows|
      invariant 0 <= i <= |rows| && |entries| == i
      invariant forall n :: 0 <= n < i ==> entries[n] == Ranked(SqlItems(rows)[n], 1.0 / (n + 1) as real)
    {
      entries := entries + [Ranked(Item("sql:" + Dec(i), rows[i]), 1.0 / (i + 1) as real)];
      i := i + 1;
    }
  }

  /** `merge_results`; `sql` is None when there was no query. */
  method MergeResults(sql: Option<seq<string>>, chunks: seq<Chunk>) returns (merged: seq<Ranked>)
    ensures var rows := if sql.Some? then sql.value else [];
            && (rows != [] && chunks != [] ==> merged == Fused([SqlItems(rows), RagItems(chunks)], 60))
            && (rows != [] && chunks == [] ==> Items(merged) == SqlItems(rows))
            && (rows == [] ==> merged == SortDesc(RagEntries(chunks), ScoreOf))
  {
    var sqlList: seq<Ranked> := [];
    if sql.Some? { sqlList := SqlEntries(sql.value); }
    assert |sqlList| == |Items(sqlList)|;
    var ragList := SortDesc(RagEntries(chunks), ScoreOf);
    SortDescMembers(RagEntries(chunks), ScoreOf);
    if sqlList != [] && ragList != [] {
      merged := ReciprocalRankFusion([Items(sqlList), Items(ragList)], 60);
    } else if sqlList != [] {
      merged := sqlList;
    } else {
      merged := ragList;
    }
  }

  /** One from each in turn, then what is left of the longer. */
  function Alternate(a: seq<Item>, b: seq<Item>): seq<Item>
    decreases |a| + |b|
  {
    if a == [] then b else [a[0]] + Alternate(b, a[1..])
  }

  /** `items` with the weights of the ranks after `from`. */
  function Weighted(items: seq<Item>, k: nat, from: nat): (r: seq<Ranked>)
    ensures |r| == |items| && forall i :: 0 <= i < |r| ==> r[i] == Ranked(items[i], Weight(k, from + i + 1))
  {
    seq(|items|, i requires 0 <= i < |items| => Ranked(items[i], Weight(k, from + i + 1)))
  }

  lemma WeightedDescending(items: seq<Item>, k: nat)
    ensures Descending(Weighted(items, k, 0), ScoreOf)
  {
    forall i, j | 0 <= i < j < |items|
      ensures ScoreOf(Weighted(items, k, 0)[i]) >= ScoreOf(Weighted(items, k, 0)[j])
    {
      WeightFalls(k, i + 1, j + 1);
    }
  }

  lemma {:induction false} MergeAlternates(a: seq<Item>, b: seq<Item>, k: nat, from: nat, m: seq<Ranked>)
    requires m == Merge(Weighted(a, k, from), Weighted(b, k, from), ScoreOf)
    ensures Items(m) == Alternate(a, b)
    decreases |a| + |b|
  {
    var x, y := Weighted(a, k, from), Weighted(b, k, from);
    if a == [] {
      assert Items(y) == b;
    } else if b == [] {
      MergeNone(x);
      assert Items(x) == a;
      assert Alternate(b, a[1..]) == a[1..];
    } else {
      var rest := Merge(x[1..], y[1..], ScoreOf);
      WeightFalls(k, from + 1, from + 2);
      assert x[1..] == Weighted(a[1..], k, from + 1) && y[1..] == Weighted(b[1..], k, from + 1);
      MergeAlternates(a[1..], b[1..], k, from + 1, rest);
      MergeStep(x, y, m, rest);
      assert Alternate(b, a[1..]) == [b[0]] + Alternate(a[1..], b[1..]);
    }
  }

  lemma MergeStep(x: seq<Ranked>, y: seq<Ranked>, m: seq<Ranked>, rest: seq<Ranked>)
    requires x != [] && y != [] && x[0].score == y[0].score && (|x| > 1 ==> x[1].score < y[0].score)
    requires m == Merge(x, y, ScoreOf) && rest == Merge(x[1..], y[1..], ScoreOf)
    ensures Items(m) == [x[0].item] + ([y[0].item] + Items(rest))
  {
    var second := Merge(x[1..], y, ScoreOf);
    MergeFirst(x, y, m, second);
    MergeSecond(x[1..], y, second, rest);
    ItemsOfTwo(x[0], y[0], rest);
  }

  lemma ItemsOfTwo(a: Ranked, b: Ranked, rest: seq<Ranked>)
    ensures Items([a] + ([b] + rest)) == [a.item] + ([b.item] + Items(rest))
  {
  }

  lemma MergeFirst(x: seq<Ranked>, y: seq<Ranked>, m: seq<Ranked>, rest: seq<Ranked>)
    requires x != [] && y != [] && x[0].score >= y[0].score
    requires m == Merge(x, y, ScoreOf) && rest == Merge(x[1..], y, ScoreOf)
    ensures m == [x[0]] + rest
  {
  }

  lemma MergeSecond(x: seq<Ranked>, y: seq<Ranked>, m: seq<Ranked>, rest: seq<Ranked>)
    requires y != [] && (x != [] ==> x[0].score < y[0].score)
    requires m == Merge(x, y, ScoreOf) && rest == Merge(x, y[1..], ScoreOf)
    ensures m == [y[0]] + rest
  {
    if x == [] { assert [y[0]] + y[1..] == y; }
  }

  lemma {:induction false} MergeNone(x: seq<Ranked>)
    ensures Merge(x, [], ScoreOf) == x
  {
    if x != [] { MergeNone(x[1..]); }
  }

  lemma {:induction false} FirstsOfDistinct(items: seq<Item>)
    requires DistinctIds(items)
    ensures Firsts(items) == items
  {
    if items != [] {
      var front, last := items[..|items| - 1], items[|items| - 1];
      FirstsOfDistinct(front);
      assert !HasId(front, last.id);
      assert front + [last] == items;
    }
  }

  lemma ScoreOfTwo(a: seq<Item>, b: seq<Item>, k: nat, id: string)
    ensures Score([a, b], k, id) == ListScore(a, k, id) + ListScore(b, k, id)
    ensures Flat([a, b]) == a + b
  {
    assert [a, b][..1] == [a] && [a][..0] == [];
    assert Score([a], k, id) == Score([], k, id) + ListScore(a, k, id);
    assert Flat([a]) == a;
  }

  lemma DistinctParts(a: seq<Item>, b: seq<Item>)
    requires DistinctIds(a + b)
    ensures DistinctIds(a) && DistinctIds(b)
    ensures forall i, j :: 0 <= i < |a| && 0 <= j < |b| ==> a[i].id != b[j].id
  {
    var both := a + b;
    assert forall i :: 0 <= i < |a| ==> a[i] == both[i];
    assert forall i :: 0 <= i < |b| ==> b[i] == both[|a| + i];
  }

  lemma DistinctScore(items: seq<Item>, k: nat, i: nat)
    requires DistinctIds(items) && i < |items|
    ensures ListScore(items, k, items[i].id) == Weight(k, i + 1)
  {
    ListScoreOnce(items, k, i, items[i].id);
  }

  lemma EntriesOfTwo(a: seq<Item>, b: seq<Item>, k: nat)
    requires DistinctIds(a + b)
    ensures Scored(a + b, [a, b], k) == Weighted(a, k, 0) + Weighted(b, k, 0)
  {
    DistinctParts(a, b);
    forall i | 0 <= i < |a|
      ensures Score([a, b], k, a[i].id) == Weight(k, i + 1)
    {
      ScoreOfTwo(a, b, k, a[i].id);
      DistinctScore(a, k, i);
      ListScoreNonNegative(b, k, a[i].id);
    }
    forall i | 0 <= i < |b|
      ensures Score([a, b], k, b[i].id) == Weight(k, i + 1)
    {
      ScoreOfTwo(a, b, k, b[i].id);
      DistinctScore(b, k, i);
      ListScoreNonNegative(a, k, b[i].id);
    }
  }

  /** Two lists without a common id fuse into their alternation, whatever the constant. */
  lemma TwoListsAlternate(a: seq<Item>, b: seq<Item>, k: nat)
    requires DistinctIds(a + b)
    ensures Items(Fused([a, b], k)) == Alternate(a, b)
  {
    ScoreOfTwo(a, b, k, "");
    FirstsOfDistinct(a + b);
    EntriesOfTwo(a, b, k);
    WeightedDescending(a, k);
    WeightedDescending(b, k);
    SortDescAppend(Weighted(a, k, 0), Weighted(b, k, 0), ScoreOf);
    MergeAlternates(a, b, k, 0, Merge(Weighted(a, k, 0), Weighted(b, k, 0), ScoreOf));
  }

  /** Rows and passages alternate, passages by falling similarity, when no two passages share
      document and page. */
  lemma ResultsAlternate(rows: seq<string>, chunks: seq<Chunk>)
    requires DistinctIds(RagItems(chunks))
    ensures Items(Fused([SqlItems(rows), RagItems(chunks)], 60)) == Alternate(SqlItems(rows), RagItems(chunks))
  {
    var a := SqlItems(rows);
    var b := RagItems(chunks);
    var both: seq<Item> := a + b;
    forall i: nat, j: nat | 0 <= i < j < |both|
      ensures both[i].id != both[j].id
    {
      if j < |a| {
        assert a[i].id[4..] == Dec(i) && a[j].id[4..] == Dec(j);
        if Dec(i) == Dec(j) { DecInjective(i, j); }
      } else if i < |a| {
        RagIdStart(chunks, j - |a|);
        assert a[i].id[0] == 's';
      }
    }
    TwoListsAlternate(a, b, 60);
  }

  lemma RagIdStart(chunks: seq<Chunk>, j: nat)
    requires j < |RagItems(chunks)|
    ensures RagItems(chunks)[j].id != "" && RagItems(chunks)[j].id[0] == 'r'
  {
    var entries := RagEntries(chunks);
    SortDescMembers(entries, ScoreOf);
    assert SortDesc(entries, ScoreOf)[j] in SortDesc(entries, ScoreOf);
    var i :| 0 <= i < |entries| && entries[i] == SortDesc(entries, ScoreOf)[j];
  }
}
