// The Seasons view: it sorts the relations it is given in place, renders one
// card per relation in that order, and on a click asks the router for the
// relation's watch page.

module Seasons {
  import opened RelationOrder
  import opened WatchRoute

  /** `relations.sort(Compare)`: reorders the caller's array in place (here by
      a stable insertion sort) and returns that same array. */
  method SortRelations(relations: array<Relation>) returns (sortedRelations: array<Relation>)
    modifies relations
    ensures sortedRelations == relations
    ensures relations[..] == Partition(old(relations[..]))
    ensures StableSortOf(relations[..], old(relations[..]))
  {
    ghost var input := relations[..];
    var i := 0;
    while i < relations.Length
      invariant 0 <= i <= relations.Length
      invariant relations[..i] == Partition(input[..i])
      invariant relations[i..] == input[i..]
    {
      assert input[..i + 1] == input[..i] + [input[i]];
      InsertNext(relations, i, input[..i]);
      i := i + 1;
    }
    assert input[..i] == input && relations[..i] == relations[..];
    PartitionIsStableSort(input);
    sortedRelations := relations;
  }

  /** One step of the insertion sort: `relations[i]` is moved left past the
      non-PREQUEL entries of the sorted prefix when it is a PREQUEL itself. */
  method InsertNext(relations: array<Relation>, i: nat, ghost done: seq<Relation>)
    requires i < relations.Length
    requires relations[..i] == Partition(done)
    modifies relations
    ensures relations[..i + 1] == Partition(done + [old(relations[i])])
    ensures relations[i + 1..] == old(relations[i + 1..])
  {
    ghost var x := relations[i];
    var j := i;
    assert relations[..j] + relations[j + 1..i + 1] == Partition(done);
    while j > 0 && Compare(relations[j - 1], relations[j]) > 0
      invariant 0 <= j <= i
      invariant relations[j] == x
      invariant relations[..j] + relations[j + 1..i + 1] == Partition(done)
      invariant j < i ==> IsPrequel(x)
      invariant forall k :: j < k <= i ==> !IsPrequel(relations[k])
      invariant relations[i + 1..] == old(relations[i + 1..])
    {
      SwapDown(relations, i, j);
      j := j - 1;
    }
    assert relations[..i + 1] == relations[..j] + [x] + relations[j + 1..i + 1];
    InsertIntoPartition(done, x, relations[..j], relations[j + 1..i + 1]);
  }

  /** Swaps `relations[j - 1]` and `relations[j]`; seen without position `j`
      before and `j - 1` after, the prefix up to `i` is unchanged. */
  method SwapDown(relations: array<Relation>, i: nat, j: nat)
    requires 0 < j <= i < relations.Length
    modifies relations
    ensures relations[j - 1] == old(relations[j]) && relations[j] == old(relations[j - 1])
    ensures relations[..j - 1] + relations[j..i + 1] == old(relations[..j] + relations[j + 1..i + 1])
    ensures forall k :: 0 <= k < relations.Length && k != j - 1 && k != j ==> relations[k] == old(relations[k])
  {
    ghost var before := relations[..];
    relations[j - 1], relations[j] := relations[j], relations[j - 1];
    assert relations[..j - 1] == before[..j - 1];
    assert relations[j..i + 1] == [before[j - 1]] + before[j + 1..i + 1];
    assert before[..j] == before[..j - 1] + [before[j - 1]];
  }

  /** What one rendered card carries: its list key, the two labels, the
      background image and the id its click handler was bound to. */
  datatype Card = Card(key: int, relationType: string, title: string, image: string, onClickId: int)

  /** `sortedRelations.map(...)`: one card per relation, in order, keyed by the
      relation's id and bound to it for clicks. */
  function Cards(sortedRelations: seq<Relation>): (cards: seq<Card>)
    ensures |cards| == |sortedRelations|
    ensures forall k :: 0 <= k < |cards| ==>
              && cards[k].key == sortedRelations[k].id
              && cards[k].onClickId == sortedRelations[k].id
              && cards[k].relationType == sortedRelations[k].relationType
              && cards[k].title == sortedRelations[k].title
              && cards[k].image == sortedRelations[k].image
  {
    if sortedRelations == [] then []
    else
      var r := sortedRelations[0];
      [Card(r.id, r.relationType, r.title, r.image, r.id)] + Cards(sortedRelations[1..])
  }

  /** The router capability the view calls; it records every path it is
      asked to go to, in order. */
  class Navigator {
    var requests: seq<string>

    constructor ()
      ensures requests == []
    {
      requests := [];
    }

    method Navigate(path: string)
      modifies this
      ensures requests == old(requests) + [path]
    {
      requests := requests + [path];
    }
  }

  /** `handleCardClick(id)`: exactly one navigation request, to the relation's
      watch page. */
  method HandleCardClick(navigate: Navigator, id: int)
    modifies navigate
    ensures navigate.requests == old(navigate.requests) + [WatchPath(id)]
  {
    navigate.Navigate(WatchPath(id));
  }

  /** A click on card `i` runs that card's handler with the id it was bound to. */
  method ClickCard(navigate: Navigator, cards: seq<Card>, i: nat)
    requires i < |cards|
    modifies navigate
    ensures navigate.requests == old(navigate.requests) + [WatchPath(cards[i].onClickId)]
  {
    HandleCardClick(navigate, cards[i].onClickId);
  }

  /** One render of the view: sort the caller's array in place, then build the
      cards from the sorted order. */
  method Render(relations: array<Relation>) returns (cards: seq<Card>)
    modifies relations
    ensures relations[..] == Partition(old(relations[..]))
    ensures cards == Cards(Partition(old(relations[..])))
  {
    var sortedRelations := SortRelations(relations);
    cards := Cards(sortedRelations[..]);
  }

  /** A render shows one card per relation; an empty list renders no card. */
  lemma CardCount(s: seq<Relation>)
    ensures |Cards(Partition(s))| == |s|
    ensures s == [] ==> Cards(Partition(s)) == []
  {
    PartitionPermutation(s);
  }

  /** Card `i` leads to the watch page of the `i`-th relation in sorted order,
      and the route names that relation's id. */
  lemma CardClickTarget(s: seq<Relation>, i: nat)
    requires i < |s|
    ensures i < |Cards(Partition(s))|
    ensures ParseWatchPath(WatchPath(Cards(Partition(s))[i].onClickId)) == Some(Partition(s)[i].id)
  {
    PartitionPermutation(s);
    WatchPathRoundTrip(Partition(s)[i].id);
  }

  /** Unique ids in the input give unique card keys after sorting. */
  lemma CardKeysDistinct(s: seq<Relation>)
    requires DistinctIds(s)
    ensures forall i, j :: 0 <= i < j < |Cards(Partition(s))| ==> Cards(Partition(s))[i].key != Cards(Partition(s))[j].key
  {
    PartitionKeepsDistinctIds(s);
  }
}
