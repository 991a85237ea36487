// The ordering rule the Seasons view applies to an anime's relations:
// every PREQUEL first, everything else after, each group in input order.

module RelationOrder {

  /** The fields of an `AnimeRelation` the view reads. The title is the
      `userPreferred` variant; the other fields of the record play no part. */
  datatype Relation = Relation(id: int, relationType: string, title: string, image: string)

  /** The one relation type the comparator singles out (matched exactly). */
  const PrequelTag: string := "PREQUEL"

  predicate IsPrequel(r: Relation) {
    r.relationType == PrequelTag
  }

  /** The comparator given to `relations.sort`: negative puts `a` first,
      positive puts `b` first, zero leaves the pair as it is. */
  function Compare(a: Relation, b: Relation): (c: int)
    ensures c == -1 || c == 0 || c == 1
    ensures c == 0 <==> IsPrequel(a) == IsPrequel(b)
  {
    if IsPrequel(a) && !IsPrequel(b) then -1
    else if !IsPrequel(a) && IsPrequel(b) then 1
    else 0
  }

  /** The comparator is consistent in the sense `Array.prototype.sort` asks
      for (section 23.1.3.30 of ECMA-262): antisymmetric in sign, and both
      "before" and "tied" are transitive. */
  lemma CompareConsistent(a: Relation, b: Relation, c: Relation)
    ensures Compare(a, a) == 0
    ensures Compare(a, b) == -Compare(b, a)
    ensures Compare(a, b) < 0 && Compare(b, c) < 0 ==> Compare(a, c) < 0
    ensures Compare(a, b) == 0 && Compare(b, c) == 0 ==> Compare(a, c) == 0
    ensures Compare(a, b) <= 0 && Compare(b, c) <= 0 ==> Compare(a, c) <= 0
  {
  }

  /** The subsequence of `s` whose PREQUEL-ness is `prequel`, in input order. */
  function Group(s: seq<Relation>, prequel: bool): (g: seq<Relation>)
    ensures |g| <= |s|
    ensures forall r :: r in g ==> r in s && IsPrequel(r) == prequel
  {
    if s == [] then []
    else if IsPrequel(s[0]) == prequel then [s[0]] + Group(s[1..], prequel)
    else Group(s[1..], prequel)
  }

  /** The order the view shows: the PREQUEL group, then the rest. */
  function Partition(s: seq<Relation>): seq<Relation> {
    Group(s, true) + Group(s, false)
  }

  /** No pair is out of order for the comparator. */
  predicate SortedBy(t: seq<Relation>) {
    forall i, j :: 0 <= i < j < |t| ==> Compare(t[i], t[j]) <= 0
  }

  /** `t` is what a stable sort of `s` with `Compare` may return: sorted, and
      the elements the comparator ties (one group) keep their input order. */
  predicate StableSortOf(t: seq<Relation>, s: seq<Relation>) {
    && SortedBy(t)
    && Group(t, true) == Group(s, true)
    && Group(t, false) == Group(s, false)
  }

  lemma {:induction false} GroupAppend(s: seq<Relation>, t: seq<Relation>, prequel: bool)
    ensures Group(s + t, prequel) == Group(s, prequel) + Group(t, prequel)
  {
    if s == [] {
      assert s + t == t;
    } else {
      assert (s + t)[1..] == s[1..] + t;
      GroupAppend(s[1..], t, prequel);
    }
  }

  /** Appending one relation extends exactly its own group. */
  lemma GroupSnoc(s: seq<Relation>, x: Relation, prequel: bool)
    ensures Group(s + [x], prequel) == Group(s, prequel) + (if IsPrequel(x) == prequel then [x] else [])
  {
    GroupAppend(s, [x], prequel);
    assert Group([x], prequel) == if IsPrequel(x) == prequel then [x] else [];
  }

  /** A sequence lying wholly in one group is its own group, and the other
      group of it is empty. */
  lemma {:induction false} GroupUniform(s: seq<Relation>, prequel: bool)
    requires forall k :: 0 <= k < |s| ==> IsPrequel(s[k]) == prequel
    ensures Group(s, prequel) == s
    ensures Group(s, !prequel) == []
  {
    if s != [] {
      GroupUniform(s[1..], prequel);
    }
  }

  /** The positions of `s`, from `from` on, whose PREQUEL-ness is `prequel`,
      in increasing order. */
  function GroupIndices(s: seq<Relation>, prequel: bool, from: nat): (f: seq<nat>)
    ensures forall k :: 0 <= k < |f| ==> from <= f[k] < |s|
    ensures forall a, b :: 0 <= a < b < |f| ==> f[a] < f[b]
    decreases |s| - from
  {
    if from >= |s| then []
    else if IsPrequel(s[from]) == prequel then [from] + GroupIndices(s, prequel, from + 1)
    else GroupIndices(s, prequel, from + 1)
  }

  /** Element k of `Group(s[from..])` is `s` at the k-th of the positions
      `GroupIndices` picks. */
  lemma {:induction false} GroupAtIndices(s: seq<Relation>, prequel: bool, from: nat)
    requires from <= |s|
    ensures |GroupIndices(s, prequel, from)| == |Group(s[from..], prequel)|
    ensures forall k :: 0 <= k < |Group(s[from..], prequel)| ==>
              Group(s[from..], prequel)[k] == s[GroupIndices(s, prequel, from)[k]]
    decreases |s| - from
  {
    if from < |s| {
      var g, f := Group(s[from..], prequel), GroupIndices(s, prequel, from);
      var g', f' := Group(s[from + 1..], prequel), GroupIndices(s, prequel, from + 1);
      GroupAtIndices(s, prequel, from + 1);
      assert s[from..][1..] == s[from + 1..];
      if IsPrequel(s[from]) == prequel {
        assert g == [s[from]] + g' && f == [from] + f';
        forall k | 0 < k < |g| ensures g[k] == s[f[k]] {
          assert g[k] == g'[k - 1] && f[k] == f'[k - 1];
        }
      } else {
        assert g == g' && f == f';
      }
    }
  }

  /** The positions `GroupIndices` picks take in every position of the group. */
  lemma {:induction false} GroupIndicesComplete(s: seq<Relation>, prequel: bool, from: nat)
    ensures forall i :: from <= i < |s| && IsPrequel(s[i]) == prequel ==> i in GroupIndices(s, prequel, from)
    decreases |s| - from
  {
    if from < |s| {
      GroupIndicesComplete(s, prequel, from + 1);
    }
  }

  /** `Group(s, prequel)` is `s` read at a strictly increasing sequence of
      positions that contains every position of `s` in that group: the group
      keeps input order and drops none of its members. */
  lemma GroupIsSubsequence(s: seq<Relation>, prequel: bool)
    ensures var f := GroupIndices(s, prequel, 0);
            && |f| == |Group(s, prequel)|
            && (forall a, b :: 0 <= a < b < |f| ==> f[a] < f[b])
            && (forall k :: 0 <= k < |f| ==> f[k] < |s| && Group(s, prequel)[k] == s[f[k]])
            && (forall i :: 0 <= i < |s| && IsPrequel(s[i]) == prequel ==> i in f)
  {
    GroupAtIndices(s, prequel, 0);
    GroupIndicesComplete(s, prequel, 0);
    assert s[0..] == s;
  }

  /** Between them the two groups hold every element of `s` exactly as often. */
  lemma {:induction false} GroupMultiset(s: seq<Relation>)
    ensures multiset(Group(s, true)) + multiset(Group(s, false)) == multiset(s)
  {
    if s != [] {
      GroupMultiset(s[1..]);
      assert s == [s[0]] + s[1..];
    }
  }

  /** Every element of a group of `s` lies in that group. */
  lemma GroupMembers(s: seq<Relation>, prequel: bool)
    ensures forall k :: 0 <= k < |Group(s, prequel)| ==> IsPrequel(Group(s, prequel)[k]) == prequel
  {
  }

  /** In Partition(s) every PREQUEL stands before every other entry, so the
      comparator accepts every pair. */
  lemma PartitionSorted(s: seq<Relation>)
    ensures SortedBy(Partition(s))
    ensures forall i, j ::
              (0 <= i < |Partition(s)| && 0 <= j < |Partition(s)|
               && IsPrequel(Partition(s)[i]) && !IsPrequel(Partition(s)[j])) ==> i < j
  {
    var p, o := Group(s, true), Group(s, false);
    GroupMembers(s, true);
    GroupMembers(s, false);
    assert forall k :: 0 <= k < |p + o| ==> (IsPrequel((p + o)[k]) <==> k < |p|);
  }

  /** Partition(s) rearranges s: the same elements, as often each. */
  lemma PartitionPermutation(s: seq<Relation>)
    ensures |Partition(s)| == |s|
    ensures multiset(Partition(s)) == multiset(s)
  {
    GroupMultiset(s);
    assert |Partition(s)| == |multiset(Partition(s))| == |multiset(s)| == |s|;
  }

  /** Partition(s) leaves each group of s exactly as it was. */
  lemma PartitionKeepsGroups(s: seq<Relation>)
    ensures Group(Partition(s), true) == Group(s, true)
    ensures Group(Partition(s), false) == Group(s, false)
  {
    var p, o := Group(s, true), Group(s, false);
    GroupMembers(s, true);
    GroupMembers(s, false);
    GroupAppend(p, o, true);
    GroupAppend(p, o, false);
    GroupUniform(p, true);
    GroupUniform(o, false);
  }

  /** Partition(s) is a stable sort of s with the comparator: a permutation of
      s, every PREQUEL before every other entry, each group in input order. */
  lemma PartitionIsStableSort(s: seq<Relation>)
    ensures StableSortOf(Partition(s), s)
    ensures multiset(Partition(s)) == multiset(s)
  {
    PartitionSorted(s);
    PartitionPermutation(s);
    PartitionKeepsGroups(s);
  }

  /** A sequence the comparator already accepts is its own partition. */
  lemma {:induction false} SortedIsPartition(t: seq<Relation>)
    requires SortedBy(t)
    ensures Partition(t) == t
  {
    if t == [] {
    } else if IsPrequel(t[0]) {
      assert SortedBy(t[1..]) by {
        forall i, j | 0 <= i < j < |t[1..]| ensures Compare(t[1..][i], t[1..][j]) <= 0 {
          assert t[1..][i] == t[i + 1] && t[1..][j] == t[j + 1];
        }
      }
      SortedIsPartition(t[1..]);
      assert Partition(t) == [t[0]] + Partition(t[1..]);
      assert t == [t[0]] + t[1..];
    } else {
      forall k | 0 <= k < |t| ensures !IsPrequel(t[k]) {
        if k > 0 {
          assert Compare(t[0], t[k]) <= 0;
        }
      }
      GroupUniform(t, false);
    }
  }

  /** Whatever stable sort the engine runs with this comparator, the outcome
      is the same: it is Partition of the input. */
  lemma StableSortUnique(t: seq<Relation>, s: seq<Relation>)
    requires StableSortOf(t, s)
    ensures t == Partition(s)
  {
    SortedIsPartition(t);
  }

  /** Sorting an already sorted list changes nothing. */
  lemma PartitionIdempotent(s: seq<Relation>)
    ensures Partition(Partition(s)) == Partition(s)
  {
    PartitionIsStableSort(s);
    SortedIsPartition(Partition(s));
  }

  /** With no PREQUEL, or nothing but PREQUELs, the order is left alone; in
      particular the empty list stays empty. */
  lemma PartitionOfUniform(s: seq<Relation>)
    requires (forall k :: 0 <= k < |s| ==> !IsPrequel(s[k]))
          || (forall k :: 0 <= k < |s| ==> IsPrequel(s[k]))
    ensures Partition(s) == s
  {
    if forall k :: 0 <= k < |s| ==> !IsPrequel(s[k]) {
      GroupUniform(s, false);
    } else {
      GroupUniform(s, true);
    }
  }

  /** Where the partition of `s` is split into a prefix ending in a PREQUEL
      (or empty) and a suffix with no PREQUEL, the split is at the group
      boundary. */
  lemma SplitAtBoundary(u: seq<Relation>, v: seq<Relation>, s: seq<Relation>)
    requires u + v == Partition(s)
    requires u == [] || IsPrequel(u[|u| - 1])
    requires forall k :: 0 <= k < |v| ==> !IsPrequel(v[k])
    ensures u == Group(s, true) && v == Group(s, false)
  {
    var p, o := Group(s, true), Group(s, false);
    GroupMembers(s, true);
    GroupMembers(s, false);
    assert forall k :: 0 <= k < |p + o| ==> (IsPrequel((p + o)[k]) <==> k < |p|);
    assert |v| > 0 ==> !IsPrequel((u + v)[|u|]);
    assert |u| > 0 ==> IsPrequel((u + v)[|u| - 1]);
    assert |u| == |p|;
    assert u == (u + v)[..|u|] && v == (u + v)[|u|..];
    assert p == (p + o)[..|p|] && o == (p + o)[|p|..];
  }

  /** Inserting `x` into a partition right after its last PREQUEL (when `x`
      is a PREQUEL) or at the end (when it is not) gives the partition of
      the list with `x` appended. */
  lemma InsertIntoPartition(done: seq<Relation>, x: Relation, u: seq<Relation>, v: seq<Relation>)
    requires u + v == Partition(done)
    requires forall k :: 0 <= k < |v| ==> !IsPrequel(v[k])
    requires IsPrequel(x) ==> u == [] || IsPrequel(u[|u| - 1])
    requires !IsPrequel(x) ==> v == []
    ensures u + [x] + v == Partition(done + [x])
  {
    GroupSnoc(done, x, true);
    GroupSnoc(done, x, false);
    if IsPrequel(x) {
      SplitAtBoundary(u, v, done);
      assert u + [x] + v == (Group(done, true) + [x]) + Group(done, false);
    } else {
      assert u + v == u;
      assert u + [x] + v == Group(done, true) + (Group(done, false) + [x]);
    }
  }

  /** The ids of a list of relations, in order. */
  function Ids(s: seq<Relation>): (ids: seq<int>)
    ensures |ids| == |s|
    ensures forall k :: 0 <= k < |s| ==> ids[k] == s[k].id
  {
    if s == [] then [] else [s[0].id] + Ids(s[1..])
  }

  lemma IdsAppend(s: seq<Relation>, t: seq<Relation>)
    ensures Ids(s + t) == Ids(s) + Ids(t)
  {
  }

  lemma {:induction false} GroupIdsMultiset(s: seq<Relation>)
    ensures multiset(Ids(Group(s, true))) + multiset(Ids(Group(s, false))) == multiset(Ids(s))
  {
    if s != [] {
      GroupIdsMultiset(s[1..]);
      IdsAppend([s[0]], Group(s[1..], IsPrequel(s[0])));
      assert Ids(s) == [s[0].id] + Ids(s[1..]);
    }
  }

  /** The sorted list carries the same multiset of ids as the input. */
  lemma PartitionIds(s: seq<Relation>)
    ensures multiset(Ids(Partition(s))) == multiset(Ids(s))
  {
    GroupIdsMultiset(s);
    IdsAppend(Group(s, true), Group(s, false));
  }

  /** The ids are pairwise different (the view uses them as list keys). */
  predicate DistinctIds(s: seq<Relation>) {
    forall i, j :: 0 <= i < j < |s| ==> s[i].id != s[j].id
  }

  /** Distinctness, stated through counts. */
  lemma {:induction false} DistinctByCount(q: seq<int>)
    ensures (forall i, j :: 0 <= i < j < |q| ==> q[i] != q[j]) <==> (forall v :: multiset(q)[v] <= 1)
  {
    if q != [] {
      DistinctByCount(q[1..]);
      assert q == [q[0]] + q[1..];
      if forall i, j :: 0 <= i < j < |q| ==> q[i] != q[j] {
        assert forall i, j :: 0 <= i < j < |q[1..]| ==> q[1..][i] != q[1..][j] by {
          forall i, j | 0 <= i < j < |q[1..]| ensures q[1..][i] != q[1..][j] {
            assert q[1..][i] == q[i + 1] && q[1..][j] == q[j + 1];
          }
        }
        assert q[0] !in q[1..] by {
          forall k | 0 <= k < |q[1..]| ensures q[1..][k] != q[0] {
            assert q[1..][k] == q[k + 1];
          }
        }
      }
      if forall v :: multiset(q)[v] <= 1 {
        assert forall v :: multiset(q[1..])[v] <= 1 by {
          forall v ensures multiset(q[1..])[v] <= 1 {
            assert multiset(q)[v] == multiset([q[0]])[v] + multiset(q[1..])[v];
          }
        }
        assert multiset(q)[q[0]] == 1 + multiset(q[1..])[q[0]];
        forall i, j | 0 <= i < j < |q| ensures q[i] != q[j] {
          if i == 0 {
            assert q[j] == q[1..][j - 1];
            assert q[j] in q[1..];
          } else {
            assert q[i] == q[1..][i - 1] && q[j] == q[1..][j - 1];
          }
        }
      }
    }
  }

  /** Sorting never makes two cards share a key. */
  lemma PartitionKeepsDistinctIds(s: seq<Relation>)
    requires DistinctIds(s)
    ensures DistinctIds(Partition(s))
  {
    PartitionIds(s);
    DistinctByCount(Ids(s));
    DistinctByCount(Ids(Partition(s)));
  }

  /** The scenario SEQUEL 1, PREQUEL 2, SIDE_STORY 3 is shown as 2, 1, 3; the
      tag match is exact, so a "Prequel" is not moved. */
  lemma ExampleOrdering()
    ensures Partition([Relation(1, "SEQUEL", "", ""), Relation(2, "PREQUEL", "", ""), Relation(3, "SIDE_STORY", "", "")])
         == [Relation(2, "PREQUEL", "", ""), Relation(1, "SEQUEL", "", ""), Relation(3, "SIDE_STORY", "", "")]
    ensures Partition([Relation(4, "Prequel", "", ""), Relation(5, "PREQUEL", "", "")])
         == [Relation(5, "PREQUEL", "", ""), Relation(4, "Prequel", "", "")]
  {
  }
}
