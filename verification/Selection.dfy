/** The order on candidate pairs, the stable sort by it and the rule that switches the selected pair. */
module Selection {
  import opened Octets

  const MIN_IMPROVEMENT: int := 10

  /** What the comparison reads of a pair. */
  datatype Key = Key(rank: nat, receiving: bool, priority: nat, rtt: int)

  /** `_compare_connections`: positive when `a` is better. */
  function Compare(a: Key, b: Key): int {
    if a.rank == 0 && b.rank != 0 then 1
    else if a.rank != 0 && b.rank == 0 then -1
    else if a.rank < b.rank then 1
    else if a.rank > b.rank then -1
    else if a.receiving && !b.receiving then 1
    else if !a.receiving && b.receiving then -1
    else if a.priority > b.priority then 1
    else if a.priority < b.priority then -1
    else 0
  }

  /** The sort predicate: equal pairs are told apart by round trip. */
  predicate Before(a: Key, b: Key) {
    if Compare(a, b) != 0 then Compare(a, b) > 0 else a.rtt < b.rtt
  }

  predicate Tied(a: Key, b: Key) {
    !Before(a, b) && !Before(b, a)
  }

  /** The chain of comparisons is the lexicographic order on write state, receiving, priority and round trip. */
  lemma BeforeIsLexicographic(a: Key, b: Key)
    ensures Before(a, b) <==>
            || a.rank < b.rank
            || (a.rank == b.rank
                && ((a.receiving && !b.receiving)
                    || (a.receiving == b.receiving
                        && (a.priority > b.priority || (a.priority == b.priority && a.rtt < b.rtt)))))
  {
  }

  /** So it is a strict weak order, in which only pairs with equal keys tie. */
  lemma BeforeIsStrictWeakOrder(a: Key, b: Key, c: Key)
    ensures !Before(a, a)
    ensures Before(a, b) && Before(b, c) ==> Before(a, c)
    ensures Tied(a, b) <==> a == b
    ensures Before(a, b) ==> Before(a, c) || Before(c, b)
  {
  }

  // ---- The stable sort ------------------------------------------------------------------------------

  predicate Keyed<C>(s: seq<C>, key: map<C, Key>) {
    forall i :: 0 <= i < |s| ==> s[i] in key
  }

  function Insert<C>(x: C, s: seq<C>, key: map<C, Key>): seq<C>
    requires x in key && Keyed(s, key)
  {
    if s != [] && Before(key[s[0]], key[x]) then [s[0]] + Insert(x, s[1..], key) else [x] + s
  }

  /** What a stable sort by `Before` returns. */
  function StableSort<C>(s: seq<C>, key: map<C, Key>): (t: seq<C>)
    requires Keyed(s, key)
    ensures multiset(t) == multiset(s) && |t| == |s| && Keyed(t, key)
  {
    if s == [] then []
    else
      var rest := StableSort(s[1..], key);
      InsertKeeps(s[0], rest, key);
      assert s == [s[0]] + s[1..];
      Insert(s[0], rest, key)
  }

  lemma {:induction false} InsertKeeps<C>(x: C, s: seq<C>, key: map<C, Key>)
    requires x in key && Keyed(s, key)
    ensures multiset(Insert(x, s, key)) == multiset([x] + s)
    ensures |Insert(x, s, key)| == |s| + 1 && Keyed(Insert(x, s, key), key)
  {
    if s != [] && Before(key[s[0]], key[x]) {
      InsertKeeps(x, s[1..], key);
      assert s == [s[0]] + s[1..];
    }
  }

  predicate InOrder<C>(s: seq<C>, key: map<C, Key>)
    requires Keyed(s, key)
  {
    forall i, j :: 0 <= i < j < |s| ==> !Before(key[s[j]], key[s[i]])
  }

  /** The elements with a given key, in order. */
  function Class<C>(s: seq<C>, k: Key, key: map<C, Key>): seq<C>
    requires Keyed(s, key)
  {
    if s == [] then []
    else (if key[s[0]] == k then [s[0]] else []) + Class(s[1..], k, key)
  }

  predicate BoundsBelow<C>(x: C, s: seq<C>, key: map<C, Key>)
    requires x in key && Keyed(s, key)
  {
    forall i :: 0 <= i < |s| ==> !Before(key[s[i]], key[x])
  }

  lemma BoundsTransfer<C>(x: C, s: seq<C>, t: seq<C>, y: C, key: map<C, Key>)
    requires x in key && y in key && Keyed(s, key) && Keyed(t, key)
    requires BoundsBelow(y, s, key) && !Before(key[x], key[y]) && multiset(t) == multiset([x] + s)
    ensures BoundsBelow(y, t, key)
  {
    hide Before;
    forall i | 0 <= i < |t|
      ensures !Before(key[t[i]], key[y])
    {
      assert t[i] in multiset(t);
      assert t[i] in [x] + s;
    }
  }

  lemma {:induction false} InsertInOrder<C>(x: C, s: seq<C>, key: map<C, Key>)
    requires x in key && Keyed(s, key) && InOrder(s, key)
    ensures Keyed(Insert(x, s, key), key) && InOrder(Insert(x, s, key), key)
  {
    assert InOrder([x], key);
    hide Before, InOrder, BoundsBelow;
    if s == [] {
      assert [x] + s == [x];
    } else {
      BeforeIsStrictWeakOrder(key[s[0]], key[x], key[s[0]]);
      if Before(key[s[0]], key[x]) {
        InsertInOrder(x, s[1..], key);
        InsertKeeps(x, s[1..], key);
        BoundsTransfer(x, s[1..], Insert(x, s[1..], key), s[0], key);
      }
    }
  }

  lemma ClassOfCons<C>(x: C, s: seq<C>, k: Key, key: map<C, Key>)
    requires x in key && Keyed(s, key)
    ensures Keyed([x] + s, key)
    ensures Class([x] + s, k, key) == (if key[x] == k then [x] else []) + Class(s, k, key)
  {
    assert ([x] + s)[1..] == s;
  }

  lemma SkipSwaps<C>(x: C, y: C, s: seq<C>, takeX: bool, takeY: bool)
    requires !(takeX && takeY)
    ensures (if takeX then [x] else []) + ((if takeY then [y] else []) + s) ==
            (if takeY then [y] else []) + ((if takeX then [x] else []) + s)
  {
    assert forall a: seq<C> :: [] + a == a;
  }

  lemma {:induction false} InsertKeepsClasses<C>(x: C, s: seq<C>, k: Key, key: map<C, Key>)
    requires x in key && Keyed(s, key)
    ensures Keyed(Insert(x, s, key), key)
    ensures Class(Insert(x, s, key), k, key) == (if key[x] == k then [x] else []) + Class(s, k, key)
  {
    hide Class, Before;
    InsertKeeps(x, s, key);
    if s != [] && Before(key[s[0]], key[x]) {
      InsertKeepsClasses(x, s[1..], k, key);
      InsertKeeps(x, s[1..], key);
      BeforeIsStrictWeakOrder(key[x], key[x], key[x]);
      ClassOfCons(s[0], Insert(x, s[1..], key), k, key);
      assert s == [s[0]] + s[1..];
      ClassOfCons(s[0], s[1..], k, key);
      SkipSwaps(s[0], x, Class(s[1..], k, key), key[s[0]] == k, key[x] == k);
    } else {
      ClassOfCons(x, s, k, key);
    }
  }

  /** The sort is in order and keeps every class of ties in its original order. */
  lemma {:induction false} StableSortIsStable<C>(s: seq<C>, key: map<C, Key>)
    requires Keyed(s, key)
    ensures InOrder(StableSort(s, key), key)
    ensures forall k :: Class(StableSort(s, key), k, key) == Class(s, k, key)
  {
    if s != [] {
      StableSortIsStable(s[1..], key);
      var rest := StableSort(s[1..], key);
      InsertInOrder(s[0], rest, key);
      forall k
        ensures Class(StableSort(s, key), k, key) == Class(s, k, key)
      {
        InsertKeepsClasses(s[0], rest, k, key);
      }
    }
  }

  lemma {:induction false} ClassHead<C>(s: seq<C>, i: nat, key: map<C, Key>)
    requires Keyed(s, key) && i < |s|
    ensures Class(s, key[s[i]], key) != [] && Class(s, key[s[i]], key)[0] in s
    ensures key[Class(s, key[s[i]], key)[0]] == key[s[i]]
  {
    if key[s[0]] != key[s[i]] {
      ClassHead(s[1..], i - 1, key);
    }
  }

  lemma ClassTail<C>(s: seq<C>, k: Key, key: map<C, Key>)
    requires Keyed(s, key) && s != []
    ensures Keyed(s[1..], key)
    ensures key[s[0]] == k ==> Class(s, k, key) != [] && Class(s[1..], k, key) == Class(s, k, key)[1..]
    ensures key[s[0]] != k ==> Class(s[1..], k, key) == Class(s, k, key)
  {
  }

  lemma NonemptyTogether<C>(s: seq<C>, t: seq<C>, key: map<C, Key>)
    requires Keyed(s, key) && Keyed(t, key)
    requires forall k :: Class(s, k, key) == Class(t, k, key)
    ensures t != [] ==> s != []
  {
    if t != [] {
      ClassHead(t, 0, key);
      assert Class(s, key[t[0]], key) == Class(t, key[t[0]], key);
    }
  }

  /** Order and stability leave no choice: any other result with both is the same sequence. */
  lemma {:induction false} OrderedClassesDecide<C>(s: seq<C>, t: seq<C>, key: map<C, Key>)
    requires Keyed(s, key) && Keyed(t, key) && InOrder(s, key) && InOrder(t, key)
    requires forall k :: Class(s, k, key) == Class(t, k, key)
    ensures s == t
    decreases |s|
  {
    if s == [] {
      NonemptyTogether(s, t, key);
    } else {
      HeadsAgree(s, t, key);
      forall k
        ensures Class(s[1..], k, key) == Class(t[1..], k, key)
      {
        assert Class(s, k, key) == Class(t, k, key);
        ClassTail(s, k, key);
        ClassTail(t, k, key);
      }
      OrderedClassesDecide(s[1..], t[1..], key);
      assert s == [s[0]] + s[1..] && t == [t[0]] + t[1..];
    }
  }

  lemma HeadsAgree<C>(s: seq<C>, t: seq<C>, key: map<C, Key>)
    requires Keyed(s, key) && Keyed(t, key) && InOrder(s, key) && InOrder(t, key)
    requires s != [] && forall k :: Class(s, k, key) == Class(t, k, key)
    ensures t != [] && s[0] == t[0]
  {
    var ks := key[s[0]];
    assert Class(s, ks, key)[0] == s[0];
    assert Class(t, ks, key) == Class(s, ks, key);
    assert t != [];
    var kt := key[t[0]];
    HeadIsLeast(t, ks, key);
    assert Class(s, kt, key) == Class(t, kt, key);
    assert Class(t, kt, key)[0] == t[0];
    HeadIsLeast(s, kt, key);
    BeforeIsStrictWeakOrder(ks, kt, ks);
  }

  lemma {:induction false} ClassMember<C>(s: seq<C>, k: Key, key: map<C, Key>) returns (i: nat)
    requires Keyed(s, key) && Class(s, k, key) != []
    ensures i < |s| && key[s[i]] == k
  {
    if key[s[0]] == k {
      i := 0;
    } else {
      i := ClassMember(s[1..], k, key);
      i := i + 1;
    }
  }

  lemma HeadIsLeast<C>(s: seq<C>, k: Key, key: map<C, Key>)
    requires Keyed(s, key) && InOrder(s, key) && Class(s, k, key) != []
    ensures s != [] && !Before(k, key[s[0]])
  {
    var i := ClassMember(s, k, key);
    BeforeIsStrictWeakOrder(k, k, k);
  }

  /** Sorting what is in order changes nothing. */
  lemma SortOfSorted<C>(s: seq<C>, key: map<C, Key>)
    requires Keyed(s, key) && InOrder(s, key)
    ensures StableSort(s, key) == s
  {
    StableSortIsStable(s, key);
    OrderedClassesDecide(StableSort(s, key), s, key);
  }

  /** The first of the sorted list is least, and the earliest of the least in the original order. */
  lemma TopIsBest<C>(s: seq<C>, key: map<C, Key>)
    requires Keyed(s, key) && s != []
    ensures var top := StableSort(s, key)[0];
            && top in s
            && (forall i :: 0 <= i < |s| ==> !Before(key[s[i]], key[top]))
            && Class(s, key[top], key) != [] && top == Class(s, key[top], key)[0]
  {
    var t := StableSort(s, key);
    StableSortIsStable(s, key);
    assert t[0] in multiset(t);
    forall i | 0 <= i < |s|
      ensures !Before(key[s[i]], key[t[0]])
    {
      assert s[i] in multiset(s);
      assert s[i] in t;
      BeforeIsStrictWeakOrder(key[t[0]], key[t[0]], key[t[0]]);
    }
    assert Class(t, key[t[0]], key)[0] == t[0];
    assert Class(t, key[t[0]], key) == Class(s, key[t[0]], key);
  }

  // ---- Switching -------------------------------------------------------------------------------------

  predicate Ready(k: Key) {
    k.rank == 0 || k.rank == 1
  }

  /** The pair to switch to, judged on the sorted list. */
  function SwitchTo<C(==)>(sorted: seq<C>, selected: Option<C>, key: map<C, Key>): Option<C>
    requires Keyed(sorted, key) && (selected.Some? ==> selected.value in key)
  {
    if sorted == [] || !Ready(key[sorted[0]]) || selected == Some(sorted[0]) then None
    else if selected.None? then Some(sorted[0])
    else if key[sorted[0]].rtt <= key[selected.value].rtt - MIN_IMPROVEMENT then Some(sorted[0])
    else None
  }

  function SelectedAfter<C(==)>(s: seq<C>, selected: Option<C>, key: map<C, Key>): Option<C>
    requires Keyed(s, key) && (selected.Some? ==> selected.value in key)
  {
    var switch := SwitchTo(StableSort(s, key), selected, key);
    if switch.Some? then switch else selected
  }

  /**
   * A switch takes a ready pair that no other beats and whose round trip is at least 10 below the one it replaces;
   * sorting and judging again with unchanged measurements never switches a second time.
   */
  lemma SwitchIsSoundAndSettles<C>(s: seq<C>, selected: Option<C>, key: map<C, Key>)
    requires Keyed(s, key) && (selected.Some? ==> selected.value in key)
    ensures var sorted := StableSort(s, key);
            var switch := SwitchTo(sorted, selected, key);
            var after := SelectedAfter(s, selected, key);
            && (switch.Some? ==>
                  && switch.value in s && Ready(key[switch.value]) && switch != selected
                  && (forall i :: 0 <= i < |s| ==> !Before(key[s[i]], key[switch.value]))
                  && (selected.Some? ==> key[switch.value].rtt + MIN_IMPROVEMENT <= key[selected.value].rtt))
            && (after.Some? ==> after.value in key)
            && StableSort(sorted, key) == sorted
            && SwitchTo(StableSort(sorted, key), after, key) == None
  {
    hide *;
    SwitchIsSound(s, selected, key);
    SwitchSettles(s, selected, key);
  }

  lemma SwitchIsSound<C>(s: seq<C>, selected: Option<C>, key: map<C, Key>)
    requires Keyed(s, key) && (selected.Some? ==> selected.value in key)
    ensures var switch := SwitchTo(StableSort(s, key), selected, key);
            switch.Some? ==>
              && switch.value in s && switch.value in key && Ready(key[switch.value]) && switch != selected
              && (forall i :: 0 <= i < |s| ==> !Before(key[s[i]], key[switch.value]))
              && (selected.Some? ==> key[switch.value].rtt + MIN_IMPROVEMENT <= key[selected.value].rtt)
  {
    hide Before, StableSort, Class, Ready;
    if s != [] {
      TopIsBest(s, key);
    }
  }

  lemma SwitchSettles<C>(s: seq<C>, selected: Option<C>, key: map<C, Key>)
    requires Keyed(s, key) && (selected.Some? ==> selected.value in key)
    ensures var sorted := StableSort(s, key);
            var after := SelectedAfter(s, selected, key);
            && (after.Some? ==> after.value in key)
            && StableSort(sorted, key) == sorted
            && SwitchTo(StableSort(sorted, key), after, key) == None
  {
    hide Before, StableSort, Class, Ready, InOrder;
    StableSortIsStable(s, key);
    SortOfSorted(StableSort(s, key), key);
  }

  /** No other is sorted before it. */
  predicate Unbeaten<C>(s: seq<C>, c: C, key: map<C, Key>)
    requires Keyed(s, key) && c in key
  {
    forall i :: 0 <= i < |s| ==> !Before(key[s[i]], key[c])
  }

  /**
   * A selected pair that is no longer ready is replaced exactly when some ready pair that no other beats has a round
   * trip at least 10 below its own; so it stays while the best pair is merely as fast.
   */
  lemma UnreadySelectionIsKept<C>(s: seq<C>, selected: C, key: map<C, Key>)
    requires Keyed(s, key) && selected in key && !Ready(key[selected])
    ensures SelectedAfter(s, Some(selected), key) != Some(selected) <==>
            exists i :: 0 <= i < |s| && Unbeaten(s, s[i], key) && Ready(key[s[i]])
                        && key[s[i]].rtt + MIN_IMPROVEMENT <= key[selected].rtt
  {
    if s != [] {
      var top := StableSort(s, key)[0];
      TopIsBest(s, key);
      assert Unbeaten(s, top, key);
      forall i | 0 <= i < |s| && Unbeaten(s, s[i], key)
        ensures key[s[i]] == key[top]
      {
        BeforeIsStrictWeakOrder(key[s[i]], key[top], key[top]);
      }
    }
  }
}
