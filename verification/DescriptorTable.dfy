/** The descriptor table (internal/descriptor/table.go:27-149): 64-bit masks say which keys are used. */
module DescriptorTable {
  import opened Wrappers
  import opened Bits
  import opened TableSpec

  class Table<T> {
    /** Go's zero value of the item type. */
    const zero: T
    var masks: seq<bv64>
    var items: seq<T>

    predicate Valid()
      reads this
    {
      |items| == 64 * |masks| && |items| <= KEY_LIMIT
    }

    ghost function View(): map<nat, T>
      reads this
      requires Valid()
    {
      Contents(masks, items)
    }

    constructor (zero: T)
      ensures Valid() && View() == map[] && this.zero == zero
    {
      this.zero := zero;
      masks := [];
      items := [];
    }

    /** The number of items: the set bits of all masks. */
    method Len() returns (n: nat)
      requires Valid()
      ensures n == |View()|
    {
      hide Has;
      hide OnesCount;
      n := 0;
      for i := 0 to |masks|
        invariant n == |KeysBelow(masks, 64 * i)|
      {
        CountMask(masks, i, 0);
        n := n + OnesCount(masks[i], 0);
      }
      CountAll(masks, items);
    }

    method Grow(n: nat)
      requires Valid() && |items| + 64 * n <= KEY_LIMIT
      modifies this
      ensures Valid() && View() == old(View())
      ensures masks == old(masks) + seq(n, _ => 0) && |items| == old(|items|) + 64 * n
    {
      hide Has;
      ghost var fill := seq(64 * n, _ => zero);
      GrowContents(masks, items, n, fill);
      masks := masks + seq(n, _ => 0);
      items := items + seq(64 * n, _ => zero);
    }

    /** Store under a key that the table covers. */
    method Store(item: T, key: nat)
      requires Valid() && key < |items|
      modifies this
      ensures Valid() && View() == old(View())[key := item] && |masks| == old(|masks|)
    {
      hide Has;
      InsertContents(masks, items, key, item);
      masks := masks[key / 64 := Set(masks[key / 64], key % 64)];
      items := items[key := item];
    }

    /** The least unused key, as long as there is one. */
    method Insert(item: T) returns (key: nat)
      requires Valid() && exists k: nat :: k < KEY_LIMIT && k !in View()
      modifies this
      ensures Valid() && key < KEY_LIMIT
      ensures key !in old(View()) && forall k: nat :: k < key ==> k in old(View())
      ensures View() == old(View())[key := item]
    {
      hide Has;
      hide AllBelow;
      hide FirstClear;
      hide Contents;
      var index: nat := 0;
      AllBelowZero(masks);
      while true
        invariant Valid() && View() == old(View()) && index <= |masks|
        invariant AllBelow(masks, 64 * index)
        decreases KEY_LIMIT / 64 - index
      {
        if index == |masks| {
          FullTable(masks, items);
          GrowKeeps(masks, 64 * index, 1);
          Grow(1);
          NoneUsedFirst();
        }
        var mask := masks[index];
        NotFull(mask);
        if !mask != 0 {
          var shift := FirstClear(mask, 0);
          key := index * 64 + shift;
          LeastKey(masks, index);
          UsedKeys(masks, items, key);
          Store(item, key);
          return;
        }
        FullMask(masks, index);
        index := index + 1;
      }
    }

    /** Visit the items in ascending key order until `f` says stop. */
    method Range(f: (nat, T) -> bool) returns (visited: seq<nat>)
      requires Valid()
      ensures Ranged(View(), f, visited)
    {
      hide Has;
      hide VisitedBelow;
      hide Ranged;
      visited := [];
      NothingVisited(masks, items, f);
      for i := 0 to |masks|
        invariant VisitedBelow(masks, items, f, visited, 64 * i)
      {
        var mask := masks[i];
        if mask == 0 {
          EmptyMask(masks, items, f, visited, i);
        } else {
          for j := 0 to 64
            invariant VisitedBelow(masks, items, f, visited, 64 * i + j)
          {
            var key := 64 * i + j;
            AtKey(masks, i, j);
            VisitNext(masks, items, f, visited, key);
            if Used(mask, j) {
              visited := visited + [key];
              if !f(key, items[key]) {
                return;
              }
            }
          }
        }
      }
      VisitedAll(masks, items, f, visited);
    }

    method Lookup(key: int) returns (r: Option<T>)
      requires Valid()
      ensures r == if 0 <= key && key in View() then Some(View()[key]) else None
    {
      if key < 0 {
        return None;
      }
      if key < |items| && Used(masks[key / 64], key % 64) {
        return Some(items[key]);
      }
      r := None;
    }

    method InsertAt(item: T, key: int) returns (ok: bool)
      requires Valid() && key < KEY_LIMIT
      modifies this
      ensures Valid() && ok == (key >= 0)
      ensures View() == if ok then old(View())[key := item] else old(View())
    {
      if key < 0 {
        return false;
      }
      var diff := key / 64 - |masks| + 1;
      if diff > 0 {
        Grow(diff);
      }
      Store(item, key);
      ok := true;
    }

    method Delete(key: int)
      requires Valid()
      modifies this
      ensures Valid()
      ensures View() == if key < 0 then old(View()) else old(View()) - {key}
    {
      hide Used;
      if key < 0 {
        return;
      }
      if key / 64 < |masks| && Used(masks[key / 64], key % 64) {
        DeleteContents(masks, items, key, zero);
        masks := masks[key / 64 := Clear(masks[key / 64], key % 64)];
        items := items[key := zero];
      }
    }
  }

  // ---- ranging ------------------------------------------------------------------------

  predicate Ascending(s: seq<nat>) { forall i, j :: 0 <= i < j < |s| ==> s[i] < s[j] }

  /** Keys of the map in ascending order, all of them unless `f` stopped at the last one. */
  ghost predicate Ranged<T>(view: map<nat, T>, f: (nat, T) -> bool, visited: seq<nat>) {
    && Ascending(visited)
    && (forall i :: 0 <= i < |visited| ==> visited[i] in view)
    && (forall i :: 0 <= i < |visited| - 1 ==> f(visited[i], view[visited[i]]))
    && forall k :: k in view && k !in visited ==>
         visited != [] && visited[|visited| - 1] < k && !f(visited[|visited| - 1], view[visited[|visited| - 1]])
  }

  /** Every used key below `n` was visited, in order, and none stopped the iteration. */
  ghost predicate VisitedBelow<T>(masks: seq<bv64>, items: seq<T>, f: (nat, T) -> bool, visited: seq<nat>, n: nat)
    requires |items| == 64 * |masks|
  {
    && Ascending(visited)
    && (forall i :: 0 <= i < |visited| ==>
          visited[i] < n && visited[i] < |items| && Has(masks, visited[i]) && f(visited[i], items[visited[i]]))
    && forall k: nat :: k < n && Has(masks, k) ==> k in visited
  }

  lemma {:induction false} NothingVisited<T>(masks: seq<bv64>, items: seq<T>, f: (nat, T) -> bool)
    requires |items| == 64 * |masks|
    ensures VisitedBelow(masks, items, f, [], 0)
  {
  }

  lemma {:induction false} AtKey(masks: seq<bv64>, i: nat, j: nat)
    requires i < |masks| && j < 64
    ensures Has(masks, 64 * i + j) <==> Used(masks[i], j)
  {
    hide Used;
    assert (64 * i + j) / 64 == i && (64 * i + j) % 64 == j;
  }

  lemma {:induction false} VisitNext<T>(masks: seq<bv64>, items: seq<T>, f: (nat, T) -> bool, visited: seq<nat>, key: nat)
    requires |items| == 64 * |masks| && key < |items| && VisitedBelow(masks, items, f, visited, key)
    ensures !Has(masks, key) ==> VisitedBelow(masks, items, f, visited, key + 1)
    ensures Has(masks, key) && f(key, items[key]) ==> VisitedBelow(masks, items, f, visited + [key], key + 1)
    ensures Has(masks, key) && !f(key, items[key]) ==> Ranged(Contents(masks, items), f, visited + [key])
  {
    hide Has;
    var more, view := visited + [key], Contents(masks, items);
    if Has(masks, key) && !f(key, items[key]) {
      forall k | k in view && k !in more
        ensures key < k
      {
        assert k in visited || !(k < key);
      }
    }
  }

  lemma {:induction false} EmptyMask<T>(masks: seq<bv64>, items: seq<T>, f: (nat, T) -> bool, visited: seq<nat>, i: nat)
    requires |items| == 64 * |masks| && i < |masks| && masks[i] == 0 && VisitedBelow(masks, items, f, visited, 64 * i)
    ensures VisitedBelow(masks, items, f, visited, 64 * i + 64)
  {
    forall k: nat | 64 * i <= k < 64 * i + 64
      ensures !Has(masks, k)
    {
      AtKey(masks, i, k - 64 * i);
      NoneUsed(k - 64 * i);
    }
    hide Has;
  }

  lemma {:induction false} VisitedAll<T>(masks: seq<bv64>, items: seq<T>, f: (nat, T) -> bool, visited: seq<nat>)
    requires |items| == 64 * |masks| && VisitedBelow(masks, items, f, visited, 64 * |masks|)
    ensures Ranged(Contents(masks, items), f, visited)
  {
    hide Has;
  }

  // ---- the least unused key ------------------------------------------------------------

  predicate AllBelow(masks: seq<bv64>, n: nat) { forall k: nat :: k < n ==> Has(masks, k) }

  lemma {:induction false} AllBelowZero(masks: seq<bv64>)
    ensures AllBelow(masks, 0)
  {
  }

  lemma {:induction false} GrowKeeps(masks: seq<bv64>, n: nat, more: nat)
    requires AllBelow(masks, n)
    ensures AllBelow(masks + seq(more, _ => 0), n)
  {
    hide Used;
    var grown := masks + seq(more, _ => 0);
    forall k: nat | k < n
      ensures Has(grown, k)
    {
      assert Has(masks, k);
    }
  }

  lemma {:induction false} NoneUsedFirst()
    ensures FirstClear(0, 0) == 0
  {
    NoneUsed(0);
  }

  /** The keys of the map below and at an unused key. */
  lemma {:induction false} UsedKeys<T>(masks: seq<bv64>, items: seq<T>, key: nat)
    requires |items| == 64 * |masks| && AllBelow(masks, key) && !Has(masks, key)
    ensures key !in Contents(masks, items) && forall k: nat :: k < key ==> k in Contents(masks, items)
  {
    forall k: nat | k < key
      ensures k in Contents(masks, items)
    {
      assert Has(masks, k);
      HasInside(masks, k);
    }
  }

  lemma {:induction false} FullTable<T>(masks: seq<bv64>, items: seq<T>)
    requires |items| == 64 * |masks| && |items| <= KEY_LIMIT
    requires exists k: nat :: k < KEY_LIMIT && k !in Contents(masks, items)
    requires AllBelow(masks, 64 * |masks|)
    ensures |items| + 64 <= KEY_LIMIT
  {
    var k: nat :| k < KEY_LIMIT && k !in Contents(masks, items);
    assert !(k < |items|);
  }

  lemma {:induction false} FullMask(masks: seq<bv64>, index: nat)
    requires index < |masks| && FirstClear(masks[index], 0) == 64
    requires AllBelow(masks, 64 * index)
    ensures AllBelow(masks, 64 * (index + 1))
  {
    hide Used;
    hide FirstClear;
    forall k: nat | 64 * index <= k < 64 * (index + 1)
      ensures Has(masks, k)
    {
      assert k / 64 == index && Used(masks[index], k % 64);
    }
  }

  lemma {:induction false} LeastKey(masks: seq<bv64>, index: nat)
    requires index < |masks| && FirstClear(masks[index], 0) < 64
    requires AllBelow(masks, 64 * index)
    ensures var key := index * 64 + FirstClear(masks[index], 0);
            !Has(masks, key) && AllBelow(masks, key)
  {
    hide Used;
    hide FirstClear;
    var shift := FirstClear(masks[index], 0);
    var key := index * 64 + shift;
    assert key / 64 == index && key % 64 == shift;
    forall k: nat | 64 * index <= k < key
      ensures Has(masks, k)
    {
      assert k / 64 == index && Used(masks[index], k % 64);
    }
  }
}
