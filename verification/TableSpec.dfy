/** The table as a finite map. */
module TableSpec {
  import opened Bits

  /** Keys are non-negative 32-bit integers. */
  const KEY_LIMIT: nat := 0x8000_0000

  predicate Has(masks: seq<bv64>, k: nat) { k / 64 < |masks| && Used(masks[k / 64], k % 64) }

  ghost function Contents<T>(masks: seq<bv64>, items: seq<T>): map<nat, T>
    requires |items| == 64 * |masks|
  {
    map k: nat | k < |items| && Has(masks, k) :: items[k]
  }

  lemma {:induction false} OtherKey(j: nat, k: nat)
    ensures j == k <==> j / 64 == k / 64 && j % 64 == k % 64
  {
  }

  lemma {:induction false} SetHas(masks: seq<bv64>, key: nat, k: nat)
    requires key / 64 < |masks|
    ensures Has(masks[key / 64 := Set(masks[key / 64], key % 64)], k) <==> Has(masks, k) || k == key
  {
    hide Used;
    hide Set;
    OtherKey(k, key);
    SetUsed(masks[key / 64], k % 64, key % 64);
  }

  lemma {:induction false} ClearHas(masks: seq<bv64>, key: nat, k: nat)
    requires key / 64 < |masks|
    ensures Has(masks[key / 64 := Clear(masks[key / 64], key % 64)], k) <==> Has(masks, k) && k != key
  {
    hide Used;
    hide Clear;
    OtherKey(k, key);
    ClearUsed(masks[key / 64], k % 64, key % 64);
  }

  lemma {:induction false} InsertContents<T>(masks: seq<bv64>, items: seq<T>, key: nat, item: T)
    requires |items| == 64 * |masks| && key < |items|
    ensures Contents(masks[key / 64 := Set(masks[key / 64], key % 64)], items[key := item]) ==
            Contents(masks, items)[key := item]
  {
    hide Has;
    var after := masks[key / 64 := Set(masks[key / 64], key % 64)];
    forall k: nat
      ensures Has(after, k) <==> Has(masks, k) || k == key
    {
      SetHas(masks, key, k);
    }
  }

  lemma {:induction false} DeleteContents<T>(masks: seq<bv64>, items: seq<T>, key: nat, zero: T)
    requires |items| == 64 * |masks| && key < |items|
    ensures Contents(masks[key / 64 := Clear(masks[key / 64], key % 64)], items[key := zero]) ==
            Contents(masks, items) - {key}
  {
    hide Has;
    var after := masks[key / 64 := Clear(masks[key / 64], key % 64)];
    forall k: nat
      ensures Has(after, k) <==> Has(masks, k) && k != key
    {
      ClearHas(masks, key, k);
    }
  }

  lemma {:induction false} GrowContents<T>(masks: seq<bv64>, items: seq<T>, n: nat, fill: seq<T>)
    requires |items| == 64 * |masks| && |fill| == 64 * n
    ensures Contents(masks + seq(n, _ => 0), items + fill) == Contents(masks, items)
  {
    hide Used;
    var grown := masks + seq(n, _ => 0);
    forall k: nat
      ensures Has(grown, k) <==> Has(masks, k)
    {
      NoneUsed(k % 64);
    }
    hide Has;
    assert forall k: nat :: Has(masks, k) ==> k < |items| by {
      forall k: nat | Has(masks, k)
        ensures k < |items|
      {
        HasInside(masks, k);
      }
    }
  }

  lemma {:induction false} HasInside(masks: seq<bv64>, k: nat)
    requires Has(masks, k)
    ensures k < 64 * |masks|
  {
  }

  // ---- counting -------------------------------------------------------------------

  ghost function KeysBelow(masks: seq<bv64>, n: nat): set<nat> { set k: nat | k < n && Has(masks, k) }

  lemma {:induction false} OneMoreKey(masks: seq<bv64>, n: nat)
    ensures |KeysBelow(masks, n + 1)| == |KeysBelow(masks, n)| + if Has(masks, n) then 1 else 0
  {
    hide Has;
    if Has(masks, n) {
      assert KeysBelow(masks, n + 1) == KeysBelow(masks, n) + {n};
    } else {
      assert KeysBelow(masks, n + 1) == KeysBelow(masks, n);
    }
  }

  lemma {:induction false} CountMask(masks: seq<bv64>, i: nat, j: nat)
    requires i < |masks| && j <= 64
    ensures |KeysBelow(masks, 64 * i + 64)| == |KeysBelow(masks, 64 * i + j)| + OnesCount(masks[i], j)
    decreases 64 - j
  {
    hide Used;
    if j < 64 {
      var k := 64 * i + j;
      assert k / 64 == i && k % 64 == j;
      assert Has(masks, k) <==> Used(masks[i], j);
      OneMoreKey(masks, k);
      CountMask(masks, i, j + 1);
    }
  }

  lemma {:induction false} CountAll<T>(masks: seq<bv64>, items: seq<T>)
    requires |items| == 64 * |masks|
    ensures |Contents(masks, items)| == |KeysBelow(masks, 64 * |masks|)|
  {
    hide Has;
    assert Contents(masks, items).Keys == KeysBelow(masks, 64 * |masks|);
  }
}
