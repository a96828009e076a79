/** The chained hash of `uthash.h` on values: an application-order list indexed by buckets that
    are doubled when a chain grows too long.  `HashNodes` has the pointers; the hash function is
    any function. */
module HashTable {

  /** An element, known by its address, and the key its handle points to. */
  datatype Item = Item(id: nat, key: string)

  datatype Found = None | Some(item: Item)

  /** A chain from `hh_head` on, with the counters kept beside it. */
  datatype Bucket = Bucket(chain: seq<Item>, count: nat, expandMult: nat)

  const HASH_INITIAL_NUM_BUCKETS: nat := 32
  const HASH_INITIAL_NUM_BUCKETS_LOG2: nat := 5
  const HASH_BKT_CAPACITY_THRESH: nat := 10

  function Pow2(n: nat): nat {
    if n == 0 then 1 else 2 * Pow2(n - 1)
  }

  lemma {:induction false} Pow2Positive(n: nat)
    ensures Pow2(n) > 0
  {
    if n > 0 {
      Pow2Positive(n - 1);
    }
  }

  // ---------------------------------------------------------------- lists

  function Search(list: seq<Item>, key: string): Found {
    if list == [] then None else if list[0].key == key then Some(list[0]) else Search(list[1..], key)
  }

  predicate KeysDiffer(list: seq<Item>) {
    forall i, j | 0 <= i < j < |list| :: list[i].key != list[j].key
  }

  predicate Distinct(chain: seq<Item>) {
    forall i, j | 0 <= i < j < |chain| :: chain[i] != chain[j]
  }

  function Without(list: seq<Item>, x: Item): seq<Item> {
    if list == [] then [] else if list[0] == x then list[1..] else [list[0]] + Without(list[1..], x)
  }

  lemma {:induction false} SearchIs(list: seq<Item>, key: string)
    ensures match Search(list, key)
            case None => forall x | x in list :: x.key != key
            case Some(y) => y in list && y.key == key
  {
    if list != [] && list[0].key != key {
      SearchIs(list[1..], key);
    }
  }

  lemma SearchUnique(list: seq<Item>, x: Item)
    requires KeysDiffer(list) && x in list
    ensures Search(list, x.key) == Some(x)
  {
    SearchIs(list, x.key);
  }

  lemma {:induction false} WithoutKeeps(list: seq<Item>, x: Item)
    requires Distinct(list)
    ensures Distinct(Without(list, x)) && x !in Without(list, x)
    ensures forall y :: y in Without(list, x) <==> y in list && y != x
    ensures |Without(list, x)| == |list| - if x in list then 1 else 0
  {
    if list != [] {
      assert forall y :: y in list <==> y == list[0] || y in list[1..];
      assert forall i | 0 <= i < |list| - 1 :: list[1..][i] == list[i + 1];
      if list[0] != x {
        WithoutKeeps(list[1..], x);
        var r := Without(list[1..], x);
        assert forall y :: y in [list[0]] + r <==> y == list[0] || y in r;
        assert list[0] !in list[1..];
      } else {
        assert x !in list[1..];
      }
    }
  }

  // ---------------------------------------------------------------- buckets

  function BucketOf(hash: string -> nat, n: nat, x: Item): (k: nat)
    requires n > 0
    ensures k < n
  {
    hash(x.key) % n
  }

  /** Every item is in the chain its hash value names, once, and nothing else is. */
  predicate Filed(bs: seq<Bucket>, items: set<Item>, hash: string -> nat) {
    && |bs| > 0
    && (forall k | 0 <= k < |bs| :: bs[k].count == |bs[k].chain| && Distinct(bs[k].chain))
    && (forall k, x | 0 <= k < |bs| && x in bs[k].chain :: x in items && BucketOf(hash, |bs|, x) == k)
    && (forall x | x in items :: x in bs[BucketOf(hash, |bs|, x)].chain)
  }

  lemma EmptyBuckets(n: nat, hash: string -> nat)
    requires n > 0
    ensures Filed(seq(n, _ => Bucket([], 0, 0)), {}, hash)
  {
  }

  /** An item put at the head of its chain. */
  function Put(bs: seq<Bucket>, k: nat, x: Item): seq<Bucket>
    requires k < |bs|
  {
    bs[k := Bucket([x] + bs[k].chain, bs[k].count + 1, bs[k].expandMult)]
  }

  lemma PutFiles(bs: seq<Bucket>, items: set<Item>, hash: string -> nat, x: Item)
    requires Filed(bs, items, hash) && x !in items
    ensures Filed(Put(bs, BucketOf(hash, |bs|, x), x), items + {x}, hash)
  {
    var k := BucketOf(hash, |bs|, x);
    var chain := [x] + bs[k].chain;
    assert forall y :: y in chain <==> y == x || y in bs[k].chain;
    assert x !in bs[k].chain;
  }

  /** `HASH_DEL_IN_BKT`. */
  function Take(bs: seq<Bucket>, k: nat, x: Item): seq<Bucket>
    requires k < |bs| && bs[k].count > 0
  {
    bs[k := Bucket(Without(bs[k].chain, x), bs[k].count - 1, bs[k].expandMult)]
  }

  lemma TakeUnfiles(bs: seq<Bucket>, items: set<Item>, hash: string -> nat, x: Item)
    requires Filed(bs, items, hash) && x in items
    ensures var k := BucketOf(hash, |bs|, x); bs[k].count > 0 && Filed(Take(bs, k, x), items - {x}, hash)
  {
    var k := BucketOf(hash, |bs|, x);
    WithoutKeeps(bs[k].chain, x);
  }

  // ---------------------------------------------------------------- counters

  function Total(bs: seq<Bucket>): nat {
    if bs == [] then 0 else bs[0].count + Total(bs[1..])
  }

  function Over(count: nat, ideal: nat): nat {
    if count > ideal then count - ideal else 0
  }

  /** The number of items beyond the ideal chain length, over all buckets. */
  function Excess(bs: seq<Bucket>, ideal: nat): nat {
    if bs == [] then 0 else Over(bs[0].count, ideal) + Excess(bs[1..], ideal)
  }

  lemma {:induction false} ExcessUpdate(bs: seq<Bucket>, k: nat, b: Bucket, ideal: nat)
    requires k < |bs|
    ensures Excess(bs[k := b], ideal) == Excess(bs, ideal) - Over(bs[k].count, ideal) + Over(b.count, ideal)
  {
    if k > 0 {
      assert bs[k := b][1..] == bs[1..][k - 1 := b];
      ExcessUpdate(bs[1..], k - 1, b, ideal);
    } else {
      assert bs[k := b][1..] == bs[1..];
    }
  }

  lemma {:induction false} NoExcess(n: nat, ideal: nat)
    ensures Excess(seq(n, _ => Bucket([], 0, 0)), ideal) == 0
  {
    if n > 0 {
      assert seq(n, _ => Bucket([], 0, 0))[1..] == seq(n - 1, _ => Bucket([], 0, 0));
      NoExcess(n - 1, ideal);
    }
  }

  /** The items of the buckets from `k` on. */
  function After(bs: seq<Bucket>, items: set<Item>, hash: string -> nat, k: nat): set<Item>
    requires |bs| > 0
  {
    set x | x in items && BucketOf(hash, |bs|, x) >= k
  }

  lemma {:induction false} ChainSize(chain: seq<Item>)
    requires Distinct(chain)
    ensures |set x | x in chain| == |chain|
  {
    if chain != [] {
      var rest := chain[1..];
      ChainSize(rest);
      assert (set x | x in chain) == (set x | x in rest) + {chain[0]};
      assert chain[0] !in rest;
    }
  }

  lemma AfterStep(bs: seq<Bucket>, items: set<Item>, hash: string -> nat, k: nat)
    requires Filed(bs, items, hash) && k < |bs|
    ensures var here := set x | x in bs[k].chain;
            After(bs, items, hash, k) == After(bs, items, hash, k + 1) + here && here !! After(bs, items, hash, k + 1)
    ensures Distinct(bs[k].chain) && bs[k].count == |bs[k].chain|
  {
  }

  /** The counts of the buckets add up to the number of items. */
  lemma {:induction false} CountsAddUp(bs: seq<Bucket>, items: set<Item>, hash: string -> nat, k: nat)
    requires Filed(bs, items, hash) && k <= |bs|
    ensures Total(bs[k..]) == |After(bs, items, hash, k)|
    decreases |bs| - k
  {
    if k == |bs| {
      assert After(bs, items, hash, k) == {};
    } else {
      CountsAddUp(bs, items, hash, k + 1);
      AfterStep(bs, items, hash, k);
      ChainSize(bs[k].chain);
      hide Filed, After;
      assert bs[k..][0] == bs[k] && bs[k..][1..] == bs[k + 1..];
    }
  }

  /** `ceil(n / b)`, with the shift and the mask of the source. */
  function CeilShift(n: nat, lb: nat): nat {
    Pow2Positive(lb);
    n / Pow2(lb) + if n % Pow2(lb) != 0 then 1 else 0
  }

  /** It is the least chain length with which `b` chains hold `n` items. */
  lemma CeilShiftLeast(n: nat, lb: nat)
    ensures n <= CeilShift(n, lb) * Pow2(lb)
    ensures n > 0 ==> (CeilShift(n, lb) - 1) * Pow2(lb) < n
    ensures n > 0 ==> CeilShift(n, lb) > 0
  {
    Pow2Positive(lb);
    var b := Pow2(lb);
    var q, r := n / b, n % b;
    assert n == q * b + r;
    assert (q + 1) * b == q * b + b;
    assert (q - 1) * b == q * b - b;
  }

  // ---------------------------------------------------------------- the table

  /** The expansion multiplier a doubling leaves in a bucket. */
  predicate Multiplier(b: Bucket, ideal: nat) {
    ideal > 0 && b.expandMult == if b.count > ideal then b.count / ideal else 0
  }

  function Elements(list: seq<Item>): set<Item> {
    set x | x in list
  }

  /** Buckets half way through a doubling. */
  predicate Moved(bs: seq<Bucket>, done: set<Item>, hash: string -> nat, ideal: nat, nonideal: nat) {
    && Filed(bs, done, hash)
    && nonideal == Excess(bs, ideal)
    && forall k | 0 <= k < |bs| :: Multiplier(bs[k], ideal)
  }

  /** The multipliers do not matter for where items are. */
  lemma SameFiled(bs: seq<Bucket>, cs: seq<Bucket>, items: set<Item>, hash: string -> nat)
    requires Filed(bs, items, hash) && |bs| == |cs|
    requires forall k | 0 <= k < |bs| :: cs[k].chain == bs[k].chain && cs[k].count == bs[k].count
    ensures Filed(cs, items, hash)
  {
  }

  /** The items of the first `k` buckets. */
  function Before(bs: seq<Bucket>, items: set<Item>, hash: string -> nat, k: nat): set<Item>
    requires |bs| > 0
  {
    set x | x in items && BucketOf(hash, |bs|, x) < k
  }

  lemma ChainOf(bs: seq<Bucket>, items: set<Item>, hash: string -> nat, k: nat)
    requires Filed(bs, items, hash) && k < |bs|
    ensures Distinct(bs[k].chain)
    ensures Before(bs, items, hash, k + 1) == Before(bs, items, hash, k) + Elements(bs[k].chain)
    ensures Before(bs, items, hash, k) !! Elements(bs[k].chain)
  {
  }

  lemma BeforeAll(bs: seq<Bucket>, items: set<Item>, hash: string -> nat)
    requires |bs| > 0
    ensures Before(bs, items, hash, |bs|) == items && Before(bs, items, hash, 0) == {}
  {
  }

  lemma NewKey(list: seq<Item>, x: Item)
    requires KeysDiffer(list + [x])
    ensures x !in list
  {
    forall i | 0 <= i < |list|
      ensures list[i].key != x.key
    {
      assert (list + [x])[i] == list[i] && (list + [x])[|list|] == x;
    }
  }

  lemma ElementsMore(list: seq<Item>, x: Item)
    ensures Elements(list + [x]) == Elements(list) + {x}
  {
  }

  lemma DistinctKeys(list: seq<Item>)
    requires KeysDiffer(list)
    ensures Distinct(list)
  {
  }

  lemma {:induction false} WithoutDiffers(list: seq<Item>, x: Item)
    requires KeysDiffer(list)
    ensures KeysDiffer(Without(list, x))
  {
    if list != [] && list[0] != x {
      assert forall i, j | 0 <= i < j < |list| - 1 :: list[1..][i].key == list[i + 1].key && list[1..][j].key == list[j + 1].key;
      WithoutDiffers(list[1..], x);
      DistinctKeys(list[1..]);
      WithoutKeeps(list[1..], x);
      forall y | y in Without(list[1..], x)
        ensures y.key != list[0].key
      {
        var i :| 0 <= i < |list| - 1 && list[1..][i] == y;
      }
    }
  }

  // ---------------------------------------------------------------- the application's view

  datatype Op = Add(x: Item) | Replace(x: Item) | Delete(key: string)

  /** What an operation means for a plain list; adding a key that is there already is not allowed. */
  function Apply(list: seq<Item>, op: Op): seq<Item> {
    match op
    case Add(x) => if Search(list, x.key).None? then list + [x] else list
    case Replace(x) =>
      (match Search(list, x.key) case None => list case Some(y) => Without(list, y)) + [x]
    case Delete(key) => match Search(list, key) case None => list case Some(y) => Without(list, y)
  }

  function ApplyAll(list: seq<Item>, ops: seq<Op>): seq<Item> {
    if ops == [] then list else Apply(ApplyAll(list, ops[..|ops| - 1]), ops[|ops| - 1])
  }

  lemma MayAdd(list: seq<Item>, x: Item)
    requires KeysDiffer(list) && Search(list, x.key) == None
    ensures KeysDiffer(list + [x])
  {
    SearchIs(list, x.key);
  }

  /** Looking through one chain finds what looking through the whole list would. */
  lemma ChainHasKey(bs: seq<Bucket>, list: seq<Item>, hash: string -> nat, key: string)
    requires |bs| > 0 && Filed(bs, Elements(list), hash) && KeysDiffer(list)
    ensures Search(bs[hash(key) % |bs|].chain, key) == Search(list, key)
  {
    var k := hash(key) % |bs|;
    SearchIs(bs[k].chain, key);
    SearchIs(list, key);
    match Search(list, key) {
      case None =>
      case Some(y) => assert y in Elements(list) && BucketOf(hash, |bs|, y) == k;
    }
    match Search(bs[k].chain, key) {
      case None =>
      case Some(y) =>
        assert y in Elements(list);
        SearchUnique(list, y);
    }
  }

  lemma GoneAfter(list: seq<Item>, x: Item)
    requires KeysDiffer(list) && x in list
    ensures Search(Without(list, x), x.key) == None
  {
    DistinctKeys(list);
    WithoutKeeps(list, x);
    SearchUnique(list, x);
    SearchIs(Without(list, x), x.key);
    match Search(Without(list, x), x.key) {
      case None =>
      case Some(y) => SearchUnique(list, y);
    }
  }

  // ---------------------------------------------------------------- a dictionary

  /** What is found after an operation, for every key. */
  function FoundAfter(before: Found, op: Op, key: string): Found {
    match op
    case Add(x) => if key == x.key && before.None? then Some(x) else before
    case Replace(x) => if key == x.key then Some(x) else before
    case Delete(k) => if key == k then None else before
  }

  lemma {:induction false} SearchJoin(xs: seq<Item>, ys: seq<Item>, key: string)
    ensures Search(xs + ys, key) == match Search(xs, key) case None => Search(ys, key) case Some(x) => Some(x)
  {
    if xs == [] {
      assert xs + ys == ys;
    } else {
      assert (xs + ys)[1..] == xs[1..] + ys;
      SearchJoin(xs[1..], ys, key);
    }
  }

  lemma {:induction false} SearchWithout(list: seq<Item>, y: Item, key: string)
    requires KeysDiffer(list) && y in list
    ensures Search(Without(list, y), key) == if key == y.key then None else Search(list, key)
  {
    if list[0] == y {
      if key == y.key {
        SearchIs(list[1..], key);
        assert forall x | x in list[1..] :: x.key != key;
      }
    } else {
      SearchWithout(list[1..], y, key);
    }
  }

  /** The table is a dictionary: an operation on one key changes what is found under that key, as its name says, and nothing else. */
  lemma ApplyFinds(list: seq<Item>, op: Op, key: string)
    requires KeysDiffer(list)
    ensures Search(Apply(list, op), key) == FoundAfter(Search(list, key), op, key)
  {
    if op.Add? {
      SearchJoin(list, [op.x], key);
    } else {
      var k := if op.Replace? then op.x.key else op.key;
      SearchIs(list, k);
      match Search(list, k) {
        case None =>
          if op.Replace? {
            SearchJoin(list, [op.x], key);
          }
        case Some(y) =>
          SearchWithout(list, y, key);
          if op.Replace? {
            SearchJoin(Without(list, y), [op.x], key);
          }
      }
    }
  }

  lemma ApplyDiffers(list: seq<Item>, op: Op)
    requires KeysDiffer(list)
    ensures KeysDiffer(Apply(list, op))
  {
    if op.Add? {
      if Search(list, op.x.key).None? {
        MayAdd(list, op.x);
      }
    } else {
      var k := if op.Replace? then op.x.key else op.key;
      SearchIs(list, k);
      match Search(list, k) {
        case None =>
          if op.Replace? {
            MayAdd(list, op.x);
          }
        case Some(y) =>
          WithoutDiffers(list, y);
          GoneAfter(list, y);
          if op.Replace? {
            MayAdd(Without(list, y), op.x);
          }
      }
    }
  }

  /** What is found under a key after a run, told from the operations on that key alone. */
  function FoundAfterAll(ops: seq<Op>, key: string): Found {
    if ops == [] then None else FoundAfter(FoundAfterAll(ops[..|ops| - 1], key), ops[|ops| - 1], key)
  }

  /** Over every run: the last operation on a key decides what is found under it. */
  lemma {:induction false} RunFinds(ops: seq<Op>, key: string)
    ensures KeysDiffer(ApplyAll([], ops)) && Search(ApplyAll([], ops), key) == FoundAfterAll(ops, key)
    decreases |ops|
  {
    if ops != [] {
      hide Apply, FoundAfter;
      var front := ApplyAll([], ops[..|ops| - 1]);
      RunFinds(ops[..|ops| - 1], key);
      ApplyDiffers(front, ops[|ops| - 1]);
      ApplyFinds(front, ops[|ops| - 1], key);
    }
  }
}
