/** The nodes of `uthash.h`: handles that are linked twice, in application order with `prev` and
    `next` and along the chain of a bucket with `hh_prev` and `hh_next`, the operations that relink
    them, and the integrity check `HASH_FSCK`. */
module HashNodes {
  import opened HashTable

  class Node {
    const item: Item
    var prev: Node?
    var next: Node?
    var hhPrev: Node?
    var hhNext: Node?

    constructor (item: Item)
      ensures this.item == item
    {
      this.item := item;
      prev, next, hhPrev, hhNext := null, null, null, null;
    }
  }

  function ItemsOf(ns: seq<Node>): (r: seq<Item>)
    ensures |r| == |ns| && forall i | 0 <= i < |ns| :: r[i] == ns[i].item
  {
    seq(|ns|, i requires 0 <= i < |ns| => ns[i].item)
  }

  function NodeSet(ns: seq<Node>): (s: set<Node>)
    ensures (forall n | n in ns :: n in s) && forall n | n in s :: n in ns
  {
    set n | n in ns
  }

  predicate Once(ns: seq<Node>) {
    forall i, j | 0 <= i < j < |ns| :: ns[i] != ns[j]
  }

  function First(ns: seq<Node>): Node? {
    if ns == [] then null else ns[0]
  }

  function RemoveAt(ns: seq<Node>, k: nat): seq<Node>
    requires k < |ns|
  {
    ns[..k] + ns[k + 1..]
  }

  // ---------------------------------------------------------------- the two kinds of list

  /** The chain of a bucket: NULL before its head and after its end. */
  ghost predicate Chained(c: seq<Node>)
    reads c`hhPrev, c`hhNext
  {
    && Once(c)
    && (forall i {:trigger c[i].hhNext} | 0 <= i < |c| :: c[i].hhNext == if i + 1 < |c| then c[i + 1] else null)
    && (forall i {:trigger c[i].hhPrev} | 0 <= i < |c| :: c[i].hhPrev == if i > 0 then c[i - 1] else null)
  }

  /** The application-order list: the same with the other two links. */
  ghost predicate Listed(ns: seq<Node>)
    reads ns`prev, ns`next
  {
    && Once(ns)
    && (forall i {:trigger ns[i].next} | 0 <= i < |ns| :: ns[i].next == if i + 1 < |ns| then ns[i + 1] else null)
    && (forall i {:trigger ns[i].prev} | 0 <= i < |ns| :: ns[i].prev == if i > 0 then ns[i - 1] else null)
  }

  /** A chain that is being taken apart from the front: only the forward links are looked at. */
  ghost predicate Ahead(c: seq<Node>)
    reads c`hhNext
  {
    Once(c) && forall i {:trigger c[i].hhNext} | 0 <= i < |c| :: c[i].hhNext == if i + 1 < |c| then c[i + 1] else null
  }

  /** The links of `HASH_ADD_TO_BKT`. */
  method PushHead(head: Node?, x: Node, ghost c: seq<Node>)
    requires Chained(c) && head == First(c) && x !in c
    modifies x`hhPrev, x`hhNext, c`hhPrev
    ensures Chained([x] + c)
  {
    x.hhNext := head;
    x.hhPrev := null;
    if head != null {
      head.hhPrev := x;
    }
  }

  /** The links of `HASH_DEL_IN_BKT`. */
  method Unchain(head: Node?, x: Node, ghost c: seq<Node>, ghost k: nat) returns (head': Node?)
    requires Chained(c) && head == First(c) && k < |c| && c[k] == x
    modifies c`hhPrev, c`hhNext
    ensures Chained(RemoveAt(c, k)) && head' == First(RemoveAt(c, k))
  {
    head' := head;
    if head == x {
      head' := x.hhNext;
    }
    if x.hhPrev != null {
      x.hhPrev.hhNext := x.hhNext;
    }
    if x.hhNext != null {
      x.hhNext.hhPrev := x.hhPrev;
    }
  }

  /** The links of `HASH_ADD_KEYPTR` behind the tail. */
  method LinkLast(tail: Node, x: Node, ghost ns: seq<Node>)
    requires Listed(ns) && ns != [] && tail == ns[|ns| - 1] && x !in ns
    modifies x`prev, x`next, tail`next
    ensures Listed(ns + [x])
  {
    x.next := null;
    tail.next := x;
    x.prev := tail;
  }

  /** The links of `HASH_DELETE` when other elements are left. */
  method Unlist(head: Node, tail: Node, x: Node, ghost ns: seq<Node>, ghost k: nat) returns (head': Node, tail': Node)
    requires Listed(ns) && |ns| > 1 && k < |ns| && ns[k] == x && head == ns[0] && tail == ns[|ns| - 1]
    modifies ns`prev, ns`next
    ensures var r := RemoveAt(ns, k); Listed(r) && head' == r[0] && tail' == r[|r| - 1]
  {
    head', tail' := head, tail;
    if x == tail {
      tail' := x.prev;
    }
    if x.prev != null {
      x.prev.next := x.next;
    } else {
      head' := x.next;
    }
    if x.next != null {
      x.next.prev := x.prev;
    }
  }

  // ---------------------------------------------------------------- buckets of chains

  /** A bucket as it is stored. */
  datatype Cell = Cell(hhHead: Node?, count: nat, expandMult: nat)

  const NO_CELL := Cell(null, 0, 0)

  /** No node is in two chains. */
  predicate Apart(chains: seq<seq<Node>>) {
    forall j, k, y | 0 <= j < |chains| && 0 <= k < |chains| && j != k && y in chains[j] :: y !in chains[k]
  }

  predicate Inside(chains: seq<seq<Node>>, nodes: set<Node>) {
    forall k, y | 0 <= k < |chains| && y in chains[k] :: y in nodes
  }

  /** The buckets lead to the chains, the chains are linked, and they hold nodes of `nodes` alone. */
  ghost predicate Linked(cells: seq<Cell>, chains: seq<seq<Node>>, nodes: set<Node>)
    reads nodes`hhPrev, nodes`hhNext
  {
    && |cells| == |chains| && Apart(chains) && Inside(chains, nodes)
    && forall k | 0 <= k < |chains| :: cells[k].hhHead == First(chains[k]) && Chained(chains[k])
  }

  /** The buckets as values. */
  function SpecOf(cells: seq<Cell>, chains: seq<seq<Node>>): (r: seq<Bucket>)
    requires |cells| == |chains|
    ensures |r| == |cells|
    ensures forall k | 0 <= k < |cells| :: r[k] == Bucket(ItemsOf(chains[k]), cells[k].count, cells[k].expandMult)
  {
    seq(|cells|, k requires 0 <= k < |cells| => Bucket(ItemsOf(chains[k]), cells[k].count, cells[k].expandMult))
  }

  lemma NoChains(n: nat)
    ensures var cells, chains := seq(n, _ => NO_CELL), seq(n, _ => []);
            Linked(cells, chains, {}) && SpecOf(cells, chains) == seq(n, _ => Bucket([], 0, 0))
  {
  }

  lemma ApartMore(chains: seq<seq<Node>>, k: nat, x: Node, nodes: set<Node>)
    requires k < |chains| && Apart(chains) && Inside(chains, nodes) && x !in nodes
    ensures Apart(chains[k := [x] + chains[k]]) && Inside(chains[k := [x] + chains[k]], nodes + {x})
  {
  }

  lemma ApartLess(chains: seq<seq<Node>>, k: nat, i: nat, nodes: set<Node>)
    requires k < |chains| && Apart(chains) && Inside(chains, nodes) && i < |chains[k]| && Once(chains[k])
    ensures Apart(chains[k := RemoveAt(chains[k], i)]) && Inside(chains[k := RemoveAt(chains[k], i)], nodes - {chains[k][i]})
  {
    var c := chains[k];
    assert forall y :: y in RemoveAt(c, i) ==> y in c && y != c[i];
  }

  /** A node is linked in at the head of chain `k`. */
  method LinkIn(cells: array<Cell>, x: Node, k: nat, ghost chains: seq<seq<Node>>, ghost nodes: set<Node>)
    requires k < cells.Length && Linked(cells[..], chains, nodes) && x !in nodes
    modifies cells, x`hhPrev, x`hhNext, chains[k]`hhPrev
    ensures cells[..] == old(cells[..])[k := old(cells[k]).(hhHead := x)]
    ensures Linked(cells[..], chains[k := [x] + chains[k]], nodes + {x})
  {
    hide Apart, Once, Inside;
    ApartMore(chains, k, x, nodes);
    Others(chains, k, nodes);
    ghost var was := cells[..];
    assert was[k] == cells[k];
    PushHead(cells[k].hhHead, x, chains[k]);
    cells[k] := cells[k].(hhHead := x);
    assert cells[..] == was[k := was[k].(hhHead := x)];
  }

  lemma Others(chains: seq<seq<Node>>, k: nat, nodes: set<Node>)
    requires k < |chains| && Apart(chains) && Inside(chains, nodes)
    ensures forall j, i | 0 <= j < |chains| && 0 <= i < |chains[j]| ::
              chains[j][i] in nodes && (j != k ==> chains[j][i] !in chains[k])
  {
  }

  lemma ChainedOnce(c: seq<Node>)
    requires Chained(c)
    ensures Once(c)
  {
  }

  /** A node is taken out of chain `k`. */
  method LinkOut(cells: array<Cell>, x: Node, k: nat, ghost chains: seq<seq<Node>>, ghost i: nat, ghost nodes: set<Node>)
    requires k < cells.Length && Linked(cells[..], chains, nodes) && i < |chains[k]| && chains[k][i] == x
    modifies cells, chains[k]`hhPrev, chains[k]`hhNext
    ensures exists h :: cells[..] == old(cells[..])[k := old(cells[k]).(hhHead := h)]
    ensures Linked(cells[..], chains[k := RemoveAt(chains[k], i)], nodes - {x})
  {
    hide Apart, Inside, Once, RemoveAt;
    ChainedOnce(chains[k]);
    ApartLess(chains, k, i, nodes);
    Others(chains, k, nodes);
    ghost var was := cells[..];
    assert was[k] == cells[k];
    var head := Unchain(cells[k].hhHead, x, chains[k], i);
    cells[k] := cells[k].(hhHead := head);
    assert cells[..] == was[k := was[k].(hhHead := head)];
  }

  // ---------------------------------------------------------------- nodes and items

  /** The nodes that hold the given items. */
  function Holding(ns: seq<Node>, items: set<Item>): set<Node> {
    set n | n in ns && n.item in items
  }

  lemma ItemsIn(ns: seq<Node>)
    ensures forall n | n in ns :: n.item in ItemsOf(ns) && n.item in Elements(ItemsOf(ns))
    ensures forall x | x in ItemsOf(ns) :: exists n :: n in ns && n.item == x
    ensures Holding(ns, Elements(ItemsOf(ns))) == NodeSet(ns)
  {
    forall n | n in ns
      ensures n.item in ItemsOf(ns)
    {
      var i :| 0 <= i < |ns| && ns[i] == n;
      assert ItemsOf(ns)[i] == n.item;
    }
    forall x | x in ItemsOf(ns)
      ensures exists n :: n in ns && n.item == x
    {
      var i :| 0 <= i < |ns| && ItemsOf(ns)[i] == x;
      assert ns[i] in ns && ns[i].item == x;
    }
  }

  /** Nodes with different keys are told apart by their items. */
  lemma OneNode(ns: seq<Node>, m: Node, n: Node)
    requires KeysDiffer(ItemsOf(ns)) && m in ns && n in ns && m.item == n.item
    ensures m == n
  {
    var i :| 0 <= i < |ns| && ns[i] == m;
    var j :| 0 <= j < |ns| && ns[j] == n;
    assert ItemsOf(ns)[i].key == ItemsOf(ns)[j].key;
  }

  lemma HoldingMore(ns: seq<Node>, items: set<Item>, x: Node)
    requires KeysDiffer(ItemsOf(ns)) && x in ns && x.item !in items
    ensures x !in Holding(ns, items) && Holding(ns, items + {x.item}) == Holding(ns, items) + {x}
  {
    forall n | n in ns && n.item == x.item
      ensures n == x
    {
      OneNode(ns, n, x);
    }
  }

  lemma ItemsMore(ns: seq<Node>, x: Node)
    ensures ItemsOf(ns + [x]) == ItemsOf(ns) + [x.item] && ItemsOf([x] + ns) == [x.item] + ItemsOf(ns)
  {
  }

  lemma SpecPut(cells: seq<Cell>, chains: seq<seq<Node>>, k: nat, x: Node, c: Cell)
    requires |cells| == |chains| && k < |cells|
    ensures SpecOf(cells[k := c], chains[k := [x] + chains[k]]) ==
            SpecOf(cells, chains)[k := Bucket([x.item] + ItemsOf(chains[k]), c.count, c.expandMult)]
  {
    ItemsMore(chains[k], x);
  }

  lemma {:induction false} WithoutAt(list: seq<Item>, k: nat)
    requires k < |list| && Distinct(list)
    ensures Without(list, list[k]) == list[..k] + list[k + 1..]
    decreases k
  {
    if k > 0 {
      var rest := list[1..];
      assert forall i, j | 0 <= i < j < |rest| :: rest[i] == list[i + 1] && rest[j] == list[j + 1];
      WithoutAt(rest, k - 1);
      assert list[k] == rest[k - 1] && list[0] != list[k];
      assert list[..k] == [list[0]] + rest[..k - 1] && list[k + 1..] == rest[k..];
    }
  }

  lemma RemoveIsWithout(ns: seq<Node>, k: nat)
    requires k < |ns| && Distinct(ItemsOf(ns))
    ensures ItemsOf(RemoveAt(ns, k)) == Without(ItemsOf(ns), ns[k].item)
  {
    hide Distinct, Without;
    var items := ItemsOf(ns);
    WithoutAt(items, k);
    assert ItemsOf(RemoveAt(ns, k)) == items[..k] + items[k + 1..];
  }

  /** Where an indexed node is: in the chain of its bucket. */
  lemma PlaceOf(ns: seq<Node>, cells: seq<Cell>, chains: seq<seq<Node>>, hash: string -> nat, x: Node) returns (i: nat)
    requires |cells| == |chains| && Inside(chains, NodeSet(ns)) && KeysDiffer(ItemsOf(ns)) && x in ns
    requires |cells| > 0 && Filed(SpecOf(cells, chains), Elements(ItemsOf(ns)), hash)
    ensures var c := chains[BucketOf(hash, |cells|, x.item)]; i < |c| && c[i] == x
  {
    ItemsIn(ns);
    var k := BucketOf(hash, |cells|, x.item);
    assert x.item in SpecOf(cells, chains)[k].chain;
    i :| 0 <= i < |chains[k]| && ItemsOf(chains[k])[i] == x.item;
    assert chains[k][i] in chains[k];
    OneNode(ns, chains[k][i], x);
  }

  // ---------------------------------------------------------------- the table

  class Table {
    const hash: string -> nat
    var buckets: array<Cell>
    var tail: Node
    var numBuckets: nat
    var log2NumBuckets: nat
    var numItems: nat
    var idealChainMaxlen: nat
    var nonidealItems: nat
    var ineffExpands: nat
    var noexpand: bool
    /** The chains from `hh_head` on. */
    ghost var chains: seq<seq<Node>>

    /** `HASH_MAKE_TABLE`. */
    constructor (hash: string -> nat, head: Node)
      ensures this.hash == hash && fresh(buckets) && tail == head
      ensures Sound([]) && numBuckets == 32 && ineffExpands == 0 && !noexpand
    {
      this.hash, tail := hash, head;
      buckets := new Cell[HASH_INITIAL_NUM_BUCKETS](_ => NO_CELL);
      numBuckets, log2NumBuckets := HASH_INITIAL_NUM_BUCKETS, HASH_INITIAL_NUM_BUCKETS_LOG2;
      numItems, idealChainMaxlen, nonidealItems, ineffExpands, noexpand := 0, 0, 0, 0, false;
      chains := seq(HASH_INITIAL_NUM_BUCKETS, _ => []);
      new;
      EmptyBuckets(32, hash);
      NoChains(32);
      assert buckets[..] == seq(HASH_INITIAL_NUM_BUCKETS, _ => NO_CELL);
      assert Pow2(5) == 32 by { assert Pow2(2) == 4; assert Pow2(4) == 16; }
      assert ItemsOf([]) == [] && Elements([]) == {} && NodeSet([]) == {};
    }

    /** The index agrees with the nodes on the application-order list. */
    ghost predicate Sound(ns: seq<Node>)
      reads `buckets, `numBuckets, `log2NumBuckets, `numItems, `ineffExpands, `noexpand, `chains
      reads buckets, ns`hhPrev, ns`hhNext
    {
      && numBuckets == buckets.Length == Pow2(log2NumBuckets)
      && numItems == |ns| && KeysDiffer(ItemsOf(ns))
      && Linked(buckets[..], chains, NodeSet(ns))
      && Filed(SpecOf(buckets[..], chains), Elements(ItemsOf(ns)), hash)
      && (ineffExpands > 1 ==> noexpand)
    }

    /** `HASH_FIND_IN_BKT`. */
    method FindInBucket(k: nat, key: string, ghost ns: seq<Node>) returns (out: Node?)
      requires k < buckets.Length && Linked(buckets[..], chains, NodeSet(ns))
      ensures out != null ==> out in ns
      ensures Search(ItemsOf(chains[k]), key) == if out == null then None else Some(out.item)
    {
      ghost var c, i := chains[k], 0;
      out := buckets[k].hhHead;
      assert buckets[..][k] == buckets[k] && c[0..] == c && Chained(c);
      while out != null
        invariant i <= |c| && out == (if i < |c| then c[i] else null)
        invariant Search(ItemsOf(c[i..]), key) == Search(ItemsOf(c), key)
        decreases |c| - i
      {
        assert c[i..][0] == out && c[i..][1..] == c[i + 1..] && out in c;
        ItemsMore(c[i + 1..], out);
        assert c[i..] == [out] + c[i + 1..];
        if |out.item.key| == |key| {
          if out.item.key == key {
            return;
          }
        }
        out := out.hhNext;
        i := i + 1;
      }
      assert ItemsOf(c[i..]) == [];
    }

    /** One item more is counted. */
    method Count(ghost ns: seq<Node>)
      requires Sound(ns)
      modifies `numItems
      ensures numItems == |ns| + 1 && (ineffExpands > 1 ==> noexpand)
      ensures numBuckets == buckets.Length == Pow2(log2NumBuckets) && buckets.Length > 0
      ensures Linked(buckets[..], chains, NodeSet(ns)) && Filed(SpecOf(buckets[..], chains), Elements(ItemsOf(ns)), hash)
    {
      hide Filed, Linked, KeysDiffer, SpecOf, ItemsOf, Pow2;
      Pow2Positive(log2NumBuckets);
      numItems := numItems + 1;
    }

    /** The bucket of a new element has room for it, or the table doubles. */
    ghost predicate Full(x: Item)
      reads this, buckets
      requires buckets.Length > 0
    {
      var b := buckets[BucketOf(hash, buckets.Length, x)];
      b.count + 1 >= (b.expandMult + 1) * HASH_BKT_CAPACITY_THRESH && !noexpand
    }

    /** `HASH_ADD_TO_BKT`, up to the question whether to double. */
    method FileNode(x: Node, k: nat, ghost ns: seq<Node>)
      requires Linked(buckets[..], chains, NodeSet(ns)) && x !in ns && buckets.Length > 0
      requires k == BucketOf(hash, buckets.Length, x.item) && x.item !in Elements(ItemsOf(ns))
      requires Filed(SpecOf(buckets[..], chains), Elements(ItemsOf(ns)), hash)
      modifies `chains, buckets, x`hhPrev, x`hhNext, ns`hhPrev
      ensures Linked(buckets[..], chains, NodeSet(ns + [x]))
      ensures Filed(SpecOf(buckets[..], chains), Elements(ItemsOf(ns + [x])), hash)
      ensures buckets[k].count == old(buckets[k].count) + 1 && buckets[k].expandMult == old(buckets[k].expandMult)
    {
      hide Filed, Chained, Apart, Inside;
      ghost var was, cs := buckets[..], chains;
      PutFiles(SpecOf(was, cs), Elements(ItemsOf(ns)), hash, x.item);
      InsideChain(cs, k, NodeSet(ns));
      buckets[k] := buckets[k].(count := buckets[k].count + 1);
      assert buckets[..] == was[k := was[k].(count := was[k].count + 1)];
      LinkIn(buckets, x, k, cs, NodeSet(ns));
      chains := cs[k := [x] + cs[k]];
      ghost var c := buckets[k];
      assert buckets[..] == was[k := c];
      SpecPut(was, cs, k, x, c);
      ItemsMore(ns, x);
      ElementsMore(ItemsOf(ns), x.item);
      assert NodeSet(ns + [x]) == NodeSet(ns) + {x};
    }

    /** `HASH_ADD_TO_BKT`: the table doubles exactly when the chain reaches its threshold and
        expansion is not inhibited. */
    method AddToBucket(x: Node, ghost ns: seq<Node>)
      requires numBuckets == buckets.Length == Pow2(log2NumBuckets) && Linked(buckets[..], chains, NodeSet(ns))
      requires buckets.Length > 0 && Filed(SpecOf(buckets[..], chains), Elements(ItemsOf(ns)), hash)
      requires x !in ns && KeysDiffer(ItemsOf(ns + [x])) && numItems == |ns| + 1 && (ineffExpands > 1 ==> noexpand)
      modifies this, buckets, x`hhPrev, x`hhNext, ns`hhPrev, ns`hhNext
      ensures Sound(ns + [x]) && (buckets == old(buckets) || fresh(buckets)) && tail == old(tail)
      ensures var cell := old(buckets[BucketOf(hash, numBuckets, x.item)]);
              numBuckets == if cell.count + 1 >= 10 * (cell.expandMult + 1) && !old(noexpand) then 2 * old(numBuckets) else old(numBuckets)
      ensures !old(Full(x.item)) ==> noexpand == old(noexpand) && ineffExpands == old(ineffExpands)
    {
      hide Filed, Linked, KeysDiffer;
      var k := BucketOf(hash, numBuckets, x.item);
      FreshItem(ns, x);
      FileNode(x, k, ns);
      if buckets[k].count >= (buckets[k].expandMult + 1) * HASH_BKT_CAPACITY_THRESH && !noexpand {
        ExpandBuckets(ns + [x]);
      }
    }

    /** One handle moves to the new buckets. */
    method Move(newBuckets: array<Cell>, x: Node, ghost newChains: seq<seq<Node>>, ghost done: set<Item>, ghost ns: seq<Node>)
      returns (ghost moved: seq<seq<Node>>)
      requires newBuckets.Length > 0 && KeysDiffer(ItemsOf(ns)) && x in ns && x.item !in done && idealChainMaxlen > 0
      requires Linked(newBuckets[..], newChains, Holding(ns, done))
      requires Moved(SpecOf(newBuckets[..], newChains), done, hash, idealChainMaxlen, nonidealItems)
      modifies `nonidealItems, newBuckets, ns`hhPrev, x`hhNext
      ensures Linked(newBuckets[..], moved, Holding(ns, done + {x.item}))
      ensures Moved(SpecOf(newBuckets[..], moved), done + {x.item}, hash, idealChainMaxlen, nonidealItems)
    {
      hide Filed, Chained, Apart, Inside, KeysDiffer, Excess, Moved, Multiplier, Holding, SpecOf;
      ghost var was, spec := newBuckets[..], SpecOf(newBuckets[..], newChains);
      ghost var nonideal := nonidealItems;
      var k := BucketOf(hash, newBuckets.Length, x.item);
      HoldingMore(ns, done, x);
      HoldingInside(newChains, k, ns, done);
      var b := newBuckets[k];
      b := b.(count := b.count + 1);
      if b.count > idealChainMaxlen {
        nonidealItems := nonidealItems + 1;
        b := b.(expandMult := b.count / idealChainMaxlen);
      }
      newBuckets[k] := b;
      assert newBuckets[..] == was[k := b];
      LinkIn(newBuckets, x, k, newChains, Holding(ns, done));
      moved := newChains[k := [x] + newChains[k]];
      ghost var c := b.(hhHead := x);
      assert newBuckets[..] == was[k := c];
      SpecPut(was, newChains, k, x, c);
      MovedMore(spec, k, Bucket([x.item] + ItemsOf(newChains[k]), c.count, c.expandMult), done, x.item, hash, idealChainMaxlen,
                nonideal, nonidealItems);
    }

    /** The handles of one old chain, in turn. */
    method MoveChain(newBuckets: array<Cell>, head: Node?, ghost c: seq<Node>, ghost newChains: seq<seq<Node>>,
                     ghost done: set<Item>, ghost ns: seq<Node>)
      returns (ghost moved: seq<seq<Node>>)
      requires newBuckets.Length > 0 && KeysDiffer(ItemsOf(ns)) && idealChainMaxlen > 0
      requires Ahead(c) && head == First(c) && (forall i | 0 <= i < |c| :: c[i] in ns)
      requires Distinct(ItemsOf(c)) && done !! Elements(ItemsOf(c))
      requires Linked(newBuckets[..], newChains, Holding(ns, done))
      requires Moved(SpecOf(newBuckets[..], newChains), done, hash, idealChainMaxlen, nonidealItems)
      modifies `nonidealItems, newBuckets, ns`hhPrev, c`hhNext
      ensures Linked(newBuckets[..], moved, Holding(ns, done + Elements(ItemsOf(c))))
      ensures Moved(SpecOf(newBuckets[..], moved), done + Elements(ItemsOf(c)), hash, idealChainMaxlen, nonidealItems)
    {
      hide Moved, Linked, KeysDiffer, Holding;
      moved := newChains;
      var thh := head;
      ghost var j := 0;
      assert done + Elements(ItemsOf(c[..0])) == done;
      SameLength(newBuckets[..], moved, Holding(ns, done));
      while thh != null
        invariant j <= |c| && thh == (if j < |c| then c[j] else null)
        invariant forall i {:trigger c[i].hhNext} | j <= i < |c| :: c[i].hhNext == if i + 1 < |c| then c[i + 1] else null
        invariant |newBuckets[..]| == |moved| && Linked(newBuckets[..], moved, Holding(ns, done + Elements(ItemsOf(c[..j]))))
        invariant Moved(SpecOf(newBuckets[..], moved), done + Elements(ItemsOf(c[..j])), hash, idealChainMaxlen, nonidealItems)
        decreases |c| - j
      {
        var next := thh.hhNext;
        NextItem(c, j, done);
        moved := Move(newBuckets, thh, moved, done + Elements(ItemsOf(c[..j])), ns);
        assert |newBuckets[..]| == |moved| by { SameLength(newBuckets[..], moved, Holding(ns, done + Elements(ItemsOf(c[..j])) + {c[j].item})); }
        thh := next;
        j := j + 1;
      }
      assert c[..j] == c;
    }

    /** `HASH_EXPAND_BUCKETS`: the same handles in twice as many buckets, and the counters that
        decide about the next time. */
    method ExpandBuckets(ghost ns: seq<Node>)
      requires Sound(ns) && ns != []
      modifies this, ns`hhPrev, ns`hhNext
      ensures Sound(ns) && fresh(buckets) && tail == old(tail)
      ensures numBuckets == 2 * old(numBuckets) && log2NumBuckets == old(log2NumBuckets) + 1
      ensures idealChainMaxlen == CeilShift(numItems, log2NumBuckets)
      ensures nonidealItems == Excess(SpecOf(buckets[..], chains), idealChainMaxlen)
      ensures forall k | 0 <= k < numBuckets :: Multiplier(SpecOf(buckets[..], chains)[k], idealChainMaxlen)
      ensures ineffExpands == if nonidealItems > numItems / 2 then old(ineffExpands) + 1 else 0
      ensures noexpand == (old(noexpand) || ineffExpands > 1)
    {
      hide Filed, Excess, CeilShift, Linked, KeysDiffer, Moved, Multiplier, Pow2, SpecOf, ItemsOf, NodeSet, Elements;
      Pow2Positive(log2NumBuckets);
      Pow2Next(log2NumBuckets);
      var newBuckets;
      ghost var newChains;
      newBuckets, newChains := Rehash(ns);
      numBuckets := numBuckets * 2;
      log2NumBuckets := log2NumBuckets + 1;
      buckets, chains := newBuckets, newChains;
      Judge();
    }

    /** The new buckets, with all handles in them. */
    method Rehash(ghost ns: seq<Node>) returns (newBuckets: array<Cell>, ghost newChains: seq<seq<Node>>)
      requires Sound(ns) && ns != [] && numBuckets > 0
      modifies `idealChainMaxlen, `nonidealItems, ns`hhPrev, ns`hhNext
      ensures fresh(newBuckets) && newBuckets.Length == 2 * numBuckets
      ensures Linked(newBuckets[..], newChains, NodeSet(ns))
      ensures Filed(SpecOf(newBuckets[..], newChains), Elements(ItemsOf(ns)), hash)
      ensures idealChainMaxlen == CeilShift(numItems, log2NumBuckets + 1)
      ensures nonidealItems == Excess(SpecOf(newBuckets[..], newChains), idealChainMaxlen)
      ensures forall k | 0 <= k < newBuckets.Length :: Multiplier(SpecOf(newBuckets[..], newChains)[k], idealChainMaxlen)
    {
      hide Filed, Excess, CeilShift, Linked, KeysDiffer, Moved, Multiplier, Pow2, SpecOf, ItemsOf, NodeSet, Elements;
      newBuckets := Zeroed(2 * numBuckets);
      idealChainMaxlen := CeilShift(numItems, log2NumBuckets + 1);
      CeilShiftLeast(numItems, log2NumBuckets + 1);
      nonidealItems := 0;
      newChains := MoveAll(newBuckets, ns);
      AllMoved(newBuckets[..], newChains, ns, hash, idealChainMaxlen, nonidealItems);
    }

    /** Whether the doubling was worth it; two in a row that were not inhibit any more. */
    method Judge()
      modifies `ineffExpands, `noexpand
      ensures ineffExpands == if nonidealItems > numItems / 2 then old(ineffExpands) + 1 else 0
      ensures noexpand == (old(noexpand) || ineffExpands > 1)
    {
      ineffExpands := if nonidealItems > numItems / 2 then ineffExpands + 1 else 0;
      if ineffExpands > 1 {
        noexpand := true;
      }
    }

    /** The loop over the old buckets. */
    method MoveAll(newBuckets: array<Cell>, ghost ns: seq<Node>) returns (ghost moved: seq<seq<Node>>)
      requires numBuckets == buckets.Length > 0 && newBuckets != buckets && newBuckets.Length > 0 && KeysDiffer(ItemsOf(ns))
      requires Linked(buckets[..], chains, NodeSet(ns)) && Filed(SpecOf(buckets[..], chains), Elements(ItemsOf(ns)), hash)
      requires newBuckets[..] == seq(newBuckets.Length, _ => NO_CELL) && idealChainMaxlen > 0 && nonidealItems == 0
      modifies `nonidealItems, newBuckets, ns`hhPrev, ns`hhNext
      ensures Linked(newBuckets[..], moved, NodeSet(ns))
      ensures Moved(SpecOf(newBuckets[..], moved), Elements(ItemsOf(ns)), hash, idealChainMaxlen, nonidealItems)
    {
      hide Filed, Excess, KeysDiffer, Ahead, Moved, Linked;
      SameLength(buckets[..], chains, NodeSet(ns));
      ghost var items, was, cs := Elements(ItemsOf(ns)), SpecOf(buckets[..], chains), chains;
      moved := seq(newBuckets.Length, _ => []);
      ghost var done: set<Item> := {};
      assert Linked(newBuckets[..], moved, Holding(ns, {})) && Moved(SpecOf(newBuckets[..], moved), {}, hash, idealChainMaxlen, 0) by {
        FreshBuckets(newBuckets.Length, ns, hash, idealChainMaxlen);
      }
      ChainsAhead(buckets[..], cs, NodeSet(ns));
      BeforeAll(was, items, hash);
      SameLength(newBuckets[..], moved, Holding(ns, {}));
      var i := 0;
      while i < numBuckets
        invariant 0 <= i <= numBuckets && buckets[..] == old(buckets[..]) && done == Before(was, items, hash, i)
        invariant |newBuckets[..]| == |moved| && Linked(newBuckets[..], moved, Holding(ns, done))
        invariant Moved(SpecOf(newBuckets[..], moved), done, hash, idealChainMaxlen, nonidealItems)
        invariant forall j | i <= j < |cs| :: Ahead(cs[j])
        modifies `nonidealItems, newBuckets, ns`hhPrev, ns`hhNext
      {
        ChainOf(was, items, hash, i);
        ChainsApart(cs, i, ns);
        moved := MoveChain(newBuckets, buckets[i].hhHead, cs[i], moved, done, ns);
        done := done + Elements(ItemsOf(cs[i]));
        SameLength(newBuckets[..], moved, Holding(ns, done));
        i := i + 1;
      }
      ItemsIn(ns);
    }

    /** `HASH_DEL_IN_BKT` and the number of items. */
    method DeleteInBucket(x: Node, ghost ns: seq<Node>, ghost p: nat)
      requires Sound(ns) && p < |ns| && ns[p] == x
      modifies `numItems, `chains, buckets, ns`hhPrev, ns`hhNext
      ensures Sound(RemoveAt(ns, p)) && buckets == old(buckets)
    {
      hide Filed, Chained, Apart, Once, KeysDiffer, RemoveAt, Pow2, Elements, Without;
      Pow2Positive(log2NumBuckets);
      var k := BucketOf(hash, numBuckets, x.item);
      ghost var was, cs := buckets[..], chains;
      ghost var i := PlaceOf(ns, was, cs, hash, x);
      InsideChain(cs, k, NodeSet(ns));
      ItemsIn(ns);
      assert x.item in Elements(ItemsOf(ns)) by { assert x in ns; }
      TakeUnfiles(SpecOf(was, cs), Elements(ItemsOf(ns)), hash, x.item);
      ChainDistinct(SpecOf(was, cs), Elements(ItemsOf(ns)), hash, k);
      buckets[k] := buckets[k].(count := buckets[k].count - 1);
      assert buckets[..] == was[k := was[k].(count := was[k].count - 1)];
      LinkOut(buckets, x, k, cs, i, NodeSet(ns));
      chains := cs[k := RemoveAt(cs[k], i)];
      numItems := numItems - 1;
      ghost var c := buckets[k];
      assert buckets[..] == was[k := c];
      SpecTake(was, cs, k, i, c);
      ListLess(ns, p);
      RemoveLength(ns, p);
    }
  }

  lemma RemoveLength(ns: seq<Node>, p: nat)
    requires p < |ns|
    ensures |RemoveAt(ns, p)| == |ns| - 1
  {
  }

  lemma Pow2Next(n: nat)
    ensures Pow2(n + 1) == 2 * Pow2(n)
  {
  }

  /** Memory for buckets, set to zero. */
  method Zeroed(n: nat) returns (cells: array<Cell>)
    ensures fresh(cells) && cells[..] == seq(n, _ => NO_CELL) && cells.Length == n
  {
    cells := new Cell[n](_ => NO_CELL);
    assert cells[..] == seq(n, _ => NO_CELL);
  }

  lemma AllMoved(cells: seq<Cell>, chains: seq<seq<Node>>, ns: seq<Node>, hash: string -> nat, ideal: nat, nonideal: nat)
    requires Linked(cells, chains, NodeSet(ns)) && Moved(SpecOf(cells, chains), Elements(ItemsOf(ns)), hash, ideal, nonideal)
    ensures Filed(SpecOf(cells, chains), Elements(ItemsOf(ns)), hash)
    ensures nonideal == Excess(SpecOf(cells, chains), ideal)
    ensures forall k | 0 <= k < |cells| :: Multiplier(SpecOf(cells, chains)[k], ideal)
  {
    hide Filed, Excess, Multiplier;
  }

  lemma FreshBuckets(n: nat, ns: seq<Node>, hash: string -> nat, ideal: nat)
    requires n > 0 && ideal > 0
    ensures var cells, chains := seq(n, _ => NO_CELL), seq(n, _ => []);
            && |cells| == |chains| && Linked(cells, chains, Holding(ns, {}))
            && Moved(SpecOf(cells, chains), {}, hash, ideal, 0)
  {
    hide Filed;
    NoChains(n);
    assert Holding(ns, {}) == {};
    EmptyBuckets(n, hash);
    NoExcess(n, ideal);
  }

  lemma ChainsAhead(cells: seq<Cell>, chains: seq<seq<Node>>, nodes: set<Node>)
    requires Linked(cells, chains, nodes)
    ensures |cells| == |chains| && forall k | 0 <= k < |chains| :: Ahead(chains[k]) && cells[k].hhHead == First(chains[k])
    ensures Apart(chains) && Inside(chains, nodes)
  {
  }

  lemma ChainsApart(chains: seq<seq<Node>>, k: nat, ns: seq<Node>)
    requires k < |chains| && Apart(chains) && Inside(chains, NodeSet(ns))
    ensures forall j, i | 0 <= j < |chains| && 0 <= i < |chains[j]| :: chains[j][i] in ns && (j != k ==> chains[j][i] !in chains[k])
  {
  }

  lemma HoldingInside(chains: seq<seq<Node>>, k: nat, ns: seq<Node>, items: set<Item>)
    requires k < |chains| && Inside(chains, Holding(ns, items))
    ensures forall i | 0 <= i < |chains[k]| :: chains[k][i] in ns
  {
    forall i | 0 <= i < |chains[k]|
      ensures chains[k][i] in ns
    {
      assert chains[k][i] in chains[k] && chains[k][i] in Holding(ns, items);
    }
  }

  lemma SpecTake(cells: seq<Cell>, chains: seq<seq<Node>>, k: nat, i: nat, c: Cell)
    requires |cells| == |chains| && k < |cells| && i < |chains[k]| && Distinct(ItemsOf(chains[k]))
    requires cells[k].count > 0 && c.count == cells[k].count - 1 && c.expandMult == cells[k].expandMult
    ensures SpecOf(cells[k := c], chains[k := RemoveAt(chains[k], i)]) == Take(SpecOf(cells, chains), k, chains[k][i].item)
  {
    hide RemoveAt, Without, Distinct;
    RemoveIsWithout(chains[k], i);
  }

  lemma ChainDistinct(bs: seq<Bucket>, items: set<Item>, hash: string -> nat, k: nat)
    requires Filed(bs, items, hash) && k < |bs|
    ensures Distinct(bs[k].chain)
  {
  }

  /** The list without one of its nodes. */
  lemma ListLess(ns: seq<Node>, p: nat)
    requires p < |ns| && KeysDiffer(ItemsOf(ns))
    ensures var r := RemoveAt(ns, p);
            && ItemsOf(r) == Without(ItemsOf(ns), ns[p].item) && KeysDiffer(ItemsOf(r))
            && Elements(ItemsOf(r)) == Elements(ItemsOf(ns)) - {ns[p].item}
            && NodeSet(r) == NodeSet(ns) - {ns[p]}
  {
    hide Without;
    var items := ItemsOf(ns);
    DistinctKeys(items);
    RemoveIsWithout(ns, p);
    WithoutDiffers(items, ns[p].item);
    WithoutKeeps(items, ns[p].item);
    assert items[p] == ns[p].item;
    forall m | m in ns && m != ns[p]
      ensures m in RemoveAt(ns, p)
    {
      var i :| 0 <= i < |ns| && ns[i] == m;
      assert RemoveAt(ns, p)[if i < p then i else i - 1] == m;
    }
    forall m | m in RemoveAt(ns, p)
      ensures m in ns && m != ns[p]
    {
      var i :| 0 <= i < |ns| - 1 && RemoveAt(ns, p)[i] == m;
      assert items[if i < p then i else i + 1] == m.item;
    }
  }

  /** Counting and filing one more item, on values. */
  lemma MovedMore(bs: seq<Bucket>, k: nat, b: Bucket, done: set<Item>, x: Item, hash: string -> nat, ideal: nat, nonideal: nat, nonideal': nat)
    requires Moved(bs, done, hash, ideal, nonideal) && x !in done && k == BucketOf(hash, |bs|, x) && ideal > 0
    requires b.chain == [x] + bs[k].chain && b.count == bs[k].count + 1
    requires b.expandMult == (if b.count > ideal then b.count / ideal else bs[k].expandMult)
    requires nonideal' == nonideal + if b.count > ideal then 1 else 0
    ensures Moved(bs[k := b], done + {x}, hash, ideal, nonideal')
  {
    hide Filed, Excess;
    PutFiles(bs, done, hash, x);
    ExcessUpdate(bs, k, b, ideal);
    SameFiled(Put(bs, k, x), bs[k := b], done + {x}, hash);
  }

  lemma SameLength(cells: seq<Cell>, chains: seq<seq<Node>>, nodes: set<Node>)
    requires Linked(cells, chains, nodes)
    ensures |cells| == |chains|
  {
  }

  lemma NextItem(c: seq<Node>, j: nat, done: set<Item>)
    requires j < |c| && Distinct(ItemsOf(c)) && done !! Elements(ItemsOf(c))
    ensures var before := done + Elements(ItemsOf(c[..j]));
            c[j].item !in before && before + {c[j].item} == done + Elements(ItemsOf(c[..j + 1]))
  {
    var items := ItemsOf(c);
    assert items[j] in Elements(items);
    assert ItemsOf(c[..j]) == items[..j] && ItemsOf(c[..j + 1]) == items[..j] + [items[j]];
    ElementsMore(items[..j], items[j]);
    assert forall x | x in items[..j] :: x != items[j];
  }

  lemma InsideChain(chains: seq<seq<Node>>, k: nat, nodes: set<Node>)
    requires k < |chains| && Inside(chains, nodes)
    ensures forall i | 0 <= i < |chains[k]| :: chains[k][i] in nodes
  {
  }

  lemma FreshItem(ns: seq<Node>, x: Node)
    requires KeysDiffer(ItemsOf(ns + [x]))
    ensures x.item !in Elements(ItemsOf(ns))
  {
    ItemsMore(ns, x);
    NewKey(ItemsOf(ns), x.item);
  }

  // ---------------------------------------------------------------- the application's view

  lemma KeyInChain(ns: seq<Node>, cells: seq<Cell>, chains: seq<seq<Node>>, hash: string -> nat, key: string)
    requires |cells| == |chains| > 0 && Filed(SpecOf(cells, chains), Elements(ItemsOf(ns)), hash) && KeysDiffer(ItemsOf(ns))
    ensures Search(ItemsOf(chains[hash(key) % |cells|]), key) == Search(ItemsOf(ns), key)
  {
    hide Filed, KeysDiffer, Search;
    ChainHasKey(SpecOf(cells, chains), ItemsOf(ns), hash, key);
  }

  lemma FreshKey(ns: seq<Node>, x: Node)
    requires KeysDiffer(ItemsOf(ns)) && Search(ItemsOf(ns), x.item.key) == None
    ensures KeysDiffer(ItemsOf(ns + [x])) && x !in ns
  {
    ItemsMore(ns, x);
    MayAdd(ItemsOf(ns), x.item);
    SearchIs(ItemsOf(ns), x.item.key);
    ItemsIn(ns);
  }

  /** The head pointer of the application, from which the table is reached. */
  class Hash {
    const hash: string -> nat
    var head: Node?
    var tbl: Table?
    /** From the head along the `next` pointers. */
    ghost var nodes: seq<Node>

    constructor (hash: string -> nat)
      ensures Valid() && nodes == [] && this.hash == hash && tbl == null
    {
      this.hash, head, tbl, nodes := hash, null, null, [];
    }

    /** Every condition of `HASH_FSCK`: both kinds of links, and all counts. */
    ghost predicate Valid()
      reads this, nodes, tbl, if tbl == null then {} else {tbl.buckets}
    {
      && Listed(nodes) && head == First(nodes) && KeysDiffer(ItemsOf(nodes))
      && (tbl == null <==> nodes == [])
      && (tbl != null ==> tbl.hash == hash && tbl.Sound(nodes) && tbl.tail == nodes[|nodes| - 1])
    }

    /** `HASH_FIND`: the same as looking through the list. */
    method Find(key: string) returns (out: Node?)
      requires Valid()
      ensures out != null ==> out in nodes
      ensures Search(ItemsOf(nodes), key) == if out == null then None else Some(out.item)
    {
      hide Filed, Linked, KeysDiffer, Listed, Search;
      out := null;
      if head != null {
        Pow2Positive(tbl.log2NumBuckets);
        SameLength(tbl.buckets[..], tbl.chains, NodeSet(nodes));
        KeyInChain(nodes, tbl.buckets[..], tbl.chains, hash, key);
        out := tbl.FindInBucket(hash(key) % tbl.numBuckets, key, nodes);
      } else {
        NothingToFind(key);
      }
    }

    /** `HASH_ADD_KEYPTR` of a key that is not there: behind the tail, and into its bucket. */
    method Add(x: Node)
      requires Valid() && Search(ItemsOf(nodes), x.item.key) == None
      modifies this, x, nodes, tbl, if tbl == null then {} else {tbl.buckets}
      ensures Valid() && nodes == old(nodes) + [x]
      ensures tbl == old(tbl) || (old(tbl) == null && fresh(tbl))
      ensures tbl != null && (tbl.buckets == old(if tbl == null then null else tbl.buckets) || fresh(tbl.buckets))
    {
      hide Filed, Linked, KeysDiffer, Search, SpecOf, Listed, Table.Sound, ItemsOf, Elements, NodeSet, Table.Full;
      FreshKey(nodes, x);
      ghost var ns := nodes;
      LinkTail(x);
      tbl.Count(ns);
      tbl.AddToBucket(x, ns);
      nodes := ns + [x];
    }

    /** The application-order part: the list grows at its tail, and the first element brings the table. */
    method LinkTail(x: Node)
      requires Valid() && x !in nodes
      modifies `head, `tbl, x`prev, x`next, nodes`next, tbl
      ensures Listed(nodes + [x]) && head == (if nodes == [] then x else old(head))
      ensures tbl != null && tbl.hash == hash && tbl.Sound(nodes) && tbl.tail == x
      ensures if nodes == [] then fresh(tbl) && fresh(tbl.buckets) else tbl == old(tbl) && tbl.buckets == old(if tbl == null then null else tbl.buckets)
    {
      hide Table.Sound, Listed, KeysDiffer;
      if head == null {
        head := x;
        x.next, x.prev := null, null;
        tbl := new Table(hash, x);
        OnlyNode(x);
        assert nodes + [x] == [x];
      } else {
        LinkLast(tbl.tail, x, nodes);
        tbl.tail := x;
      }
    }

    /** `HASH_DELETE`: the table goes with the last element. */
    method Delete(x: Node, ghost p: nat)
      requires Valid() && p < |nodes| && nodes[p] == x
      modifies this, nodes, tbl, if tbl == null then {} else {tbl.buckets}
      ensures Valid() && nodes == RemoveAt(old(nodes), p)
      ensures tbl == null || (tbl == old(tbl) && tbl.buckets == old(if tbl == null then null else tbl.buckets))
    {
      hide Table.Sound, KeysDiffer, RemoveAt, Listed, Once;
      if x.prev == null && x.next == null {
        AloneInList(nodes, p);
        tbl, head := null, null;
        nodes := [];
        EmptyList();
      } else {
        NotAloneInList(nodes, p);
        DeleteOther(x, p);
      }
    }

    /** The other branch: the neighbours, the head or the tail, and the chain are relinked. */
    method DeleteOther(x: Node, ghost p: nat)
      requires Valid() && p < |nodes| && nodes[p] == x && |nodes| > 1
      modifies `head, `nodes, nodes, tbl, tbl.buckets
      ensures Valid() && nodes == RemoveAt(old(nodes), p) && tbl.buckets == old(tbl.buckets)
    {
      hide *;
      ghost var ns := nodes;
      ValidKeys();
      ListLess(ns, p);
      RemoveInside(ns, p);
      UnlistNode(x, p);
      tbl.DeleteInBucket(x, ns, p);
      nodes := RemoveAt(ns, p);
      StillValid();
    }

    lemma StillValid()
      requires Listed(nodes) && nodes != [] && head == nodes[0] && KeysDiffer(ItemsOf(nodes))
      requires tbl != null && tbl.hash == hash && tbl.Sound(nodes) && tbl.tail == nodes[|nodes| - 1]
      ensures Valid()
    {
      hide Listed, KeysDiffer, Table.Sound;
    }

    method UnlistNode(x: Node, ghost p: nat)
      requires Valid() && p < |nodes| && nodes[p] == x && |nodes| > 1
      modifies `head, tbl`tail, nodes`prev, nodes`next
      ensures var r := RemoveAt(nodes, p);
              tbl.Sound(nodes) && r != [] && Listed(r) && head == r[0] && tbl.tail == r[|r| - 1]
    {
      hide Table.Sound, KeysDiffer, RemoveAt, Listed, Once;
      RemoveLength(nodes, p);
      var first, last := Unlist(head, tbl.tail, x, nodes, p);
      head := first;
      tbl.tail := last;
    }

    /** `HASH_REPLACE`. */
    method Replace(x: Node) returns (replaced: Node?)
      requires Valid()
      modifies this, x, nodes, tbl, if tbl == null then {} else {tbl.buckets}
      ensures Valid() && ItemsOf(nodes) == Apply(ItemsOf(old(nodes)), Op.Replace(x.item))
      ensures Search(ItemsOf(old(nodes)), x.item.key) == if replaced == null then None else Some(replaced.item)
      ensures forall n | n in nodes :: n == x || n in old(nodes)
      ensures tbl == old(tbl) || fresh(tbl)
      ensures tbl != null && (tbl.buckets == old(if tbl == null then null else tbl.buckets) || fresh(tbl.buckets))
    {
      hide Valid, Search, Without, RemoveAt, KeysDiffer;
      ghost var ns := nodes;
      replaced := Find(x.item.key);
      ValidKeys();
      FoundNode(ns, x.item.key, replaced);
      if replaced != null {
        ghost var p :| 0 <= p < |ns| && ns[p] == replaced;
        ListLess(ns, p);
        KeyGone(ns, p, x.item.key);
        RemoveInside(ns, p);
        Delete(replaced, p);
      }
      ItemsMore(nodes, x);
      Add(x);
    }

    lemma ValidKeys()
      requires Valid()
      ensures KeysDiffer(ItemsOf(nodes)) && (head == null <==> nodes == []) && (tbl == null <==> nodes == [])
      ensures tbl != null ==> tbl.hash == hash
    {
      hide Listed, KeysDiffer, Table.Sound;
    }

    /** `HASH_FSCK`: back links and lengths of all chains, back links and length of the list. */
    method Fsck() returns (ok: bool)
      requires Valid()
      ensures ok
    {
      hide Filed, KeysDiffer;
      ok := true;
      if head != null {
        var all := 0;
        ok, all := FsckBuckets();
        var listed := 0;
        ghost var i := 0;
        var prev: Node? := null;
        var thh := head;
        while thh != null
          invariant ok && i <= |nodes| && listed == i && thh == (if i < |nodes| then nodes[i] else null)
          invariant prev == if i > 0 then nodes[i - 1] else null
          decreases |nodes| - i
        {
          listed := listed + 1;
          ok := ok && prev == thh.prev;
          prev := thh;
          thh := thh.next;
          i := i + 1;
        }
        ok := ok && all == tbl.numItems && listed == tbl.numItems;
      }
    }

    /** The loop over the buckets. */
    method FsckBuckets() returns (ok: bool, all: nat)
      requires Valid() && tbl != null
      ensures ok && all == tbl.numItems
    {
      hide Filed, KeysDiffer, Linked, Listed, Total;
      ok, all := true, 0;
      SameLength(tbl.buckets[..], tbl.chains, NodeSet(nodes));
      ghost var spec := SpecOf(tbl.buckets[..], tbl.chains);
      assert spec[0..] == spec;
      var i := 0;
      while i < tbl.numBuckets
        invariant 0 <= i <= tbl.numBuckets && ok && all + Total(spec[i..]) == Total(spec)
      {
        var n;
        ok, n := FsckChain(i);
        ok := ok && tbl.buckets[i].count == n;
        TotalStep(spec, i);
        all := all + n;
        i := i + 1;
      }
      AllCounted(nodes, spec, hash);
      assert spec[i..] == [];
    }

    /** The loop over one chain. */
    method FsckChain(k: nat) returns (ok: bool, n: nat)
      requires Valid() && tbl != null && k < tbl.buckets.Length
      ensures ok && n == tbl.buckets[k].count
    {
      hide KeysDiffer;
      ghost var c, i := tbl.chains[k], 0;
      assert Chained(c) && tbl.buckets[..][k] == tbl.buckets[k];
      assert SpecOf(tbl.buckets[..], tbl.chains)[k].count == |c|;
      ok, n := true, 0;
      var prev: Node? := null;
      var thh := tbl.buckets[k].hhHead;
      hide *;
      while thh != null
        invariant ok && i <= |c| && n == i && thh == (if i < |c| then c[i] else null)
        invariant prev == (if i > 0 then c[i - 1] else null) && Chained(c)
        decreases |c| - i
      {
        ok := ok && prev == thh.hhPrev;
        n := n + 1;
        prev := thh;
        thh := thh.hhNext;
        i := i + 1;
      }
    }
  }

  lemma TotalStep(bs: seq<Bucket>, i: nat)
    requires i < |bs|
    ensures Total(bs[i..]) == bs[i].count + Total(bs[i + 1..])
  {
    assert bs[i..][1..] == bs[i + 1..];
  }

  lemma AllCounted(ns: seq<Node>, bs: seq<Bucket>, hash: string -> nat)
    requires Filed(bs, Elements(ItemsOf(ns)), hash) && KeysDiffer(ItemsOf(ns))
    ensures Total(bs) == |ns| && Total([]) == 0
  {
    var items := ItemsOf(ns);
    CountsAddUp(bs, Elements(items), hash, 0);
    assert After(bs, Elements(items), hash, 0) == Elements(items);
    assert bs[0..] == bs;
    DistinctKeys(items);
    ChainSize(items);
  }

  lemma FoundNode(ns: seq<Node>, key: string, out: Node?)
    requires Search(ItemsOf(ns), key) == if out == null then None else Some(out.item)
    ensures out != null ==> out.item.key == key
  {
    SearchIs(ItemsOf(ns), key);
  }

  lemma KeyGone(ns: seq<Node>, p: nat, key: string)
    requires p < |ns| && KeysDiffer(ItemsOf(ns)) && ns[p].item.key == key
    ensures Search(ItemsOf(RemoveAt(ns, p)), key) == None
  {
    ListLess(ns, p);
    assert ItemsOf(ns)[p] == ns[p].item;
    GoneAfter(ItemsOf(ns), ns[p].item);
  }

  lemma RemoveInside(ns: seq<Node>, p: nat)
    requires p < |ns|
    ensures forall n | n in RemoveAt(ns, p) :: n in ns
    ensures forall i | 0 <= i < |RemoveAt(ns, p)| :: RemoveAt(ns, p)[i] in ns
  {
  }

  lemma OnlyNode(x: Node)
    requires x.prev == null && x.next == null
    ensures Listed([x])
  {
  }

  lemma EmptyList()
    ensures Listed([]) && KeysDiffer(ItemsOf([]))
  {
  }

  lemma NothingToFind(key: string)
    ensures Search(ItemsOf([]), key) == None
  {
  }

  /** Without neighbours an element is the only one. */
  lemma AloneInList(ns: seq<Node>, p: nat)
    requires Listed(ns) && p < |ns| && ns[p].prev == null && ns[p].next == null
    ensures |ns| == 1 && RemoveAt(ns, p) == []
  {
    assert p == 0;
    assert p + 1 == |ns|;
  }

  lemma NotAloneInList(ns: seq<Node>, p: nat)
    requires Listed(ns) && p < |ns| && !(ns[p].prev == null && ns[p].next == null)
    ensures |ns| > 1
  {
  }

  /** Every run of additions, replacements and deletions leaves the list that the plain operations
      would, with all conditions of `HASH_FSCK` fulfilled. */
  method Run(hash: string -> nat, ops: seq<Op>) returns (h: Hash)
    ensures fresh(h) && h.Valid() && ItemsOf(h.nodes) == ApplyAll([], ops)
  {
    hide Hash.Valid, Apply, Search, RemoveAt, KeysDiffer;
    h := new Hash(hash);
    var i := 0;
    while i < |ops|
      invariant 0 <= i <= |ops| && fresh(h) && h.Valid() && ItemsOf(h.nodes) == ApplyAll([], ops[..i])
      invariant h.tbl != null ==> fresh(h.tbl) && fresh(h.tbl.buckets)
      invariant forall k | 0 <= k < |h.nodes| :: fresh(h.nodes[k])
    {
      assert ops[..i + 1][..i] == ops[..i];
      assert forall n | n in h.nodes :: fresh(n);
      Perform(h, ops[i]);
      assert forall k | 0 <= k < |h.nodes| :: h.nodes[k] in h.nodes;
      i := i + 1;
    }
    assert ops[..i] == ops;
  }

  method Perform(h: Hash, op: Op)
    requires h.Valid()
    modifies h, h.nodes, h.tbl, if h.tbl == null then {} else {h.tbl.buckets}
    ensures h.Valid() && ItemsOf(h.nodes) == Apply(ItemsOf(old(h.nodes)), op)
    ensures forall n | n in h.nodes :: n in old(h.nodes) || fresh(n)
    ensures h.tbl == null || h.tbl == old(h.tbl) || fresh(h.tbl)
    ensures h.tbl != null ==> h.tbl.buckets == old(if h.tbl == null then null else h.tbl.buckets) || fresh(h.tbl.buckets)
  {
    hide Hash.Valid, Search, RemoveAt, KeysDiffer;
    ghost var ns := h.nodes;
    match op {
      case Add(x) =>
        var there := h.Find(x.key);
        if there == null {
          var n := new Node(x);
          ItemsMore(ns, n);
          h.Add(n);
        }
      case Replace(x) =>
        var n := new Node(x);
        var replaced := h.Replace(n);
      case Delete(key) =>
        var there := h.Find(key);
        if there != null {
          h.ValidKeys();
          ghost var p :| 0 <= p < |ns| && ns[p] == there;
          ListLess(ns, p);
          RemoveInside(ns, p);
          h.Delete(there, p);
        }
    }
  }
}
