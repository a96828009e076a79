/** The list sort of `utlist.h`: bottom-up merging in place, for singly and doubly linked
    lists, proved equal to inserting the elements one by one.  Elements are nodes; only
    their keys are compared. */
module MergeSort {

  class Node<K> {
    const key: K
    var next: Node?<K>
    var prev: Node?<K>

    constructor (key: K)
      ensures this.key == key && next == null && prev == null
    {
      this.key := key;
      next, prev := null, null;
    }
  }

  // ---------------------------------------------------------------- comparison

  /** What the source asks of `cmp`: any two keys can be compared, and "not greater" is transitive. */
  ghost predicate TotalPreorder<K(!new)>(cmp: (K, K) -> int) {
    && (forall x, y :: cmp(x, y) <= 0 || cmp(y, x) <= 0)
    && forall x, y, z :: cmp(x, y) <= 0 && cmp(y, z) <= 0 ==> cmp(x, z) <= 0
  }

  predicate Le<K>(cmp: (K, K) -> int, a: Node<K>, b: Node<K>) {
    cmp(a.key, b.key) <= 0
  }

  predicate Sorted<K>(cmp: (K, K) -> int, s: seq<Node<K>>) {
    forall i, j | 0 <= i < j < |s| :: Le(cmp, s[i], s[j])
  }

  /** The elements that compare equal to `c`, in their order. */
  function EqualTo<K>(cmp: (K, K) -> int, s: seq<Node<K>>, c: Node<K>): seq<Node<K>> {
    if s == [] then []
    else if Le(cmp, s[0], c) && Le(cmp, c, s[0]) then [s[0]] + EqualTo(cmp, s[1..], c)
    else EqualTo(cmp, s[1..], c)
  }

  // ---------------------------------------------------------------- insertion

  function Insert<K>(cmp: (K, K) -> int, x: Node<K>, s: seq<Node<K>>): seq<Node<K>> {
    if s == [] then [x] else if Le(cmp, x, s[0]) then [x] + s else [s[0]] + Insert(cmp, x, s[1..])
  }

  /** The reference: every element is put before those, to its right, that are not less. */
  function Inserted<K>(cmp: (K, K) -> int, s: seq<Node<K>>): seq<Node<K>> {
    if s == [] then [] else Insert(cmp, s[0], Inserted(cmp, s[1..]))
  }

  lemma {:induction false} InsertElements<K>(cmp: (K, K) -> int, x: Node<K>, s: seq<Node<K>>)
    ensures multiset(Insert(cmp, x, s)) == multiset{x} + multiset(s)
    ensures forall y | y in Insert(cmp, x, s) :: y == x || y in s
  {
    if s != [] {
      assert s == [s[0]] + s[1..];
      InsertElements(cmp, x, s[1..]);
    }
  }

  lemma {:induction false} InsertKeeps<K(!new)>(cmp: (K, K) -> int, x: Node<K>, s: seq<Node<K>>)
    requires TotalPreorder(cmp) && Sorted(cmp, s)
    ensures Sorted(cmp, Insert(cmp, x, s))
  {
    if s != [] {
      if Le(cmp, x, s[0]) {
        assert forall i | 0 <= i < |s| :: Le(cmp, x, s[i]);
      } else {
        InsertKeeps(cmp, x, s[1..]);
        InsertElements(cmp, x, s[1..]);
        assert forall y | y in s[1..] :: Le(cmp, s[0], y);
      }
    }
  }

  lemma {:induction false} InsertStable<K(!new)>(cmp: (K, K) -> int, x: Node<K>, s: seq<Node<K>>, c: Node<K>)
    requires TotalPreorder(cmp)
    ensures EqualTo(cmp, Insert(cmp, x, s), c) == EqualTo(cmp, [x], c) + EqualTo(cmp, s, c)
  {
    if s == [] || Le(cmp, x, s[0]) {
      assert ([x] + s)[1..] == s;
    } else {
      InsertStable(cmp, x, s[1..], c);
      assert (Insert(cmp, x, s))[1..] == Insert(cmp, x, s[1..]);
    }
  }

  lemma {:induction false} InsertedSorts<K(!new)>(cmp: (K, K) -> int, s: seq<Node<K>>)
    requires TotalPreorder(cmp)
    ensures Sorted(cmp, Inserted(cmp, s)) && multiset(Inserted(cmp, s)) == multiset(s)
  {
    if s != [] {
      InsertedSorts(cmp, s[1..]);
      InsertKeeps(cmp, s[0], Inserted(cmp, s[1..]));
      InsertElements(cmp, s[0], Inserted(cmp, s[1..]));
      hide Sorted, TotalPreorder, Insert;
      assert s == [s[0]] + s[1..];
    }
  }

  lemma {:induction false} InsertedStable<K(!new)>(cmp: (K, K) -> int, s: seq<Node<K>>, c: Node<K>)
    requires TotalPreorder(cmp)
    ensures EqualTo(cmp, Inserted(cmp, s), c) == EqualTo(cmp, s, c)
  {
    if s != [] {
      InsertedStable(cmp, s[1..], c);
      InsertStable(cmp, s[0], Inserted(cmp, s[1..]), c);
    }
  }

  // ---------------------------------------------------------------- merging

  /** Ties go to the left. */
  function Merge<K>(cmp: (K, K) -> int, a: seq<Node<K>>, b: seq<Node<K>>): seq<Node<K>> {
    if a == [] then b
    else if b == [] then a
    else if Le(cmp, a[0], b[0]) then [a[0]] + Merge(cmp, a[1..], b)
    else [b[0]] + Merge(cmp, a, b[1..])
  }

  /** Inserting before merging is inserting after it. */
  lemma {:induction false} InsertMerge<K(!new)>(cmp: (K, K) -> int, x: Node<K>, a: seq<Node<K>>, b: seq<Node<K>>)
    requires TotalPreorder(cmp) && Sorted(cmp, a) && Sorted(cmp, b)
    ensures Merge(cmp, Insert(cmp, x, a), b) == Insert(cmp, x, Merge(cmp, a, b))
    decreases |a| + |b|
  {
    var xa := Insert(cmp, x, a);
    if b == [] {
    } else if a == [] {
      if !Le(cmp, x, b[0]) {
        InsertMerge(cmp, x, a, b[1..]);
      } else {
        assert [x][1..] == [];
      }
    } else if Le(cmp, x, a[0]) {
      assert xa[1..] == a;
      if !Le(cmp, x, b[0]) {
        InsertMerge(cmp, x, a, b[1..]);
      }
    } else {
      assert xa[1..] == Insert(cmp, x, a[1..]);
      if Le(cmp, a[0], b[0]) {
        InsertMerge(cmp, x, a[1..], b);
      } else {
        InsertMerge(cmp, x, a, b[1..]);
      }
    }
  }

  /** Merging sorted halves sorts the whole. */
  lemma {:induction false} MergeInserted<K(!new)>(cmp: (K, K) -> int, a: seq<Node<K>>, b: seq<Node<K>>)
    requires TotalPreorder(cmp)
    ensures Merge(cmp, Inserted(cmp, a), Inserted(cmp, b)) == Inserted(cmp, a + b)
  {
    hide Sorted, TotalPreorder, Insert, Merge, Inserted;
    if a == [] {
      assert a + b == b;
      MergeNothing(cmp, b);
    } else {
      var rest := a[1..];
      MergeInserted(cmp, rest, b);
      InsertedSorts(cmp, rest);
      InsertedSorts(cmp, b);
      InsertMerge(cmp, a[0], Inserted(cmp, rest), Inserted(cmp, b));
      InsertedStep(cmp, a);
      InsertedStep(cmp, a + b);
      assert (a + b)[1..] == rest + b && (a + b)[0] == a[0];
    }
  }

  lemma MergeNothing<K>(cmp: (K, K) -> int, b: seq<Node<K>>)
    ensures Inserted(cmp, []) == [] && Merge(cmp, [], Inserted(cmp, b)) == Inserted(cmp, b)
  {
  }

  lemma InsertedStep<K>(cmp: (K, K) -> int, s: seq<Node<K>>)
    requires s != []
    ensures Inserted(cmp, s) == Insert(cmp, s[0], Inserted(cmp, s[1..]))
  {
  }

  // ---------------------------------------------------------------- passes

  function Min(a: nat, b: nat): nat {
    if a < b then a else b
  }

  /** One pass: neighbouring runs of `k` elements are merged. */
  function Pass<K>(cmp: (K, K) -> int, s: seq<Node<K>>, k: nat): seq<Node<K>>
    requires k > 0
  {
    if s == [] then []
    else
      var m := Min(k, |s|);
      var n := Min(2 * k, |s|);
      Merge(cmp, s[..m], s[m..n]) + Pass(cmp, s[n..], k)
  }

  /** `s` is `o` with every run of `k` elements sorted. */
  predicate RunsSorted<K>(cmp: (K, K) -> int, s: seq<Node<K>>, o: seq<Node<K>>, k: nat)
    requires k > 0
    decreases |s|
  {
    |s| == |o| &&
    (s != [] ==> var m := Min(k, |s|); s[..m] == Inserted(cmp, o[..m]) && RunsSorted(cmp, s[m..], o[m..], k))
  }

  lemma {:induction false} RunsOfOne<K>(cmp: (K, K) -> int, s: seq<Node<K>>)
    ensures RunsSorted(cmp, s, s, 1)
  {
    if s != [] {
      RunsOfOne(cmp, s[1..]);
      assert s[..1] == [s[0]] && [s[0]][1..] == [];
    }
  }

  lemma {:induction false} InsertedLength<K(!new)>(cmp: (K, K) -> int, s: seq<Node<K>>)
    requires TotalPreorder(cmp)
    ensures |Inserted(cmp, s)| == |s|
  {
    InsertedSorts(cmp, s);
    assert |multiset(Inserted(cmp, s))| == |multiset(s)|;
  }

  /** A pass doubles the length of the sorted runs. */
  lemma {:induction false} PassSorts<K(!new)>(cmp: (K, K) -> int, s: seq<Node<K>>, o: seq<Node<K>>, k: nat)
    requires TotalPreorder(cmp) && k > 0 && RunsSorted(cmp, s, o, k)
    ensures RunsSorted(cmp, Pass(cmp, s, k), o, 2 * k)
    decreases |s|
  {
    hide Merge, Inserted, TotalPreorder;
    if s != [] {
      var m, n := Min(k, |s|), Min(2 * k, |s|);
      var rs, ro := s[m..], o[m..];
      if rs != [] {
        assert rs[..n - m] == s[m..n] && ro[..n - m] == o[m..n] && rs[n - m..] == s[n..] && ro[n - m..] == o[n..];
      } else {
        assert s[m..n] == [] && o[m..n] == [];
        MergeNothing(cmp, []);
        assert s[n..] == rs && o[n..] == ro;
      }
      assert s[m..n] == Inserted(cmp, o[m..n]);
      MergeInserted(cmp, o[..m], o[m..n]);
      assert o[..m] + o[m..n] == o[..n];
      PassSorts(cmp, s[n..], o[n..], k);
      InsertedLength(cmp, o[..n]);
      var r := Pass(cmp, s, k);
      assert r[..n] == Inserted(cmp, o[..n]) && r[n..] == Pass(cmp, s[n..], k);
    }
  }

  /** A list of one run is sorted. */
  lemma OneRun<K>(cmp: (K, K) -> int, s: seq<Node<K>>, o: seq<Node<K>>, k: nat)
    requires k > 0 && RunsSorted(cmp, s, o, k) && |s| <= k
    ensures s == Inserted(cmp, o)
  {
    if s != [] {
      assert s[..|s|] == s && o[..|o|] == o;
    }
  }

  // ---------------------------------------------------------------- linked lists

  function First<K>(s: seq<Node<K>>): Node?<K> {
    if s == [] then null else s[0]
  }

  function Last<K>(s: seq<Node<K>>): Node?<K> {
    if s == [] then null else s[|s| - 1]
  }

  predicate NoDup<K>(s: seq<Node<K>>) {
    forall i, j | 0 <= i < j < |s| :: s[i] != s[j]
  }

  /** Consecutive nodes are linked by `next`; where the last one points is not said. */
  ghost predicate Path<K>(s: seq<Node<K>>)
    reads s
  {
    forall i | 0 <= i < |s| - 1 :: s[i].next == s[i + 1]
  }

  ghost predicate Chain<K>(s: seq<Node<K>>)
    reads s
  {
    Path(s) && (s != [] ==> s[|s| - 1].next == null)
  }

  /** Each node points back to the one before it, the first to none. */
  ghost predicate Backs<K>(s: seq<Node<K>>)
    reads s
  {
    (s != [] ==> s[0].prev == null) && forall i | 0 <= i < |s| - 1 :: s[i + 1].prev == s[i]
  }

  /** The output list while it is being built. */
  ghost predicate Built<K>(list: Node?<K>, tail: Node?<K>, out: seq<Node<K>>)
    reads out
  {
    NoDup(out) && Path(out) && Backs(out) && list == First(out) && tail == Last(out)
  }

  /** A doubly linked list of `utlist.h`: the head's `prev` is the tail. */
  ghost predicate Linked<K>(list: Node?<K>, s: seq<Node<K>>)
    reads s
  {
    && NoDup(s) && Chain(s) && list == First(s)
    && (s != [] ==> s[0].prev == Last(s)) && forall i | 0 <= i < |s| - 1 :: s[i + 1].prev == s[i]
  }

  /** No node is in two of the three. */
  predicate Apart<K>(out: seq<Node<K>>, ps: seq<Node<K>>, qs: seq<Node<K>>) {
    && NoDup(ps) && NoDup(qs)
    && (forall x | x in out :: x !in ps && x !in qs)
    && forall x | x in ps :: x !in qs
  }

  predicate Within<K>(s: seq<Node<K>>, nodes: set<Node<K>>) {
    forall i | 0 <= i < |s| :: s[i] in nodes
  }

  /** Puts `e` at the end of the output. */
  method Emit<K>(list: Node?<K>, tail: Node?<K>, e: Node<K>, ghost out: seq<Node<K>>) returns (list': Node?<K>)
    requires Built(list, tail, out) && e !in out
    modifies e`prev, (if tail == null then {} else {tail})`next
    ensures Built(list', e, out + [e])
  {
    list' := list;
    assert tail == null <==> out == [];
    if tail != null {
      tail.next := e;
    } else {
      list' := e;
    }
    e.prev := tail;
    ghost var more := out + [e];
    assert more[|out|] == e && forall i | 0 <= i < |out| :: more[i] == out[i] && out[i] in out;
  }

  /** Steps over at most `insize` nodes. */
  method TakeRun<K>(p: Node<K>, insize: nat, ghost rest: seq<Node<K>>) returns (q: Node?<K>, psize: nat)
    requires insize > 0 && rest != [] && p == rest[0] && Chain(rest)
    ensures psize == Min(insize, |rest|) && q == First(rest[psize..])
  {
    q := p;
    psize := 0;
    var i := 0;
    while i < insize
      invariant 0 <= i <= insize && psize == i < |rest| && q == rest[psize]
    {
      psize := psize + 1;
      q := q.next;
      assert q == if psize < |rest| then rest[psize] else null;
      if q == null {
        break;
      }
      i := i + 1;
    }
  }

  /** In the middle of a merge: the output, what is left of the run at `p`, and the rest of
      the input, at `q`. */
  ghost predicate Merging<K>(list: Node?<K>, tail: Node?<K>, p: Node?<K>, q: Node?<K>,
                             out: seq<Node<K>>, ps: seq<Node<K>>, qs: seq<Node<K>>, nodes: set<Node<K>>)
    reads out, ps, qs
  {
    && Built(list, tail, out) && Path(ps) && Chain(qs) && Apart(out, ps, qs)
    && (ps != [] ==> p == ps[0]) && q == First(qs)
    && Within(out, nodes) && Within(ps, nodes) && Within(qs, nodes)
  }

  /** `e = p; p = p->next;` and `e` goes to the output. */
  method StepLeft<K>(list: Node?<K>, tail: Node?<K>, p: Node<K>, q: Node?<K>,
                     ghost out: seq<Node<K>>, ghost ps: seq<Node<K>>, ghost qs: seq<Node<K>>, ghost nodes: set<Node<K>>)
    returns (list': Node?<K>, p': Node?<K>)
    requires Merging(list, tail, p, q, out, ps, qs, nodes) && ps != []
    modifies nodes
    ensures Merging(list', p, p', q, out + [p], ps[1..], qs, nodes)
  {
    p' := p.next;
    assert tail != null ==> tail in out;
    assert p !in out && p !in qs && p in nodes && (tail != null ==> tail in nodes);
    assert forall x | x in ps[1..] :: x in ps;
    list' := Emit(list, tail, p, out);
    assert forall i | 0 <= i < |ps| - 1 :: ps[1..][i] == ps[i + 1] && ps[i + 1] in ps && ps[i + 1] != p;
  }

  method StepRight<K>(list: Node?<K>, tail: Node?<K>, p: Node?<K>, q: Node<K>,
                      ghost out: seq<Node<K>>, ghost ps: seq<Node<K>>, ghost qs: seq<Node<K>>, ghost nodes: set<Node<K>>)
    returns (list': Node?<K>, q': Node?<K>)
    requires Merging(list, tail, p, q, out, ps, qs, nodes) && qs != []
    modifies nodes
    ensures Merging(list', q, p, q', out + [q], ps, qs[1..], nodes)
  {
    q' := q.next;
    assert tail != null ==> tail in out;
    assert q !in out && q !in ps && q in nodes && (tail != null ==> tail in nodes);
    assert forall x | x in qs[1..] :: x in qs;
    list' := Emit(list, tail, q, out);
    assert forall i | 0 <= i < |qs| - 1 :: qs[1..][i] == qs[i + 1] && qs[i + 1] in qs && qs[i + 1] != q;
  }

  /** Merges the `psize` nodes from `p` on with at most `qsize` from `q` on. */
  method MergeRuns<K>(cmp: (K, K) -> int, list: Node?<K>, tail: Node?<K>, p: Node?<K>, q: Node?<K>, psize: nat, qsize: nat,
                      ghost out: seq<Node<K>>, ghost ps: seq<Node<K>>, ghost qs: seq<Node<K>>, ghost nodes: set<Node<K>>)
    returns (list': Node?<K>, tail': Node?<K>, q': Node?<K>)
    requires Merging(list, tail, p, q, out, ps, qs, nodes) && psize == |ps| > 0
    modifies nodes
    ensures var m := Min(qsize, |qs|);
            Merging(list', tail', null, q', out + Merge(cmp, ps, qs[..m]), [], qs[m..], nodes)
  {
    hide Merging, Merge;
    ghost var m := Min(qsize, |qs|);
    ghost var o: seq<Node<K>>, ls: seq<Node<K>>, rs: seq<Node<K>> := out, ps, qs;
    list', tail', q' := list, tail, q;
    var p', ps', qs' := p, psize, qsize;
    while ps' > 0 || (qs' > 0 && q' != null)
      invariant Merging(list', tail', p', q', o, ls, rs, nodes)
      invariant ps' == |ls| && rs[Min(qs', |rs|)..] == qs[m..]
      invariant o + Merge(cmp, ls, rs[..Min(qs', |rs|)]) == out + Merge(cmp, ps, qs[..m])
      decreases ps' + qs'
    {
      ghost var b := rs[..Min(qs', |rs|)];
      Heads(list', tail', p', q', o, ls, rs, nodes);
      var left: bool;
      if ps' == 0 {
        left := false;
      } else if qs' == 0 || q' == null {
        left := true;
      } else {
        left := cmp(p'.key, q'.key) <= 0;
      }
      if left {
        var e := p';
        list', p' := StepLeft(list', tail', p', q', o, ls, rs, nodes);
        ps' := ps' - 1;
        tail' := e;
        FromLeft(cmp, o, ls, b);
        o, ls := o + [e], ls[1..];
      } else {
        var e := q';
        list', q' := StepRight(list', tail', p', q', o, ls, rs, nodes);
        qs' := qs' - 1;
        tail' := e;
        FromRight(cmp, o, ls, b);
        o, rs := o + [e], rs[1..];
        assert rs[..Min(qs', |rs|)] == b[1..];
      }
    }
    Heads(list', tail', p', q', o, ls, rs, nodes);
    NothingLeft(cmp, o, ls, rs[..Min(qs', |rs|)]);
    NoRun(list', tail', p', q', o, ls, rs, nodes);
    assert rs[Min(qs', |rs|)..] == rs;
  }

  lemma Heads<K>(list: Node?<K>, tail: Node?<K>, p: Node?<K>, q: Node?<K>,
                 out: seq<Node<K>>, ps: seq<Node<K>>, qs: seq<Node<K>>, nodes: set<Node<K>>)
    requires Merging(list, tail, p, q, out, ps, qs, nodes)
    ensures (ps != [] ==> p == ps[0]) && q == First(qs) && (q == null <==> qs == [])
  {
  }

  lemma NoRun<K>(list: Node?<K>, tail: Node?<K>, p: Node?<K>, q: Node?<K>,
                 out: seq<Node<K>>, ps: seq<Node<K>>, qs: seq<Node<K>>, nodes: set<Node<K>>)
    requires Merging(list, tail, p, q, out, ps, qs, nodes) && ps == []
    ensures Merging(list, tail, null, q, out, [], qs, nodes)
  {
  }

  lemma NothingLeft<K>(cmp: (K, K) -> int, o: seq<Node<K>>, a: seq<Node<K>>, b: seq<Node<K>>)
    requires a == [] && b == []
    ensures o + Merge(cmp, a, b) == o
  {
  }

  lemma FromLeft<K>(cmp: (K, K) -> int, o: seq<Node<K>>, a: seq<Node<K>>, b: seq<Node<K>>)
    requires a != [] && (b == [] || Le(cmp, a[0], b[0]))
    ensures o + Merge(cmp, a, b) == (o + [a[0]]) + Merge(cmp, a[1..], b)
  {
    if b == [] && a[1..] != [] {
      assert a == [a[0]] + a[1..];
    }
  }

  lemma FromRight<K>(cmp: (K, K) -> int, o: seq<Node<K>>, a: seq<Node<K>>, b: seq<Node<K>>)
    requires b != [] && (a == [] || !Le(cmp, a[0], b[0]))
    ensures o + Merge(cmp, a, b) == (o + [b[0]]) + Merge(cmp, a, b[1..])
  {
    if a == [] {
      assert b == [b[0]] + b[1..];
    }
  }

  /** The run of `k` nodes at the front of the input is set apart. */
  lemma CutRun<K>(list: Node?<K>, tail: Node?<K>, p: Node<K>, out: seq<Node<K>>, rest: seq<Node<K>>, k: nat, nodes: set<Node<K>>)
    requires Merging(list, tail, null, p, out, [], rest, nodes) && 0 < k <= |rest|
    ensures Merging(list, tail, p, First(rest[k..]), out, rest[..k], rest[k..], nodes)
    ensures Chain(rest) && rest[0] == p
  {
    hide Built;
    var ps, qs := rest[..k], rest[k..];
    assert forall i | 0 <= i < k :: ps[i] == rest[i] && ps[i] in rest;
    assert forall i | 0 <= i < |rest| - k :: qs[i] == rest[i + k] && qs[i] in rest;
    assert forall x | x in ps :: x !in qs;
  }

  /** One round of a pass: the run at `p` and the one after it. */
  method MergePair<K>(cmp: (K, K) -> int, list: Node?<K>, tail: Node?<K>, p: Node<K>, insize: nat,
                      ghost out: seq<Node<K>>, ghost rest: seq<Node<K>>, ghost nodes: set<Node<K>>)
    returns (list': Node?<K>, tail': Node?<K>, p': Node?<K>)
    requires Merging(list, tail, null, p, out, [], rest, nodes) && insize > 0 && rest != []
    modifies nodes
    ensures var m, n := Min(insize, |rest|), Min(2 * insize, |rest|);
            Merging(list', tail', null, p', out + Merge(cmp, rest[..m], rest[m..n]), [], rest[n..], nodes)
  {
    hide Merge, Merging, NoDup, Chain, Within;
    CutRun(list, tail, p, out, rest, Min(insize, |rest|), nodes);
    var q, psize := TakeRun(p, insize, rest);
    list', tail', p' := MergeRuns(cmp, list, tail, p, q, psize, insize, out, rest[..psize], rest[psize..], nodes);
    Slices(rest, psize, Min(insize, |rest| - psize));
  }

  /** One pass over the list: what it leaves is linked both ways and ends properly. */
  method OnePass<K>(cmp: (K, K) -> int, head: Node<K>, insize: nat, ghost xs: seq<Node<K>>, ghost nodes: set<Node<K>>)
    returns (list: Node?<K>, nmerges: nat)
    requires insize > 0 && xs != [] && NoDup(xs) && Chain(xs) && head == xs[0] && Within(xs, nodes)
    modifies nodes
    ensures Linked(list, Pass(cmp, xs, insize)) && Within(Pass(cmp, xs, insize), nodes)
    ensures nmerges <= 1 <==> |xs| <= 2 * insize
  {
    hide Merge, Pass, Merging, NoDup, Chain, Linked, Within;
    var p: Node?<K> := head;
    list := null;
    var tail: Node?<K> := null;
    nmerges := 0;
    ghost var out: seq<Node<K>>, rest: seq<Node<K>> := [], xs;
    StartPass(head, xs, nodes);
    while p != null
      invariant Merging(list, tail, null, p, out, [], rest, nodes)
      invariant out + Pass(cmp, rest, insize) == Pass(cmp, xs, insize)
      invariant nmerges == 0 ==> rest == xs
      invariant nmerges == 1 ==> rest == xs[Min(2 * insize, |xs|)..]
      invariant nmerges > 1 ==> |xs| > 2 * insize
      decreases |rest|
    {
      nmerges := nmerges + 1;
      ghost var m, n := Min(insize, |rest|), Min(2 * insize, |rest|);
      Heads(list, tail, null, p, out, [], rest, nodes);
      PassStep(cmp, out, rest, insize);
      list, tail, p := MergePair(cmp, list, tail, p, insize, out, rest, nodes);
      out := out + Merge(cmp, rest[..m], rest[m..n]);
      rest := rest[n..];
    }
    Heads(list, tail, null, p, out, [], rest, nodes);
    assert out + [] == out && Pass(cmp, [], insize) == [] by { NoPass(cmp, insize); }
    PassNotEmpty(cmp, xs, insize);
    EndList(list, tail, out, nodes);
  }

  lemma StartPass<K>(head: Node<K>, xs: seq<Node<K>>, nodes: set<Node<K>>)
    requires xs != [] && NoDup(xs) && Chain(xs) && head == xs[0] && Within(xs, nodes)
    ensures Merging(null, null, null, head, [], [], xs, nodes)
  {
  }

  lemma NoPass<K>(cmp: (K, K) -> int, k: nat)
    requires k > 0
    ensures Pass(cmp, [], k) == []
  {
  }

  lemma {:induction false} MergeSize<K>(cmp: (K, K) -> int, a: seq<Node<K>>, b: seq<Node<K>>)
    ensures |Merge(cmp, a, b)| == |a| + |b|
    decreases |a| + |b|
  {
    if a != [] && b != [] {
      if Le(cmp, a[0], b[0]) {
        MergeSize(cmp, a[1..], b);
      } else {
        MergeSize(cmp, a, b[1..]);
      }
    }
  }

  lemma PassNotEmpty<K>(cmp: (K, K) -> int, s: seq<Node<K>>, k: nat)
    requires k > 0 && s != []
    ensures Pass(cmp, s, k) != []
  {
    MergeSize(cmp, s[..Min(k, |s|)], s[Min(k, |s|)..Min(2 * k, |s|)]);
  }

  lemma PassIs<K>(cmp: (K, K) -> int, s: seq<Node<K>>, k: nat)
    requires k > 0 && s != []
    ensures var m, n := Min(k, |s|), Min(2 * k, |s|); Pass(cmp, s, k) == Merge(cmp, s[..m], s[m..n]) + Pass(cmp, s[n..], k)
  {
  }

  lemma Slices<T>(s: seq<T>, m: nat, n: nat)
    requires m + n <= |s|
    ensures s[m..][..n] == s[m..m + n] && s[m..][n..] == s[m + n..]
  {
  }

  lemma PassStep<K>(cmp: (K, K) -> int, out: seq<Node<K>>, s: seq<Node<K>>, k: nat)
    requires k > 0 && s != []
    ensures var m, n := Min(k, |s|), Min(2 * k, |s|);
            out + Pass(cmp, s, k) == (out + Merge(cmp, s[..m], s[m..n])) + Pass(cmp, s[n..], k)
  {
    hide Pass, Merge;
    var m, n := Min(k, |s|), Min(2 * k, |s|);
    PassIs(cmp, s, k);
    Regroup(out, Merge(cmp, s[..m], s[m..n]), Pass(cmp, s[n..], k));
  }

  lemma Regroup<T>(a: seq<T>, b: seq<T>, c: seq<T>)
    ensures a + (b + c) == (a + b) + c
  {
  }

  /** The ends of the finished list. */
  method EndList<K>(list: Node?<K>, tail: Node?<K>, ghost out: seq<Node<K>>, ghost nodes: set<Node<K>>)
    requires Merging(list, tail, null, null, out, [], [], nodes) && out != []
    modifies nodes
    ensures Linked(list, out) && Within(out, nodes)
  {
    assert list in nodes && tail in nodes;
    list.prev := tail;
    tail.next := null;
  }

  /** `DL_SORT2`: whatever the order of the list and whatever total preorder compares its
      keys, the list is sorted in place, stably, and linked both ways again.  `LL_SORT2`
      is the same without the assignments to `prev`. */
  method Sort<K(!new)>(cmp: (K, K) -> int, list: Node?<K>, ghost xs: seq<Node<K>>) returns (head: Node?<K>)
    requires TotalPreorder(cmp) && NoDup(xs) && Chain(xs) && list == First(xs)
    modifies xs
    ensures xs != [] ==> Linked(head, Inserted(cmp, xs))
    ensures xs == [] ==> head == null
  {
    head := list;
    if list == null {
      return;
    }
    hide TotalPreorder, Inserted, Linked, Chain, NoDup;
    head := Passes(cmp, list, xs, set x | x in xs);
  }

  /** Passes over longer and longer runs, until one of them makes a single merge. */
  method Passes<K(!new)>(cmp: (K, K) -> int, list: Node<K>, ghost xs: seq<Node<K>>, ghost nodes: set<Node<K>>) returns (head: Node?<K>)
    requires TotalPreorder(cmp) && xs != [] && NoDup(xs) && Chain(xs) && list == xs[0] && Within(xs, nodes)
    modifies nodes
    ensures Linked(head, Inserted(cmp, xs))
  {
    hide TotalPreorder, Inserted, Pass, RunsSorted, Linked, Chain, NoDup, Within;
    head := list;
    ghost var cur: seq<Node<K>> := xs;
    var insize := 1;
    var looping := true;
    RunsOfOne(cmp, xs);
    while looping
      invariant insize > 0 && |cur| == |xs| && NoDup(cur) && Chain(cur) && head == cur[0] && Within(cur, nodes)
      invariant RunsSorted(cmp, cur, xs, insize)
      invariant if looping then insize == 1 || insize < |xs| else Linked(head, Inserted(cmp, xs))
      decreases looping, if insize < |xs| then |xs| - insize else 0
    {
      var nmerges: nat;
      head, nmerges := SortPass(cmp, head, insize, cur, xs, nodes);
      cur := Pass(cmp, cur, insize);
      LinkedIs(head, cur);
      insize := insize * 2;
      if nmerges <= 1 {
        looping := false;
      }
    }
  }

  /** A pass, with what it does for the sort. */
  method SortPass<K(!new)>(cmp: (K, K) -> int, list: Node?<K>, insize: nat, ghost cur: seq<Node<K>>, ghost xs: seq<Node<K>>, ghost nodes: set<Node<K>>)
    returns (head: Node?<K>, nmerges: nat)
    requires TotalPreorder(cmp) && insize > 0 && RunsSorted(cmp, cur, xs, insize) && |cur| == |xs|
    requires cur != [] && NoDup(cur) && Chain(cur) && list == cur[0] && Within(cur, nodes)
    modifies nodes
    ensures var next := Pass(cmp, cur, insize);
            && Linked(head, next) && Within(next, nodes) && next != [] && |next| == |xs|
            && RunsSorted(cmp, next, xs, 2 * insize)
            && if nmerges <= 1 then next == Inserted(cmp, xs) else 2 * insize < |xs|
  {
    hide TotalPreorder, Inserted, Pass, RunsSorted, Linked, Chain, NoDup, Within;
    ghost var next := Pass(cmp, cur, insize);
    PassSorts(cmp, cur, xs, insize);
    PassNotEmpty(cmp, cur, insize);
    RunsLength(cmp, next, xs, 2 * insize);
    head, nmerges := OnePass(cmp, list, insize, cur, nodes);
    if nmerges <= 1 {
      OneRun(cmp, next, xs, 2 * insize);
    }
  }

  lemma LinkedIs<K>(list: Node?<K>, s: seq<Node<K>>)
    requires Linked(list, s)
    ensures NoDup(s) && Chain(s) && list == First(s)
  {
  }

  lemma RunsLength<K>(cmp: (K, K) -> int, s: seq<Node<K>>, o: seq<Node<K>>, k: nat)
    requires k > 0 && RunsSorted(cmp, s, o, k)
    ensures |s| == |o|
  {
  }

  /** What the sorted list is: the same nodes, in order, equal ones as they were. */
  lemma SortMeans<K(!new)>(cmp: (K, K) -> int, xs: seq<Node<K>>)
    requires TotalPreorder(cmp)
    ensures var ys := Inserted(cmp, xs);
            && Sorted(cmp, ys) && multiset(ys) == multiset(xs)
            && forall c :: EqualTo(cmp, ys, c) == EqualTo(cmp, xs, c)
  {
    InsertedSorts(cmp, xs);
    forall c
      ensures EqualTo(cmp, Inserted(cmp, xs), c) == EqualTo(cmp, xs, c)
    {
      InsertedStable(cmp, xs, c);
    }
  }
}
