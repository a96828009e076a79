/** The management loop of a thread pool: it grows the pool at the head of a list, stops
    the head when the queue drains, and joins workers that have stopped. */
module ThreadPool {

  class Thread {
    /** Workers are numbered in the order in which they are created. */
    const id: nat
    var stop: bool

    constructor (id: nat)
      ensures this.id == id && !stop
    {
      this.id, stop := id, false;
    }
  }

  // ---------------------------------------------------------------- runs on values

  /** What the list says of one worker. */
  datatype Entry = Entry(id: nat, stop: bool)

  /** The list, the number of workers created so far, and `last_queue_count`. */
  datatype PoolState = PoolState(list: seq<Entry>, created: nat, last: int)

  datatype Bounds = Bounds(minThreads: nat, maxThreads: nat, queueFactor: nat)

  /** The entries that stay: a worker ends exactly when it comes to look at its flag and finds it set. */
  function Staying(list: seq<Entry>, ready: set<nat>): seq<Entry> {
    if list == [] then []
    else if list[0].stop && list[0].id in ready then Staying(list[1..], ready)
    else [list[0]] + Staying(list[1..], ready)
  }

  /** Growing at the head, stopping the head, or neither. */
  function Adjusted(s: PoolState, b: Bounds, queueSize: nat): PoolState {
    var diff, mark := queueSize - s.last, |s.list| * b.queueFactor;
    if diff > mark && |s.list| < b.maxThreads then PoolState([Entry(s.created, false)] + s.list, s.created + 1, queueSize)
    else if -diff > mark && |s.list| > b.minThreads then PoolState([s.list[0].(stop := true)] + s.list[1..], s.created, queueSize)
    else s
  }

  /** One round of the management loop; `ready` names the workers that have come to look at their flag. */
  function RoundOf(s: PoolState, b: Bounds, queueSize: nat, ready: set<nat>): PoolState {
    var a := Adjusted(s, b, queueSize);
    a.(list := Staying(a.list, ready))
  }

  function Initial(n: nat): seq<Entry> {
    if n == 0 then [] else [Entry(n - 1, false)] + Initial(n - 1)
  }

  /** The state after `n` rounds. */
  function RunOf(b: Bounds, sizes: seq<nat>, ready: seq<set<nat>>, n: nat): PoolState
    requires n <= |sizes| == |ready|
  {
    if n == 0 then PoolState(Initial(b.minThreads), b.minThreads, 0)
    else RoundOf(RunOf(b, sizes, ready, n - 1), b, sizes[n - 1], ready[n - 1])
  }

  /** Later workers come first, and none has a number yet to be given. */
  predicate Numbered(list: seq<Entry>, created: nat) {
    && (forall i | 0 <= i < |list| :: list[i].id < created)
    && forall i, j | 0 <= i < j < |list| :: list[i].id > list[j].id
  }

  /** The list is between its bounds, and its last `minThreads` workers have not been told to stop. */
  predicate Bounded(s: PoolState, b: Bounds) {
    && b.minThreads <= |s.list| <= b.maxThreads && Numbered(s.list, s.created)
    && forall i | |s.list| - b.minThreads <= i < |s.list| :: !s.list[i].stop
  }

  lemma {:induction false} StayingWho(list: seq<Entry>, ready: set<nat>)
    ensures |Staying(list, ready)| <= |list|
    ensures forall e :: e in Staying(list, ready) <==> e in list && !(e.stop && e.id in ready)
    decreases |list|
  {
    if list != [] {
      StayingWho(list[1..], ready);
      assert list == [list[0]] + list[1..];
    }
  }

  lemma {:induction false} StayingIs(list: seq<Entry>, ready: set<nat>, created: nat)
    requires Numbered(list, created)
    ensures Numbered(Staying(list, ready), created) && |Staying(list, ready)| <= |list|
    ensures forall e :: e in Staying(list, ready) <==> e in list && !(e.stop && e.id in ready)
    decreases |list|
  {
    StayingWho(list, ready);
    if list != [] {
      var rest := list[1..];
      assert forall i | 0 <= i < |rest| :: rest[i] == list[i + 1];
      StayingIs(rest, ready, created);
      var s := Staying(rest, ready);
      assert forall i | 0 <= i < |s| :: s[i] in s && s[i] in rest && s[i].id < list[0].id;
    }
  }

  lemma {:induction false} StayingJoin(xs: seq<Entry>, ys: seq<Entry>, ready: set<nat>)
    ensures Staying(xs + ys, ready) == Staying(xs, ready) + Staying(ys, ready)
  {
    if xs == [] {
      assert xs + ys == ys;
    } else {
      assert (xs + ys)[1..] == xs[1..] + ys;
      StayingJoin(xs[1..], ys, ready);
    }
  }

  lemma {:induction false} StayingAll(xs: seq<Entry>, ready: set<nat>)
    requires forall i | 0 <= i < |xs| :: !xs[i].stop
    ensures Staying(xs, ready) == xs
  {
    if xs != [] {
      StayingAll(xs[1..], ready);
    }
  }

  /** The workers at the end of the list that have not been told to stop stay there. */
  lemma StayingTail(list: seq<Entry>, ready: set<nat>, n: nat)
    requires n <= |list| && forall i | |list| - n <= i < |list| :: !list[i].stop
    ensures var s := Staying(list, ready); n <= |s| && s[|s| - n..] == list[|list| - n..]
  {
    hide Staying;
    var front, tail := list[..|list| - n], list[|list| - n..];
    assert list == front + tail;
    StayingJoin(front, tail, ready);
    StayingAll(tail, ready);
  }

  lemma AdjustedBounded(s: PoolState, b: Bounds, queueSize: nat)
    requires Bounded(s, b)
    ensures Bounded(Adjusted(s, b, queueSize), b)
  {
  }

  /** When a worker is added and when the newest is told to stop: the queue has grown, or shrunk, by more than `queueFactor` for
      each worker since the last change, and the bounds allow it.  Nothing else changes, and the size is noted with each change. */
  lemma AdjustsExactly(s: PoolState, b: Bounds, queueSize: nat)
    requires Bounded(s, b)
    ensures var a, n := Adjusted(s, b, queueSize), |s.list|;
            var grow := queueSize > s.last + n * b.queueFactor && n < b.maxThreads;
            var shrink := s.last > queueSize + n * b.queueFactor && n > b.minThreads;
            && a.created == s.created + (if grow then 1 else 0) && a.last == (if grow || shrink then queueSize else s.last)
            && |a.list| == n + (if grow then 1 else 0)
            && (grow ==> !shrink && a.list[0] == Entry(s.created, false) && a.list[1..] == s.list)
            && (shrink ==> a.list[0].id == s.list[0].id && a.list[0].stop && a.list[1..] == s.list[1..])
            && (!grow && !shrink ==> a == s)
  {
  }

  lemma RoundBounded(s: PoolState, b: Bounds, queueSize: nat, ready: set<nat>)
    requires Bounded(s, b)
    ensures Bounded(RoundOf(s, b, queueSize, ready), b)
  {
    hide Adjusted, Staying, Numbered;
    AdjustedBounded(s, b, queueSize);
    var a := Adjusted(s, b, queueSize);
    StayingIs(a.list, ready, a.created);
    StayingTail(a.list, ready, b.minThreads);
    var r := Staying(a.list, ready);
    assert forall i | |r| - b.minThreads <= i < |r| :: r[i] == r[|r| - b.minThreads..][i - (|r| - b.minThreads)];
  }

  lemma {:induction false} InitialIs(n: nat)
    ensures |Initial(n)| == n && forall i | 0 <= i < n :: Initial(n)[i] == Entry(n - 1 - i, false)
  {
    if n > 0 {
      InitialIs(n - 1);
    }
  }

  /** Over every run, whatever the queue does and whenever workers look at their flags, the pool keeps between
      its bounds, no number is given twice, and its oldest `minThreads` workers are never told to stop. */
  lemma {:induction false} RunBounded(b: Bounds, sizes: seq<nat>, ready: seq<set<nat>>, n: nat)
    requires n <= |sizes| == |ready| && b.minThreads <= b.maxThreads
    ensures Bounded(RunOf(b, sizes, ready, n), b)
    decreases n
  {
    hide RoundOf;
    if n == 0 {
      InitialIs(b.minThreads);
    } else {
      RunBounded(b, sizes, ready, n - 1);
      RoundBounded(RunOf(b, sizes, ready, n - 1), b, sizes[n - 1], ready[n - 1]);
    }
  }

  /** Who is on the list after a round: those that were, and the new worker, but for the stopped ones that
      were ready.  So no worker leaves that was not told to stop, and none that was stays once it has looked. */
  lemma WhoLeaves(b: Bounds, sizes: seq<nat>, ready: seq<set<nat>>, n: nat)
    requires n < |sizes| == |ready| && b.minThreads <= b.maxThreads
    ensures var a := Adjusted(RunOf(b, sizes, ready, n), b, sizes[n]);
            forall e :: e in RunOf(b, sizes, ready, n + 1).list <==> e in a.list && !(e.stop && e.id in ready[n])
  {
    RunBounded(b, sizes, ready, n);
    AdjustedBounded(RunOf(b, sizes, ready, n), b, sizes[n]);
    var a := Adjusted(RunOf(b, sizes, ready, n), b, sizes[n]);
    StayingIs(a.list, ready[n], a.created);
  }

  /** A run in which the pool grows to two workers, stops the newer one, and joins it once it has looked. */
  lemma GrowsAndShrinks()
    ensures var b := Bounds(1, 2, 5); var sizes: seq<nat> := [16, 0, 0]; var ready: seq<set<nat>> := [{}, {0}, {0, 1}];
            && RunOf(b, sizes, ready, 1).list == [Entry(1, false), Entry(0, false)]
            && RunOf(b, sizes, ready, 2).list == [Entry(1, true), Entry(0, false)]
            && RunOf(b, sizes, ready, 3).list == [Entry(0, false)]
  {
    var b, sizes, ready: seq<set<nat>> := Bounds(1, 2, 5), [16, 0, 0], [{}, {0}, {0, 1}];
    assert Initial(1) == [Entry(0, false)];
    assert RunOf(b, sizes, ready, 0) == PoolState([Entry(0, false)], 1, 0);
    KeepAndDrop();
    assert RunOf(b, sizes, ready, 1) == PoolState([Entry(1, false), Entry(0, false)], 2, 16);
    assert RunOf(b, sizes, ready, 2) == PoolState([Entry(1, true), Entry(0, false)], 2, 0);
  }

  lemma KeepAndDrop()
    ensures Staying([Entry(1, false), Entry(0, false)], {}) == [Entry(1, false), Entry(0, false)]
    ensures Staying([Entry(1, true), Entry(0, false)], {0}) == [Entry(1, true), Entry(0, false)]
    ensures Staying([Entry(1, true), Entry(0, false)], {0, 1}) == [Entry(0, false)]
  {
    assert [Entry(1, false), Entry(0, false)][1..] == [Entry(1, true), Entry(0, false)][1..] == [Entry(0, false)];
    assert [Entry(0, false)][1..] == [];
  }

  // ---------------------------------------------------------------- the list on the heap

  /** The list without the workers that are gone. */
  function Remaining(list: seq<Thread>, gone: set<Thread>): seq<Thread> {
    if list == [] then []
    else if list[0] in gone then Remaining(list[1..], gone)
    else [list[0]] + Remaining(list[1..], gone)
  }

  function Without(list: seq<Thread>, t: Thread): seq<Thread> {
    if list == [] then [] else if list[0] == t then list[1..] else [list[0]] + Without(list[1..], t)
  }

  predicate NoDup(list: seq<Thread>) {
    forall i, j | 0 <= i < j < |list| :: list[i] != list[j]
  }

  lemma {:induction false} WithoutAt(list: seq<Thread>, i: nat)
    requires i < |list| && NoDup(list)
    ensures Without(list, list[i]) == list[..i] + list[i + 1..]
  {
    if i > 0 {
      WithoutAt(list[1..], i - 1);
      assert list[1..][i - 1] == list[i];
      assert list[..i] == [list[0]] + list[1..][..i - 1] && list[1..][i..] == list[i + 1..];
    }
  }

  lemma {:induction false} RemainingJoin(xs: seq<Thread>, ys: seq<Thread>, gone: set<Thread>)
    ensures Remaining(xs + ys, gone) == Remaining(xs, gone) + Remaining(ys, gone)
  {
    if xs == [] {
      assert xs + ys == ys;
    } else {
      assert (xs + ys)[1..] == xs[1..] + ys;
      RemainingJoin(xs[1..], ys, gone);
    }
  }

  lemma {:induction false} RemainingAll(xs: seq<Thread>, gone: set<Thread>)
    requires forall t | t in xs :: t !in gone
    ensures Remaining(xs, gone) == xs
  {
    if xs != [] {
      RemainingAll(xs[1..], gone);
    }
  }

  lemma {:induction false} RemainingSmaller(xs: seq<Thread>, gone: set<Thread>)
    requires NoDup(xs)
    ensures |Remaining(xs, gone)| <= |xs| && NoDup(Remaining(xs, gone))
    ensures forall t :: t in Remaining(xs, gone) <==> t in xs && t !in gone
  {
    if xs != [] {
      assert forall i, j | 0 <= i < j < |xs| - 1 :: xs[1..][i] == xs[i + 1] && xs[1..][j] == xs[j + 1];
      RemainingSmaller(xs[1..], gone);
      assert xs[0] !in xs[1..];
      assert forall t :: t in xs <==> t == xs[0] || t in xs[1..];
    }
  }

  /** The last `n` entries survive when none of them goes. */
  lemma TailSurvives(xs: seq<Thread>, gone: set<Thread>, n: nat)
    requires n <= |xs| && NoDup(xs) && forall t | t in xs[|xs| - n..] :: t !in gone
    ensures var r := Remaining(xs, gone); n <= |r| <= |xs| && r[|r| - n..] == xs[|xs| - n..]
  {
    var front, tail := xs[..|xs| - n], xs[|xs| - n..];
    assert xs == front + tail;
    RemainingJoin(front, tail, gone);
    RemainingAll(tail, gone);
    RemainingSmaller(xs, gone);
  }

  /** The list as values. */
  function Entries(list: seq<Thread>): (es: seq<Entry>)
    reads list
    ensures |es| == |list|
  {
    if list == [] then [] else [Entry(list[0].id, list[0].stop)] + Entries(list[1..])
  }

  twostate lemma {:induction false} EntriesKept(list: seq<Thread>)
    requires forall t | t in list :: unchanged(t)
    ensures Entries(list) == old(Entries(list))
  {
    if list != [] {
      assert list[0] in list && forall t | t in list[1..] :: t in list;
      EntriesKept(list[1..]);
    }
  }

  /** Removing the ended workers is what `Staying` says. */
  lemma {:induction false} EntriesStay(list: seq<Thread>, gone: set<Thread>, ready: set<nat>)
    requires forall t | t in list :: t in gone <==> t.stop && t.id in ready
    ensures Entries(Remaining(list, gone)) == Staying(Entries(list), ready)
  {
    if list != [] {
      assert list[0] in list && forall t | t in list[1..] :: t in list;
      EntriesStay(list[1..], gone, ready);
    }
  }

  /** One worker of the clean-up loop: `list` has been gone through up to `i`, `all` up to `seen`. */
  lemma JoinStep(all: seq<Thread>, seen: nat, list: seq<Thread>, i: nat, gone: set<Thread>)
    requires seen <= |all| && i < |list| && list[..i] == Remaining(all[..seen], gone) && list[i..] == all[seen..]
    ensures seen < |all| && list[i] == all[seen] && list[i] in all
    ensures var shorter := list[..i] + list[i + 1..];
            list[i] in gone ==> shorter[..i] == Remaining(all[..seen + 1], gone) && shorter[i..] == all[seen + 1..]
    ensures list[i] !in gone ==> list[..i + 1] == Remaining(all[..seen + 1], gone) && list[i + 1..] == all[seen + 1..]
  {
    assert list[i..][0] == list[i] == all[seen];
    assert all[..seen + 1] == all[..seen] + [all[seen]];
    assert list[i + 1..] == list[i..][1..] == all[seen..][1..] == all[seen + 1..];
    RemainingJoin(all[..seen], [all[seen]], gone);
    RemainingOne(all[seen], gone);
    assert list[..i + 1] == list[..i] + [list[i]];
  }

  lemma NoneRemain(gone: set<Thread>)
    ensures Remaining([], gone) == []
  {
  }

  lemma RemainingOne(t: Thread, gone: set<Thread>)
    ensures Remaining([t], gone) == if t in gone then [] else [t]
  {
    assert [t][1..] == [];
  }

  class Pool {
    var threads: seq<Thread>
    var threadCount: nat
    var created: nat
    var minThreads: nat
    var maxThreads: nat
    const queueFactor: nat

    constructor (minThreads: nat, maxThreads: nat, queueFactor: nat)
      ensures threads == [] && threadCount == created == 0
      ensures this.minThreads == minThreads && this.maxThreads == maxThreads && this.queueFactor == queueFactor
    {
      threads, threadCount, created := [], 0, 0;
      this.minThreads, this.maxThreads, this.queueFactor := minThreads, maxThreads, queueFactor;
    }

    /** The list entries and the count agree. */
    ghost predicate Counted()
      reads this
    {
      threadCount == |threads| && NoDup(threads)
    }

    /** The size stays between the bounds because the last `minThreads` workers are never told to stop. */
    ghost predicate Valid()
      reads this, threads
    {
      && Counted() && minThreads <= threadCount <= maxThreads
      && forall t | t in threads[|threads| - minThreads..] :: !t.stop
    }

    function Limits(): Bounds
      reads this
    {
      Bounds(minThreads, maxThreads, queueFactor)
    }

    function View(last: int): PoolState
      reads this, threads
    {
      PoolState(Entries(threads), created, last)
    }

    /** `thread_pool_add_thread`. */
    method AddThread(th: Thread)
      requires Counted() && th !in threads
      modifies `threads, `threadCount
      ensures Counted() && threads == [th] + old(threads)
    {
      threads := [th] + threads;
      threadCount := threadCount + 1;
    }

    /** `thread_pool_remove_thread`. */
    method RemoveThread(i: nat)
      requires Counted() && i < |threads|
      modifies `threads, `threadCount
      ensures Counted() && threads == old(threads[..i] + threads[i + 1..])
    {
      WithoutAt(threads, i);
      threads := Without(threads, threads[i]);
      threadCount := threadCount - 1;
    }

    /** What the management thread does before its loop. */
    method Start()
      requires threads == [] && threadCount == created == 0
      modifies `threads, `threadCount, `created, `maxThreads
      ensures Valid() && threadCount == minThreads && fresh(threads)
      ensures View(0) == PoolState(Initial(minThreads), minThreads, 0)
      ensures maxThreads == if minThreads > old(maxThreads) then minThreads else old(maxThreads)
    {
      var i := 0;
      while i < minThreads
        invariant 0 <= i <= minThreads && Counted() && threadCount == i
        invariant maxThreads == old(maxThreads) && fresh(threads) && forall t | t in threads :: !t.stop
        invariant created == i && Entries(threads) == Initial(i)
      {
        ghost var before := threads;
        var th := new Thread(created);
        created := created + 1;
        AddThread(th);
        assert threads[1..] == before;
        i := i + 1;
      }
      if minThreads > maxThreads {
        maxThreads := minThreads;
      }
    }

    /** One round of the management loop.  `ready` are the workers that have come to look at
        their stop flag; a worker has ended exactly when it found the flag set. */
    method Round(queueSize: nat, lastQueueCount: int, ready: set<nat>)
      returns (last: int, ghost list: seq<Thread>, ghost gone: set<Thread>)
      requires Valid()
      modifies `threads, `threadCount, `created, threads
      ensures View(last) == RoundOf(old(View(lastQueueCount)), Limits(), queueSize, ready)
      ensures Valid() && forall t | t in threads :: t in old(threads) || fresh(t)
      ensures var diff, mark := queueSize - lastQueueCount, old(threadCount) * queueFactor;
              var grow := diff > mark && old(threadCount) < maxThreads;
              var shrink := !grow && -diff > mark && old(threadCount) > minThreads;
              && last == (if grow || shrink then queueSize else lastQueueCount)
              && (forall t | t in old(threads) :: t.stop == (old(t.stop) || (shrink && t == old(threads)[0])))
              && (if grow then |list| > 0 && list[1..] == old(threads) && fresh(list[0]) && !list[0].stop
                  else list == old(threads))
              && threads == Remaining(list, gone)
              && forall t | t in list :: t in gone <==> t.stop && t.id in ready
    {
      hide Entries, Adjusted, Staying, Remaining;
      ghost var was := threads;
      last := Adjust(queueSize, lastQueueCount);
      list := threads;
      gone := Cleanup(ready);
      RemainingSmaller(list, gone);
      assert forall t | t in threads :: t in list;
      assert |list| > |was| ==> forall t | t in list :: t == list[0] || t in list[1..];
    }

    /** The first half of a round: a new worker, or a flag set, or neither. */
    method Adjust(queueSize: nat, lastQueueCount: int) returns (last: int)
      requires Valid()
      modifies `threads, `threadCount, `created, threads
      ensures Valid() && View(last) == Adjusted(old(View(lastQueueCount)), Limits(), queueSize)
      ensures var diff, mark := queueSize - lastQueueCount, old(threadCount) * queueFactor;
              var grow := diff > mark && old(threadCount) < maxThreads;
              var shrink := !grow && -diff > mark && old(threadCount) > minThreads;
              && last == (if grow || shrink then queueSize else lastQueueCount)
              && (forall t | t in old(threads) :: t.stop == (old(t.stop) || (shrink && t == old(threads)[0])))
              && (if grow then |threads| > 0 && threads[1..] == old(threads) && fresh(threads[0]) && !threads[0].stop
                  else threads == old(threads))
    {
      hide Entries;
      last := lastQueueCount;
      var diff := queueSize - lastQueueCount;
      var watermark := threadCount * queueFactor;
      if diff > watermark && threadCount < maxThreads {
        Grow();
        last := queueSize;
      } else if -diff > watermark && threadCount > minThreads {
        StopHead();
        last := queueSize;
      }
    }

    /** A new worker at the head. */
    method Grow()
      requires Valid() && threadCount < maxThreads
      modifies `threads, `threadCount, `created
      ensures Valid() && created == old(created) + 1 && threadCount == old(threadCount) + 1
      ensures |threads| > 0 && threads[1..] == old(threads) && fresh(threads[0]) && !threads[0].stop
      ensures Entries(threads) == [Entry(old(created), false)] + old(Entries(threads))
    {
      ghost var was := threads;
      var th := new Thread(created);
      created := created + 1;
      AddThread(th);
      assert threads[1..] == was;
      assert threads[|threads| - minThreads..] == was[|was| - minThreads..];
    }

    /** The flag of the head is set; it is none of the workers that keep the pool at its minimum. */
    method StopHead()
      requires Valid() && threadCount > minThreads
      modifies threads
      ensures Valid() && forall t | t in threads :: t.stop == (old(t.stop) || t == threads[0])
      ensures Entries(threads) == [old(Entries(threads))[0].(stop := true)] + old(Entries(threads))[1..]
    {
      HeadIsSpare();
      HeadIsOnce();
      threads[0].stop := true;
      EntriesKept(threads[1..]);
    }

    lemma HeadIsSpare()
      requires Valid() && threadCount > minThreads
      ensures threads[0] !in threads[|threads| - minThreads..]
    {
    }

    lemma HeadIsOnce()
      requires Counted() && threads != []
      ensures forall t | t in threads[1..] :: t != threads[0]
    {
    }

    /** Joins and removes the workers that have ended. */
    method Cleanup(ready: set<nat>) returns (ghost gone: set<Thread>)
      requires Valid()
      modifies `threads, `threadCount
      ensures Valid() && threads == Remaining(old(threads), gone)
      ensures Entries(threads) == Staying(old(Entries(threads)), ready)
      ensures forall t | t in old(threads) :: t in gone <==> t.stop && t.id in ready
    {
      hide Remaining, Entries, Staying;
      ghost var all := threads;
      gone := JoinAll(ready);
      EntriesKept(all);
      EntriesStay(all, gone, ready);
    }

    method JoinAll(ready: set<nat>) returns (ghost gone: set<Thread>)
      requires Valid()
      modifies `threads, `threadCount
      ensures Valid() && threads == Remaining(old(threads), gone)
      ensures forall t | t in old(threads) :: t in gone <==> t.stop && t.id in ready
    {
      hide Remaining;
      gone := set t | t in threads && t.stop && t.id in ready;
      ghost var all := threads;
      var i := 0;
      ghost var seen := 0;
      TailSurvives(all, gone, minThreads);
      assert all[..0] == [] && all[0..] == all && Remaining([], gone) == [] by { NoneRemain(gone); }
      while i < |threads|
        invariant 0 <= seen <= |all| && 0 <= i <= |threads| && Counted()
        invariant threads[..i] == Remaining(all[..seen], gone) && threads[i..] == all[seen..]
        decreases |threads| - i
      {
        JoinStep(all, seen, threads, i, gone);
        if threads[i].stop && threads[i].id in ready {
          RemoveThread(i);
        } else {
          i := i + 1;
        }
        seen := seen + 1;
      }
      assert threads[..i] == threads && seen == |all| && all[..seen] == all;
    }

    /** After the loop every worker is stopped, joined and removed. */
    method Shutdown()
      requires Counted()
      modifies this, threads
      ensures threads == [] && threadCount == 0 && forall t | t in old(threads) :: t.stop
    {
      var i := 0;
      while i < |threads|
        invariant 0 <= i <= |threads| && threads == old(threads) && Counted()
        invariant forall k | 0 <= k < i :: threads[k].stop
      {
        threads[i].stop := true;
        i := i + 1;
      }
      while threads != []
        invariant Counted()
        invariant forall t | t in old(threads) :: t.stop
        decreases |threads|
      {
        RemoveThread(0);
      }
    }
  }

  lemma FirstRun(minThreads: nat, sizes: seq<nat>, ready: seq<set<nat>>)
    requires |sizes| == |ready|
    ensures forall b: Bounds | b.minThreads == minThreads :: RunOf(b, sizes, ready, 0) == PoolState(Initial(minThreads), minThreads, 0)
  {
  }

  lemma NextRun(b: Bounds, sizes: seq<nat>, ready: seq<set<nat>>, i: nat)
    requires i < |sizes| == |ready|
    ensures RunOf(b, sizes, ready, i + 1) == RoundOf(RunOf(b, sizes, ready, i), b, sizes[i], ready[i])
  {
    hide RoundOf;
  }

  /** Every run of the management loop: the list is at each time the one of the run on values, hence between
      its bounds, whatever the queue does and whenever workers look at their flags. */
  method Manage(pool: Pool, sizes: seq<nat>, ready: seq<set<nat>>) returns (last: int)
    requires pool.threads == [] && pool.threadCount == pool.created == 0 && |ready| == |sizes|
    modifies pool
    ensures pool.Valid() && pool.minThreads == old(pool.minThreads)
    ensures pool.maxThreads == if pool.minThreads > old(pool.maxThreads) then pool.minThreads else old(pool.maxThreads)
    ensures pool.View(last) == RunOf(pool.Limits(), sizes, ready, |sizes|)
    ensures pool.minThreads <= |pool.threads| <= pool.maxThreads
  {
    hide RoundOf, Entries, Initial, RunOf, Remaining, Numbered, NoDup;
    FirstRun(old(pool.minThreads), sizes, ready);
    pool.Start();
    last := 0;
    var i := 0;
    while i < |sizes|
      invariant 0 <= i <= |sizes| && pool.Valid() && forall k | 0 <= k < |pool.threads| :: fresh(pool.threads[k])
      invariant pool.minThreads == old(pool.minThreads)
      invariant pool.maxThreads == if pool.minThreads > old(pool.maxThreads) then pool.minThreads else old(pool.maxThreads)
      invariant pool.View(last) == RunOf(pool.Limits(), sizes, ready, i)
    {
      ghost var list, gone;
      assert forall t | t in pool.threads :: fresh(t);
      last, list, gone := pool.Round(sizes[i], last, ready[i]);
      NextRun(pool.Limits(), sizes, ready, i);
      assert forall k | 0 <= k < |pool.threads| :: pool.threads[k] in pool.threads;
      i := i + 1;
    }
  }
}
