/** The queue seen from one item: where it is, with which data and flag, and what each action
    makes of that, from the moment it is added to the moment it is freed. */
module QueueLives {
  import opened QueueProtocol
  import opened QueueOwnership

  /** Where an item is: not added yet, on the list, with a worker that handles it, with one that has
      handled it and has still to free or re-add it, or freed. */
  datatype Place =
    | Unborn
    | Listed(blocked: bool, data: int)
    | With(w: nat, blocked: bool, data: int)
    | Back(w: nat, finished: bool, blocked: bool, data: int)
    | Gone

  ghost predicate Nowhere(s: State, id: nat) {
    && (forall i | 0 <= i < |s.list| :: s.list[i].id != id)
    && (forall w | 0 <= w < |s.workers| :: CarriedBy(s.workers[w]) != id)
  }

  ghost predicate Is(s: State, id: nat, p: Place) {
    match p
    case Unborn => (id == 0 || id >= s.nextId) && Nowhere(s, id)
    case Listed(b, d) => exists i :: 0 <= i < |s.list| && s.list[i] == Entry(id, b, d)
    case With(w, b, d) => w < |s.workers| && s.workers[w] == Holding(Entry(id, b, d))
    case Back(w, f, b, d) => w < |s.workers| && s.workers[w] == Returned(Entry(id, b, d), f)
    case Gone => 1 <= id < s.nextId && Nowhere(s, id)
  }

  /** The item a worker that looks at the list takes: the first that is not blocked. */
  ghost predicate NextUp(list: seq<Entry>, id: nat) {
    exists k :: 0 <= k < |list| && list[k].id == id && !list[k].blocked && forall i :: 0 <= i < k ==> list[i].blocked
  }

  /** What an action makes of an item. */
  ghost function Moved(s: State, p: Place, id: nat, a: Action): Place {
    if a.Add? && id == s.nextId then Listed(a.blocked, a.data)
    else
      match p
      case Unborn => Unborn
      case Listed(b, d) =>
        if (a.Remove? && a.id == id) || (a.RemoveData? && a.data == d) then Gone
        else if (a.Unblock? && a.id == id) || (a.UnblockData? && a.data == d) then Listed(false, d)
        else if a.Fetch? && NextUp(s.list, id) then With(a.w, false, d)
        else p
      case With(w, b, d) =>
        if a.Handle? && a.w == w then With(w, a.blocked, d)
        else if a.ReturnToken? && a.w == w then Back(w, a.finished, b, d)
        else p
      case Back(w, finished, b, d) =>
        if a.GiveBack? && a.w == w then if finished then Gone else Listed(b, d)
        else p
      case Gone => Gone
  }

  // ---------------------------------------------------------------- one place

  lemma OnListOnce(s: State, i: nat, j: nat)
    requires Owned(s) && i < |s.list| && j < |s.list| && s.list[i].id == s.list[j].id
    ensures i == j
  {
    assert Places(s, s.list[i].id) <= 1;
    OnlyAt(s.list, i, j);
  }

  lemma ListedNotCarried(s: State, i: nat, w: nat)
    requires Owned(s) && i < |s.list| && w < |s.workers|
    ensures CarriedBy(s.workers[w]) != s.list[i].id
  {
    var id := s.list[i].id;
    assert Places(s, id) <= 1;
    assert Ids(s.list)[i] in Ids(s.list);
    if CarriedBy(s.workers[w]) == id {
      CarriedOnce(s.workers, w);
    }
  }

  lemma CarriedByOne(s: State, v: nat, w: nat)
    requires Owned(s) && v < |s.workers| && w < |s.workers| && CarriedBy(s.workers[v]) == CarriedBy(s.workers[w]) >= 0
    ensures v == w
  {
    var id := CarriedBy(s.workers[v]);
    assert Places(s, id) <= 1;
    if v != w {
      CountTwo(Carried(s.workers), if v < w then v else w, if v < w then w else v);
    }
  }

  /** An item is in exactly one place. */
  lemma OnePlace(s: State, id: nat, p: Place, q: Place)
    requires Owned(s) && Is(s, id, p) && Is(s, id, q)
    ensures p == q
  {
    hide Owned;
    if p.Listed? {
      var i :| 0 <= i < |s.list| && s.list[i] == Entry(id, p.blocked, p.data);
      if q.Listed? {
        var j :| 0 <= j < |s.list| && s.list[j] == Entry(id, q.blocked, q.data);
        OnListOnce(s, i, j);
      } else if q.With? || q.Back? {
        ListedNotCarried(s, i, q.w);
      }
    } else if p.With? || p.Back? {
      if q.With? || q.Back? {
        CarriedByOne(s, p.w, q.w);
      } else if q.Listed? {
        var i :| 0 <= i < |s.list| && s.list[i] == Entry(id, q.blocked, q.data);
        ListedNotCarried(s, i, p.w);
      }
    }
  }

  // ---------------------------------------------------------------- one step

  lemma RetiredNowhere(s: State, id: nat)
    requires Owned(s) && id in s.retired
    ensures Nowhere(s, id)
  {
    RetiredIsGone(s, id);
    assert forall i | 0 <= i < |s.list| :: s.list[i] in s.list;
    assert forall w | 0 <= w < |s.workers| :: s.workers[w] in s.workers;
  }

  lemma NextUpIsTaken(s: State, id: nat)
    requires Owned(s)
    ensures NextUp(s.list, id) <==> FirstFree(s.list) < |s.list| && s.list[FirstFree(s.list)].id == id
  {
  }

  lemma {:induction false} DropDataHas(list: seq<Entry>, data: int, i: nat)
    requires i < |list| && list[i].data != data
    ensures exists k :: 0 <= k < |DropData(list, data)| && DropData(list, data)[k] == list[i]
    decreases |list|
  {
    if i > 0 {
      DropDataHas(list[1..], data, i - 1);
      var k :| 0 <= k < |DropData(list[1..], data)| && DropData(list[1..], data)[k] == list[1..][i - 1];
      assert DropData(list, data)[if list[0].data != data then k + 1 else k] == list[i];
    } else {
      assert DropData(list, data)[0] == list[0];
    }
  }

  lemma {:induction false} FreeDataIs(list: seq<Entry>, data: int, i: nat)
    requires i < |list|
    ensures FreeData(list, data)[i] == if list[i].data == data then Entry(list[i].id, false, data) else list[i]
  {
    if i > 0 {
      FreeDataIs(list[1..], data, i - 1);
    }
  }

  lemma WithoutHas(list: seq<Entry>, k: nat, i: nat)
    requires k < |list| && i < |list| && i != k
    ensures exists j :: 0 <= j < |Without(list, k)| && Without(list, k)[j] == list[i]
  {
    assert Without(list, k)[if i < k then i else i - 1] == list[i];
  }

  lemma ListedRemoved(s: State, a: Action, s': State, i: nat)
    requires Owned(s) && Owned(s') && Step(s, a, s') && i < |s.list| && 1 <= s.list[i].id < s.nextId && (a.Remove? || a.RemoveData?)
    ensures var e := s.list[i]; Is(s', e.id, Moved(s, Listed(e.blocked, e.data), e.id, a))
  {
    hide Owned, Signalled, NextUp;
    var e := s.list[i];
    if a.Remove? {
      var k := IndexOf(s.list, a.id);
      if a.id == e.id {
        OnListOnce(s, i, k);
        RetiredNowhere(s', e.id);
      } else if k < |s.list| {
        WithoutHas(s.list, k, i);
      }
    } else if a.data == e.data {
      assert e.id in DroppedIds(s.list, a.data);
      RetiredNowhere(s', e.id);
    } else {
      DropDataHas(s.list, a.data, i);
    }
  }

  lemma ListedFreed(s: State, a: Action, s': State, i: nat)
    requires Owned(s) && Step(s, a, s') && i < |s.list| && (a.Unblock? || a.UnblockData?)
    ensures var e := s.list[i]; Is(s', e.id, Moved(s, Listed(e.blocked, e.data), e.id, a))
  {
    hide Owned, Signalled, NextUp;
    var e := s.list[i];
    if a.Unblock? {
      var k := IndexOf(s.list, a.id);
      if a.id == e.id {
        OnListOnce(s, i, k);
        assert s'.list[i] == Entry(a.id, false, e.data);
      } else {
        assert s'.list[i] == e;
      }
    } else {
      FreeDataIs(s.list, a.data, i);
      if s'.list == FreeData(s.list, a.data) {
        assert s'.list[i].id == e.id;
      } else {
        assert e in s.list;
      }
    }
  }

  lemma ListedFetched(s: State, a: Action, s': State, i: nat)
    requires Owned(s) && Step(s, a, s') && i < |s.list| && a.Fetch?
    ensures var e := s.list[i]; Is(s', e.id, Moved(s, Listed(e.blocked, e.data), e.id, a))
  {
    hide Owned;
    var e := s.list[i];
    NextUpIsTaken(s, e.id);
    var k := FirstFree(s.list);
    if k < |s.list| {
      if s.list[k].id == e.id {
        OnListOnce(s, i, k);
      } else {
        WithoutHas(s.list, k, i);
      }
    }
  }

  /** An item that is on the list. */
  lemma ListedMoves(s: State, a: Action, s': State, i: nat)
    requires Owned(s) && Owned(s') && Step(s, a, s') && i < |s.list| && 1 <= s.list[i].id < s.nextId
    ensures var e := s.list[i]; Is(s', e.id, Moved(s, Listed(e.blocked, e.data), e.id, a))
  {
    hide Owned, Signalled, NextUp;
    if a.Remove? || a.RemoveData? {
      ListedRemoved(s, a, s', i);
    } else if a.Unblock? || a.UnblockData? {
      ListedFreed(s, a, s', i);
    } else if a.Fetch? {
      ListedFetched(s, a, s', i);
    } else {
      assert s'.list[i] == s.list[i];
    }
  }

  /** An item that is with a worker. */
  lemma CarriedMoves(s: State, a: Action, s': State, id: nat, p: Place)
    requires Owned(s) && Owned(s') && Step(s, a, s') && Is(s, id, p) && (p.With? || p.Back?) && 1 <= id < s.nextId
    ensures Is(s', id, Moved(s, p, id, a))
  {
    hide Owned;
    if a.GiveBack? && a.w == p.w {
      GivenBack(s, a, s', id, p);
    } else if (a.Handle? || a.ReturnToken?) && a.w == p.w {
      HandledOn(s, a, s', id, p);
    } else {
      StaysCarried(s, a, s', p.w);
    }
  }

  lemma GivenBack(s: State, a: Action, s': State, id: nat, p: Place)
    requires Owned(s') && Step(s, a, s') && Is(s, id, p) && (p.With? || p.Back?) && a.GiveBack? && a.w == p.w && 1 <= id < s.nextId
    ensures Is(s', id, Moved(s, p, id, a))
  {
    hide Owned, Signalled;
    if p.finished {
      RetiredNowhere(s', id);
    } else {
      assert s'.list[|s.list|] == Entry(id, p.blocked, p.data);
    }
  }

  lemma HandledOn(s: State, a: Action, s': State, id: nat, p: Place)
    requires Step(s, a, s') && Is(s, id, p) && (p.With? || p.Back?) && (a.Handle? || a.ReturnToken?) && a.w == p.w && 1 <= id < s.nextId
    ensures Is(s', id, Moved(s, p, id, a))
  {
    hide NextUp;
  }

  /** What a worker has is its own until it acts. */
  lemma StaysCarried(s: State, a: Action, s': State, w: nat)
    requires Step(s, a, s') && w < |s.workers| && (s.workers[w].Holding? || s.workers[w].Returned?)
    requires !((a.GiveBack? || a.Handle? || a.ReturnToken?) && a.w == w)
    ensures w < |s'.workers| && s'.workers[w] == s.workers[w]
  {
    hide Signalled;
  }

  /** An item that is not there. */
  lemma NowhereMoves(s: State, a: Action, s': State, id: nat)
    requires Owned(s) && Owned(s') && Step(s, a, s') && Nowhere(s, id)
    ensures if a.Add? && id == s.nextId then Is(s', id, Listed(a.blocked, a.data)) else Nowhere(s', id)
  {
    hide Owned;
    NotCarried(s, a, s', id);
    if !(a.Add? && id == s.nextId) {
      NotListed(s, a, s', id);
    } else {
      assert s'.list[|s.list|] == Entry(s.nextId, a.blocked, a.data);
    }
  }

  lemma NotListed(s: State, a: Action, s': State, id: nat)
    requires Step(s, a, s') && Nowhere(s, id) && !(a.Add? && id == s.nextId)
    ensures forall i | 0 <= i < |s'.list| :: s'.list[i].id != id
  {
    hide Signalled;
    if a.RemoveData? {
      forall i | 0 <= i < |s'.list|
        ensures s'.list[i].id != id
      {
        var k := DropDataKeeps(s.list, a.data, i);
      }
    } else if a.UnblockData? {
      forall i | 0 <= i < |s'.list|
        ensures s'.list[i].id != id
      {
        FreeDataIs(s.list, a.data, i);
      }
    } else if a.GiveBack? {
      assert CarriedBy(s.workers[a.w]) == s.workers[a.w].item.id;
    }
  }

  lemma NotCarried(s: State, a: Action, s': State, id: nat)
    requires Step(s, a, s') && Nowhere(s, id)
    ensures forall w | 0 <= w < |s'.workers| :: CarriedBy(s'.workers[w]) != id
  {
    hide Signalled;
    forall w | 0 <= w < |s'.workers|
      ensures CarriedBy(s'.workers[w]) != id
    {
      assert CarriedBy(s.workers[w]) != id;
      if a.Fetch? && a.w == w && FirstFree(s.list) < |s.list| {
        assert s.list[FirstFree(s.list)].id != id;
      }
    }
  }

  lemma KnownId(s: State, id: nat, p: Place)
    requires Owned(s) && Is(s, id, p) && !p.Unborn?
    ensures 1 <= id < s.nextId
  {
    if p.Listed? {
      var i :| 0 <= i < |s.list| && s.list[i] == Entry(id, p.blocked, p.data);
      assert Ids(s.list)[i] in Ids(s.list);
      assert Places(s, id) > 0;
    } else if !p.Gone? {
      CarriedOnce(s.workers, p.w);
      assert Places(s, id) > 0;
    }
  }

  /** Every action does to every item what its name says, and nothing else: its data never changes, its
      flag only where it is handled or unblocked, and it is freed exactly when it is removed from the list
      or returned as finished. */
  lemma StepMoves(s: State, a: Action, s': State, id: nat, p: Place)
    requires Owned(s) && Step(s, a, s') && Is(s, id, p)
    ensures Is(s', id, Moved(s, p, id, a))
  {
    StepOwned(s, a, s');
    hide Owned, Step, Places;
    if p.Listed? || p.With? || p.Back? {
      KnownId(s, id, p);
    }
    if p.Listed? {
      var i :| 0 <= i < |s.list| && s.list[i] == Entry(id, p.blocked, p.data);
      ListedMoves(s, a, s', i);
    } else if p.With? || p.Back? {
      CarriedMoves(s, a, s', id, p);
    } else {
      NowhereMoves(s, a, s', id);
      NextIds(s, a, s');
    }
  }

  lemma NextIds(s: State, a: Action, s': State)
    requires Step(s, a, s')
    ensures s'.nextId == s.nextId + if a.Add? then 1 else 0
  {
  }

  // ---------------------------------------------------------------- whole runs

  /** What a run makes of an item, told from the actions alone but for who is next. */
  ghost function Fate(states: seq<State>, actions: seq<Action>, id: nat, p: Place, i: nat, j: nat): Place
    requires i <= j <= |actions| && |states| == |actions| + 1
    decreases j
  {
    if i == j then p else Moved(states[j - 1], Fate(states, actions, id, p, i, j - 1), id, actions[j - 1])
  }

  /** Over every run, every item is where its history has brought it. */
  lemma {:induction false} RunMoves(states: seq<State>, actions: seq<Action>, id: nat, p: Place, i: nat, j: nat)
    requires Run(states, actions) && i <= j <= |actions| && Is(states[i], id, p)
    ensures Is(states[j], id, Fate(states, actions, id, p, i, j))
    decreases j
  {
    hide Owned, NoLostWakeup, Step, Is, Moved;
    if i < j {
      RunMoves(states, actions, id, p, i, j - 1);
      RunOwned(states, actions, j - 1);
      StepMoves(states[j - 1], actions[j - 1], states[j], id, Fate(states, actions, id, p, i, j - 1));
    }
  }

  /** At the start no item is there. */
  lemma NoneYet(states: seq<State>, actions: seq<Action>, id: nat)
    requires Run(states, actions) && id != 0
    ensures Is(states[0], id, Unborn)
  {
  }

  /** What a worker that has still to give its item back has. */
  lemma {:induction false} StaysBack(states: seq<State>, actions: seq<Action>, i: nat, j: nat, w: nat)
    requires Run(states, actions) && i <= j <= |actions| && w < |states[i].workers| && states[i].workers[w].Returned?
    requires forall k | i <= k < j :: !(actions[k].GiveBack? && actions[k].w == w)
    ensures |states[j].workers| == |states[i].workers| && states[j].workers[w] == states[i].workers[w]
    decreases j
  {
    hide Initial, Signalled;
    if i < j {
      StaysBack(states, actions, i, j - 1, w);
      assert Step(states[j - 1], actions[j - 1], states[j]);
    }
  }

  /** `queue_return_item` over runs: the item worker `w` gives back at `j` is the one it returned at `i`.  If it was
      returned as finished it is never seen again; if not, it is at once the last on the list, with the data and
      the flag it had, behind all that were there. */
  lemma ReturnMeans(states: seq<State>, actions: seq<Action>, i: nat, j: nat, w: nat, finished: bool)
    requires Run(states, actions) && i < j < |actions| && actions[i] == ReturnToken(w, finished)
    requires actions[j].GiveBack? && actions[j].w == w && forall k | i < k < j :: !(actions[k].GiveBack? && actions[k].w == w)
    ensures w < |states[i].workers| && states[i].workers[w].Holding?
    ensures var item := states[i].workers[w].item;
            if finished then forall k | j < k <= |actions| :: Nowhere(states[k], item.id)
            else states[j + 1].list == states[j].list + [item] && item.id !in states[j + 1].retired
  {
    hide Initial, Signalled, Owned, NoLostWakeup, Nowhere;
    assert Step(states[i], actions[i], states[i + 1]) && Step(states[j], actions[j], states[j + 1]);
    var item := states[i].workers[w].item;
    StaysBack(states, actions, i + 1, j, w);
    RunOwned(states, actions, j + 1);
    if finished {
      forall k | j < k <= |actions|
        ensures Nowhere(states[k], item.id)
      {
        StaysRetired(states, actions, j + 1, k, item.id);
        RunOwned(states, actions, k);
        RetiredNowhere(states[k], item.id);
      }
    } else {
      NotRetired(states[j + 1], |states[j].list|);
    }
  }

  lemma NotRetired(s: State, i: nat)
    requires Owned(s) && i < |s.list|
    ensures s.list[i].id !in s.retired
  {
    assert Ids(s.list)[i] in Ids(s.list);
    assert Places(s, s.list[i].id) <= 1;
  }

  /** A new item is the last on the list, and what was there stays in front of it. */
  lemma AddedLast(s: State, a: Action, s': State)
    requires Step(s, a, s') && a.Add?
    ensures s'.list == s.list + [Entry(s.nextId, a.blocked, a.data)] && s'.nextId == s.nextId + 1
  {
  }

  // ---------------------------------------------------------------- sleeping and waking

  /** A worker goes to sleep exactly when it looks at an empty list without having just been woken. */
  lemma SleepsOnEmpty(s: State, a: Action, s': State, w: nat)
    requires Step(s, a, s') && w < |s.workers|
    ensures |s'.workers| == |s.workers|
    ensures !s.workers[w].Asleep? ==> (s'.workers[w].Asleep? <==> a == Fetch(w) && s.list == [] && s.workers[w].Ready?)
  {
  }

  /** A sleeper is woken only by a signal for unblocked work, by a ping, or for no reason, and has then still to look at the list;
      a ping wakes every sleeper. */
  lemma WakesForWork(s: State, a: Action, s': State, w: nat)
    requires Step(s, a, s') && w < |s.workers| && s.workers[w].Asleep?
    ensures s'.workers[w].Asleep? || s'.workers[w].Woken?
    ensures a.Ping? ==> s'.workers[w].Woken?
    ensures s'.workers[w].Woken? ==>
              a.Ping? || a == SpuriousWake(w) || (a.Add? && !a.blocked) || (a.Unblock? && s.list != s'.list)
              || (a.UnblockData? && exists e :: e in s.list && e.data == a.data) || (a.GiveBack? && |s'.list| > |s.list|)
  {
  }

  /** A worker that looks at a list with unblocked work takes some; with none it comes back with nothing. */
  lemma FetchMeans(s: State, w: nat, s': State)
    requires Step(s, Fetch(w), s')
    ensures w < |s.workers| && (s'.workers[w].Holding? <==> HasWork(s))
    ensures s'.workers[w].Holding? ==> NextUp(s.list, s'.workers[w].item.id) && s'.processing == s.processing + [s'.workers[w].item.id]
    ensures !s'.workers[w].Holding? ==> s'.list == s.list && s'.processing == s.processing
  {
    var k := FirstFree(s.list);
    if k < |s.list| {
      assert !s.list[k].blocked;
    }
  }

  /** Over every run, a thread that waits until an item is returned comes back exactly when it finds no worker handling it. */
  lemma PendingReturns(states: seq<State>, actions: seq<Action>, i: nat, t: nat)
    requires Run(states, actions) && i < |actions| && actions[i] == LookPending(t)
    ensures t < |states[i].waiters| && states[i].waiters[t].Looking? && t < |states[i + 1].waiters|
    ensures states[i + 1].waiters[t].Away? <==>
            forall w :: 0 <= w < |states[i].workers| && states[i].workers[w].Holding? ==> states[i].workers[w].item.id != states[i].waiters[t].id
  {
    hide Initial, NoLostWakeup;
    assert Step(states[i], actions[i], states[i + 1]);
    RunOwned(states, actions, i);
    HeldHasToken(states[i], states[i].waiters[t].id);
  }

  /** A waiting thread asks once, looks, and sleeps between one look and the next; every announcement makes it look again. */
  lemma WaiterMoves(s: State, a: Action, s': State, t: nat)
    requires Step(s, a, s') && t < |s.waiters|
    ensures |s'.waiters| == |s.waiters|
    ensures match s.waiters[t]
            case Away => s'.waiters[t] == if a.AskPending? && a.t == t then Looking(a.id) else Away
            case Looking(id) => if a == LookPending(t) then s'.waiters[t] in {Sleeping(id), Away} else s'.waiters[t] == Looking(id)
            case Sleeping(id) => s'.waiters[t] == if a.Announce? || a == WakePending(t) then Looking(id) else Sleeping(id)
  {
  }

  lemma HeldHasToken(s: State, id: nat)
    requires Owned(s)
    ensures id in s.processing <==> exists w :: 0 <= w < |s.workers| && s.workers[w].Holding? && s.workers[w].item.id == id
  {
    assert Count(s.processing, id) == Count(Held(s.workers), id);
    CountIn(s.processing, id);
    CountIn(Held(s.workers), id);
    if id in Held(s.workers) {
      var w :| 0 <= w < |s.workers| && Held(s.workers)[w] == id;
      assert s.workers[w].Holding? && s.workers[w].item.id == id;
    }
    if w :| 0 <= w < |s.workers| && s.workers[w].Holding? && s.workers[w].item.id == id {
      assert Held(s.workers)[w] == id;
    }
  }
}
