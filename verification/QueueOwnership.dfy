/** Over every run of the queue: an item is in exactly one place, items are taken in order,
    and nobody sleeps through work or through the end of the work it waits for. */
module QueueOwnership {
  import opened QueueProtocol

  // ---------------------------------------------------------------- places

  function CarriedBy(w: Worker): int {
    match w
    case Holding(e) => e.id
    case Returned(e, _) => e.id
    case _ => -1
  }

  function HeldBy(w: Worker): int {
    if w.Holding? then w.item.id else -1
  }

  function Carried(ws: seq<Worker>): (r: seq<int>)
    ensures |r| == |ws| && forall i | 0 <= i < |ws| :: r[i] == CarriedBy(ws[i])
  {
    seq(|ws|, i requires 0 <= i < |ws| => CarriedBy(ws[i]))
  }

  function Held(ws: seq<Worker>): (r: seq<int>)
    ensures |r| == |ws| && forall i | 0 <= i < |ws| :: r[i] == HeldBy(ws[i])
  {
    seq(|ws|, i requires 0 <= i < |ws| => HeldBy(ws[i]))
  }

  function Count<T(==)>(s: seq<T>, x: T): nat {
    multiset(s)[x]
  }

  /** In how many places an id is: on the list, with a worker, or retired. */
  function Places(s: State, id: nat): nat {
    Count(Ids(s.list), id) + Count(Carried(s.workers), id) + if id in s.retired then 1 else 0
  }

  /** Every id handed out so far is in exactly one place, and an id has a token exactly
      while a worker holds its item. */
  ghost predicate Owned(s: State) {
    && (forall id: nat :: Places(s, id) == if 1 <= id < s.nextId then 1 else 0) && s.nextId >= 1
    && (forall id: nat :: Count(s.processing, id) == Count(Held(s.workers), id))
  }

  // ---------------------------------------------------------------- counting

  lemma CountUpdate<T>(s: seq<T>, k: nat, x: T, y: T)
    requires k < |s|
    ensures Count(s[k := x], y) == Count(s, y) - (if s[k] == y then 1 else 0) + (if x == y then 1 else 0)
  {
    assert s == s[..k] + [s[k]] + s[k + 1..];
    assert s[k := x] == s[..k] + [x] + s[k + 1..];
  }

  lemma CountAppend<T>(s: seq<T>, x: T, y: T)
    ensures Count(s + [x], y) == Count(s, y) + if x == y then 1 else 0
  {
  }

  lemma CountWithout<T>(s: seq<T>, k: nat, y: T)
    requires k < |s|
    ensures Count(Without(s, k), y) == Count(s, y) - if s[k] == y then 1 else 0
  {
    assert s == s[..k] + [s[k]] + s[k + 1..];
  }

  lemma CountCons<T>(x: T, s: seq<T>, y: T)
    ensures Count([x] + s, y) == Count(s, y) + if x == y then 1 else 0
  {
  }

  lemma CountTwo<T>(s: seq<T>, i: nat, j: nat)
    requires i < j < |s| && s[i] == s[j]
    ensures Count(s, s[i]) >= 2
  {
    assert s == s[..i] + [s[i]] + s[i + 1..j] + [s[j]] + s[j + 1..];
  }

  lemma CountIn<T>(s: seq<T>, x: T)
    ensures Count(s, x) > 0 <==> x in s
  {
  }

  lemma {:induction false} CountDropToken(tokens: seq<nat>, id: nat, y: nat)
    ensures Count(DropToken(tokens, id), y) == if y == id then 0 else Count(tokens, y)
    decreases |tokens|
  {
    if tokens != [] {
      assert tokens == [tokens[0]] + tokens[1..];
      CountDropToken(tokens[1..], id, y);
    }
  }

  lemma IdsAppend(list: seq<Entry>, e: Entry)
    ensures Ids(list + [e]) == Ids(list) + [e.id]
  {
  }

  lemma IdsWithout(list: seq<Entry>, k: nat)
    requires k < |list|
    ensures Ids(Without(list, k)) == Without(Ids(list), k)
  {
  }

  lemma {:induction false} IdsFree(list: seq<Entry>, data: int)
    ensures Ids(FreeData(list, data)) == Ids(list)
    decreases |list|
  {
    if list != [] {
      IdsFree(list[1..], data);
    }
  }

  /** Dropping by data moves ids from the list to the dropped set, each once. */
  lemma {:induction false} CountDropData(list: seq<Entry>, data: int, id: nat)
    requires Count(Ids(list), id) <= 1
    ensures Count(Ids(DropData(list, data)), id) + (if id in DroppedIds(list, data) then 1 else 0) == Count(Ids(list), id)
    decreases |list|
  {
    if list == [] {
    } else {
      var e, rest := list[0], list[1..];
      assert Ids(list) == [e.id] + Ids(rest);
      CountCons(e.id, Ids(rest), id);
      CountDropData(rest, data, id);
      DroppedCons(list, data);
      if e.data == data {
        if e.id == id {
          NotAgain(rest, data, id);
        }
      } else {
        assert Ids([e] + DropData(rest, data)) == [e.id] + Ids(DropData(rest, data));
        CountCons(e.id, Ids(DropData(rest, data)), id);
      }
    }
  }

  lemma DroppedCons(list: seq<Entry>, data: int)
    requires list != []
    ensures DroppedIds(list, data) == (if list[0].data == data then {list[0].id} else {}) + DroppedIds(list[1..], data)
  {
    assert list == [list[0]] + list[1..];
  }

  lemma NotAgain(list: seq<Entry>, data: int, id: nat)
    requires Count(Ids(list), id) == 0
    ensures id !in DroppedIds(list, data)
  {
    CountIn(Ids(list), id);
  }

  lemma SameCarried(ws: seq<Worker>, vs: seq<Worker>)
    requires |ws| == |vs| && forall i | 0 <= i < |ws| :: CarriedBy(ws[i]) == CarriedBy(vs[i]) && HeldBy(ws[i]) == HeldBy(vs[i])
    ensures Carried(ws) == Carried(vs) && Held(ws) == Held(vs)
  {
  }

  lemma SetWorker(ws: seq<Worker>, w: nat, x: Worker)
    requires w < |ws|
    ensures Carried(ws[w := x]) == Carried(ws)[w := CarriedBy(x)] && Held(ws[w := x]) == Held(ws)[w := HeldBy(x)]
  {
  }

  // ---------------------------------------------------------------- steps keep ownership

  lemma StepOwned(s: State, a: Action, s': State)
    requires Owned(s) && Step(s, a, s')
    ensures Owned(s') && s.retired <= s'.retired && s.nextId <= s'.nextId
  {
    forall id: nat
      ensures Places(s', id) == if 1 <= id < s'.nextId then 1 else 0
      ensures Count(s'.processing, id) == Count(Held(s'.workers), id)
    {
      assert Places(s, id) == if 1 <= id < s.nextId then 1 else 0;
      assert Count(s.processing, id) == Count(Held(s.workers), id);
      HeldAreCarried(s.workers, id);
      StepPlaces(s, a, s', id);
    }
    NextIdGrows(s, a, s');
  }

  lemma NextIdGrows(s: State, a: Action, s': State)
    requires Owned(s) && Step(s, a, s')
    ensures s.retired <= s'.retired && s.nextId <= s'.nextId
  {
    assert Places(s, 0) == 0 && Count(s.processing, 0) == Count(Held(s.workers), 0);
    HeldAreCarried(s.workers, 0);
    StepPlaces(s, a, s', 0);
  }

  lemma {:induction false} HeldAreCarried(ws: seq<Worker>, id: nat)
    ensures Count(Held(ws), id) <= Count(Carried(ws), id)
    decreases |ws|
  {
    if ws != [] {
      var n := |ws| - 1;
      assert Held(ws) == Held(ws[..n]) + [HeldBy(ws[n])] && Carried(ws) == Carried(ws[..n]) + [CarriedBy(ws[n])];
      HeldAreCarried(ws[..n], id);
    }
  }

  /** No step changes in how many places an id is, except that a new id appears on the list. */
  lemma StepPlaces(s: State, a: Action, s': State, id: nat)
    requires Step(s, a, s') && Places(s, id) <= 1
    requires Count(s.processing, id) == Count(Held(s.workers), id) <= 1
    ensures s.retired <= s'.retired && s.nextId <= s'.nextId
    ensures Places(s', id) == Places(s, id) + if a.Add? && id == s.nextId then 1 else 0
    ensures Count(s'.processing, id) == Count(Held(s'.workers), id)
  {
    if a.Fetch? {
      FetchPlaces(s, a, s', id);
    } else if a.ReturnToken? || a.GiveBack? || a.Handle? || a.Announce? || a.SpuriousWake? {
      WorkerPlaces(s, a, s', id);
    } else {
      ListPlaces(s, a, s', id);
    }
  }

  lemma ListPlaces(s: State, a: Action, s': State, id: nat)
    requires Step(s, a, s') && Places(s, id) <= 1 && Count(s.processing, id) == Count(Held(s.workers), id)
    requires a.Add? || a.Remove? || a.RemoveData? || a.Unblock? || a.UnblockData? || a.Ping? || a.AskPending? || a.LookPending? || a.WakePending?
    ensures s.retired <= s'.retired && s.nextId <= s'.nextId
    ensures Places(s', id) == Places(s, id) + if a.Add? && id == s.nextId then 1 else 0
    ensures Count(s'.processing, id) == Count(Held(s'.workers), id)
  {
    if a.Remove? || a.RemoveData? {
      RemovePlaces(s, a, s', id);
    } else if a.Unblock? || a.UnblockData? {
      FreePlaces(s, a, s', id);
    } else {
      hide Count, Signalled, DropData, FreeData, Without, IndexOf;
      SameCarried(s.workers, s'.workers);
      if a.Add? {
        IdsAppend(s.list, Entry(s.nextId, a.blocked, a.data));
        CountAppend(Ids(s.list), s.nextId, id);
      }
    }
  }

  lemma RemovePlaces(s: State, a: Action, s': State, id: nat)
    requires Step(s, a, s') && (a.Remove? || a.RemoveData?) && Places(s, id) <= 1 && Count(s.processing, id) == Count(Held(s.workers), id)
    ensures s.retired <= s'.retired && s.nextId <= s'.nextId && Places(s', id) == Places(s, id)
    ensures Count(s'.processing, id) == Count(Held(s'.workers), id)
  {
    hide Count, Signalled;
    SameCarried(s.workers, s'.workers);
    if a.RemoveData? {
      CountDropData(s.list, a.data, id);
    } else if s' != s {
      var k := IndexOf(s.list, a.id);
      IdsWithout(s.list, k);
      CountWithout(Ids(s.list), k, id);
    }
  }

  lemma FreePlaces(s: State, a: Action, s': State, id: nat)
    requires Step(s, a, s') && (a.Unblock? || a.UnblockData?) && Places(s, id) <= 1 && Count(s.processing, id) == Count(Held(s.workers), id)
    ensures s.retired <= s'.retired && s.nextId <= s'.nextId && Places(s', id) == Places(s, id)
    ensures Count(s'.processing, id) == Count(Held(s'.workers), id)
  {
    hide Count, Signalled;
    SameCarried(s.workers, s'.workers);
    if a.UnblockData? {
      IdsFree(s.list, a.data);
    } else if s' != s {
      assert Ids(s'.list) == Ids(s.list);
    }
  }

  lemma FetchPlaces(s: State, a: Action, s': State, id: nat)
    requires Step(s, a, s') && a.Fetch? && Count(s.processing, id) == Count(Held(s.workers), id)
    ensures s.retired == s'.retired && s.nextId == s'.nextId && Places(s', id) == Places(s, id)
    ensures Count(s'.processing, id) == Count(Held(s'.workers), id)
  {
    hide Count;
    var w := a.w;
    SetWorker(s.workers, w, s'.workers[w]);
    CountUpdate(Carried(s.workers), w, CarriedBy(s'.workers[w]), id);
    CountUpdate(Held(s.workers), w, HeldBy(s'.workers[w]), id);
    assert s'.workers == s.workers[w := s'.workers[w]];
    var k := FirstFree(s.list);
    if k < |s.list| {
      IdsWithout(s.list, k);
      CountWithout(Ids(s.list), k, id);
      CountAppend(s.processing, s.list[k].id, id);
    }
  }

  lemma WorkerPlaces(s: State, a: Action, s': State, id: nat)
    requires Step(s, a, s') && Places(s, id) <= 1 && Count(s.processing, id) == Count(Held(s.workers), id) <= 1
    requires a.ReturnToken? || a.GiveBack? || a.Handle? || a.Announce? || a.SpuriousWake?
    ensures s.retired <= s'.retired && s.nextId == s'.nextId && Places(s', id) == Places(s, id)
    ensures Count(s'.processing, id) == Count(Held(s'.workers), id)
  {
    hide Count, Signalled;
    var w := a.w;
    var x := if a.GiveBack? then Announcing(s.workers[w].item.id) else s'.workers[w];
    var ws := s.workers[w := x];
    SetWorker(s.workers, w, x);
    CountUpdate(Carried(s.workers), w, CarriedBy(x), id);
    CountUpdate(Held(s.workers), w, HeldBy(x), id);
    SameCarried(ws, s'.workers);
    if a.ReturnToken? {
      CountDropToken(s.processing, s.workers[w].item.id, id);
    } else if a.GiveBack? {
      var item := s.workers[w].item;
      IdsAppend(s.list, item);
      CountAppend(Ids(s.list), item.id, id);
      CarriedOnce(s.workers, w);
    }
  }

  lemma CarriedOnce(ws: seq<Worker>, w: nat)
    requires w < |ws|
    ensures Count(Carried(ws), CarriedBy(ws[w])) >= 1
  {
    assert Carried(ws)[w] in Carried(ws);
  }

  // ---------------------------------------------------------------- whole runs

  /** Over every run: ownership, and no wakeup lost. */
  lemma {:induction false} RunOwned(states: seq<State>, actions: seq<Action>, i: nat)
    requires Run(states, actions) && i < |states|
    ensures Owned(states[i]) && NoLostWakeup(states[i])
    decreases i
  {
    if i == 0 {
      InitialOwned(states[0]);
    } else {
      RunOwned(states, actions, i - 1);
      StepOwned(states[i - 1], actions[i - 1], states[i]);
      StepWakes(states[i - 1], actions[i - 1], states[i]);
    }
  }

  lemma InitialOwned(s: State)
    requires Initial(s)
    ensures Owned(s) && NoLostWakeup(s)
  {
    forall id: nat
      ensures Count(Carried(s.workers), id) == 0 && Count(Held(s.workers), id) == 0
    {
      CountIn(Carried(s.workers), id);
      HeldAreCarried(s.workers, id);
    }
  }

  /** No two workers have the same item, and no item with a worker is on the list or retired. */
  lemma OneOwner(states: seq<State>, actions: seq<Action>, i: nat, v: nat, w: nat)
    requires Run(states, actions) && i < |states|
    requires v < |states[i].workers| && w < |states[i].workers| && CarriedBy(states[i].workers[v]) >= 0
    ensures var s := states[i];
            var id := CarriedBy(s.workers[v]);
            && (CarriedBy(s.workers[w]) == id ==> v == w)
            && (forall e <- s.list :: e.id != id) && id !in s.retired
            && (id in s.processing <==> s.workers[v].Holding?)
  {
    RunOwned(states, actions, i);
    var s := states[i];
    var id := CarriedBy(s.workers[v]);
    assert Places(s, id) <= 1 && Count(s.processing, id) == Count(Held(s.workers), id);
    CarriedOnce(s.workers, v);
    if CarriedBy(s.workers[w]) == id && v != w {
      CountTwo(Carried(s.workers), if v < w then v else w, if v < w then w else v);
    }
    forall e | e in s.list
      ensures e.id != id
    {
      var k :| 0 <= k < |s.list| && s.list[k] == e;
      assert Ids(s.list)[k] in Ids(s.list);
    }
    CountIn(s.processing, id);
    CountIn(Held(s.workers), id);
    if s.workers[v].Holding? {
      assert Held(s.workers)[v] == id;
    } else if id in Held(s.workers) {
      var u :| 0 <= u < |s.workers| && Held(s.workers)[u] == id;
      CountTwo(Carried(s.workers), if v < u then v else u, if v < u then u else v);
    }
  }

  /** A retired item is nowhere else. */
  lemma RetiredIsGone(s: State, id: nat)
    requires Owned(s) && id in s.retired
    ensures (forall e <- s.list :: e.id != id) && (forall w <- s.workers :: CarriedBy(w) != id)
  {
    assert Places(s, id) <= 1;
    forall e | e in s.list
      ensures e.id != id
    {
      var k :| 0 <= k < |s.list| && s.list[k] == e;
      assert Ids(s.list)[k] in Ids(s.list);
    }
    forall w | w in s.workers
      ensures CarriedBy(w) != id
    {
      var k :| 0 <= k < |s.workers| && s.workers[k] == w;
      assert Carried(s.workers)[k] in Carried(s.workers);
    }
  }

  lemma {:induction false} StaysRetired(states: seq<State>, actions: seq<Action>, i: nat, j: nat, id: nat)
    requires Run(states, actions) && i <= j < |states| && id in states[i].retired
    ensures id in states[j].retired
    decreases j
  {
    hide Owned, NoLostWakeup, Places, Step;
    if i < j {
      StaysRetired(states, actions, i, j - 1, id);
      RunOwned(states, actions, j - 1);
      StepOwned(states[j - 1], actions[j - 1], states[j]);
    }
  }

  /** Once retired, an item never reappears. */
  lemma RetiredForGood(states: seq<State>, actions: seq<Action>, i: nat, j: nat, id: nat)
    requires Run(states, actions) && i <= j < |states| && id in states[i].retired
    ensures id in states[j].retired && (forall e <- states[j].list :: e.id != id) && (forall w <- states[j].workers :: CarriedBy(w) != id)
  {
    hide Owned, NoLostWakeup, Run;
    StaysRetired(states, actions, i, j, id);
    RunOwned(states, actions, j);
    RetiredIsGone(states[j], id);
  }

  // ---------------------------------------------------------------- order

  predicate Listed(list: seq<Entry>, id: nat) {
    IndexOf(list, id) < |list|
  }

  /** `a` is on the list before `b`, and is not blocked. */
  predicate Ahead(list: seq<Entry>, a: nat, b: nat) {
    IndexOf(list, a) < IndexOf(list, b) < |list| && !list[IndexOf(list, a)].blocked
  }

  /** The positions of two ids on a list, which is what `Ahead` is about. */
  ghost predicate AheadAt(list: seq<Entry>, a: nat, b: nat, i: nat, j: nat) {
    && i < j < |list| && list[i].id == a && list[j].id == b && !list[i].blocked
    && (forall k | 0 <= k < i :: list[k].id != a) && (forall k | 0 <= k < j :: list[k].id != b)
  }

  lemma AheadIs(list: seq<Entry>, a: nat, b: nat, i: nat, j: nat)
    requires AheadAt(list, a, b, i, j)
    ensures Ahead(list, a, b)
  {
  }

  lemma {:induction false} DropDataAhead(list: seq<Entry>, data: int, a: nat, b: nat)
    requires Ahead(list, a, b) && Listed(DropData(list, data), a) && Listed(DropData(list, data), b)
    requires Count(Ids(list), a) <= 1 && Count(Ids(list), b) <= 1
    ensures Ahead(DropData(list, data), a, b)
    decreases |list|
  {
    var e, rest := list[0], list[1..];
    RestCounts(list, a);
    RestCounts(list, b);
    hide Count, Ids;
    if e.id == a {
      if e.data == data {
        StillAbsent(rest, data, a);
      }
    } else {
      assert IndexOf(list, a) == 1 + IndexOf(rest, a) && IndexOf(list, b) == 1 + IndexOf(rest, b);
      DropDataAhead(rest, data, a, b);
      if e.data != data {
        assert ([e] + DropData(rest, data))[1..] == DropData(rest, data);
      }
    }
  }

  lemma RestCounts(list: seq<Entry>, id: nat)
    requires list != []
    ensures Count(Ids(list), id) == Count(Ids(list[1..]), id) + if list[0].id == id then 1 else 0
  {
    CountCons(list[0].id, Ids(list[1..]), id);
  }

  lemma StillAbsent(list: seq<Entry>, data: int, id: nat)
    requires Count(Ids(list), id) == 0
    ensures !Listed(DropData(list, data), id)
  {
    var r := DropData(list, data);
    var k := IndexOf(r, id);
    CountIn(Ids(list), id);
    if k < |r| {
      var i := DropDataKeeps(list, data, k);
    }
  }

  lemma {:induction false} FreeDataAt(list: seq<Entry>, data: int, i: nat)
    requires i < |list|
    ensures |FreeData(list, data)| == |list|
    ensures FreeData(list, data)[i].blocked ==> list[i].blocked
  {
    if i > 0 {
      FreeDataAt(list[1..], data, i - 1);
    }
  }

  lemma FreeDataAhead(list: seq<Entry>, data: int, a: nat, b: nat)
    requires Ahead(list, a, b)
    ensures Ahead(FreeData(list, data), a, b)
  {
    hide FreeData;
    FreeDataIndex(list, data, a);
    FreeDataIndex(list, data, b);
    FreeDataAt(list, data, IndexOf(list, a));
  }

  lemma {:induction false} FreeDataIndex(list: seq<Entry>, data: int, id: nat)
    ensures IndexOf(FreeData(list, data), id) == IndexOf(list, id)
    decreases |list|
  {
    if list != [] && list[0].id != id {
      FreeDataIndex(list[1..], data, id);
    }
  }

  lemma WithoutAhead(list: seq<Entry>, k: nat, a: nat, b: nat)
    requires k < |list| && Ahead(list, a, b) && Listed(Without(list, k), a) && Listed(Without(list, k), b)
    requires Count(Ids(list), a) <= 1 && Count(Ids(list), b) <= 1
    ensures Ahead(Without(list, k), a, b)
  {
    hide Ids, Count, Without;
    WithoutIndex(list, k, a);
    WithoutIndex(list, k, b);
  }

  /** Where an id that occurs once is after the removal of another entry. */
  lemma WithoutIndex(list: seq<Entry>, k: nat, a: nat)
    requires k < |list| && Listed(Without(list, k), a) && Listed(list, a) && Count(Ids(list), a) <= 1
    ensures var i, r := IndexOf(list, a), Without(list, k);
            && IndexOf(r, a) == (if i < k then i else i - 1)
            && i != k && |r| == |list| - 1 && r[IndexOf(r, a)] == list[i]
  {
    hide Ids, Count;
    var r := Without(list, k);
    var i := IndexOf(r, a);
    assert r[i] == list[if i < k then i else i + 1];
    OnlyAt(list, IndexOf(list, a), if i < k then i else i + 1);
  }

  lemma OnlyAt(list: seq<Entry>, i: nat, j: nat)
    requires i < |list| && j < |list| && list[i].id == list[j].id && Count(Ids(list), list[i].id) <= 1
    ensures i == j
  {
    hide Ids, Count;
    if i != j {
      CountTwo(Ids(list), if i < j then i else j, if i < j then j else i);
    }
  }

  lemma AppendAhead(list: seq<Entry>, e: Entry, a: nat, b: nat)
    requires Ahead(list, a, b)
    ensures Ahead(list + [e], a, b)
  {
    AheadIs(list + [e], a, b, IndexOf(list, a), IndexOf(list, b));
  }

  lemma UnblockAhead(list: seq<Entry>, k: nat, a: nat, b: nat)
    requires k < |list| && Ahead(list, a, b)
    ensures Ahead(list[k := list[k].(blocked := false)], a, b)
  {
    AheadIs(list[k := list[k].(blocked := false)], a, b, IndexOf(list, a), IndexOf(list, b));
  }

  /** While both stay on the list, the earlier of two items stays ahead and free. */
  lemma StepAhead(s: State, act: Action, s': State, a: nat, b: nat)
    requires Owned(s) && Step(s, act, s') && Ahead(s.list, a, b)
    requires Listed(s'.list, a) && Listed(s'.list, b)
    ensures Ahead(s'.list, a, b)
  {
    hide Ahead, Listed, Count, Signalled;
    assert Places(s, a) <= 1 && Places(s, b) <= 1;
    match act {
      case Add(bl, d, wake) => AppendAhead(s.list, Entry(s.nextId, bl, d), a, b);
      case Remove(id) =>
        if s' != s {
          WithoutAhead(s.list, IndexOf(s.list, id), a, b);
        }
      case RemoveData(d) => DropDataAhead(s.list, d, a, b);
      case Unblock(id, _) =>
        if s' != s {
          UnblockAhead(s.list, IndexOf(s.list, id), a, b);
        }
      case UnblockData(d, _) =>
        if s' != s {
          FreeDataAhead(s.list, d, a, b);
        }
      case Fetch(w) =>
        if s'.list != s.list {
          WithoutAhead(s.list, FirstFree(s.list), a, b);
        }
      case GiveBack(w, _) =>
        if s'.list != s.list {
          AppendAhead(s.list, s.workers[w].item, a, b);
        }
      case _ =>
    }
  }

  lemma {:induction false} StaysAhead(states: seq<State>, actions: seq<Action>, i: nat, j: nat, a: nat, b: nat)
    requires Run(states, actions) && i <= j < |states| && Ahead(states[i].list, a, b)
    requires forall k | i <= k <= j :: Listed(states[k].list, a) && Listed(states[k].list, b)
    ensures Ahead(states[j].list, a, b)
    decreases j
  {
    hide Owned, NoLostWakeup, Step, Ahead, Listed;
    if i < j {
      StaysAhead(states, actions, i, j - 1, a, b);
      RunOwned(states, actions, j - 1);
      assert Listed(states[j].list, a) && Listed(states[j].list, b);
      StepAhead(states[j - 1], actions[j - 1], states[j], a, b);
    }
  }

  /** Items are taken in order: a free item is never overtaken while it stays on the list. */
  lemma FetchedInOrder(states: seq<State>, actions: seq<Action>, i: nat, j: nat, a: nat, b: nat)
    requires Run(states, actions) && i <= j < |actions| && Ahead(states[i].list, a, b)
    requires forall k | i <= k <= j :: Listed(states[k].list, b)
    requires actions[j].Fetch? && !Listed(states[j + 1].list, b)
    ensures exists k :: i < k <= j && !Listed(states[k].list, a)
  {
    if forall k | i <= k <= j :: Listed(states[k].list, a) {
      StaysAhead(states, actions, i, j, a, b);
      RunOwned(states, actions, j);
      TakenFirst(states[j], actions[j].w, states[j + 1], a, b);
    }
  }

  lemma TakenFirst(s: State, w: nat, s': State, a: nat, b: nat)
    requires Owned(s) && Step(s, Fetch(w), s') && Ahead(s.list, a, b)
    ensures Listed(s'.list, b)
  {
    var k := FirstFree(s.list);
    var i, j := IndexOf(s.list, a), IndexOf(s.list, b);
    assert k <= i;
    assert s'.list == Without(s.list, k);
    assert s'.list[j - 1] == s.list[j];
    assert IndexOf(s'.list, b) <= j - 1;
  }

  // ---------------------------------------------------------------- waiting for an item to be returned

  /** The id is with a worker, or its return has still to be announced. */
  ghost predicate InProgress(s: State, id: nat) {
    id in s.processing || exists w :: 0 <= w < |s.workers| && StillToAnnounce(s.workers[w], id)
  }

  predicate StillToAnnounce(w: Worker, id: nat) {
    (w.Returned? && w.item.id == id) || (w.Announcing? && w.id == id)
  }

  /** A thread that sleeps until an item is returned will be woken: the item is still in progress. */
  ghost predicate WaitersServed(s: State) {
    forall t :: 0 <= t < |s.waiters| && s.waiters[t].Sleeping? ==> InProgress(s, s.waiters[t].id)
  }

  lemma {:induction false} DropOthers(tokens: seq<nat>, id: nat, y: nat)
    requires y in tokens && y != id
    ensures y in DropToken(tokens, id)
    decreases |tokens|
  {
    if tokens[0] != y {
      DropOthers(tokens[1..], id, y);
    }
  }

  lemma ProgressKept(s: State, a: Action, s': State, id: nat)
    requires Step(s, a, s') && InProgress(s, id)
    requires a.Announce? ==> !(s.workers[a.w].id == id)
    ensures InProgress(s', id)
  {
    if id in s.processing {
      if a.ReturnToken? {
        if s.workers[a.w].item.id == id {
          assert StillToAnnounce(s'.workers[a.w], id);
        } else {
          DropOthers(s.processing, s.workers[a.w].item.id, id);
        }
      } else {
        assert id in s'.processing;
      }
    } else {
      var w :| 0 <= w < |s.workers| && StillToAnnounce(s.workers[w], id);
      assert StillToAnnounce(s'.workers[w], id);
    }
  }

  lemma StepServes(s: State, a: Action, s': State)
    requires Step(s, a, s') && WaitersServed(s)
    ensures WaitersServed(s')
  {
    forall t | 0 <= t < |s'.waiters| && s'.waiters[t].Sleeping?
      ensures InProgress(s', s'.waiters[t].id)
    {
      if a.LookPending? && a.t == t {
      } else if a.Announce? {
      } else {
        ProgressKept(s, a, s', s.waiters[t].id);
      }
    }
  }

  /** Over every run, no thread waits for an item whose return has already been announced. */
  lemma {:induction false} RunServes(states: seq<State>, actions: seq<Action>, i: nat)
    requires Run(states, actions) && i < |states|
    ensures WaitersServed(states[i])
    decreases i
  {
    if i == 0 {
      forall t | 0 <= t < |states[0].waiters|
        ensures !states[0].waiters[t].Sleeping?
      {
        assert states[0].waiters[t] in states[0].waiters;
      }
    } else {
      RunServes(states, actions, i - 1);
      StepServes(states[i - 1], actions[i - 1], states[i]);
    }
  }
}
