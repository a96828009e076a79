/** The work queue as the threads see it: every action is what one thread does between
    locking and unlocking the queue, and sleeping threads are part of the state. */
module QueueProtocol {

  datatype Entry = Entry(id: nat, blocked: bool, data: int)

  /** Where a worker stands.  `Woken` has left the wait but not yet looked at the list;
      `Returned` has removed its token and will free or re-add the item next; `Announcing`
      has still to broadcast that its token is gone. */
  datatype Worker = Ready | Asleep | Woken | Holding(item: Entry) | Returned(item: Entry, finished: bool) | Announcing(id: nat)

  /** A thread in `queue_pending_wait`. */
  datatype Waiter = Away | Looking(id: nat) | Sleeping(id: nat)

  datatype State = State(
    list: seq<Entry>, processing: seq<nat>, workers: seq<Worker>, waiters: seq<Waiter>,
    nextId: nat, retired: set<nat>)

  datatype Action =
    | Add(blocked: bool, data: int, wake: set<nat>)
    | Remove(id: nat)
    | RemoveData(data: int)
    | Unblock(id: nat, wake: set<nat>)
    | UnblockData(data: int, wake: set<nat>)
    | Ping
    | SpuriousWake(w: nat)
    | Fetch(w: nat)
    | Handle(w: nat, blocked: bool)
    | ReturnToken(w: nat, finished: bool)
    | GiveBack(w: nat, wake: set<nat>)
    | Announce(w: nat)
    | AskPending(t: nat, id: nat)
    | LookPending(t: nat)
    | WakePending(t: nat)

  // ---------------------------------------------------------------- the list

  function Ids(list: seq<Entry>): (s: seq<nat>)
    ensures |s| == |list| && forall i | 0 <= i < |list| :: s[i] == list[i].id
  {
    if list == [] then [] else [list[0].id] + Ids(list[1..])
  }

  /** The position of the first item that is not blocked, or the length. */
  function FirstFree(list: seq<Entry>): (k: nat)
    ensures k <= |list| && (k < |list| ==> !list[k].blocked) && forall i | 0 <= i < k :: list[i].blocked
  {
    if list == [] || !list[0].blocked then 0 else 1 + FirstFree(list[1..])
  }

  function Without<T>(s: seq<T>, k: nat): seq<T>
    requires k < |s|
  {
    s[..k] + s[k + 1..]
  }

  function IndexOf(list: seq<Entry>, id: nat): (k: nat)
    ensures k <= |list| && (k < |list| ==> list[k].id == id) && forall i | 0 <= i < k :: list[i].id != id
  {
    if list == [] || list[0].id == id then 0 else 1 + IndexOf(list[1..], id)
  }

  function DropData(list: seq<Entry>, data: int): seq<Entry> {
    if list == [] then []
    else if list[0].data == data then DropData(list[1..], data)
    else [list[0]] + DropData(list[1..], data)
  }

  function FreeData(list: seq<Entry>, data: int): (r: seq<Entry>)
    ensures |r| == |list|
  {
    if list == [] then []
    else [if list[0].data == data then list[0].(blocked := false) else list[0]] + FreeData(list[1..], data)
  }

  /** Every token of an id leaves the processing list. */
  function DropToken(tokens: seq<nat>, id: nat): seq<nat> {
    if tokens == [] then []
    else if tokens[0] == id then DropToken(tokens[1..], id)
    else [tokens[0]] + DropToken(tokens[1..], id)
  }

  // ---------------------------------------------------------------- conditions

  function Wake(ws: seq<Worker>, wake: set<nat>): (r: seq<Worker>)
    ensures |r| == |ws|
    ensures forall i | 0 <= i < |ws| :: r[i] == if ws[i].Asleep? && i in wake then Woken else ws[i]
  {
    seq(|ws|, i requires 0 <= i < |ws| => if ws[i].Asleep? && i in wake then Woken else ws[i])
  }

  function Broadcast(ws: seq<Worker>): (r: seq<Worker>)
    ensures |r| == |ws|
    ensures forall i | 0 <= i < |ws| :: r[i] == if ws[i].Asleep? then Woken else ws[i]
  {
    seq(|ws|, i requires 0 <= i < |ws| => if ws[i].Asleep? then Woken else ws[i])
  }

  /** A signal wakes at least one sleeper, if there is one. */
  ghost predicate Signalled(ws: seq<Worker>, wake: set<nat>) {
    (exists i :: 0 <= i < |ws| && ws[i].Asleep?) ==> exists i :: 0 <= i < |ws| && ws[i].Asleep? && i in wake
  }

  // ---------------------------------------------------------------- steps

  /** What a worker inside `queue_fetchone` does with a list that is not empty. */
  function Take(s: State, w: nat): State
    requires w < |s.workers|
  {
    var k := FirstFree(s.list);
    if k < |s.list| then
      s.(list := Without(s.list, k), processing := s.processing + [s.list[k].id],
         workers := s.workers[w := Holding(s.list[k])])
    else s.(workers := s.workers[w := Ready])
  }

  /** The item at position `k` is freed by another thread. */
  function Retire(s: State, k: nat): State
    requires k < |s.list|
  {
    s.(list := Without(s.list, k), retired := s.retired + {s.list[k].id})
  }

  function DroppedIds(list: seq<Entry>, data: int): set<nat> {
    set e | e in list && e.data == data :: e.id
  }

  ghost predicate Step(s: State, a: Action, s': State) {
    match a
    case Add(b, d, wake) =>
      var t := s.(list := s.list + [Entry(s.nextId, b, d)], nextId := s.nextId + 1);
      if b then s' == t else Signalled(s.workers, wake) && s' == t.(workers := Wake(s.workers, wake))
    case Remove(id) =>
      var k := IndexOf(s.list, id);
      s' == if k < |s.list| then Retire(s, k) else s
    case RemoveData(d) => s' == s.(list := DropData(s.list, d), retired := s.retired + DroppedIds(s.list, d))
    case Unblock(id, wake) =>
      var k := IndexOf(s.list, id);
      if k < |s.list| && s.list[k].blocked
      then Signalled(s.workers, wake) &&
           s' == s.(list := s.list[k := s.list[k].(blocked := false)], workers := Wake(s.workers, wake))
      else s' == s
    case UnblockData(d, wake) =>
      if exists e :: e in s.list && e.data == d
      then Signalled(s.workers, wake) && s' == s.(list := FreeData(s.list, d), workers := Wake(s.workers, wake))
      else s' == s
    case Ping => s' == s.(workers := Broadcast(s.workers))
    case SpuriousWake(w) => w < |s.workers| && s.workers[w].Asleep? && s' == s.(workers := s.workers[w := Woken])
    case Fetch(w) =>
      && w < |s.workers| && (s.workers[w].Ready? || s.workers[w].Woken?)
      && s' == if s.list != [] then Take(s, w)
               else s.(workers := s.workers[w := if s.workers[w].Ready? then Asleep else Ready])
    case Handle(w, b) =>
      && w < |s.workers| && s.workers[w].Holding?
      && s' == s.(workers := s.workers[w := Holding(s.workers[w].item.(blocked := b))])
    case ReturnToken(w, finished) =>
      && w < |s.workers| && s.workers[w].Holding?
      && s' == s.(processing := DropToken(s.processing, s.workers[w].item.id),
                  workers := s.workers[w := Returned(s.workers[w].item, finished)])
    case GiveBack(w, wake) =>
      && w < |s.workers| && s.workers[w].Returned?
      && var item := s.workers[w].item;
         var ws := s.workers[w := Announcing(item.id)];
         if s.workers[w].finished then s' == s.(workers := ws, retired := s.retired + {item.id})
         else if item.blocked then s' == s.(workers := ws, list := s.list + [item])
         else Signalled(ws, wake) && s' == s.(workers := Wake(ws, wake), list := s.list + [item])
    case Announce(w) =>
      && w < |s.workers| && s.workers[w].Announcing?
      && s' == s.(workers := s.workers[w := Ready], waiters := WakeAll(s.waiters))
    case AskPending(t, id) => t < |s.waiters| && s.waiters[t].Away? && s' == s.(waiters := s.waiters[t := Looking(id)])
    case LookPending(t) =>
      && t < |s.waiters| && s.waiters[t].Looking?
      && s' == s.(waiters := s.waiters[t := if s.waiters[t].id in s.processing then Sleeping(s.waiters[t].id) else Away])
    case WakePending(t) =>
      t < |s.waiters| && s.waiters[t].Sleeping? && s' == s.(waiters := s.waiters[t := Looking(s.waiters[t].id)])
  }

  function WakeAll(ts: seq<Waiter>): (r: seq<Waiter>)
    ensures |r| == |ts|
    ensures forall i | 0 <= i < |ts| :: r[i] == if ts[i].Sleeping? then Looking(ts[i].id) else ts[i]
  {
    seq(|ts|, i requires 0 <= i < |ts| => if ts[i].Sleeping? then Looking(ts[i].id) else ts[i])
  }

  predicate Initial(s: State) {
    && s.list == [] && s.processing == [] && s.retired == {} && s.nextId == 1
    && |s.workers| > 0 && (forall w <- s.workers :: w.Ready?) && (forall t <- s.waiters :: t.Away?)
  }

  /** A run: states joined by steps. */
  ghost predicate Run(states: seq<State>, actions: seq<Action>) {
    && |states| == |actions| + 1 && Initial(states[0])
    && forall i | 0 <= i < |actions| :: Step(states[i], actions[i], states[i + 1])
  }

  // ---------------------------------------------------------------- no lost wakeup

  ghost predicate HasWork(s: State) {
    exists i :: 0 <= i < |s.list| && !s.list[i].blocked
  }

  ghost predicate SomeoneAwake(ws: seq<Worker>) {
    exists w :: 0 <= w < |ws| && !ws[w].Asleep?
  }

  /** Work on the list means a worker that is not asleep. */
  ghost predicate NoLostWakeup(s: State) {
    |s.workers| > 0 && (HasWork(s) ==> SomeoneAwake(s.workers))
  }

  lemma SignalAwakes(ws: seq<Worker>, wake: set<nat>)
    requires |ws| > 0 && Signalled(ws, wake)
    ensures SomeoneAwake(Wake(ws, wake))
  {
    if exists i :: 0 <= i < |ws| && ws[i].Asleep? {
      var i :| 0 <= i < |ws| && ws[i].Asleep? && i in wake;
      assert !Wake(ws, wake)[i].Asleep?;
    } else {
      assert !Wake(ws, wake)[0].Asleep?;
    }
  }

  lemma {:induction false} DropDataKeeps(list: seq<Entry>, data: int, i: nat) returns (k: nat)
    requires i < |DropData(list, data)|
    ensures k < |list| && list[k] == DropData(list, data)[i] && list[k].data != data
    decreases |list|
  {
    if list[0].data == data {
      k := DropDataKeeps(list[1..], data, i);
      k := k + 1;
    } else if i == 0 {
      k := 0;
    } else {
      k := DropDataKeeps(list[1..], data, i - 1);
      k := k + 1;
    }
  }

  lemma StepWakes(s: State, a: Action, s': State)
    requires NoLostWakeup(s) && Step(s, a, s')
    ensures NoLostWakeup(s')
  {
    match a {
      case Add(b, d, wake) =>
        if !b {
          SignalAwakes(s.workers, wake);
        }
      case RemoveData(d) =>
        if HasWork(s') {
          var i :| 0 <= i < |s'.list| && !s'.list[i].blocked;
          var k := DropDataKeeps(s.list, d, i);
        }
      case Unblock(id, wake) =>
        if s' != s {
          SignalAwakes(s.workers, wake);
        }
      case UnblockData(d, wake) =>
        if s' != s {
          SignalAwakes(s.workers, wake);
        }
      case Ping =>
        assert !s'.workers[0].Asleep?;
      case GiveBack(w, wake) =>
        assert !s'.workers[w].Asleep?;
      case _ => OtherStepWakes(s, a, s');
    }
  }

  lemma OtherStepWakes(s: State, a: Action, s': State)
    requires NoLostWakeup(s) && Step(s, a, s')
    requires !a.Add? && !a.RemoveData? && !a.Unblock? && !a.UnblockData? && !a.Ping? && !a.GiveBack?
    ensures NoLostWakeup(s')
  {
    if a.SpuriousWake? || a.Fetch? || a.Handle? || a.ReturnToken? || a.Announce? {
      if HasWork(s') {
        assert !s'.workers[a.w].Asleep?;
      }
    } else if a.Remove? && s' != s && HasWork(s') {
      var k := IndexOf(s.list, a.id);
      var i :| 0 <= i < |s'.list| && !s'.list[i].blocked;
      assert !s.list[if i < k then i else i + 1].blocked;
    }
  }
}
