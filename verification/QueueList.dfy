/** The queue object itself: a doubly linked list of items under the mutex.  Each method is
    one critical section and is proved to do to the list what the protocol step says. */
module QueueList {
  import opened QueueProtocol
  import opened TokenList

  class Item {
    const id: nat
    var prev: Item?
    var next: Item?
    var blocked: bool
    var data: int

    constructor (id: nat, blocked: bool, data: int)
      ensures this.id == id && this.blocked == blocked && this.data == data
    {
      this.id, this.blocked, this.data := id, blocked, data;
      prev, next := null, null;
    }

    function View(): Entry
      reads `blocked, `data
    {
      Entry(id, blocked, data)
    }
  }

  function Views(items: seq<Item>): (r: seq<Entry>)
    reads items`blocked, items`data
    ensures |r| == |items| && forall i | 0 <= i < |items| :: r[i] == items[i].View()
  {
    if items == [] then [] else [items[0].View()] + Views(items[1..])
  }

  lemma ViewsLess(items: seq<Item>, k: nat)
    requires k < |items|
    ensures Views(Without(items, k)) == Without(Views(items), k)
  {
    hide Views, Without, Item.View;
    var views, rest := Views(items), Without(items, k);
    WithoutAt(items, k);
    WithoutAt(views, k);
    assert forall i | 0 <= i < |rest| :: Views(rest)[i] == rest[i].View() == Without(views, k)[i];
  }

  lemma WithoutAt<T>(s: seq<T>, k: nat)
    requires k < |s|
    ensures |Without(s, k)| == |s| - 1
    ensures forall i | 0 <= i < |s| - 1 :: Without(s, k)[i] == s[if i < k then i else i + 1]
  {
  }

  predicate Distinct(items: seq<Item>) {
    forall i, j | 0 <= i < j < |items| :: items[i] != items[j]
  }

  /** The links of a `utlist` doubly linked list: the head's `prev` is the tail. */
  ghost predicate Linked(items: seq<Item>)
    reads items`prev, items`next
  {
    && Distinct(items)
    && (forall i {:trigger items[i].next} | 0 <= i < |items| ::
          items[i].next == if i + 1 < |items| then items[i + 1] else null)
    && (forall i {:trigger items[i].prev} | 0 <= i < |items| ::
          items[i].prev == if i > 0 then items[i - 1] else items[|items| - 1])
  }

  class Queue {
    var list: Item?
    var count: nat
    /** The processing list. */
    const pending: Tokens
    /** The items from head to tail. */
    ghost var items: seq<Item>

    ghost predicate Valid()
      reads this, items
    {
      && Linked(items) && count == |items|
      && list == if items == [] then null else items[0]
    }

    ghost function Entries(): seq<Entry>
      reads this, items
    {
      Views(items)
    }

    constructor ()
      ensures Valid() && items == [] && fresh(pending) && pending.Valid() && pending.Ids() == []
    {
      list, count, items := null, 0, [];
      pending := new Tokens();
    }

    /** `DL_APPEND` and the count. */
    method Append(item: Item)
      requires Valid() && item !in items
      modifies this`list, this`count, this`items, item`prev, item`next, items`prev, items`next
      ensures Valid() && items == old(items) + [item]
      ensures Entries() == old(Entries()) + [old(item.View())] && item.View() == old(item.View())
    {
      if list != null {
        item.prev := list.prev;
        list.prev.next := item;
        list.prev := item;
        item.next := null;
      } else {
        list := item;
        list.prev := list;
        list.next := null;
      }
      items := items + [item];
      count := count + 1;
    }

    /** `DL_DELETE` and the count; `k` is the position of the item. */
    method Unlink(item: Item, ghost k: nat)
      requires Valid() && k < |items| && items[k] == item
      modifies this`list, this`count, this`items, items`prev, items`next
      ensures Valid() && items == Without(old(items), k)
      ensures Entries() == Without(old(Entries()), k) && item.View() == old(item.View())
    {
      hide Linked, Views, Without;
      ViewsLess(items, k);
      WithoutIsIn(items, k, items);
      RemoveLinks(item, k);
      items := Without(items, k);
      count := count - 1;
    }

    /** The links of `DL_DELETE`. */
    method RemoveLinks(item: Item, ghost k: nat)
      requires Valid() && k < |items| && items[k] == item
      modifies this`list, items`prev, items`next
      ensures var rest := Without(items, k); Linked(rest) && list == if rest == [] then null else rest[0]
    {
      SelfLinked(items, k);
      if item.prev == item {
        list := null;
      } else if item == list {
        UnlinkHead(item);
      } else {
        UnlinkLater(item, k);
      }
    }

    method UnlinkHead(item: Item)
      requires Valid() && |items| > 1 && items[0] == item
      modifies this`list, items`prev, items`next
      ensures var rest := Without(items, 0); Linked(rest) && rest != [] && list == rest[0]
    {
      assert item.next == items[1];
      item.next.prev := item.prev;
      list := item.next;
    }

    method UnlinkLater(item: Item, ghost k: nat)
      requires Valid() && 0 < k < |items| && items[k] == item
      modifies items`prev, items`next
      ensures var rest := Without(items, k); Linked(rest) && rest != [] && list == rest[0]
    {
      assert item.prev == items[k - 1];
      item.prev.next := item.next;
      if item.next != null {
        assert item.next == items[k + 1];
        item.next.prev := item.prev;
      } else {
        list.prev := item.prev;
      }
    }

    /** `queue_add`, up to the signal. */
    method Add(item: Item) returns (signal: bool)
      requires Valid() && item !in items
      modifies this, item, items
      ensures Valid() && items == old(items) + [item]
      ensures Entries() == old(Entries()) + [old(item.View())] && signal == !old(item.blocked)
    {
      Append(item);
      signal := !item.blocked;
    }

    /** The loop that looks for the first item that is not blocked. */
    method FirstUnblocked() returns (item: Item?, ghost k: nat)
      requires Valid()
      ensures k == FirstFree(Entries())
      ensures if k < |items| then item == items[k] else item == null
    {
      k := 0;
      item := list;
      while item != null && item.blocked
        invariant k <= |items| && item == (if k < |items| then items[k] else null)
        invariant forall i | 0 <= i < k :: items[i].blocked
        decreases |items| - k
      {
        item := item.next;
        k := k + 1;
      }
      FirstFreeIs(Entries(), k);
    }

    /** `queue_fetchone` on a list that has items: the item moves, its token goes to the processing list. */
    method FetchOne() returns (item: Item?)
      requires Valid() && count > 0 && pending.Valid()
      modifies this, items, pending, pending.tokens
      ensures Valid() && pending.Valid()
      ensures var k := FirstFree(old(Entries()));
              if k < |old(items)|
              then item == old(items)[k] && items == Without(old(items), k) && Entries() == Without(old(Entries()), k) &&
                   item.View() == old(Entries())[k] && pending.Ids() == old(pending.Ids()) + [item.id]
              else item == null && items == old(items) && Entries() == old(Entries()) && pending.Ids() == old(pending.Ids())
    {
      hide Linked, Without, FirstFree, Views, Tokens.Valid, Tokens.Ids;
      ghost var k;
      item, k := FirstUnblocked();
      if item != null {
        Unlink(item, k);
        AddToken(item.id);
      }
    }

    method AddToken(id: nat)
      requires pending.Valid()
      modifies pending, pending.tokens
      ensures pending.Valid() && pending.Ids() == old(pending.Ids()) + [id]
    {
      var token := new Token(id);
      pending.Append(token);
    }

    /** `queue_unblock`, up to the signal. */
    method Unblock(id: nat) returns (signal: bool)
      requires Valid()
      modifies items
      ensures Valid() && items == old(items)
      ensures var k := IndexOf(old(Entries()), id);
              signal == (k < |old(items)| && old(Entries())[k].blocked) &&
              Entries() == if signal then old(Entries())[k := old(Entries())[k].(blocked := false)] else old(Entries())
    {
      signal := false;
      var elem := list;
      ghost var k := 0;
      while elem != null && elem.id != id
        invariant k <= |items| && elem == (if k < |items| then items[k] else null)
        invariant forall i | 0 <= i < k :: items[i].id != id
        modifies {}
        decreases |items| - k
      {
        elem := elem.next;
        k := k + 1;
      }
      IndexIs(Entries(), id, k);
      if elem != null && elem.blocked {
        Free(elem, k);
        signal := true;
      }
    }

    /** Clears the flag of item `k`. */
    method Free(elem: Item, ghost k: nat)
      requires Valid() && k < |items| && elem == items[k]
      modifies elem`blocked
      ensures Valid() && Entries() == old(Entries())[k := old(Entries())[k].(blocked := false)]
    {
      elem.blocked := false;
    }

    /** `queue_unblock_byptr`, up to the signal. */
    method UnblockData(data: int) returns (found: nat)
      requires Valid()
      modifies items
      ensures Valid() && items == old(items)
      ensures Entries() == FreeData(old(Entries()), data)
      ensures found > 0 <==> exists e :: e in old(Entries()) && e.data == data
    {
      found := 0;
      var elem := list;
      ghost var k := 0;
      while elem != null
        invariant k <= |items| && elem == (if k < |items| then items[k] else null)
        invariant Valid()
        invariant forall i | 0 <= i < |items| ::
                    items[i].data == old(items[i].data) &&
                    items[i].blocked == if i < k && old(items[i].data) == data then false else old(items[i].blocked)
        invariant found > 0 <==> exists i :: 0 <= i < k && old(items[i].data) == data
        decreases |items| - k
      {
        if elem.data == data {
          elem.blocked := false;
          found := found + 1;
        }
        elem := elem.next;
        k := k + 1;
      }
      forall i | 0 <= i < |items|
        ensures Entries()[i] == FreeData(old(Entries()), data)[i]
      {
        FreeDataAt(old(Entries()), data, i);
      }
      if found > 0 {
        ghost var i :| 0 <= i < |items| && old(items[i].data) == data;
        assert old(Entries())[i] in old(Entries());
      }
    }

    /** `queue_remove`: frees the item if it is on the list. */
    method Remove(id: nat) returns (removed: bool)
      requires Valid()
      modifies this, items
      ensures Valid()
      ensures var k := IndexOf(old(Entries()), id);
              removed == (k < |old(items)|) &&
              Entries() == if removed then Without(old(Entries()), k) else old(Entries())
    {
      removed := false;
      var elem := list;
      ghost var k := 0;
      while elem != null && elem.id != id
        invariant k <= |items| && elem == (if k < |items| then items[k] else null)
        invariant forall i | 0 <= i < k :: items[i].id != id
        modifies {}
        decreases |items| - k
      {
        elem := elem.next;
        k := k + 1;
      }
      IndexIs(Entries(), id, k);
      if elem != null {
        Unlink(elem, k);
        removed := true;
      }
    }

    /** `queue_remove_byptr`: frees every item with the given data. */
    method RemoveData(data: int) returns (removed: nat)
      requires Valid()
      modifies this, items
      ensures Valid() && Entries() == DropData(old(Entries()), data) && removed == |old(items)| - |items|
    {
      hide Linked, Views, Without, DropData;
      removed := 0;
      var elem := list;
      ghost var k, all := 0, items;
      assert Entries()[..0] == [] && Entries()[0..] == Entries();
      while elem != null
        invariant Valid() && 0 <= k <= |items| && elem == (if k < |items| then items[k] else null)
        invariant Within(items, all) && removed == |all| - |items|
        invariant DropData(old(Entries()), data) == Entries()[..k] + DropData(Entries()[k..], data)
        decreases |items| - k
      {
        hide *;
        ghost var was := items;
        var gone;
        elem, gone, k := RemoveOne(elem, k, data);
        WithinAll(items, was, all);
        if gone {
          removed := removed + 1;
        }
      }
      NothingAfter(Entries(), k, data);
    }

    /** One item of that loop; `elem'` is the next one. */
    method RemoveOne(elem: Item, ghost k: nat, data: int) returns (elem': Item?, gone: bool, ghost k': nat)
      requires Valid() && k < |items| && elem == items[k]
      modifies this, items
      ensures Valid() && k' <= |items| && elem' == (if k' < |items| then items[k'] else null)
      ensures Within(items, old(items)) && |items| == |old(items)| - (if gone then 1 else 0)
      ensures |items| - k' == |old(items)| - k - 1
      ensures Entries()[..k'] + DropData(Entries()[k'..], data) == old(Entries())[..k] + DropData(old(Entries())[k..], data)
    {
      hide Linked, Views, Without, DropData;
      NextItem(items, k);
      DropOne(Entries(), k, data);
      elem', gone, k' := elem.next, elem.data == data, k;
      if gone {
        WithoutIsIn(items, k, items);
        Unlink(elem, k);
      } else {
        k' := k + 1;
      }
    }
  }

  lemma NothingAfter(list: seq<Entry>, k: nat, data: int)
    requires k == |list|
    ensures list[..k] + DropData(list[k..], data) == list
  {
  }

  lemma WithinAll(items: seq<Item>, more: seq<Item>, all: seq<Item>)
    requires Within(items, more) && Within(more, all)
    ensures Within(items, all)
    ensures forall i | 0 <= i < |items| :: items[i] in all
  {
  }

  lemma NextItem(items: seq<Item>, k: nat)
    requires Linked(items) && k < |items|
    ensures items[k].next == if k + 1 < |items| then items[k + 1] else null
  {
  }

  predicate Within(items: seq<Item>, all: seq<Item>) {
    forall i | 0 <= i < |items| :: items[i] in all
  }

  lemma WithoutIsIn(items: seq<Item>, k: nat, all: seq<Item>)
    requires k < |items| && Within(items, all)
    ensures Within(Without(items, k), all) && |Without(items, k)| == |items| - 1
    ensures k < |items| - 1 ==> Without(items, k)[k] == items[k + 1]
  {
  }

  lemma DropOne(list: seq<Entry>, k: nat, data: int)
    requires k < |list|
    ensures var dropped := list[..k] + DropData(list[k..], data);
            if list[k].data == data then dropped == Without(list, k)[..k] + DropData(Without(list, k)[k..], data)
            else dropped == list[..k + 1] + DropData(list[k + 1..], data)
  {
    assert list[k..] == [list[k]] + list[k + 1..];
    assert list[..k + 1] == list[..k] + [list[k]];
    assert Without(list, k)[..k] == list[..k] && Without(list, k)[k..] == list[k + 1..];
  }

  lemma SelfLinked(items: seq<Item>, k: nat)
    requires Linked(items) && k < |items|
    ensures items[k].prev == items[k] <==> |items| == 1
    ensures items[k] == items[0] <==> k == 0
    ensures Linked([])
  {
    assert k == 0 ==> items[0].prev == items[|items| - 1];
  }

  lemma FirstFreeIs(list: seq<Entry>, k: nat)
    requires k <= |list| && (forall i | 0 <= i < k :: list[i].blocked) && (k < |list| ==> !list[k].blocked)
    ensures FirstFree(list) == k
  {
  }

  lemma IndexIs(list: seq<Entry>, id: nat, k: nat)
    requires k <= |list| && (forall i | 0 <= i < k :: list[i].id != id) && (k < |list| ==> list[k].id == id)
    ensures IndexOf(list, id) == k
  {
  }

  lemma {:induction false} FreeDataAt(list: seq<Entry>, data: int, i: nat)
    requires i < |list|
    ensures FreeData(list, data)[i] == if list[i].data == data then list[i].(blocked := false) else list[i]
    decreases |list|
  {
    if i > 0 {
      FreeDataAt(list[1..], data, i - 1);
    }
  }
}
