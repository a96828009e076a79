/** The processing list of the queue: tokens linked one way, with the `utlist` macros
    that append to such a list and delete from it. */
module TokenList {
  import opened QueueProtocol

  class Token {
    const qid: nat
    var next: Token?

    constructor (qid: nat)
      ensures this.qid == qid
    {
      this.qid, next := qid, null;
    }
  }

  /** Every token leads to the next, the last to NULL. */
  ghost predicate Chained(ts: seq<Token>)
    reads ts
  {
    && (forall i, j | 0 <= i < j < |ts| :: ts[i] != ts[j])
    && forall i {:trigger ts[i].next} | 0 <= i < |ts| :: ts[i].next == if i + 1 < |ts| then ts[i + 1] else null
  }

  function IdsOf(ts: seq<Token>): (r: seq<nat>)
    ensures |r| == |ts| && forall i | 0 <= i < |ts| :: r[i] == ts[i].qid
  {
    seq(|ts|, i requires 0 <= i < |ts| => ts[i].qid)
  }

  class Tokens {
    var head: Token?
    /** The tokens from the head on. */
    ghost var tokens: seq<Token>

    constructor ()
      ensures Valid() && Ids() == []
    {
      head, tokens := null, [];
    }

    ghost predicate Valid()
      reads this, tokens
    {
      Chained(tokens) && head == if tokens == [] then null else tokens[0]
    }

    ghost function Ids(): seq<nat>
      reads this
    {
      IdsOf(tokens)
    }

    /** `LL_APPEND`: a walk to the last token. */
    method Append(token: Token)
      requires Valid() && token !in tokens
      modifies this, token, tokens
      ensures Valid() && tokens == old(tokens) + [token] && Ids() == old(Ids()) + [token.qid]
    {
      token.next := null;
      if head != null {
        var tmp := head;
        ghost var i := 0;
        while tmp.next != null
          invariant i < |tokens| && tmp == tokens[i]
          decreases |tokens| - i
        {
          tmp := tmp.next;
          i := i + 1;
        }
        tmp.next := token;
      } else {
        head := token;
      }
      tokens := tokens + [token];
    }

    /** `LL_DELETE` of the token at `k`: a walk to the token before it. */
    method Delete(token: Token, ghost k: nat)
      requires Valid() && k < |tokens| && tokens[k] == token
      modifies this, tokens
      ensures Valid() && tokens == Without(old(tokens), k) && token.next == old(token.next)
    {
      if head == token {
        head := head.next;
      } else {
        var tmp := head;
        ghost var i := 0;
        while tmp.next != null && tmp.next != token
          invariant i < k && tmp == tokens[i]
          decreases |tokens| - i
        {
          tmp := tmp.next;
          i := i + 1;
        }
        if tmp.next != null {
          tmp.next := token.next;
        }
      }
      tokens := Without(tokens, k);
    }

    /** `QUEUE_PENDING_REMOVE`: every token of the id is deleted. */
    method Remove(id: nat)
      requires Valid()
      modifies this, tokens
      ensures Valid() && Ids() == DropToken(old(Ids()), id)
    {
      hide Chained, IdsOf, DropToken;
      var elem := head;
      ghost var k, all := 0, tokens;
      assert Ids()[..0] == [] && Ids()[0..] == Ids();
      while elem != null
        invariant Valid() && 0 <= k <= |tokens| && elem == (if k < |tokens| then tokens[k] else null)
        invariant forall i | 0 <= i < |tokens| :: tokens[i] in all
        invariant DropToken(old(Ids()), id) == Ids()[..k] + DropToken(Ids()[k..], id)
        decreases |tokens| - k
      {
        hide *;
        elem, k := RemoveOne(elem, k, id);
      }
      NoneLeft(Ids(), k, id);
    }

    /** One token of that loop; `elem'` is the next one. */
    method RemoveOne(elem: Token, ghost k: nat, id: nat) returns (elem': Token?, ghost k': nat)
      requires Valid() && k < |tokens| && elem == tokens[k]
      modifies this, tokens
      ensures Valid() && k' <= |tokens| && elem' == (if k' < |tokens| then tokens[k'] else null)
      ensures (forall i | 0 <= i < |tokens| :: tokens[i] in old(tokens)) && |tokens| - k' == |old(tokens)| - k - 1
      ensures Ids()[..k'] + DropToken(Ids()[k'..], id) == old(Ids())[..k] + DropToken(old(Ids())[k..], id)
    {
      hide Chained, IdsOf, DropToken, Without;
      NextIs(tokens, k);
      DropStep(tokens, k, id);
      elem', k' := elem.next, k;
      if elem.qid == id {
        Delete(elem, k);
      } else {
        k' := k + 1;
      }
    }

    /** `QUEUE_HAS_PENDING`. */
    method Has(id: nat) returns (found: bool)
      requires Valid()
      ensures found <==> id in Ids()
    {
      var elem := head;
      ghost var k := 0;
      while elem != null
        invariant k <= |tokens| && elem == (if k < |tokens| then tokens[k] else null)
        invariant forall i | 0 <= i < k :: tokens[i].qid != id
        decreases |tokens| - k
      {
        if elem.qid == id {
          assert Ids()[k] == id;
          return true;
        }
        elem := elem.next;
        k := k + 1;
      }
      return false;
    }
  }

  lemma NoneLeft(ids: seq<nat>, k: nat, id: nat)
    requires k == |ids|
    ensures ids[..k] + DropToken(ids[k..], id) == ids
  {
  }

  lemma NextIs(ts: seq<Token>, k: nat)
    requires Chained(ts) && k < |ts|
    ensures ts[k].next == if k + 1 < |ts| then ts[k + 1] else null
  {
  }

  lemma DropStep(ts: seq<Token>, k: nat, id: nat)
    requires k < |ts|
    ensures var ids, less := IdsOf(ts), IdsOf(Without(ts, k));
            var dropped := ids[..k] + DropToken(ids[k..], id);
            |less| == |ts| - 1 &&
            if ts[k].qid == id then dropped == less[..k] + DropToken(less[k..], id)
            else dropped == ids[..k + 1] + DropToken(ids[k + 1..], id)
    ensures forall i | 0 <= i < |ts| - 1 :: Without(ts, k)[i] in ts
    ensures k + 1 < |ts| ==> Without(ts, k)[k] == ts[k + 1]
  {
    var ids, less := IdsOf(ts), IdsOf(Without(ts, k));
    assert ids[k..] == [ids[k]] + ids[k + 1..];
    assert ids[..k + 1] == ids[..k] + [ids[k]];
    assert less[..k] == ids[..k] && less[k..] == ids[k + 1..];
  }
}
