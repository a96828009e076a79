/** `write(2)` on a non-blocking socket, as far as the response writer can see it. */
module SocketModel {

  /** What the kernel does with one call: take up to `n + 1` bytes, say EAGAIN, or fail. */
  datatype Reply = Take(n: nat) | Again | Fault

  /** The outcome of a call.  A run is finite: `CutOff` marks where the script of replies,
      and with it the run, ends. */
  datatype Written = Bytes(n: nat) | WouldBlock | Broken | CutOff

  /** What a call with `n` bytes comes to when `script` is what the kernel will do; on a `broken`
      socket every call fails. */
  function Answer(broken: bool, script: seq<Reply>, n: nat): Written {
    if script == [] then CutOff
    else if broken then Broken
    else
      match script[0]
      case Take(k) => Bytes(Min(k + 1, n))
      case Again => WouldBlock
      case Fault => Broken
  }

  /** Nothing is ruled out: of `n` bytes the kernel may take any number, it may say EAGAIN, and it may fail. */
  lemma AnythingCanHappen(n: nat, k: nat, more: seq<Reply>)
    requires 0 < k <= n
    ensures exists r :: Answer(false, [r] + more, n) == Bytes(k)
    ensures Answer(false, [Again] + more, n) == WouldBlock && Answer(false, [Fault] + more, n) == Broken
    ensures Answer(true, [Take(n)] + more, n) == Broken
  {
    assert Answer(false, [Take(k - 1)] + more, n) == Bytes(k);
  }

  /** How an attempt to get all of something through the socket ends: it is all taken, a call
      says EAGAIN, a call fails, or the run is over. */
  datatype Stop = Through | Waits | Fails | Ends

  /** An attempt, the number of replies it uses up, and the sizes of the pieces left to write. */
  datatype Attempt = Attempt(stop: Stop, used: nat, left: seq<nat>)

  function StopOf(w: Written): Stop {
    match w
    case Bytes(_) => Through
    case WouldBlock => Waits
    case Broken => Fails
    case CutOff => Ends
  }

  /** The attempt goes on behind one that used up `n` replies. */
  function After(n: nat, a: Attempt): Attempt {
    Attempt(a.stop, n + a.used, a.left)
  }

  class Socket {
    /** All bytes accepted so far. */
    var wire: string
    /** A failed or closed socket accepts nothing more. */
    var broken: bool
    var script: seq<Reply>

    constructor (script: seq<Reply>)
      ensures wire == "" && !broken && this.script == script
    {
      wire, broken, this.script := "", false, script;
    }

    method Write(data: string) returns (w: Written)
      requires |data| > 0
      modifies this
      ensures w == Answer(old(broken), old(script), |data|)
      ensures w.Bytes? ==> 0 < w.n <= |data|
      ensures wire == old(wire) + if w.Bytes? then data[..w.n] else ""
      ensures broken == (old(broken) || w.Broken?)
      ensures script == if w.CutOff? then [] else old(script)[1..]
    {
      if script == [] {
        return CutOff;
      }
      var r := script[0];
      script := script[1..];
      if broken || r.Fault? {
        broken := true;
        return Broken;
      }
      if r.Again? {
        return WouldBlock;
      }
      var n := Min(r.n + 1, |data|);
      wire := wire + data[..n];
      return Bytes(n);
    }

    /** `skt_close`. */
    method Close()
      modifies `broken
      ensures broken
    {
      broken := true;
    }
  }

  function Min(a: nat, b: nat): nat {
    if a < b then a else b
  }
}
