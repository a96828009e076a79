/** The chain of fixed-size buffers between the response writer and the socket. */
module DataBuffers {
  import opened SocketModel

  const DATA_BUFFER_SIZE: nat := 16 * 1024

  /** The sizes of the new buffers that `n` bytes are spread over. */
  function Chunks(n: nat): (lens: seq<nat>)
    ensures n > 0 ==> lens != [] && lens[0] > 0
  {
    if n == 0 then [] else [Min(n, DATA_BUFFER_SIZE)] + Chunks(n - Min(n, DATA_BUFFER_SIZE))
  }

  function Sum(lens: seq<nat>): nat {
    if lens == [] then 0 else lens[0] + Sum(lens[1..])
  }

  /** All buffers but the last are full with 16 KiB, and none is empty. */
  lemma {:induction false} ChunksMean(n: nat)
    ensures Sum(Chunks(n)) == n
    ensures forall i | 0 <= i < |Chunks(n)| :: 0 < Chunks(n)[i] <= 16384 && (i < |Chunks(n)| - 1 ==> Chunks(n)[i] == 16384)
    decreases n
  {
    if n > 0 {
      ChunksMean(n - Min(n, DATA_BUFFER_SIZE));
    }
  }

  /** Buffers with `lens` bytes to write, pushed through a socket that does what `script` says. */
  function Push(broken: bool, script: seq<Reply>, lens: seq<nat>): (a: Attempt)
    ensures a.used <= |script| && (a.stop.Through? <==> a.left == [])
    ensures a.stop.Waits? || a.stop.Fails? ==> a.used > 0
    decreases |script|, |lens|
  {
    if lens == [] then Attempt(Through, 0, [])
    else if lens[0] == 0 then Push(broken, script, lens[1..])
    else
      var w := Answer(broken, script, lens[0]);
      if w.Bytes? then After(1, Push(broken, script[1..], [lens[0] - w.n] + lens[1..]))
      else Attempt(StopOf(w), if w.CutOff? then 0 else 1, lens)
  }

  class DataBuffer {
    const buffer: array<char>
    var wOffset: nat
    var rOffset: nat

    constructor (size: nat)
      requires size > 0
      ensures fresh(buffer) && buffer.Length == size && wOffset == rOffset == 0
    {
      buffer := new char[size](_ => 0 as char);
      wOffset, rOffset := 0, 0;
    }

    ghost predicate Valid()
      reads this
    {
      rOffset <= wOffset <= buffer.Length
    }

    function Free(): nat
      reads this
      requires Valid()
    {
      buffer.Length - wOffset
    }

    ghost function Text(): string
      reads this, buffer
      requires Valid()
    {
      buffer[rOffset..wOffset]
    }

    /** The `memcpy` of `data_buffer_list_append`. */
    method Fill(src: string)
      requires Valid() && |src| <= Free()
      modifies `wOffset, buffer
      ensures Valid() && wOffset == old(wOffset) + |src| && Text() == old(Text()) + src
    {
      var i := 0;
      while i < |src|
        invariant 0 <= i <= |src|
        invariant buffer[rOffset..wOffset + i] == old(buffer[rOffset..wOffset]) + src[..i]
        modifies buffer
      {
        buffer[wOffset + i] := src[i];
        i := i + 1;
        assert src[..i] == src[..i - 1] + [src[i - 1]];
        assert buffer[rOffset..wOffset + i] == buffer[rOffset..wOffset + i - 1] + [src[i - 1]];
      }
      assert src[..i] == src;
      wOffset := wOffset + |src|;
    }
  }

  ghost function Objects(bs: seq<DataBuffer>): (s: set<object>)
    ensures forall b | b in bs :: b in s && b.buffer in s
  {
    (set b | b in bs :: b as object) + (set b | b in bs :: b.buffer as object)
  }

  /** No buffer, and no array, occurs twice. */
  ghost predicate Apart(bs: seq<DataBuffer>)
    reads Objects(bs)
  {
    && (forall b | b in bs :: b.Valid())
    && forall i, j | 0 <= i < j < |bs| :: bs[i] != bs[j] && bs[i].buffer != bs[j].buffer
  }

  /** The bytes between read and write offsets, in order. */
  ghost function TextOf(bs: seq<DataBuffer>): string
    reads Objects(bs)
    requires Apart(bs)
  {
    if bs == [] then "" else bs[0].Text() + TextOf(bs[1..])
  }

  /** How many bytes each buffer has to write. */
  ghost function Lens(bs: seq<DataBuffer>): (lens: seq<nat>)
    reads bs
    ensures |lens| == |bs|
  {
    if bs == [] then []
    else [if bs[0].rOffset <= bs[0].wOffset then bs[0].wOffset - bs[0].rOffset else 0] + Lens(bs[1..])
  }

  lemma {:induction false} LensJoin(xs: seq<DataBuffer>, ys: seq<DataBuffer>)
    ensures Lens(xs + ys) == Lens(xs) + Lens(ys)
  {
    if xs == [] {
      assert xs + ys == ys;
    } else {
      assert (xs + ys)[1..] == xs[1..] + ys;
      LensJoin(xs[1..], ys);
    }
  }

  twostate lemma {:induction false} LensKept(bs: seq<DataBuffer>)
    requires forall i | 0 <= i < |bs| :: unchanged(bs[i])
    ensures Lens(bs) == old(Lens(bs))
  {
    if bs != [] {
      LensKept(bs[1..]);
    }
  }

  lemma {:induction false} TextOfJoin(xs: seq<DataBuffer>, ys: seq<DataBuffer>)
    requires Apart(xs + ys) && Apart(xs) && Apart(ys)
    ensures TextOf(xs + ys) == TextOf(xs) + TextOf(ys)
  {
    if xs == [] {
      assert xs + ys == ys;
    } else {
      assert (xs + ys)[1..] == xs[1..] + ys;
      TextOfJoin(xs[1..], ys);
    }
  }

  twostate lemma {:induction false} TextKept(bs: seq<DataBuffer>)
    requires old(Apart(bs)) && forall i | 0 <= i < |bs| :: unchanged(bs[i]) && unchanged(bs[i].buffer)
    ensures Apart(bs) && TextOf(bs) == old(TextOf(bs))
  {
    if bs != [] {
      TextKept(bs[1..]);
    }
  }

  lemma FirstText(bs: seq<DataBuffer>)
    requires Apart(bs) && bs != []
    ensures bs[0].Valid() && Apart(bs[1..]) && TextOf(bs) == bs[0].Text() + TextOf(bs[1..])
    ensures forall i | 0 < i < |bs| :: bs[i] != bs[0] && bs[i].buffer != bs[0].buffer
  {
  }

  /** What happens to the first buffer's offsets leaves the others as they were. */
  twostate lemma FirstAgain(bs: seq<DataBuffer>)
    requires bs != [] && old(Apart(bs)) && bs[0].Valid()
    requires forall i | 0 < i < |bs| :: unchanged(bs[i]) && unchanged(bs[i].buffer)
    ensures Apart(bs) && Apart(bs[1..]) && TextOf(bs[1..]) == old(TextOf(bs[1..]))
  {
    assert forall i | 0 <= i < |bs| - 1 :: bs[1..][i] == bs[i + 1];
    TextKept(bs[1..]);
  }

  lemma ApartPart(bs: seq<DataBuffer>, i: nat, j: nat)
    requires i <= j <= |bs| && Apart(bs)
    ensures Apart(bs[i..j])
  {
  }

  lemma OneText(b: DataBuffer)
    requires b.Valid()
    ensures Apart([b]) && TextOf([b]) == b.Text()
  {
  }

  lemma NoBuffers()
    ensures Apart([]) && TextOf([]) == ""
  {
  }

  lemma OnlyText(bs: seq<DataBuffer>)
    requires Apart(bs)
    ensures |bs| == 1 ==> TextOf(bs) == bs[0].Text()
  {
    if |bs| == 1 {
      assert bs == [bs[0]];
      OneText(bs[0]);
    }
  }

  class DataBufferList {
    /** From `first` along the `next` pointers. */
    var buffers: seq<DataBuffer>

    constructor ()
      ensures buffers == []
    {
      buffers := [];
    }

    ghost function Repr(): set<object>
      reads this
    {
      {this} + Objects(buffers)
    }

    ghost predicate Valid()
      reads this, Objects(buffers)
    {
      Apart(buffers)
    }

    ghost function Contents(): string
      reads this, Objects(buffers)
      requires Valid()
    {
      TextOf(buffers)
    }

    /** One `write` from the first buffer. */
    method WriteFirst(skt: Socket) returns (w: Written)
      requires Valid() && skt !in Repr() && buffers != [] && buffers[0].rOffset < buffers[0].wOffset
      modifies buffers, skt
      ensures Valid() && skt.wire + Contents() == old(skt.wire) + old(Contents())
      ensures !w.Bytes? ==> Contents() != "" && skt.wire == old(skt.wire)
      ensures |Contents()| == |old(Contents())| - if w.Bytes? then w.n else 0
      ensures buffers == old(buffers) && |Lens(buffers)| > 0 && old(Lens(buffers))[0] > 0
      ensures w == Answer(old(skt.broken), old(skt.script), old(Lens(buffers))[0])
      ensures var n := if w.Bytes? then w.n else 0;
              n <= old(Lens(buffers))[0] && Lens(buffers) == [old(Lens(buffers))[0] - n] + old(Lens(buffers))[1..]
      ensures skt.broken == (old(skt.broken) || w.Broken?)
      ensures skt.script == if w.CutOff? then [] else old(skt.script)[1..]
    {
      hide TextOf, Apart, DataBuffer.Text;
      FirstText(buffers);
      var next := buffers[0];
      ghost var rest := buffers[1..];
      ghost var text, tail, wire := next.Text(), TextOf(rest), skt.wire;
      w := WriteText(next, skt);
      ghost var n := if w.Bytes? then w.n else 0;
      FirstAgain(buffers);
      FirstText(buffers);
      LensKept(rest);
      Passed(wire, text, n, tail);
    }

    /** The call itself: what it takes is read off the buffer. */
    static method WriteText(next: DataBuffer, skt: Socket) returns (w: Written)
      requires next.Valid() && next.rOffset < next.wOffset
      modifies next`rOffset, skt
      ensures next.Valid() && old(next.Text()) != ""
      ensures !w.Bytes? ==> skt.wire == old(skt.wire) && next.Text() == old(next.Text())
      ensures var n := if w.Bytes? then w.n else 0;
              && n <= |old(next.Text())| && next.Text() == old(next.Text())[n..] && next.rOffset == old(next.rOffset) + n
              && skt.wire == old(skt.wire) + old(next.Text())[..n]
      ensures w == Answer(old(skt.broken), old(skt.script), old(next.wOffset - next.rOffset))
      ensures skt.broken == (old(skt.broken) || w.Broken?)
      ensures skt.script == if w.CutOff? then [] else old(skt.script)[1..]
    {
      ghost var text := next.Text();
      w := skt.Write(next.buffer[next.rOffset..next.wOffset]);
      var n := if w.Bytes? then w.n else 0;
      next.rOffset := next.rOffset + n;
      assert next.Text() == text[n..];
    }

    /** An emptied buffer is unlinked. */
    method DropFirst()
      requires Valid() && buffers != [] && buffers[0].rOffset == buffers[0].wOffset
      modifies this
      ensures Valid() && Contents() == old(Contents()) && buffers == old(buffers)[1..]
      ensures old(Lens(buffers)) == [0] + Lens(buffers)
    {
      assert buffers[0].Text() == "";
      ghost var rest := buffers[1..];
      buffers := buffers[1..];
      TextKept(rest);
    }

    /** One round of the write loop: the first buffer is written from, or dropped when it is empty,
        which is told as `Bytes(0)`. */
    method WriteOnce(skt: Socket) returns (w: Written)
      requires Valid() && skt !in Repr() && buffers != []
      modifies Repr(), skt
      ensures Valid() && (forall b | b in buffers :: b in old(buffers)) && |buffers| <= |old(buffers)|
      ensures skt.wire + Contents() == old(skt.wire) + old(Contents())
      ensures |Contents()| == |old(Contents())| - if w.Bytes? then w.n else 0
      ensures !w.Bytes? ==> Contents() != "" && buffers != [] && skt.wire == old(skt.wire)
      ensures skt.broken == (old(skt.broken) || w.Broken?)
      ensures w == Bytes(0) ==> |buffers| < |old(buffers)| && skt.wire == old(skt.wire)
      ensures w.Bytes? && w.n > 0 ==> !old(skt.broken)
      ensures var used := if w.CutOff? || w == Bytes(0) then 0 else 1;
              && used <= |old(skt.script)| && skt.script == old(skt.script)[used..] && (w.CutOff? ==> old(skt.script) == [])
              && Push(old(skt.broken), old(skt.script), old(Lens(buffers))) ==
                  if w.Bytes? then After(used, Push(skt.broken, skt.script, Lens(buffers))) else Attempt(StopOf(w), used, Lens(buffers))
    {
      hide TextOf, Apart;
      FirstText(buffers);
      var next := buffers[0];
      var count := next.wOffset - next.rOffset;
      if count > 0 {
        w := WriteFirst(skt);
      } else {
        DropFirst();
        w := Bytes(0);
      }
    }

    /** `data_buffer_list_writeto_fd`: writes from the front until all is written or a call
        does not go through. */
    method WriteTo(skt: Socket) returns (w: Written)
      requires Valid() && skt !in Repr()
      modifies Repr(), skt
      ensures Valid() && Repr() <= old(Repr())
      ensures skt.wire + Contents() == old(skt.wire) + old(Contents())
      ensures w.Bytes? <==> buffers == []
      ensures buffers != [] ==> Contents() != ""
      ensures w.Bytes? ==> w.n == |old(Contents())|
      ensures skt.broken == (old(skt.broken) || w.Broken?)
      ensures var a := Push(old(skt.broken), old(skt.script), old(Lens(buffers)));
              StopOf(w) == a.stop && Lens(buffers) == a.left && skt.script == old(skt.script)[a.used..]
      ensures old(Contents()) != "" && skt.broken ==> !w.Bytes?
      ensures old(skt.broken) ==> skt.wire == old(skt.wire)
    {
      hide TextOf, Apart, Push, Lens;
      NoBuffers();
      var total := 0;
      ghost var used := 0;
      ghost var a := Push(skt.broken, skt.script, Lens(buffers));
      while buffers != []
        invariant Valid() && skt !in Repr()
        invariant forall b | b in buffers :: b in old(buffers)
        invariant skt.wire + Contents() == old(skt.wire) + old(Contents())
        invariant total + |Contents()| == |old(Contents())|
        invariant skt.broken == old(skt.broken)
        invariant 0 <= total && (total == 0 ==> skt.wire == old(skt.wire)) && (total > 0 ==> !skt.broken)
        invariant 0 <= used <= |old(skt.script)| && skt.script == old(skt.script)[used..]
        invariant a == After(used, Push(skt.broken, skt.script, Lens(buffers)))
        decreases |skt.script|, |buffers|
      {
        w := WriteOnce(skt);
        used := used + if w.CutOff? || w == Bytes(0) then 0 else 1;
        if !w.Bytes? {
          return;
        }
        total := total + w.n;
      }
      w := Bytes(total);
      NothingLeft(skt.broken, skt.script);
    }

    /** Whether `src` can be appended without touching the spill case, in which the chain
        being appended already hangs off the last buffer of the list. */
    ghost predicate Clean(n: nat)
      reads this, Objects(buffers)
      requires Valid()
    {
      || buffers == []
      || buffers[|buffers| - 1].Free() == 0
      || n <= buffers[|buffers| - 1].Free()
    }

    /** `data_buffer_list_append`, in the clean cases. */
    method Append(src: string)
      requires Valid() && |src| > 0 && Clean(|src|)
      modifies Repr()
      ensures Valid() && fresh(Repr() - old(Repr())) && Contents() == old(Contents()) + src
      ensures old(buffers) <= buffers && buffers != []
      ensures old(buffers) == [] ==> Lens(buffers) == Chunks(|src|)
    {
      hide TextOf;
      hide Apart;
      LastValid(buffers);
      var newbuf: DataBuffer? := null;
      var firstIsNew := false;
      if |buffers| > 0 {
        newbuf := buffers[|buffers| - 1];
      }
      if newbuf == null || newbuf.wOffset == newbuf.buffer.Length {
        newbuf := new DataBuffer(DATA_BUFFER_SIZE);
        firstIsNew := true;
      }
      if firstIsNew {
        AppendNew(newbuf, src);
      } else {
        FillLast(src);
      }
    }

    /** A chain of new buffers that starts with `newbuf` takes the bytes and is linked. */
    method AppendNew(newbuf: DataBuffer, src: string)
      requires Valid() && Empty(newbuf) && newbuf !in Repr() && newbuf.buffer !in Repr() && src != ""
      modifies this, newbuf, newbuf.buffer
      ensures Valid() && Contents() == old(Contents()) + src && old(buffers) < buffers
      ensures forall b | b in buffers[|old(buffers)|..] :: b == newbuf || (fresh(b) && fresh(b.buffer))
      ensures old(buffers) == [] ==> Lens(buffers) == Chunks(|src|)
    {
      hide TextOf, Blank, Chunks, Lens;
      var chain := Extend(newbuf, |src|);
      Spread(chain, src);
      TextKept(buffers);
      assert Objects(chain) !! Repr();
      Link(chain);
      assert [] + chain == chain;
    }

    /** `LL_CONCAT` of a chain of new buffers. */
    method Link(chain: seq<DataBuffer>)
      requires Valid() && Apart(chain) && Objects(chain) !! Repr()
      modifies this
      ensures Valid() && buffers == old(buffers) + chain && Contents() == old(Contents()) + old(TextOf(chain))
    {
      ghost var was := buffers;
      buffers := buffers + chain;
      TextKept(was);
      TextKept(chain);
      TextOfJoin(was, chain);
    }

    /** The copy into the last buffer of the list; nothing is linked. */
    method FillLast(src: string)
      requires Valid() && buffers != [] && |src| <= buffers[|buffers| - 1].Free()
      modifies Objects(buffers)
      ensures Valid() && Contents() == old(Contents()) + src
    {
      hide TextOf, Apart;
      var n := |buffers| - 1;
      ghost var front, last := buffers[..n], buffers[n];
      assert buffers == front + [last];
      LastApart(buffers);
      TextOfJoin(front, [last]);
      ghost var held, text := TextOf(front), last.Text();
      var count := FillAt(buffers, n, src);
      assert src[..count] == src;
      TextKept(front);
      OneText(last);
      TextOfJoin(front, [last]);
      Grown(held, text, src);
    }
  }

  /** A buffer of the usual size that nothing has been put in yet. */
  predicate Empty(b: DataBuffer)
    reads b
  {
    b.buffer.Length == DATA_BUFFER_SIZE && b.wOffset == b.rOffset == 0
  }

  ghost predicate Blank(bs: seq<DataBuffer>)
    reads bs
  {
    forall i | 0 <= i < |bs| :: Empty(bs[i])
  }

  /** `count` buffers are as many as `n` bytes need. */
  predicate Fits(n: nat, count: nat) {
    n <= count * DATA_BUFFER_SIZE < n + DATA_BUFFER_SIZE
  }

  /** Adds new buffers until there is room for `n` bytes. */
  method Extend(newbuf: DataBuffer, n: nat) returns (chain: seq<DataBuffer>)
    requires Empty(newbuf) && n > 0
    ensures |chain| > 0 && chain[0] == newbuf && Apart(chain) && Blank(chain) && Fits(n, |chain|)
    ensures forall b | b in chain :: b == newbuf || (fresh(b) && fresh(b.buffer))
  {
    chain := [newbuf];
    var room := newbuf.buffer.Length - newbuf.wOffset;
    while room < n
      invariant |chain| > 0 && chain[0] == newbuf && Apart(chain) && Blank(chain)
      invariant room == |chain| * DATA_BUFFER_SIZE && room < n + DATA_BUFFER_SIZE
      invariant forall b | b in chain :: b == newbuf || (fresh(b) && fresh(b.buffer))
    {
      var b := new DataBuffer(DATA_BUFFER_SIZE);
      chain := chain + [b];
      room := room + b.buffer.Length;
    }
  }

  lemma OthersDiffer(chain: seq<DataBuffer>, i: nat)
    requires i < |chain| && Apart(chain)
    ensures forall j | 0 <= j < |chain| && j != i :: chain[j] != chain[i] && chain[j].buffer != chain[i].buffer
  {
  }

  lemma NothingLeft(broken: bool, script: seq<Reply>)
    ensures Push(broken, script, []) == Attempt(Through, 0, []) && Lens([]) == []
  {
  }

  lemma Passed(wire: string, text: string, n: nat, tail: string)
    requires n <= |text|
    ensures (wire + text[..n]) + (text[n..] + tail) == wire + (text + tail)
  {
  }

  lemma Grown(held: string, text: string, src: string)
    ensures held + (text + src) == (held + text) + src
  {
  }

  lemma LastValid(bs: seq<DataBuffer>)
    requires Apart(bs)
    ensures bs != [] ==> bs[|bs| - 1].Valid()
  {
  }

  lemma LastApart(bs: seq<DataBuffer>)
    requires bs != [] && Apart(bs)
    ensures var last := bs[|bs| - 1]; last.Valid() && Apart(bs[..|bs| - 1]) && Apart([last]) && TextOf([last]) == last.Text()
  {
  }

  /** As much of `v` as buffer `i` has room for. */
  method FillAt(chain: seq<DataBuffer>, i: nat, v: string) returns (count: nat)
    requires i < |chain| && Apart(chain)
    modifies Objects(chain)
    ensures Apart(chain) && chain[i].Valid() && count == Min(|v|, old(chain[i].Free()))
    ensures chain[i].Text() == old(chain[i].Text()) + v[..count]
    ensures chain[i].wOffset == old(chain[i].wOffset) + count && chain[i].rOffset == old(chain[i].rOffset)
    ensures forall j | 0 <= j < |chain| && j != i :: unchanged(chain[j]) && unchanged(chain[j].buffer)
  {
    OthersDiffer(chain, i);
    var elem := chain[i];
    count := |v|;
    if count > elem.Free() {
      count := elem.Free();
    }
    elem.Fill(v[..count]);
  }

  /** One round of the copy loop. */
  method SpreadOne(chain: seq<DataBuffer>, i: nat, v: string) returns (count: nat)
    requires i < |chain| && Apart(chain) && Apart(chain[..i]) && Blank(chain[i..])
    modifies Objects(chain)
    ensures Apart(chain) && Apart(chain[..i + 1]) && Blank(chain[i + 1..])
    ensures count == Min(|v|, DATA_BUFFER_SIZE)
    ensures TextOf(chain[..i + 1]) == old(TextOf(chain[..i])) + v[..count]
    ensures Lens(chain[..i + 1]) == old(Lens(chain[..i])) + [count]
  {
    hide TextOf, Apart;
    assert chain[i..][0] == chain[i];
    assert chain[i + 1..] == chain[i..][1..];
    OthersDiffer(chain, i);
    ghost var done := chain[..i];
    assert chain[0..i + 1] == chain[..i + 1] == done + [chain[i]];
    count := FillAt(chain, i, v);
    TextKept(done);
    LensKept(done);
    OneText(chain[i]);
    ApartPart(chain, 0, i + 1);
    TextOfJoin(done, [chain[i]]);
    LensJoin(done, [chain[i]]);
  }

  /** Before buffer `i` of a chain as long as `n` bytes need, there is something left to copy. */
  lemma NextChunk(n: nat, count: nat, i: nat)
    requires n > 0 && Fits(n, count) && i < count
    ensures var offset := Min(n, i * DATA_BUFFER_SIZE); var size := Min(n - offset, DATA_BUFFER_SIZE);
            && Chunks(n - offset) == [size] + Chunks(n - offset - size)
            && offset + size == Min(n, (i + 1) * DATA_BUFFER_SIZE) <= n
  {
  }

  lemma Copied(src: string, offset: nat, count: nat)
    requires offset + count <= |src|
    ensures src[..offset] + src[offset..][..count] == src[..offset + count]
  {
  }

  lemma NothingYet(n: nat)
    ensures Min(n, 0) == 0 && Lens([]) == []
  {
  }

  lemma NoChunks(n: nat, count: nat)
    requires Fits(n, count)
    ensures Min(n, count * DATA_BUFFER_SIZE) == n && Chunks(0) == []
  {
  }

  /** Copies `src` into the buffers of a new chain, filling each before the next. */
  method Spread(chain: seq<DataBuffer>, src: string)
    requires Apart(chain) && Blank(chain) && src != "" && Fits(|src|, |chain|)
    modifies Objects(chain)
    ensures Apart(chain) && TextOf(chain) == src && Lens(chain) == Chunks(|src|)
  {
    hide TextOf, Apart, Blank, Lens, Chunks, Fits, Min;
    var offset, i := 0, 0;
    assert chain[0..] == chain && chain[..0] == [];
    NoBuffers();
    NothingYet(|src|);
    while i < |chain|
      invariant 0 <= i <= |chain| && offset == Min(|src|, i * DATA_BUFFER_SIZE) <= |src|
      invariant Apart(chain) && Apart(chain[..i]) && Blank(chain[i..])
      invariant TextOf(chain[..i]) == src[..offset]
      invariant Chunks(|src|) == Lens(chain[..i]) + Chunks(|src| - offset)
    {
      NextChunk(|src|, |chain|, i);
      var count := SpreadOne(chain, i, src[offset..]);
      Copied(src, offset, count);
      offset := offset + count;
      i := i + 1;
    }
    NoChunks(|src|, |chain|);
    assert chain[..i] == chain && chain[i..] == [];
    assert src[..offset] == src;
  }
}
