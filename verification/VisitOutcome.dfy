/** What a visit of the response writer to a connection comes to, told beforehand from the sizes
    of what there is to send and from what the kernel is going to do. */
module VisitOutcome {
  import opened SocketModel
  import opened DataBuffers

  const BODY_BUFFER: nat := 16 * 1024

  /** A response on the list: the length of its head, 0 once that has gone to the buffers, the
      bytes of its body left, how that is read, and whether the connection is closed after it. */
  datatype Job = Job(head: nat, body: nat, file: bool, closes: bool)

  /** Why the writer lets go of a connection. */
  datatype Leave = AllSent | HeadBlocked | BodyBlocked | Closed | Broke | RunEnds

  /** What a call was about: buffered bytes, which are those of a head, or a body. */
  datatype Place = InHead | InBody

  /** A visit: what each reply of the kernel up to a failure was given to, how it ends, the number
      of responses left on the list, and whether the socket failed. */
  datatype Outcome = Outcome(places: seq<Place>, why: Leave, left: nat, failed: bool)

  /** A body with `left` bytes, all of which are offered at once, or a buffer full of the file. */
  function PushBody(broken: bool, script: seq<Reply>, left: nat, file: bool): (a: Attempt)
    ensures a.used <= |script|
    ensures a.stop.Waits? || a.stop.Fails? ==> a.used > 0
  {
    if left == 0 then Attempt(Through, 0, [])
    else
      var w := Answer(broken, script, if file then Min(left, BODY_BUFFER) else left);
      if w.Bytes? then After(1, PushBody(broken, script[1..], left - w.n, file))
      else Attempt(StopOf(w), if w.CutOff? then 0 else 1, [left])
  }

  /** A file is offered 16 KiB at a time, anything else whole: how far one call that takes all it is offered gets. */
  lemma OfferedAtOnce(script: seq<Reply>, left: nat, file: bool)
    requires script != [] && script[0].Take? && script[0].n + 1 >= left > 0
    ensures var n := if file && left > 16384 then 16384 else left;
            PushBody(false, script, left, file) == After(1, PushBody(false, script[1..], left - n, file))
  {
  }

  /** The replies an attempt used up on a socket that works. */
  function Placed(place: Place, a: Attempt): seq<Place> {
    seq(if a.stop.Fails? && a.used > 0 then a.used - 1 else a.used, _ => place)
  }

  function Behind(seen: seq<Place>, o: Outcome): Outcome {
    Outcome(seen + o.places, o.why, o.left, o.failed)
  }

  /** The bytes of the first response that are written from the buffers. */
  function Buffered(lens: seq<nat>, job: Job): seq<nat> {
    if job.head > 0 then Chunks(job.head) else lens
  }

  /** The rounds of the inner loop.  A head that met EAGAIN is tried again at once; a socket that
      failed is tried until the run ends, as long as there are responses. */
  function Rounds(broken: bool, script: seq<Reply>, lens: seq<nat>, jobs: seq<Job>): Outcome
    decreases |script|, |jobs|
  {
    if jobs == [] then Outcome([], AllSent, 0, false)
    else
      var p := Push(broken, script, Buffered(lens, jobs[0]));
      var seen := Placed(InHead, p);
      match p.stop
      case Ends => Outcome(seen, RunEnds, |jobs|, false)
      case Fails => Outcome(seen, RunEnds, |jobs|, true)
      case Waits => Behind(seen, Rounds(broken, script[p.used..], p.left, HeadOut(jobs)))
      case Through => Behind(seen, BodyRound(broken, script[p.used..], jobs))
  }

  /** The second part of a round: the buffers are empty. */
  function BodyRound(broken: bool, script: seq<Reply>, jobs: seq<Job>): Outcome
    requires jobs != []
    decreases |script|, |jobs|, 0
  {
    var b := PushBody(broken, script, jobs[0].body, jobs[0].file);
    var seen := Placed(InBody, b);
    match b.stop
    case Ends => Outcome(seen, RunEnds, |jobs|, false)
    case Waits => Outcome(seen, BodyBlocked, |jobs|, false)
    case Fails => Outcome(seen, if jobs[0].closes then Closed else if |jobs| == 1 then AllSent else RunEnds, |jobs| - 1, true)
    case Through =>
      if jobs[0].closes then Outcome(seen, Closed, |jobs| - 1, false)
      else Behind(seen, Rounds(broken, script[b.used..], [], jobs[1..]))
  }

  /** The head of the first response is in the buffers. */
  function HeadOut(jobs: seq<Job>): seq<Job>
    requires jobs != []
  {
    [Job(0, jobs[0].body, jobs[0].file, jobs[0].closes)] + jobs[1..]
  }

  /** A visit, which first writes what an earlier one has left in the buffers. */
  function OfVisit(broken: bool, script: seq<Reply>, lens: seq<nat>, jobs: seq<Job>): Outcome {
    var p := Push(broken, script, lens);
    var seen := Placed(InHead, p);
    match p.stop
    case Ends => Outcome(seen, RunEnds, |jobs|, false)
    case Fails => Outcome(seen, Broke, |jobs|, true)
    case Waits => Outcome(seen, HeadBlocked, |jobs|, false)
    case Through => Behind(seen, Rounds(broken, script[p.used..], [], jobs))
  }

  /** The kernel says EAGAIN to buffered bytes. */
  predicate AgainInHead(script: seq<Reply>, places: seq<Place>) {
    exists i :: 0 <= i < |places| && i < |script| && script[i].Again? && places[i].InHead?
  }

  /** The last the kernel says is EAGAIN. */
  predicate AgainLast(script: seq<Reply>, places: seq<Place>) {
    0 < |places| <= |script| && script[|places| - 1].Again?
  }

  // ---------------------------------------------------------------- what the kernel says

  /** The replies of one attempt: it goes on while bytes are taken, and the last reply says how it
      ends.  A broken socket listens to none. */
  predicate Tells(broken: bool, script: seq<Reply>, a: Attempt) {
    && a.used <= |script|
    && if broken then !a.stop.Waits? && a.used == if a.stop.Fails? then 1 else 0
       else
         && (forall i | 0 <= i < a.used - 1 :: script[i].Take?)
         && (a.stop.Through? && a.used > 0 ==> script[a.used - 1].Take?)
         && (a.stop.Waits? ==> a.used > 0 && script[a.used - 1].Again?)
         && (a.stop.Fails? ==> a.used > 0 && script[a.used - 1].Fault?)
         && (a.stop.Ends? ==> a.used == |script| && forall i | 0 <= i < a.used :: script[i].Take?)
  }

  lemma TellsMore(script: seq<Reply>, a: Attempt)
    requires script != [] && script[0].Take? && Tells(false, script[1..], a)
    ensures Tells(false, script, After(1, a))
  {
    forall i | 0 <= i < a.used
      ensures i > 0 ==> script[i] == script[1..][i - 1]
    {
    }
  }

  lemma {:induction false} PushTells(broken: bool, script: seq<Reply>, lens: seq<nat>)
    ensures var a := Push(broken, script, lens);
            Tells(broken, script, a) && (a.stop.Waits? ==> a.left != [] && a.left[0] > 0)
    ensures !broken && lens != [] && lens[0] > 0 && script != [] ==> Push(broken, script, lens).used > 0
    decreases |script|, |lens|
  {
    if lens != [] {
      if lens[0] == 0 {
        PushTells(broken, script, lens[1..]);
      } else {
        var w := Answer(broken, script, lens[0]);
        if w.Bytes? {
          PushTells(false, script[1..], [lens[0] - w.n] + lens[1..]);
          TellsMore(script, Push(false, script[1..], [lens[0] - w.n] + lens[1..]));
        }
      }
    }
  }

  lemma {:induction false} PushBodyTells(broken: bool, script: seq<Reply>, left: nat, file: bool)
    ensures Tells(broken, script, PushBody(broken, script, left, file))
  {
    if left > 0 {
      var w := Answer(broken, script, if file then Min(left, BODY_BUFFER) else left);
      if w.Bytes? {
        PushBodyTells(false, script[1..], left - w.n, file);
        TellsMore(script, PushBody(false, script[1..], left - w.n, file));
      }
    }
  }

  lemma HeadJoin(script: seq<Reply>, seen: seq<Place>, more: seq<Place>)
    requires |seen| <= |script|
    ensures AgainInHead(script, seen + more) <==> AgainInHead(script, seen) || AgainInHead(script[|seen|..], more)
  {
    var n, all := |seen|, seen + more;
    if AgainInHead(script, seen) {
      var i :| 0 <= i < |seen| && i < |script| && script[i].Again? && seen[i].InHead?;
      assert all[i] == seen[i];
    }
    if AgainInHead(script[n..], more) {
      var i :| 0 <= i < |more| && i < |script[n..]| && script[n..][i].Again? && more[i].InHead?;
      assert all[n + i] == more[i] && script[n + i] == script[n..][i];
    }
    if AgainInHead(script, all) {
      var i :| 0 <= i < |all| && i < |script| && script[i].Again? && all[i].InHead?;
      if i < n {
        assert seen[i] == all[i];
      } else {
        assert more[i - n] == all[i] && script[n..][i - n] == script[i];
      }
    }
  }

  /** The last attempt of a visit. */
  lemma SaidLast(broken: bool, script: seq<Reply>, place: Place, a: Attempt)
    requires Tells(broken, script, a)
    ensures |Placed(place, a)| <= |script|
    ensures AgainLast(script, Placed(place, a)) <==> a.stop.Waits?
    ensures AgainInHead(script, Placed(place, a)) <==> place.InHead? && a.stop.Waits?
  {
    if a.stop.Waits? {
      assert Placed(place, a)[a.used - 1] == place;
    }
  }

  /** What is said to one attempt and to those behind it. */
  lemma SaidBehind(broken: bool, script: seq<Reply>, place: Place, a: Attempt, more: seq<Place>)
    requires Tells(broken, script, a) && |more| <= |script| - a.used && (a.stop.Waits? || a.stop.Through?)
    ensures var all := Placed(place, a) + more;
            && |all| <= |script|
            && (AgainInHead(script, all) <==> (place.InHead? && a.stop.Waits?) || AgainInHead(script[a.used..], more))
            && (AgainLast(script, all) <==> if more == [] then a.stop.Waits? else AgainLast(script[a.used..], more))
  {
    hide AgainInHead, Tells;
    SaidLast(broken, script, place, a);
    HeadJoin(script, Placed(place, a), more);
    assert more == [] ==> Placed(place, a) + more == Placed(place, a);
  }

  /** The inner loop leaves responses on the list exactly when the last reply was EAGAIN. */
  lemma {:induction false} RoundsSay(broken: bool, script: seq<Reply>, lens: seq<nat>, jobs: seq<Job>)
    ensures var o := Rounds(broken, script, lens, jobs);
            && |o.places| <= |script| && !o.why.HeadBlocked? && !o.why.Broke?
            && (o.why.AllSent? ==> o.left == 0)
            && (o.why.AllSent? && !o.failed ==> !AgainLast(script, o.places))
            && (o.why.BodyBlocked? ==> o.left > 0 && !o.failed && AgainLast(script, o.places))
            && (o.why.AllSent? && !o.failed && jobs != [] && jobs[0].head == 0 && lens != [] && lens[0] > 0 ==>
                  o.places != [] || broken)
    decreases |script|, |jobs|, 1
  {
    if jobs != [] {
      var bytes := Buffered(lens, jobs[0]);
      var p := Push(broken, script, bytes);
      var rest := script[p.used..];
      PushTells(broken, script, bytes);
      if p.stop.Waits? {
        RoundsSay(broken, rest, p.left, HeadOut(jobs));
        SaidBehind(broken, script, InHead, p, Rounds(broken, rest, p.left, HeadOut(jobs)).places);
      } else if p.stop.Through? {
        BodyRoundSays(broken, rest, jobs);
        SaidBehind(broken, script, InHead, p, BodyRound(broken, rest, jobs).places);
      } else {
        SaidLast(broken, script, InHead, p);
      }
    }
  }

  lemma {:induction false} BodyRoundSays(broken: bool, script: seq<Reply>, jobs: seq<Job>)
    requires jobs != []
    ensures var o := BodyRound(broken, script, jobs);
            && |o.places| <= |script| && !o.why.HeadBlocked? && !o.why.Broke?
            && (o.why.AllSent? ==> o.left == 0)
            && (o.why.AllSent? && !o.failed ==> !AgainLast(script, o.places))
            && (o.why.BodyBlocked? ==> o.left > 0 && !o.failed && AgainLast(script, o.places))
    decreases |script|, |jobs|, 0
  {
    var b := PushBody(broken, script, jobs[0].body, jobs[0].file);
    PushBodyTells(broken, script, jobs[0].body, jobs[0].file);
    SaidLast(broken, script, InBody, b);
    if b.stop.Through? && !jobs[0].closes {
      var rest := script[b.used..];
      RoundsSay(broken, rest, [], jobs[1..]);
      SaidBehind(broken, script, InBody, b, Rounds(broken, rest, [], jobs[1..]).places);
    }
  }

  /** From `o` on, `rest` of the replies and `o'` are still to come; `again` says whether a head has met EAGAIN. */
  predicate Leads(script: seq<Reply>, o: Outcome, again: bool, rest: seq<Reply>, o': Outcome) {
    && o.why == o'.why && o.left == o'.left && o.failed == o'.failed
    && (AgainInHead(script, o.places) <==> again || AgainInHead(rest, o'.places))
  }

  /** `o` is what has happened. */
  predicate Told(script: seq<Reply>, o: Outcome, again: bool, why: Leave, left: nat, failed: bool) {
    o.why == why && o.left == left && o.failed == failed && (AgainInHead(script, o.places) <==> again)
  }

  lemma BrokenNeverWaits(script: seq<Reply>, lens: seq<nat>)
    ensures !Push(true, script, lens).stop.Waits?
  {
    PushTells(true, script, lens);
  }

  /** What the first part of a round makes of it. */
  lemma HeadStops(broken: bool, script: seq<Reply>, lens: seq<nat>, jobs: seq<Job>)
    requires jobs != []
    ensures broken ==> !Push(broken, script, Buffered(lens, jobs[0])).stop.Waits?
    ensures var p := Push(broken, script, Buffered(lens, jobs[0])); var o := Rounds(broken, script, lens, jobs);
            var rest := script[p.used..];
            match p.stop
            case Ends => Told(script, o, false, RunEnds, |jobs|, false)
            case Fails => Told(script, o, false, RunEnds, |jobs|, true)
            case Waits => Leads(script, o, true, rest, Rounds(broken, rest, p.left, HeadOut(jobs)))
            case Through => Leads(script, o, false, rest, BodyRound(broken, rest, HeadOut(jobs)))
  {
    hide AgainInHead, Push, Tells;
    var p := Push(broken, script, Buffered(lens, jobs[0]));
    var rest := script[p.used..];
    BrokenNeverWaits(script, Buffered(lens, jobs[0]));
    PushTells(broken, script, Buffered(lens, jobs[0]));
    SaidLast(broken, script, InHead, p);
    if p.stop.Waits? {
      RoundsSay(broken, rest, p.left, HeadOut(jobs));
      SaidBehind(broken, script, InHead, p, Rounds(broken, rest, p.left, HeadOut(jobs)).places);
    } else if p.stop.Through? {
      BodyRoundSays(broken, rest, jobs);
      SaidBehind(broken, script, InHead, p, BodyRound(broken, rest, jobs).places);
    }
  }

  /** What the second part of a round makes of it. */
  lemma BodyStops(broken: bool, script: seq<Reply>, jobs: seq<Job>)
    requires jobs != []
    ensures var b := PushBody(broken, script, jobs[0].body, jobs[0].file); var o := BodyRound(broken, script, jobs);
            var rest := script[b.used..];
            match b.stop
            case Ends => Told(script, o, false, RunEnds, |jobs|, false)
            case Waits => Told(script, o, false, BodyBlocked, |jobs|, false)
            case Fails => Told(script, o, false, if jobs[0].closes then Closed else if |jobs| == 1 then AllSent else RunEnds, |jobs| - 1, true)
            case Through =>
              if jobs[0].closes then Told(script, o, false, Closed, |jobs| - 1, false)
              else Leads(script, o, false, rest, Rounds(broken, rest, [], jobs[1..]))
  {
    hide AgainInHead;
    var b := PushBody(broken, script, jobs[0].body, jobs[0].file);
    PushBodyTells(broken, script, jobs[0].body, jobs[0].file);
    SaidLast(broken, script, InBody, b);
    if b.stop.Through? && !jobs[0].closes {
      var rest := script[b.used..];
      RoundsSay(broken, rest, [], jobs[1..]);
      SaidBehind(broken, script, InBody, b, Rounds(broken, rest, [], jobs[1..]).places);
    }
  }

  /** What the first part of a visit makes of it. */
  lemma LeftStops(broken: bool, script: seq<Reply>, lens: seq<nat>, jobs: seq<Job>)
    ensures var p := Push(broken, script, lens); var o := OfVisit(broken, script, lens, jobs);
            var rest := script[p.used..];
            match p.stop
            case Ends => Told(script, o, false, RunEnds, |jobs|, false)
            case Fails => Told(script, o, false, Broke, |jobs|, true)
            case Waits => Told(script, o, true, HeadBlocked, |jobs|, false)
            case Through => Leads(script, o, false, rest, Rounds(broken, rest, [], jobs))
  {
    hide AgainInHead;
    var p := Push(broken, script, lens);
    PushTells(broken, script, lens);
    SaidLast(broken, script, InHead, p);
    if p.stop.Through? {
      RoundsSay(broken, script[p.used..], [], jobs);
      SaidBehind(broken, script, InHead, p, Rounds(broken, script[p.used..], [], jobs).places);
    }
  }

  /** The responses a visit takes off the list: none but the last of them closes the connection, and the
      connection is closed exactly when that one does. */
  predicate ClosesLast(jobs: seq<Job>, o: Outcome) {
    && o.left <= |jobs|
    && (forall i | 0 <= i < |jobs| - o.left - 1 :: !jobs[i].closes)
    && (o.why.Closed? <==> o.left < |jobs| && jobs[|jobs| - o.left - 1].closes)
  }

  lemma {:induction false} RoundsCloseLast(broken: bool, script: seq<Reply>, lens: seq<nat>, jobs: seq<Job>)
    ensures ClosesLast(jobs, Rounds(broken, script, lens, jobs))
    decreases |script|, |jobs|, 1
  {
    if jobs != [] {
      var p := Push(broken, script, Buffered(lens, jobs[0]));
      if p.stop.Waits? {
        RoundsCloseLast(broken, script[p.used..], p.left, HeadOut(jobs));
      } else if p.stop.Through? {
        BodyClosesLast(broken, script[p.used..], jobs);
      }
    }
  }

  lemma {:induction false} BodyClosesLast(broken: bool, script: seq<Reply>, jobs: seq<Job>)
    requires jobs != []
    ensures ClosesLast(jobs, BodyRound(broken, script, jobs))
    decreases |script|, |jobs|, 0
  {
    var b := PushBody(broken, script, jobs[0].body, jobs[0].file);
    if b.stop.Through? && !jobs[0].closes {
      RoundsCloseLast(broken, script[b.used..], [], jobs[1..]);
      var o := Rounds(broken, script[b.used..], [], jobs[1..]);
      assert forall i | 0 < i < |jobs| :: jobs[i] == jobs[1..][i - 1];
    }
  }

  lemma VisitClosesLast(broken: bool, script: seq<Reply>, lens: seq<nat>, jobs: seq<Job>)
    ensures ClosesLast(jobs, OfVisit(broken, script, lens, jobs))
  {
    hide ClosesLast, Rounds;
    var p := Push(broken, script, lens);
    if p.stop.Through? {
      RoundsCloseLast(broken, script[p.used..], [], jobs);
      SameEnding(jobs, Rounds(broken, script[p.used..], [], jobs), OfVisit(broken, script, lens, jobs));
    } else {
      NoneTaken(jobs, OfVisit(broken, script, lens, jobs));
    }
  }

  lemma SameEnding(jobs: seq<Job>, o: Outcome, o': Outcome)
    requires ClosesLast(jobs, o) && o.why == o'.why && o.left == o'.left
    ensures ClosesLast(jobs, o')
  {
  }

  lemma NoneTaken(jobs: seq<Job>, o: Outcome)
    requires o.left == |jobs| && !o.why.Closed?
    ensures ClosesLast(jobs, o)
  {
  }

  /** A visit that neither fails nor closes the connection leaves responses on the list exactly
      when the last reply was EAGAIN. */
  lemma LeftExact(broken: bool, script: seq<Reply>, lens: seq<nat>, jobs: seq<Job>)
    requires lens != [] ==> jobs != []
    ensures var o := OfVisit(broken, script, lens, jobs);
            && |o.places| <= |script|
            && (o.why.HeadBlocked? ==> AgainInHead(script, o.places) && o.left > 0)
            && (!o.failed && !o.why.Closed? && !o.why.RunEnds? ==> (o.left > 0 <==> AgainLast(script, o.places)))
            && (!o.failed ==> !o.why.Broke?) && (o.why.AllSent? ==> o.left == 0) && (o.why.BodyBlocked? ==> o.left > 0)
  {
    var p := Push(broken, script, lens);
    PushTells(broken, script, lens);
    if p.stop.Through? {
      RoundsSay(broken, script[p.used..], [], jobs);
      SaidBehind(broken, script, InHead, p, Rounds(broken, script[p.used..], [], jobs).places);
    } else {
      SaidLast(broken, script, InHead, p);
    }
  }

  /** The flag of the item, set exactly when buffered bytes meet EAGAIN, is right exactly when either the
      visit ends at the buffers, or it ends at a body and a head met EAGAIN before, or everything is sent
      and no head did. */
  lemma FlagExact(broken: bool, script: seq<Reply>, lens: seq<nat>, jobs: seq<Job>)
    requires lens != [] ==> jobs != []
    ensures var o := OfVisit(broken, script, lens, jobs); var flag := AgainInHead(script, o.places);
            !o.failed && !o.why.Closed? && !o.why.RunEnds? ==>
              && ((flag <==> o.left > 0) <==> (flag <==> AgainLast(script, o.places)))
              && ((flag <==> o.left > 0) <==> o.why.HeadBlocked? || (flag <==> o.why.BodyBlocked?))
  {
    LeftExact(broken, script, lens, jobs);
  }

  lemma PushAtOnce(script: seq<Reply>, n: nat)
    requires script != [] && script[0].Take? && 0 < n <= script[0].n + 1
    ensures Push(false, script, [n]) == Attempt(Through, 1, [])
  {
    assert [0] + [n][1..] == [0] && [0][1..] == [];
    assert Push(false, script[1..], [0]) == Push(false, script[1..], []);
  }

  lemma OnePlace(place: Place, stop: Stop, left: seq<nat>)
    requires !stop.Fails?
    ensures Placed(place, Attempt(stop, 0, left)) == [] && Placed(place, Attempt(stop, 1, left)) == [place]
  {
  }

  /** A head that fits one buffer is taken at once and the body then meets EAGAIN: there is more to
      send, and no head has met EAGAIN. */
  lemma TakenThenBlocked(n: nat, more: seq<Reply>, job: Job, others: seq<Job>)
    requires 0 < job.head <= DATA_BUFFER_SIZE && job.head <= n + 1 && job.body > 0
    ensures var script := [Take(n), Again] + more; var o := OfVisit(false, script, [], [job] + others);
            o == Outcome([InHead, InBody], BodyBlocked, 1 + |others|, false) && !AgainInHead(script, o.places)
  {
    hide AgainInHead;
    var script, jobs := [Take(n), Again] + more, [job] + others;
    assert Chunks(job.head) == [job.head];
    PushAtOnce(script, job.head);
    OnePlace(InHead, Through, []);
    OnePlace(InBody, Waits, [job.body]);
    var rest := script[1..];
    assert rest[0] == Again;
    assert PushBody(false, rest, job.body, job.file) == Attempt(Waits, 1, [job.body]);
    assert BodyRound(false, rest, jobs) == Outcome([InBody], BodyBlocked, |jobs|, false);
    assert Rounds(false, script, [], jobs) == Outcome([InHead, InBody], BodyBlocked, |jobs|, false);
    NoAgain(script, [InHead, InBody]);
  }

  lemma NoAgain(script: seq<Reply>, places: seq<Place>)
    requires forall i | 0 <= i < |places| && i < |script| :: places[i].InHead? ==> !script[i].Again?
    ensures !AgainInHead(script, places)
  {
  }

  /** A head meets EAGAIN in the inner loop, and then it and all of the body are taken: nothing is left
      to send, but a head has met EAGAIN. */
  lemma BlockedThenTaken(n: nat, m: nat, more: seq<Reply>, job: Job)
    requires 0 < job.head <= DATA_BUFFER_SIZE && job.head <= n + 1
    requires 0 < job.body <= m + 1 && (job.file ==> job.body <= BODY_BUFFER) && !job.closes
    ensures var script := [Again, Take(n), Take(m)] + more; var o := OfVisit(false, script, [], [job]);
            o == Outcome([InHead, InHead, InBody], AllSent, 0, false) && AgainInHead(script, o.places)
  {
    var script := [Again, Take(n), Take(m)] + more;
    assert Chunks(job.head) == [job.head];
    var out := HeadOut([job]);
    var rest := script[1..];
    assert rest[0] == Take(n) && rest[1..][0] == Take(m);
    assert Push(false, script, [job.head]) == Attempt(Waits, 1, [job.head]);
    AllTaken(rest, job.head, out);
    OnePlace(InHead, Waits, [job.head]);
    HeadMet(script, [InHead, InHead, InBody]);
    assert Rounds(false, script, [], [job]) == Outcome([InHead, InHead, InBody], AllSent, 0, false);
  }

  /** One buffer and the rest of the body are taken at once. */
  lemma AllTaken(script: seq<Reply>, head: nat, jobs: seq<Job>)
    requires |script| > 1 && script[0].Take? && script[1].Take? && |jobs| == 1 && jobs[0].head == 0 && !jobs[0].closes
    requires 0 < head <= script[0].n + 1 && 0 < jobs[0].body <= script[1].n + 1 && (jobs[0].file ==> jobs[0].body <= BODY_BUFFER)
    ensures Rounds(false, script, [head], jobs) == Outcome([InHead, InBody], AllSent, 0, false)
  {
    var last := script[1..];
    assert last[0] == script[1] && jobs[1..] == [];
    PushAtOnce(script, head);
    OnePlace(InHead, Through, []);
    OnePlace(InBody, Through, []);
    assert PushBody(false, last, jobs[0].body, jobs[0].file) == After(1, PushBody(false, last[1..], 0, jobs[0].file)) == Attempt(Through, 1, []);
    assert BodyRound(false, last, jobs) == Outcome([InBody], AllSent, 0, false);
  }

  lemma HeadMet(script: seq<Reply>, places: seq<Place>)
    requires script != [] && places != [] && script[0].Again? && places[0].InHead?
    ensures AgainInHead(script, places)
  {
  }
}
