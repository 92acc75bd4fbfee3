/** What the write protocol keeps over every interleaving of any number of callers. */
module WriteLockRuns {
  import opened Bytes
  import opened WriteLocks

  // ---------- the lock ----------

  predicate Critical(pc: Pc) {
    pc.Holding? || pc.Writing? || pc.Releasing?
  }

  predicate InSection(s: State, c: nat) {
    c < |s.callers| && Critical(s.callers[c].pc)
  }

  /** The lock is 1 exactly when somebody is in the critical section, and never two are. */
  ghost predicate Exclusive(s: State) {
    && (s.lock == 0 || s.lock == 1)
    && (forall c: nat, d: nat :: InSection(s, c) && InSection(s, d) ==> c == d)
    && (s.lock == 1 <==> exists c: nat :: InSection(s, c))
  }

  lemma ExclusiveStep(s: State, a: Action)
    requires Exclusive(s)
    ensures Exclusive(Step(s, a))
  {
    var s' := Step(s, a);
    if a.CompareAndSwap? && a.c < |s.callers| && s.callers[a.c].pc.Trying? && s.lock == 0 {
      assert forall d: nat :: !InSection(s, d);
      assert InSection(s', a.c);
      assert forall d: nat :: InSection(s', d) ==> d == a.c || InSection(s, d);
    } else if a.Release? && InSection(s, a.c) && s.callers[a.c].pc.Releasing? {
      assert forall d: nat :: InSection(s', d) ==> InSection(s, d) && d != a.c;
    } else {
      forall d: nat
        ensures InSection(s', d) <==> InSection(s, d)
      {
      }
    }
  }

  // ---------- one caller's record ----------

  function Helds(n: nat): (h: seq<Try>)
    ensures |h| == n
  {
    seq(n, i => Held)
  }

  /** The last attempt of a caller that is through with it. */
  predicate Concludes(frame: seq<byte>, t: Try, r: Result) {
    match r
    case Sent => t == Took(|frame|, true)
    case WriteFailed => t.Took? && !t.ok && t.count <= |frame|
    case DeadlineFailed => t == NoDeadline
    case _ => false
  }

  predicate Concluded(c: Caller, r: Result) {
    && 0 < |c.tries| <= MAX_ATTEMPTS
    && c.tries[..|c.tries| - 1] == Helds(|c.tries| - 1)
    && Concludes(c.frame, c.tries[|c.tries| - 1], r)
  }

  predicate CallerOk(c: Caller) {
    match c.pc
    case Trying(i) => i < MAX_ATTEMPTS && c.tries == Helds(i)
    case Sleeping(i) => i < MAX_ATTEMPTS && c.tries == Helds(i + 1)
    case Holding(i) => i < MAX_ATTEMPTS && c.tries == Helds(i)
    case Writing(i, put) => i < MAX_ATTEMPTS && c.tries == Helds(i) && put <= |c.frame|
    case Releasing(r) => Concluded(c, r)
    case Finished(r) =>
      if r.GaveUp? then c.tries == Helds(MAX_ATTEMPTS)
      else if r.Disconnected? || r.NotEncoded? then c.tries == []
      else Concluded(c, r)
  }

  predicate CallersOk(s: State) {
    forall c :: 0 <= c < |s.callers| ==> CallerOk(s.callers[c])
  }

  lemma Conclude(c: Caller, i: nat, t: Try, r: Result)
    requires i < MAX_ATTEMPTS && c.tries == Helds(i) && Concludes(c.frame, t, r)
    ensures CallerOk(c.(pc := Releasing(r), tries := c.tries + [t]))
  {
    assert (c.tries + [t])[..i] == c.tries;
  }

  /** Steps change at most one caller's record. */
  lemma OneCallerOk(s: State, s': State, c: nat)
    requires CallersOk(s) && c < |s.callers| == |s'.callers| && CallerOk(s'.callers[c])
    requires forall d :: 0 <= d < |s.callers| && d != c ==> s'.callers[d] == s.callers[d]
    ensures CallersOk(s')
  {
    hide CallerOk;
    forall d | 0 <= d < |s'.callers|
      ensures CallerOk(s'.callers[d])
    {
    }
  }

  lemma CompareAndSwapOk(s: State, c: nat)
    requires c < |s.callers| && s.callers[c].pc.Trying? && CallerOk(s.callers[c])
    ensures CallerOk(Step(s, CompareAndSwap(c)).callers[c])
  {
    var i := s.callers[c].pc.attempt;
    assert Helds(i) + [Held] == Helds(i + 1);
  }

  lemma EndWriteOk(s: State, c: nat, ok: bool)
    requires c < |s.callers| && s.callers[c].pc.Writing? && CallerOk(s.callers[c])
    ensures CallerOk(Step(s, EndWrite(c, ok)).callers[c])
  {
    var me := s.callers[c];
    if (ok ==> me.pc.put == |me.frame|) && s.segments != [] {
      Conclude(me, me.pc.attempt, Took(me.pc.put, ok), if ok then Sent else WriteFailed);
    }
  }

  lemma DeadlineOk(s: State, c: nat, ok: bool)
    requires c < |s.callers| && s.callers[c].pc.Holding? && CallerOk(s.callers[c])
    ensures CallerOk(Step(s, SetDeadline(c, ok)).callers[c])
  {
    if !ok {
      Conclude(s.callers[c], s.callers[c].pc.attempt, NoDeadline, DeadlineFailed);
    }
  }

  lemma AdvanceOk(s: State, a: Action, c: nat)
    requires c < |s.callers| && CallerOk(s.callers[c])
    requires a == Wake(c) || a == Put(c) || a == Release(c)
    ensures CallerOk(Step(s, a).callers[c])
  {
  }

  lemma NewCallerOk(s: State, payload: seq<byte>, encodes: bool)
    requires CallersOk(s)
    ensures CallersOk(Step(s, Call(payload, encodes)))
  {
    assert Helds(0) == [];
  }

  lemma CallersOkStep(s: State, a: Action)
    requires CallersOk(s)
    ensures CallersOk(Step(s, a))
  {
    hide CallerOk;
    var s' := Step(s, a);
    match a
    case Call(payload, encodes) => NewCallerOk(s, payload, encodes);
    case CompareAndSwap(c) =>
      if c < |s.callers| && s.callers[c].pc.Trying? {
        CompareAndSwapOk(s, c);
        OneCallerOk(s, s', c);
      }
    case SetDeadline(c, ok) =>
      if c < |s.callers| && s.callers[c].pc.Holding? {
        DeadlineOk(s, c, ok);
        OneCallerOk(s, s', c);
      }
    case EndWrite(c, ok) =>
      if c < |s.callers| && s.callers[c].pc.Writing? {
        EndWriteOk(s, c, ok);
        OneCallerOk(s, s', c);
      }
    case Wake(c) =>
      if c < |s.callers| {
        AdvanceOk(s, a, c);
        OneCallerOk(s, s', c);
      }
    case Put(c) =>
      if c < |s.callers| {
        AdvanceOk(s, a, c);
        OneCallerOk(s, s', c);
      }
    case Release(c) =>
      if c < |s.callers| {
        AdvanceOk(s, a, c);
        OneCallerOk(s, s', c);
      }
    case Disconnect =>
  }

  // ---------- the wire ----------

  function WireOf(segments: seq<Segment>): seq<byte> {
    if segments == [] then [] else WireOf(segments[..|segments| - 1]) + segments[|segments| - 1].bytes
  }

  /** A segment is a beginning of its owner's frame; all of it unless the write is still going on or reported an error. */
  predicate SegmentOk(s: State, j: nat)
    requires j < |s.segments|
  {
    var g := s.segments[j];
    && g.owner < |s.callers|
    && g.bytes <= s.callers[g.owner].frame
    && match g.status
       case Open => j == |s.segments| - 1 && s.callers[g.owner].pc.Writing? && s.callers[g.owner].pc.put == |g.bytes|
       case Whole => g.bytes == s.callers[g.owner].frame && ResultIs(s.callers[g.owner].pc, Sent)
       case Broken =>
         && ResultIs(s.callers[g.owner].pc, WriteFailed)
         && LastTry(s.callers[g.owner]) == Took(|g.bytes|, false)
  }

  function LastTry(c: Caller): Try {
    if c.tries == [] then Held else c.tries[|c.tries| - 1]
  }

  predicate ResultIs(pc: Pc, r: Result) {
    (pc.Releasing? || pc.Finished?) && pc.result == r
  }

  /** Every caller that reached the socket has its one segment, and no other caller has any. */
  predicate Owns(s: State, c: nat)
    requires c < |s.callers|
  {
    exists j :: 0 <= j < |s.segments| && s.segments[j].owner == c
  }

  predicate ReachedSocket(pc: Pc) {
    pc.Writing? || ResultIs(pc, Sent) || ResultIs(pc, WriteFailed)
  }

  predicate WireOk(s: State) {
    && s.wire == WireOf(s.segments)
    && (forall j :: 0 <= j < |s.segments| ==> SegmentOk(s, j))
    && (forall i, j :: 0 <= i < j < |s.segments| ==> s.segments[i].owner != s.segments[j].owner)
    && (forall c :: 0 <= c < |s.callers| ==> (ReachedSocket(s.callers[c].pc) <==> Owns(s, c)))
    && (forall c :: 0 <= c < |s.callers| && s.callers[c].pc.Writing? ==> s.segments != [] && Last(s).owner == c && Last(s).status == Open)
  }

  /** A caller that is not at the socket changes only its own program counter, between points of the same standing. */
  lemma WireOkAside(s: State, s': State, c: nat)
    requires WireOk(s) && c < |s.callers| == |s'.callers|
    requires s'.wire == s.wire && s'.segments == s.segments && s'.callers[c].frame == s.callers[c].frame
    requires forall d :: 0 <= d < |s.callers| && d != c ==> s'.callers[d] == s.callers[d]
    requires !s.callers[c].pc.Writing? && !s'.callers[c].pc.Writing?
    requires ResultIs(s.callers[c].pc, Sent) <==> ResultIs(s'.callers[c].pc, Sent)
    requires ResultIs(s.callers[c].pc, WriteFailed) <==> ResultIs(s'.callers[c].pc, WriteFailed)
    requires ResultIs(s.callers[c].pc, WriteFailed) ==> s'.callers[c].tries == s.callers[c].tries
    ensures WireOk(s')
  {
    forall j | 0 <= j < |s'.segments|
      ensures SegmentOk(s', j)
    {
      assert SegmentOk(s, j);
    }
    forall d | 0 <= d < |s'.callers|
      ensures ReachedSocket(s'.callers[d].pc) <==> Owns(s', d)
    {
      assert Owns(s', d) <==> Owns(s, d);
    }
  }

  lemma SegmentStays(s: State, s': State, j: nat)
    requires j < |s.segments| && SegmentOk(s, j) && s'.segments == s.segments && |s.callers| <= |s'.callers|
    requires s'.callers[s.segments[j].owner] == s.callers[s.segments[j].owner]
    ensures SegmentOk(s', j)
  {
  }

  lemma CallKeepsWire(s: State, payload: seq<byte>, encodes: bool)
    requires WireOk(s)
    ensures WireOk(Step(s, Call(payload, encodes)))
  {
    var s' := Step(s, Call(payload, encodes));
    forall j | 0 <= j < |s.segments|
      ensures SegmentOk(s', j) && s.segments[j].owner < |s.callers|
    {
      assert SegmentOk(s, j);
      SegmentStays(s, s', j);
    }
    hide SegmentOk, WireOf;
    forall d | 0 <= d < |s.callers|
      ensures ReachedSocket(s'.callers[d].pc) <==> Owns(s', d)
    {
      SameOwner(s, s', d);
    }
    assert !Owns(s', |s.callers|);
  }

  lemma WireOfAppend(segments: seq<Segment>, g: Segment)
    ensures WireOf(segments + [g]) == WireOf(segments) + g.bytes
  {
    assert (segments + [g])[..|segments|] == segments;
  }

  /** While one caller holds the lock before its write, nobody is writing and no segment is open. */
  lemma NobodyWrites(s: State, c: nat)
    requires WireOk(s) && Exclusive(s) && c < |s.callers| && s.callers[c].pc.Holding?
    ensures forall d :: 0 <= d < |s.callers| ==> !s.callers[d].pc.Writing?
    ensures forall j :: 0 <= j < |s.segments| ==> SegmentOk(s, j) && s.segments[j].status != Open
    ensures !Owns(s, c)
  {
    NoOtherWriter(s, c);
    hide Exclusive;
    NothingOpen(s, c);
    assert !ReachedSocket(s.callers[c].pc);
  }

  lemma NoOtherWriter(s: State, c: nat)
    requires Exclusive(s) && c < |s.callers| && s.callers[c].pc.Holding?
    ensures forall d :: 0 <= d < |s.callers| ==> !s.callers[d].pc.Writing?
  {
    assert InSection(s, c);
    assert forall d: nat :: InSection(s, d) ==> d == c;
    assert forall d: nat :: d < |s.callers| && s.callers[d].pc.Writing? ==> InSection(s, d);
  }

  lemma NothingOpen(s: State, c: nat)
    requires WireOk(s) && forall d :: 0 <= d < |s.callers| ==> !s.callers[d].pc.Writing?
    ensures forall j :: 0 <= j < |s.segments| ==> SegmentOk(s, j) && s.segments[j].status != Open
  {
    hide Owns, ReachedSocket, WireOf;
    forall j | 0 <= j < |s.segments|
      ensures SegmentOk(s, j) && s.segments[j].status != Open
    {
      assert SegmentOk(s, j);
      assert !s.callers[s.segments[j].owner].pc.Writing?;
    }
  }

  lemma OpenSegments(s: State, s': State, c: nat)
    requires WireOk(s) && Exclusive(s) && c < |s.callers| && s.callers[c].pc.Holding?
    requires s' == Step(s, SetDeadline(c, true))
    ensures forall j :: 0 <= j < |s'.segments| ==> SegmentOk(s', j)
  {
    NobodyWrites(s, c);
    hide WireOf, Owns, ReachedSocket, Exclusive;
    forall j | 0 <= j < |s'.segments|
      ensures SegmentOk(s', j)
    {
      if j < |s.segments| {
        assert SegmentOk(s, j);
      }
    }
  }

  lemma OpenOwners(s: State, s': State, c: nat)
    requires WireOk(s) && Exclusive(s) && c < |s.callers| && s.callers[c].pc.Holding?
    requires s' == Step(s, SetDeadline(c, true))
    ensures forall i, j :: 0 <= i < j < |s'.segments| ==> s'.segments[i].owner != s'.segments[j].owner
    ensures forall d :: 0 <= d < |s'.callers| ==> (ReachedSocket(s'.callers[d].pc) <==> Owns(s', d))
    ensures forall d :: 0 <= d < |s'.callers| && s'.callers[d].pc.Writing? ==> d == c
  {
    NobodyWrites(s, c);
    hide SegmentOk, WireOf, Exclusive;
    assert forall i :: 0 <= i < |s.segments| ==> s.segments[i].owner != c;
    forall d | 0 <= d < |s'.callers|
      ensures Owns(s', d) <==> Owns(s, d) || d == c
    {
      OwnerAdded(s, s', c, d);
    }
  }

  lemma OpenKeepsWire(s: State, c: nat)
    requires WireOk(s) && Exclusive(s) && c < |s.callers| && s.callers[c].pc.Holding?
    ensures WireOk(Step(s, SetDeadline(c, true)))
  {
    var s' := Step(s, SetDeadline(c, true));
    OpenedWire(s, s', c);
    OpenSegments(s, s', c);
    OpenOwners(s, s', c);
    hide Step, SegmentOk, WireOf, Exclusive, Owns, ReachedSocket;
  }

  lemma OpenedWire(s: State, s': State, c: nat)
    requires WireOk(s) && c < |s.callers| && s.callers[c].pc.Holding? && s' == Step(s, SetDeadline(c, true))
    ensures s'.wire == WireOf(s'.segments) && s'.segments != [] && Last(s') == Segment(c, [], Open)
  {
    hide SegmentOk, Owns, ReachedSocket;
    WireOfAppend(s.segments, Segment(c, [], Open));
  }

  lemma OwnerAdded(s: State, s': State, c: nat, d: nat)
    requires d < |s.callers| == |s'.callers| && |s'.segments| == |s.segments| + 1
    requires s'.segments[..|s.segments|] == s.segments && s'.segments[|s.segments|].owner == c
    ensures Owns(s', d) <==> Owns(s, d) || d == c
  {
    assert forall j :: 0 <= j < |s.segments| ==> s'.segments[j] == s.segments[j];
  }

  /** The last segment changes together with its owner. */
  lemma LastKeepsWire(s: State, s': State, c: nat, last: Segment)
    requires WireOk(s) && c < |s.callers| == |s'.callers| && s.callers[c].pc.Writing?
    requires s'.segments == s.segments[|s.segments| - 1 := last] && last.owner == c
    requires s'.wire == WireOf(s.segments[..|s.segments| - 1]) + last.bytes
    requires s'.callers[c].frame == s.callers[c].frame
    requires forall d :: 0 <= d < |s.callers| && d != c ==> s'.callers[d] == s.callers[d]
    requires SegmentOk(s', |s.segments| - 1)
    requires ReachedSocket(s'.callers[c].pc) && (s'.callers[c].pc.Writing? ==> last.status == Open)
    ensures WireOk(s')
  {
    var n := |s.segments| - 1;
    assert s'.segments[..n] == s.segments[..n];
    assert Last(s).owner == c;
    forall j | 0 <= j < |s'.segments|
      ensures SegmentOk(s', j)
    {
      if j < n {
        assert SegmentOk(s, j);
        assert s.segments[j].owner != s.segments[n].owner;
      }
    }
    forall d | 0 <= d < |s'.callers|
      ensures ReachedSocket(s'.callers[d].pc) <==> Owns(s', d)
    {
      if d == c {
        assert s'.segments[n].owner == c;
      } else {
        SameOwner(s, s', d);
      }
    }
  }

  lemma SameOwner(s: State, s': State, d: nat)
    requires |s.segments| == |s'.segments| && d < |s.callers| <= |s'.callers|
    requires forall j :: 0 <= j < |s.segments| ==> s'.segments[j].owner == s.segments[j].owner
    ensures Owns(s', d) <==> Owns(s, d)
  {
  }

  lemma PutKeepsWire(s: State, c: nat)
    requires WireOk(s)
    ensures WireOk(Step(s, Put(c)))
  {
    if c < |s.callers| && s.callers[c].pc.Writing? && s.callers[c].pc.put < |s.callers[c].frame| {
      var me := s.callers[c];
      var b := me.frame[me.pc.put];
      assert SegmentOk(s, |s.segments| - 1);
      var last := Last(s).(bytes := Last(s).bytes + [b]);
      assert last.bytes <= me.frame;
      LastKeepsWire(s, Step(s, Put(c)), c, last);
    }
  }

  lemma EndKeepsWire(s: State, c: nat, ok: bool)
    requires WireOk(s)
    ensures WireOk(Step(s, EndWrite(c, ok)))
  {
    if c < |s.callers| && s.callers[c].pc.Writing? && (ok ==> s.callers[c].pc.put == |s.callers[c].frame|) {
      assert SegmentOk(s, |s.segments| - 1);
      var last := Last(s).(status := if ok then Whole else Broken);
      LastKeepsWire(s, Step(s, EndWrite(c, ok)), c, last);
    }
  }

  lemma WireOkStep(s: State, a: Action)
    requires WireOk(s) && Exclusive(s)
    ensures WireOk(Step(s, a))
  {
    match a
    case Call(payload, encodes) => CallKeepsWire(s, payload, encodes);
    case CompareAndSwap(c) =>
      if c < |s.callers| && s.callers[c].pc.Trying? {
        WireOkAside(s, Step(s, a), c);
      }
    case Wake(c) =>
      if c < |s.callers| && s.callers[c].pc.Sleeping? {
        WireOkAside(s, Step(s, a), c);
      }
    case SetDeadline(c, ok) =>
      if c < |s.callers| && s.callers[c].pc.Holding? {
        if ok {
          OpenKeepsWire(s, c);
        } else {
          WireOkAside(s, Step(s, a), c);
        }
      }
    case Put(c) => PutKeepsWire(s, c);
    case EndWrite(c, ok) => EndKeepsWire(s, c, ok);
    case Release(c) =>
      if c < |s.callers| && s.callers[c].pc.Releasing? {
        WireOkAside(s, Step(s, a), c);
      }
    case Disconnect => DisconnectKeepsWire(s);
  }

  lemma DisconnectKeepsWire(s: State)
    requires WireOk(s)
    ensures WireOk(Step(s, Disconnect))
  {
    var s' := Step(s, Disconnect);
    assert forall j :: 0 <= j < |s.segments| && SegmentOk(s, j) ==> SegmentOk(s', j);
    assert forall d :: 0 <= d < |s.callers| ==> (Owns(s, d) <==> Owns(s', d));
  }

  // ---------- every run ----------

  ghost predicate Inv(s: State) {
    Exclusive(s) && CallersOk(s) && WireOk(s)
  }

  lemma {:induction false} RunKeeps(actions: seq<Action>)
    ensures Inv(Run(actions))
  {
    hide Exclusive, CallersOk, WireOk, Step;
    if actions == [] {
      StartInv();
    } else {
      var s, a := Run(actions[..|actions| - 1]), actions[|actions| - 1];
      RunKeeps(actions[..|actions| - 1]);
      ExclusiveStep(s, a);
      CallersOkStep(s, a);
      WireOkStep(s, a);
    }
  }

  lemma StartInv()
    ensures Inv(Start())
  {
  }

  /** Over every interleaving the lock is 1 exactly when one caller is in the critical section. */
  lemma MutualExclusion(actions: seq<Action>)
    ensures Exclusive(Run(actions))
  {
    hide Exclusive;
    RunKeeps(actions);
  }

  /** Over every interleaving the wire is a row of segments, each one caller's frame, cut short only by a reported error. */
  lemma WireIsFrames(actions: seq<Action>)
    ensures var s := Run(actions);
            && s.wire == WireOf(s.segments)
            && (forall j :: 0 <= j < |s.segments| ==> SegmentOk(s, j))
            && (forall i, j :: 0 <= i < j < |s.segments| ==> s.segments[i].owner != s.segments[j].owner)
  {
    hide Run;
    RunKeeps(actions);
  }

  // ---------- what one caller got ----------

  /** The bytes on the wire that come from caller c. */
  function BytesOf(segments: seq<Segment>, c: nat): seq<byte> {
    if segments == [] then []
    else
      var last := segments[|segments| - 1];
      BytesOf(segments[..|segments| - 1], c) + if last.owner == c then last.bytes else []
  }

  lemma {:induction false} NoSegmentNoBytes(segments: seq<Segment>, c: nat)
    requires forall j :: 0 <= j < |segments| ==> segments[j].owner != c
    ensures BytesOf(segments, c) == []
  {
    if segments != [] {
      NoSegmentNoBytes(segments[..|segments| - 1], c);
    }
  }

  lemma {:induction false} OneSegmentItsBytes(segments: seq<Segment>, c: nat, j: nat)
    requires j < |segments| && segments[j].owner == c
    requires forall i :: 0 <= i < |segments| && i != j ==> segments[i].owner != c
    ensures BytesOf(segments, c) == segments[j].bytes
  {
    var n := |segments| - 1;
    if j == n {
      NoSegmentNoBytes(segments[..n], c);
    } else {
      OneSegmentItsBytes(segments[..n], c, j);
    }
  }

  lemma {:induction false} BackoffAfterHelds(frame: seq<byte>, n: nat, t: Try, left: nat)
    requires n < left
    ensures Backoff(frame, Helds(n) + [t], left) == Backoff(frame, [t], left - n)
  {
    var tries := Helds(n) + [t];
    if n == 0 {
      assert tries == [t];
    } else {
      assert tries[0] == Held && tries[1..] == Helds(n - 1) + [t];
      BackoffAfterHelds(frame, n - 1, t, left - 1);
    }
  }

  lemma BackoffAllHeld(frame: seq<byte>)
    ensures Backoff(frame, Helds(MAX_ATTEMPTS), MAX_ATTEMPTS) == (GaveUp, [])
  {
    BackoffAfterHelds(frame, 2, Held, MAX_ATTEMPTS);
    assert Helds(2) + [Held] == Helds(MAX_ATTEMPTS);
  }

  lemma ConcludedBackoff(c: Caller, r: Result)
    requires Concluded(c, r)
    ensures Backoff(c.frame, c.tries, MAX_ATTEMPTS)
         == (r, if r.DeadlineFailed? then [] else c.frame[..LastTry(c).count])
  {
    var n := |c.tries| - 1;
    assert c.tries == Helds(n) + [c.tries[n]];
    BackoffAfterHelds(c.frame, n, c.tries[n], MAX_ATTEMPTS);
  }

  /** A closed segment holds as many bytes of the frame as the owner's last attempt says. */
  lemma SegmentAmount(s: State, j: nat)
    requires j < |s.segments| && SegmentOk(s, j) && s.segments[j].status != Open
    requires CallerOk(s.callers[s.segments[j].owner])
    ensures var me := s.callers[s.segments[j].owner];
            var count := if LastTry(me).Took? then LastTry(me).count else 0;
            count <= |me.frame| && s.segments[j].bytes == me.frame[..count]
  {
    var me := s.callers[s.segments[j].owner];
    assert me.frame[..|me.frame|] == me.frame;
  }

  /**
   * In every run, a caller that has returned got what writeWithBackoff returns for the attempts it saw, put exactly
   * those bytes on the wire, made at most three attempts, and is out of the critical section.
   */
  lemma CallerOutcome(actions: seq<Action>, c: nat)
    requires c < |Run(actions).callers| && Run(actions).callers[c].pc.Finished?
    ensures var s := Run(actions);
            var me := s.callers[c];
            && !InSection(s, c)
            && |me.tries| <= 3
            && (if me.pc.result.Disconnected? || me.pc.result.NotEncoded? then me.tries == [] && BytesOf(s.segments, c) == []
                else (me.pc.result, BytesOf(s.segments, c)) == Backoff(me.frame, me.tries, MAX_ATTEMPTS))
  {
    RunKeeps(actions);
    hide Run;
    var s := Run(actions);
    var me := s.callers[c];
    assert CallerOk(me);
    if ReachedSocket(me.pc) {
      assert Owns(s, c);
      var j :| 0 <= j < |s.segments| && s.segments[j].owner == c;
      assert SegmentOk(s, j);
      OneSegmentItsBytes(s.segments, c, j);
      SegmentAmount(s, j);
      ConcludedBackoff(me, me.pc.result);
    } else {
      assert !Owns(s, c);
      NoSegmentNoBytes(s.segments, c);
      if me.pc.result.GaveUp? {
        BackoffAllHeld(me.frame);
      } else if me.pc.result.DeadlineFailed? {
        ConcludedBackoff(me, DeadlineFailed);
      }
    }
  }

  /** A caller is told its frame was sent exactly when the whole frame, and nothing else of it, is on the wire. */
  lemma SentMeansWritten(actions: seq<Action>, c: nat)
    requires c < |Run(actions).callers| && Run(actions).callers[c].pc.Finished?
    requires !Run(actions).callers[c].pc.result.WriteFailed?
    ensures var s := Run(actions);
            BytesOf(s.segments, c) == if s.callers[c].pc.result.Sent? then s.callers[c].frame else []
  {
    CallerOutcome(actions, c);
    RunKeeps(actions);
    hide Run;
    var me := Run(actions).callers[c];
    assert CallerOk(me);
    if me.pc.result.GaveUp? {
      BackoffAllHeld(me.frame);
    } else if me.pc.result.Sent? || me.pc.result.DeadlineFailed? {
      ConcludedBackoff(me, me.pc.result);
    }
  }

  // ---------- runs without write errors ----------

  /** No write is going on and none has failed. */
  predicate CleanWire(s: State) {
    forall j :: 0 <= j < |s.segments| ==> s.segments[j].status == Whole
  }

  function FramesOf(s: State, segments: seq<Segment>): seq<seq<byte>>
    requires forall j :: 0 <= j < |segments| ==> segments[j].owner < |s.callers|
  {
    seq(|segments|, j requires 0 <= j < |segments| => s.callers[segments[j].owner].frame)
  }

  lemma {:induction false} WireIsFlat(s: State, segments: seq<Segment>)
    requires forall j :: 0 <= j < |segments| ==>
               segments[j].owner < |s.callers| && segments[j].bytes == s.callers[segments[j].owner].frame
    ensures WireOf(segments) == Flatten(FramesOf(s, segments))
  {
    if segments != [] {
      var n := |segments| - 1;
      WireIsFlat(s, segments[..n]);
      assert FramesOf(s, segments)[..n] == FramesOf(s, segments[..n]);
    }
  }

  /** Then the wire is a sequence of whole frames of callers that were told so. */
  lemma CleanWireIsWholeFrames(actions: seq<Action>)
    requires CleanWire(Run(actions))
    ensures var s := Run(actions);
            && (forall j :: 0 <= j < |s.segments| ==>
                  s.segments[j].owner < |s.callers| && ResultIs(s.callers[s.segments[j].owner].pc, Sent))
            && s.wire == Flatten(FramesOf(s, s.segments))
  {
    WireIsFrames(actions);
    hide Run;
    var s := Run(actions);
    forall j | 0 <= j < |s.segments|
      ensures s.segments[j].owner < |s.callers| && ResultIs(s.callers[s.segments[j].owner].pc, Sent)
      ensures s.segments[j].bytes == s.callers[s.segments[j].owner].frame
    {
      assert SegmentOk(s, j) && s.segments[j].status == Whole;
    }
    WireIsFlat(s, s.segments);
  }

  /** And the owners of those frames are exactly the callers that were told so, each with one frame. */
  lemma CleanWireOwners(actions: seq<Action>)
    requires CleanWire(Run(actions))
    ensures var s := Run(actions);
            && (forall c :: 0 <= c < |s.callers| ==> (Owns(s, c) <==> ResultIs(s.callers[c].pc, Sent)))
            && (forall i, j :: 0 <= i < j < |s.segments| ==> s.segments[i].owner != s.segments[j].owner)
  {
    RunKeeps(actions);
    hide Run, Exclusive, CallersOk;
    var s := Run(actions);
    forall c | 0 <= c < |s.callers|
      ensures Owns(s, c) <==> ResultIs(s.callers[c].pc, Sent)
    {
      assert ReachedSocket(s.callers[c].pc) <==> Owns(s, c);
      if Owns(s, c) {
        var j :| 0 <= j < |s.segments| && s.segments[j].owner == c;
        assert SegmentOk(s, j) && s.segments[j].status == Whole;
      }
    }
  }

  // ---------- when an attempt fails ----------

  /** Somebody else is in the critical section. */
  ghost predicate OtherInSection(s: State, c: nat) {
    exists d: nat :: d != c && InSection(s, d)
  }

  /** Caller c tries the lock in this step while somebody else is in the critical section. */
  ghost predicate BlockedIn(s: State, c: nat, a: Action) {
    a == CompareAndSwap(c) && c < |s.callers| && s.callers[c].pc.Trying? && OtherInSection(s, c)
  }

  /** How often that happened to c during a run. */
  ghost function TimesBlocked(actions: seq<Action>, c: nat): nat {
    if actions == [] then 0
    else
      var before := actions[..|actions| - 1];
      TimesBlocked(before, c) + if BlockedIn(Run(before), c, actions[|actions| - 1]) then 1 else 0
  }

  function HeldCount(tries: seq<Try>): nat {
    if tries == [] then 0 else HeldCount(tries[..|tries| - 1]) + if tries[|tries| - 1].Held? then 1 else 0
  }

  function TriesOf(s: State, c: nat): seq<Try> {
    if c < |s.callers| then s.callers[c].tries else []
  }

  lemma HeldAppend(tries: seq<Try>, t: Try)
    ensures HeldCount(tries + [t]) == HeldCount(tries) + if t.Held? then 1 else 0
  {
    assert (tries + [t])[..|tries|] == tries;
  }

  lemma LockIsOthers(s: State, c: nat)
    requires Exclusive(s) && !InSection(s, c)
    ensures OtherInSection(s, c) <==> s.lock != 0
  {
    if s.lock == 1 {
      var d: nat :| InSection(s, d);
      assert d != c;
    }
  }

  /** What the compare-and-swap of a caller at an attempt does: it fails if and only if somebody else is inside. */
  lemma SwapOutcome(s: State, c: nat)
    requires Exclusive(s) && c < |s.callers| && s.callers[c].pc.Trying?
    ensures var me, s' := s.callers[c], Step(s, CompareAndSwap(c));
            && c < |s'.callers|
            && s'.callers[c].tries == me.tries + (if OtherInSection(s, c) then [Held] else [])
            && (OtherInSection(s, c) <==> s'.callers[c].pc == Sleeping(me.pc.attempt))
            && (!OtherInSection(s, c) <==> s'.callers[c].pc == Holding(me.pc.attempt))
            && (!OtherInSection(s, c) ==> InSection(s', c) && s'.lock == 1)
  {
    LockIsOthers(s, c);
  }

  lemma TriesStep(s: State, a: Action, c: nat)
    requires Exclusive(s)
    ensures HeldCount(TriesOf(Step(s, a), c)) == HeldCount(TriesOf(s, c)) + if BlockedIn(s, c, a) then 1 else 0
  {
    if a == CompareAndSwap(c) && c < |s.callers| && s.callers[c].pc.Trying? {
      SwapOutcome(s, c);
      hide Step, Exclusive;
      HeldAppend(s.callers[c].tries, Held);
    } else if a.SetDeadline? && a.c == c && c < |s.callers| {
      HeldAppend(s.callers[c].tries, NoDeadline);
    } else if a.EndWrite? && a.c == c && c < |s.callers| && s.callers[c].pc.Writing? {
      HeldAppend(s.callers[c].tries, Took(s.callers[c].pc.put, a.ok));
    } else {
      OtherTries(s, a, c);
    }
  }

  lemma OtherTries(s: State, a: Action, c: nat)
    requires !(a == CompareAndSwap(c) && c < |s.callers| && s.callers[c].pc.Trying?)
    requires !(a.SetDeadline? && a.c == c && c < |s.callers|)
    requires !(a.EndWrite? && a.c == c && c < |s.callers| && s.callers[c].pc.Writing?)
    ensures TriesOf(Step(s, a), c) == TriesOf(s, c)
  {
  }

  /** Over every run, a caller's attempts recorded as held are those at which somebody else was in the critical section. */
  lemma {:induction false} HeldIsBlocked(actions: seq<Action>, c: nat)
    ensures HeldCount(TriesOf(Run(actions), c)) == TimesBlocked(actions, c)
  {
    hide Step, Exclusive, BlockedIn, CallersOk, WireOk;
    if actions != [] {
      var before := actions[..|actions| - 1];
      RunKeeps(before);
      HeldIsBlocked(before, c);
      TriesStep(Run(before), actions[|actions| - 1], c);
    }
  }

  lemma {:induction false} HeldsCount(n: nat)
    ensures HeldCount(Helds(n)) == n
  {
    if n > 0 {
      assert Helds(n)[..n - 1] == Helds(n - 1);
      HeldsCount(n - 1);
    }
  }

  /** So a caller gives up if and only if it has returned after finding somebody else inside at all three attempts. */
  lemma GaveUpMeansBlocked(actions: seq<Action>, c: nat)
    requires c < |Run(actions).callers| && Run(actions).callers[c].pc.Finished?
    ensures Run(actions).callers[c].pc.result.GaveUp? <==> TimesBlocked(actions, c) == 3
  {
    RunKeeps(actions);
    HeldIsBlocked(actions, c);
    hide Run, TimesBlocked;
    var me := Run(actions).callers[c];
    assert CallerOk(me);
    if me.pc.result.GaveUp? {
      HeldsCount(MAX_ATTEMPTS);
    } else if me.tries != [] {
      var n := |me.tries| - 1;
      HeldsCount(n);
      assert me.tries == Helds(n) + [me.tries[n]];
      HeldAppend(Helds(n), me.tries[n]);
    }
  }

  // ---------- a caller on a free lock ----------

  function Puts(c: nat, n: nat): (a: seq<Action>)
    ensures |a| == n
  {
    if n == 0 then [] else Puts(c, n - 1) + [Put(c)]
  }

  /** All steps of an attempt whose deadline and write succeed. */
  function AttemptSteps(c: nat, frame: seq<byte>): seq<Action> {
    [CompareAndSwap(c), SetDeadline(c, true)] + Puts(c, |frame|) + [EndWrite(c, true), Release(c)]
  }

  lemma RunStep(actions: seq<Action>, a: Action)
    ensures Run(actions + [a]) == Step(Run(actions), a)
  {
    assert (actions + [a])[..|actions|] == actions;
  }

  /** Caller c is writing and the socket has taken `put` bytes, all at the end of the wire. */
  predicate Underway(s: State, before: State, c: nat, frame: seq<byte>, put: nat) {
    && c < |s.callers| && put <= |frame|
    && s.callers[c].frame == frame && s.callers[c].pc.Writing? && s.callers[c].pc.put == put
    && s.segments != [] && s.wire == before.wire + frame[..put] && s.lock == 1
  }

  lemma {:induction false} PutsRun(actions: seq<Action>, before: State, c: nat, frame: seq<byte>, n: nat)
    requires n <= |frame| && Underway(Run(actions), before, c, frame, 0)
    ensures Underway(Run(actions + Puts(c, n)), before, c, frame, n)
  {
    if n == 0 {
      assert actions + Puts(c, 0) == actions;
    } else {
      PutsRun(actions, before, c, frame, n - 1);
      assert actions + Puts(c, n) == actions + Puts(c, n - 1) + [Put(c)];
      RunStep(actions + Puts(c, n - 1), Put(c));
      hide Run;
      PutOne(Run(actions + Puts(c, n - 1)), before, c, frame, n - 1);
    }
  }

  lemma PutOne(s: State, before: State, c: nat, frame: seq<byte>, put: nat)
    requires put < |frame| && Underway(s, before, c, frame, put)
    ensures Underway(Step(s, Put(c)), before, c, frame, put + 1)
  {
    assert frame[..put + 1] == frame[..put] + [frame[put]];
  }

  lemma StartWriting(s: State, c: nat)
    requires s.lock == 0 && c < |s.callers| && s.callers[c].pc.Trying?
    ensures Underway(Step(Step(s, CompareAndSwap(c)), SetDeadline(c, true)), s, c, s.callers[c].frame, 0)
  {
    assert s.callers[c].frame[..0] == [];
  }

  lemma FinishWriting(s: State, before: State, c: nat, frame: seq<byte>)
    requires Underway(s, before, c, frame, |frame|)
    ensures var s' := Step(Step(s, EndWrite(c, true)), Release(c));
            && c < |s'.callers| && s'.callers[c].pc == Finished(Sent)
            && s'.wire == before.wire + frame && s'.lock == 0
  {
    assert frame[..|frame|] == frame;
  }

  /** Caller c was told "sent", its frame went to the end of the wire, and the lock is free. */
  predicate IsSent(s: State, before: State, c: nat, frame: seq<byte>) {
    c < |s.callers| && s.callers[c].pc == Finished(Sent) && s.wire == before.wire + frame && s.lock == 0
  }

  /** In any run that leaves the lock free, an attempt that is not interrupted and meets no error succeeds. */
  lemma AttemptSucceeds(actions: seq<Action>, c: nat)
    requires var s := Run(actions); s.lock == 0 && c < |s.callers| && s.callers[c].pc.Trying?
    ensures var s := Run(actions);
            IsSent(Run(actions + AttemptSteps(c, s.callers[c].frame)), s, c, s.callers[c].frame)
  {
    hide Run, Step, Underway, Puts;
    var s := Run(actions);
    var frame := s.callers[c].frame;
    var a1 := actions + [CompareAndSwap(c)];
    var a2 := a1 + [SetDeadline(c, true)];
    var a3 := a2 + Puts(c, |frame|);
    RunStep(actions, CompareAndSwap(c));
    RunStep(a1, SetDeadline(c, true));
    StartWriting(s, c);
    PutsRun(a2, s, c, frame, |frame|);
    RunStep(a3, EndWrite(c, true));
    RunStep(a3 + [EndWrite(c, true)], Release(c));
    FinishWriting(Run(a3), s, c, frame);
    assert actions + AttemptSteps(c, frame) == a3 + [EndWrite(c, true)] + [Release(c)];
  }

  /** So in any run that leaves the lock free and the connection up, a new call gets its whole frame through. */
  lemma FreeLockIsTaken(actions: seq<Action>, payload: seq<byte>)
    requires Run(actions).lock == 0 && !Run(actions).disconnecting
    ensures var s, c, frame := Run(actions), |Run(actions).callers|, payload + [NEWLINE];
            IsSent(Run(actions + [Call(payload, true)] + AttemptSteps(c, frame)), s, c, frame)
  {
    hide Run, AttemptSteps;
    RunStep(actions, Call(payload, true));
    AttemptSucceeds(actions + [Call(payload, true)], |Run(actions).callers|);
  }

  /** And so does a caller that was blocked fewer than three times, once it wakes up to a free lock. */
  lemma BlockedCallerRetries(actions: seq<Action>, c: nat)
    requires var s := Run(actions); s.lock == 0 && c < |s.callers| && s.callers[c].pc.Sleeping? && s.callers[c].pc.attempt < 2
    ensures var s := Run(actions);
            IsSent(Run(actions + [Wake(c)] + AttemptSteps(c, s.callers[c].frame)), s, c, s.callers[c].frame)
  {
    hide Run, AttemptSteps;
    RunStep(actions, Wake(c));
    AttemptSucceeds(actions + [Wake(c)], c);
  }

  // ---------- a caller on a connection that is going away ----------

  lemma {:induction false} DisconnectingMeans(actions: seq<Action>)
    ensures Run(actions).disconnecting <==> Disconnect in actions
  {
    if actions != [] {
      var n := |actions| - 1;
      assert actions == actions[..n] + [actions[n]];
      DisconnectingMeans(actions[..n]);
      DisconnectingStep(Run(actions[..n]), actions[n]);
      hide Step;
    }
  }

  lemma DisconnectingStep(s: State, a: Action)
    ensures Step(s, a).disconnecting <==> s.disconnecting || a.Disconnect?
  {
  }

  predicate IsTurnedAway(s: State, c: nat) {
    c < |s.callers| && s.callers[c].pc == Finished(Disconnected)
  }

  lemma TurnedAwayStep(s: State, a: Action, c: nat)
    requires CallersOk(s) && c < |s.callers|
    ensures c < |Step(s, a).callers|
    ensures IsTurnedAway(Step(s, a), c) <==> IsTurnedAway(s, c)
  {
    assert CallerOk(s.callers[c]);
  }

  /** Over every run, a call is turned away if and only if the connection was going away when it was made. */
  lemma {:induction false} TurnedAwayExactly(before: seq<Action>, payload: seq<byte>, encodes: bool, after: seq<Action>)
    ensures var c := |Run(before).callers|;
            var s := Run(before + [Call(payload, encodes)] + after);
            c < |s.callers| && (IsTurnedAway(s, c) <==> Disconnect in before)
    decreases |after|
  {
    hide CallersOk, Exclusive, WireOk;
    var called := before + [Call(payload, encodes)];
    if after == [] {
      assert called + after == called;
      RunStep(before, Call(payload, encodes));
      DisconnectingMeans(before);
      hide Run;
    } else {
      var n := |after| - 1;
      TurnedAwayExactly(before, payload, encodes, after[..n]);
      assert called + after == called + after[..n] + [after[n]];
      RunStep(called + after[..n], after[n]);
      RunKeeps(called + after[..n]);
      hide Run, Step, IsTurnedAway;
      TurnedAwayStep(Run(called + after[..n]), after[n], |Run(before).callers|);
    }
  }
}
