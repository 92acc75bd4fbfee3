/**
 * The per-connection write protocol: a try-lock taken by compare-and-swap, three attempts,
 * and a socket that takes a frame one byte at a time, under every interleaving of callers.
 */
module WriteLocks {
  import opened Bytes

  const MAX_ATTEMPTS: nat := 3
  const NEWLINE: byte := 10

  datatype Result = Sent | GaveUp | DeadlineFailed | WriteFailed | Disconnected | NotEncoded

  /** How one attempt went: the lock was held, the deadline could not be set, or the socket took some bytes. */
  datatype Try = Held | NoDeadline | Took(count: nat, ok: bool)

  // ---------- one caller, whatever the others do ----------

  /** The outcome of writeWithBackoff when its attempts go as given, and the bytes it puts on the wire. */
  function Backoff(frame: seq<byte>, tries: seq<Try>, left: nat): (Result, seq<byte>) {
    if left == 0 || tries == [] then (GaveUp, [])
    else
      match tries[0]
      case Held => Backoff(frame, tries[1..], left - 1)
      case NoDeadline => (DeadlineFailed, [])
      case Took(count, ok) =>
        (if ok then Sent else WriteFailed, if count <= |frame| then frame[..count] else frame)
  }

  /** A socket reports success only when it has taken everything. */
  predicate Honest(frame: seq<byte>, t: Try) {
    t.Took? ==> t.count <= |frame| && (t.ok ==> t.count == |frame|)
  }

  class Connection {
    var writeLock: int
    var wire: seq<byte>

    constructor ()
      ensures writeLock == 0 && wire == []
    {
      writeLock, wire := 0, [];
    }

    /** One attempt; `blocked` is errWriteBlocked. */
    method Write(data: seq<byte>, t: Try) returns (blocked: bool, result: Result)
      requires Honest(data, t)
      requires writeLock == if t.Held? then 1 else 0
      modifies this
      ensures blocked == t.Held? && writeLock == old(writeLock)
      ensures wire == old(wire) + Backoff(data, [t], 1).1
      ensures !blocked ==> result == Backoff(data, [t], 1).0
    {
      if writeLock == 0 {
        writeLock := 1;
        if t.NoDeadline? {
          writeLock := 0;
          return false, DeadlineFailed;
        }
        wire := wire + data[..t.count];
        writeLock := 0;
        return false, if t.ok then Sent else WriteFailed;
      }
      return true, GaveUp;
    }

    /** The retry loop. Before each attempt other callers may have taken or released the lock and written `others[i]`. */
    method WriteWithBackoff(data: seq<byte>, tries: seq<Try>, others: seq<seq<byte>>)
      returns (result: Result, ghost own: seq<byte>, ghost attempts: nat)
      requires |tries| == |others| == MAX_ATTEMPTS
      requires forall i :: 0 <= i < MAX_ATTEMPTS ==> Honest(data, tries[i])
      modifies this
      ensures (result, own) == Backoff(data, tries, MAX_ATTEMPTS)
      ensures attempts <= MAX_ATTEMPTS
      ensures wire == old(wire) + Flatten(others[..attempts]) + own
      ensures result.Sent? ==> own == data
      ensures result.GaveUp? || result.DeadlineFailed? ==> own == []
      ensures !result.GaveUp? ==> writeLock == 0
    {
      attempts := 0;
      for i := 0 to MAX_ATTEMPTS
        invariant attempts == i
        invariant Backoff(data, tries, MAX_ATTEMPTS) == Backoff(data, tries[i..], MAX_ATTEMPTS - i)
        invariant wire == old(wire) + Flatten(others[..i])
      {
        writeLock := if tries[i].Held? then 1 else 0;
        wire := wire + others[i];
        FlattenStep(others, i);
        attempts := i + 1;
        var blocked;
        blocked, result := Write(data, tries[i]);
        own := Backoff(data, [tries[i]], 1).1;
        assert tries[i..][0] == tries[i] && tries[i..][1..] == tries[i + 1..];
        if !blocked {
          return;
        }
      }
      return GaveUp, [], MAX_ATTEMPTS;
    }
  }

  function Flatten(parts: seq<seq<byte>>): seq<byte> {
    if parts == [] then [] else Flatten(parts[..|parts| - 1]) + parts[|parts| - 1]
  }

  lemma FlattenStep(parts: seq<seq<byte>>, i: nat)
    requires i < |parts|
    ensures Flatten(parts[..i + 1]) == Flatten(parts[..i]) + parts[i]
  {
    assert parts[..i + 1][..i] == parts[..i];
  }

  // ---------- all callers together ----------

  datatype Pc =
    | Trying(attempt: nat)
    | Sleeping(attempt: nat)
    | Holding(attempt: nat)            // has the lock, deadline not yet set
    | Writing(attempt: nat, put: nat)  // the socket has taken `put` bytes
    | Releasing(result: Result)        // the deferred store is still to come
    | Finished(result: Result)

  datatype Caller = Caller(frame: seq<byte>, pc: Pc, tries: seq<Try>)

  datatype Status = Open | Whole | Broken

  /** The stretch of the wire that one caller's socket write produced. */
  datatype Segment = Segment(owner: nat, bytes: seq<byte>, status: Status)

  datatype State = State(
    lock: int,
    wire: seq<byte>,
    disconnecting: bool,
    callers: seq<Caller>,
    segments: seq<Segment>)

  datatype Action =
    | Call(payload: seq<byte>, encodes: bool)
    | CompareAndSwap(c: nat)
    | Wake(c: nat)
    | SetDeadline(c: nat, ok: bool)
    | Put(c: nat)
    | EndWrite(c: nat, ok: bool)
    | Release(c: nat)
    | Disconnect

  function Start(): State {
    State(0, [], false, [], [])
  }

  function Moved(s: State, c: nat, pc: Pc): State
    requires c < |s.callers|
  {
    s.(callers := s.callers[c := s.callers[c].(pc := pc)])
  }

  function Tried(s: State, c: nat, pc: Pc, t: Try): State
    requires c < |s.callers|
  {
    s.(callers := s.callers[c := s.callers[c].(pc := pc, tries := s.callers[c].tries + [t])])
  }

  function Last(s: State): Segment
    requires s.segments != []
  {
    s.segments[|s.segments| - 1]
  }

  function WithLast(s: State, last: Segment): State
    requires s.segments != []
  {
    s.(segments := s.segments[|s.segments| - 1 := last])
  }

  /** One step; an action that is not enabled changes nothing. */
  function Step(s: State, a: Action): State {
    match a
    case Call(payload, encodes) =>
      var pc := if s.disconnecting then Finished(Disconnected) else if !encodes then Finished(NotEncoded) else Trying(0);
      s.(callers := s.callers + [Caller(payload + [NEWLINE], pc, [])])
    case CompareAndSwap(c) =>
      if c < |s.callers| && s.callers[c].pc.Trying? then
        var i := s.callers[c].pc.attempt;
        if s.lock == 0 then Moved(s, c, Holding(i)).(lock := 1) else Tried(s, c, Sleeping(i), Held)
      else s
    case Wake(c) =>
      if c < |s.callers| && s.callers[c].pc.Sleeping? then
        var i := s.callers[c].pc.attempt + 1;
        Moved(s, c, if i < MAX_ATTEMPTS then Trying(i) else Finished(GaveUp))
      else s
    case SetDeadline(c, ok) =>
      if c < |s.callers| && s.callers[c].pc.Holding? then
        if ok then Moved(s, c, Writing(s.callers[c].pc.attempt, 0)).(segments := s.segments + [Segment(c, [], Open)])
        else Tried(s, c, Releasing(DeadlineFailed), NoDeadline)
      else s
    case Put(c) =>
      if c < |s.callers| && s.callers[c].pc.Writing? && s.callers[c].pc.put < |s.callers[c].frame| && s.segments != [] then
        var me := s.callers[c];
        var b := me.frame[me.pc.put];
        WithLast(Moved(s, c, me.pc.(put := me.pc.put + 1)), Last(s).(bytes := Last(s).bytes + [b])).(wire := s.wire + [b])
      else s
    case EndWrite(c, ok) =>
      if c < |s.callers| && s.callers[c].pc.Writing? && (ok ==> s.callers[c].pc.put == |s.callers[c].frame|) && s.segments != [] then
        WithLast(
          Tried(s, c, Releasing(if ok then Sent else WriteFailed), Took(s.callers[c].pc.put, ok)),
          Last(s).(status := if ok then Whole else Broken))
      else s
    case Release(c) =>
      if c < |s.callers| && s.callers[c].pc.Releasing?
      then Moved(s, c, Finished(s.callers[c].pc.result)).(lock := 0)
      else s
    case Disconnect => s.(disconnecting := true)
  }

  function Run(actions: seq<Action>): State {
    if actions == [] then Start() else Step(Run(actions[..|actions| - 1]), actions[|actions| - 1])
  }
}
