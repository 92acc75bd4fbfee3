/** Turning socket reads into lines. */
module Framing {
  import opened Bytes
  import opened WriteLocks
  import opened WriteLockRuns

  const BUFFER_SIZE: nat := 1024
  const RETURN: byte := 13
  const NUL: byte := 0

  // ---------- lines ----------

  /** bytes.ReplaceAll of NUL by nothing. */
  function RemoveNul(b: seq<byte>): (r: seq<byte>)
    ensures forall i :: 0 <= i < |r| ==> r[i] != NUL
  {
    if b == [] then [] else RemoveNul(b[..|b| - 1]) + if b[|b| - 1] == NUL then [] else [b[|b| - 1]]
  }

  function DropReturn(line: seq<byte>): seq<byte> {
    if line != [] && line[|line| - 1] == RETURN then line[..|line| - 1] else line
  }

  /** The position of the first newline, or the length if there is none. */
  function LineEnd(b: seq<byte>): (i: nat)
    ensures i <= |b|
    ensures i < |b| ==> b[i] == NEWLINE
    ensures forall j :: 0 <= j < i ==> b[j] != NEWLINE
  {
    if b == [] || b[0] == NEWLINE then 0 else 1 + LineEnd(b[1..])
  }

  /** What bufio.Scanner yields for a buffer: a last line without a newline counts, an empty rest does not. */
  function Lines(b: seq<byte>): seq<seq<byte>> {
    if b == [] then []
    else
      var i := LineEnd(b);
      [DropReturn(b[..i])] + if i < |b| then Lines(b[i + 1..]) else []
  }

  // ---------- one read ----------

  /** How handling went; a deadline that passed is told apart from other errors. */
  datatype Status = Fine | TimedOut | Failed

  datatype Read = Chunk(bytes: seq<byte>) | NoData | ReadError

  /** What the callback answers to the n-th line it is handed, counted from 0 over the life of the connection. */
  type Answers = nat -> Status

  /** The lines handed to the callback after n others: all of them, or those up to the first it rejects. */
  function Handed(lines: seq<seq<byte>>, answers: Answers, n: nat): seq<seq<byte>> {
    if lines == [] then []
    else [lines[0]] + if answers(n).Fine? then Handed(lines[1..], answers, n + 1) else []
  }

  /** The callback's answer to the first line it rejects. */
  function Answer(lines: seq<seq<byte>>, answers: Answers, n: nat): Status {
    if lines == [] then Fine else if answers(n).Fine? then Answer(lines[1..], answers, n + 1) else answers(n)
  }

  predicate AllAccepted(answers: Answers, n: nat, count: nat) {
    forall i :: n <= i < n + count ==> answers(i).Fine?
  }

  /** One of `count` lines is rejected while others are still to follow. */
  predicate RejectsEarly(answers: Answers, n: nat, count: nat) {
    exists i :: n <= i < n + count - 1 && !answers(i).Fine?
  }

  /** The unread part of the buffer is NUL, so it goes with the NULs of the data. */
  lemma {:induction false} PaddingRemoved(b: seq<byte>, n: nat)
    ensures RemoveNul(b + seq(n, i => NUL)) == RemoveNul(b)
  {
    var padded := b + seq(n, i => NUL);
    if n == 0 {
      assert padded == b;
    } else {
      assert padded[..|padded| - 1] == b + seq(n - 1, i => NUL);
      PaddingRemoved(b, n - 1);
    }
  }

  /** The buffer after a read: the data, then what make left there. */
  method FillBuffer(chunk: seq<byte>) returns (buffer: array<byte>)
    requires |chunk| <= BUFFER_SIZE
    ensures fresh(buffer) && buffer[..] == chunk + seq(BUFFER_SIZE - |chunk|, i => NUL)
  {
    buffer := new byte[BUFFER_SIZE](i => NUL);
    for i := 0 to |chunk|
      invariant buffer.Length == BUFFER_SIZE
      invariant forall j :: 0 <= j < i ==> buffer[j] == chunk[j]
      invariant forall j :: i <= j < BUFFER_SIZE ==> buffer[j] == NUL
    {
      buffer[i] := chunk[i];
    }
  }

  /** What is left after the first line. */
  function AfterLine(b: seq<byte>): (rest: seq<byte>)
    ensures b != [] ==> |rest| < |b|
  {
    var i := LineEnd(b);
    if i < |b| then b[i + 1..] else []
  }

  /** The scanner loop: lines go to the callback until it rejects one. */
  method ScanLines(data: seq<byte>, answers: Answers, n: nat) returns (delivered: seq<seq<byte>>, status: Status)
    ensures delivered == Handed(Lines(data), answers, n) && status == Answer(Lines(data), answers, n)
  {
    hide LineEnd, DropReturn, Lines, Handed, Answer, AfterLine;
    var rest := data;
    delivered := [];
    NoLines(answers, n);
    while rest != []
      invariant Handed(Lines(data), answers, n) == delivered + Handed(Lines(rest), answers, n + |delivered|)
      invariant Answer(Lines(data), answers, n) == Answer(Lines(rest), answers, n + |delivered|)
      decreases |rest|
    {
      var line := DropReturn(rest[..LineEnd(rest)]);
      ScanRound(rest, answers, n + |delivered|);
      rest := AfterLine(rest);
      status := answers(n + |delivered|);
      delivered := delivered + [line];
      if !status.Fine? {
        return;
      }
    }
    NoLines(answers, n + |delivered|);
    status := Fine;
  }

  /** One round of the scanner. */
  lemma ScanRound(b: seq<byte>, answers: Answers, n: nat)
    requires b != []
    ensures var line, rest := DropReturn(b[..LineEnd(b)]), Lines(AfterLine(b));
            && Handed(Lines(b), answers, n) == [line] + (if answers(n).Fine? then Handed(rest, answers, n + 1) else [])
            && Answer(Lines(b), answers, n) == if answers(n).Fine? then Answer(rest, answers, n + 1) else answers(n)
  {
    LinesStep(b);
    hide Lines, LineEnd, DropReturn;
  }

  lemma LinesStep(b: seq<byte>)
    requires b != []
    ensures Lines(b) != [] && Lines(b)[0] == DropReturn(b[..LineEnd(b)])
    ensures Lines(b)[1..] == Lines(AfterLine(b))
  {
  }

  lemma NoLines(answers: Answers, n: nat)
    ensures Lines([]) == [] && Handed([], answers, n) == [] && Answer([], answers, n) == Fine
  {
  }

  /** What one read makes the callback see after n lines, and how it ends. */
  function HeardIn(read: Read, answers: Answers, n: nat): (seq<seq<byte>>, Status) {
    match read
    case NoData => ([], TimedOut)
    case ReadError => ([], Failed)
    case Chunk(bytes) =>
      (Handed(Lines(RemoveNul(bytes)), answers, n), Answer(Lines(RemoveNul(bytes)), answers, n))
  }

  method ReadFromConnection(deadlineSet: bool, read: Read, answers: Answers, n: nat)
    returns (delivered: seq<seq<byte>>, status: Status)
    requires read.Chunk? ==> |read.bytes| <= BUFFER_SIZE
    ensures (delivered, status) == if deadlineSet then HeardIn(read, answers, n) else ([], Failed)
  {
    hide RemoveNul, Lines, Handed, Answer;
    if !deadlineSet || read.ReadError? {
      return [], Failed;
    }
    if read.NoData? {
      return [], TimedOut;
    }
    var buffer := FillBuffer(read.bytes);
    PaddingRemoved(read.bytes, BUFFER_SIZE - |read.bytes|);
    delivered, status := ScanLines(RemoveNul(buffer[..]), answers, n);
  }

  /** A rejected line is the last one handed over, and its answer is the outcome; before it every line was accepted. */
  lemma {:induction false} HandedUpTo(lines: seq<seq<byte>>, k: nat, answers: Answers, n: nat)
    requires k < |lines| && AllAccepted(answers, n, k) && !answers(n + k).Fine?
    ensures Handed(lines, answers, n) == lines[..k + 1] && Answer(lines, answers, n) == answers(n + k)
  {
    if k > 0 {
      assert answers(n).Fine?;
      HandedUpTo(lines[1..], k - 1, answers, n + 1);
    }
  }

  lemma {:induction false} HandedAll(lines: seq<seq<byte>>, answers: Answers, n: nat)
    requires AllAccepted(answers, n, |lines|)
    ensures Handed(lines, answers, n) == lines && Answer(lines, answers, n) == Fine
  {
    if lines != [] {
      assert answers(n).Fine?;
      HandedAll(lines[1..], answers, n + 1);
    }
  }

  /** The lines handed over are a beginning of the lines read, and all of them unless one is rejected early. */
  lemma {:induction false} HandedIsPrefix(lines: seq<seq<byte>>, answers: Answers, n: nat)
    ensures Handed(lines, answers, n) <= lines
    ensures Handed(lines, answers, n) == lines <==> !RejectsEarly(answers, n, |lines|)
    ensures RejectsEarly(answers, n, |lines|) ==> exists i :: n <= i && Answer(lines, answers, n) == answers(i)
    ensures RejectsEarly(answers, n, |lines|) ==> !Answer(lines, answers, n).Fine?
  {
    if lines != [] {
      HandedIsPrefix(lines[1..], answers, n + 1);
      hide Handed, Answer;
      OneHanded(lines, answers, n);
    }
  }

  lemma OneHanded(lines: seq<seq<byte>>, answers: Answers, n: nat)
    requires lines != []
    ensures Handed(lines, answers, n) == [lines[0]] + if answers(n).Fine? then Handed(lines[1..], answers, n + 1) else []
    ensures Answer(lines, answers, n) == if answers(n).Fine? then Answer(lines[1..], answers, n + 1) else answers(n)
    ensures RejectsEarly(answers, n, |lines|)
       <==> |lines| > 1 && (!answers(n).Fine? || RejectsEarly(answers, n + 1, |lines| - 1))
  {
  }

  // ---------- a whole connection ----------

  /** What the callback sees over the reads of a connection; a read that timed out is tried again. */
  function Heard(inputs: seq<Read>, answers: Answers, n: nat): seq<seq<byte>> {
    if inputs == [] then []
    else
      var (lines, status) := HeardIn(inputs[0], answers, n);
      lines + if status.Failed? then [] else Heard(inputs[1..], answers, n + |lines|)
  }

  /** The read loop of a connection, up to the end of the given reads. */
  method ListenToClient(inputs: seq<Read>, answers: Answers) returns (delivered: seq<seq<byte>>)
    requires forall i :: 0 <= i < |inputs| && inputs[i].Chunk? ==> |inputs[i].bytes| <= BUFFER_SIZE
    ensures delivered == Heard(inputs, answers, 0)
  {
    hide Heard, HeardIn;
    delivered := [];
    assert inputs[0..] == inputs;
    for i := 0 to |inputs|
      invariant Heard(inputs, answers, 0) == delivered + Heard(inputs[i..], answers, |delivered|)
    {
      var lines, status := ReadFromConnection(true, inputs[i], answers, |delivered|);
      HeardFrom(inputs, i, answers, |delivered|);
      delivered := delivered + lines;
      if status.Failed? {
        return;
      }
    }
    NothingHeard(answers, |delivered|);
    assert inputs[|inputs|..] == [];
  }

  lemma HeardFrom(inputs: seq<Read>, i: nat, answers: Answers, n: nat)
    requires i < |inputs|
    ensures var (lines, status) := HeardIn(inputs[i], answers, n);
            Heard(inputs[i..], answers, n)
            == lines + if status.Failed? then [] else Heard(inputs[i + 1..], answers, n + |lines|)
  {
    hide HeardIn;
    assert inputs[i..][0] == inputs[i] && inputs[i..][1..] == inputs[i + 1..];
  }

  lemma NothingHeard(answers: Answers, n: nat)
    ensures Heard([], answers, n) == []
  {
  }

  /** The data that the reads returned. */
  function Chunks(inputs: seq<Read>): seq<seq<byte>> {
    if inputs == [] then []
    else (if inputs[0].Chunk? then [inputs[0].bytes] else []) + Chunks(inputs[1..])
  }

  /** The lines of all reads one after the other. */
  function Delivered(chunks: seq<seq<byte>>): seq<seq<byte>> {
    if chunks == [] then [] else Delivered(chunks[..|chunks| - 1]) + Lines(RemoveNul(chunks[|chunks| - 1]))
  }

  lemma {:induction false} DeliveredFirst(chunk: seq<byte>, chunks: seq<seq<byte>>)
    ensures Delivered([chunk] + chunks) == Lines(RemoveNul(chunk)) + Delivered(chunks)
  {
    hide Lines, RemoveNul;
    var all := [chunk] + chunks;
    if chunks == [] {
      assert all[..0] == [];
    } else {
      assert all[..|all| - 1] == [chunk] + chunks[..|chunks| - 1];
      DeliveredFirst(chunk, chunks[..|chunks| - 1]);
    }
  }

  /** The lines of the data that one read returned. */
  function LinesIn(read: Read): seq<seq<byte>> {
    if read.Chunk? then Lines(RemoveNul(read.bytes)) else []
  }

  /** The lines of the data that all the reads returned. */
  function LinesRead(inputs: seq<Read>): seq<seq<byte>> {
    Delivered(Chunks(inputs))
  }

  lemma LinesReadStep(inputs: seq<Read>)
    requires inputs != []
    ensures LinesRead(inputs) == LinesIn(inputs[0]) + LinesRead(inputs[1..])
  {
    hide Delivered, Lines, RemoveNul;
    if inputs[0].Chunk? {
      DeliveredFirst(inputs[0].bytes, Chunks(inputs[1..]));
    } else {
      assert Chunks(inputs) == Chunks(inputs[1..]);
    }
  }

  lemma NothingRead()
    ensures LinesRead([]) == []
  {
  }

  /** A single read hands over a beginning of its lines, and all of them unless one is rejected early. */
  lemma HeardInIsPrefix(read: Read, answers: Answers, n: nat)
    ensures HeardIn(read, answers, n).0 <= LinesIn(read)
    ensures HeardIn(read, answers, n).0 == LinesIn(read) <==> !RejectsEarly(answers, n, |LinesIn(read)|)
    ensures RejectsEarly(answers, n, |LinesIn(read)|) ==> exists i :: n <= i && HeardIn(read, answers, n).1 == answers(i)
    ensures RejectsEarly(answers, n, |LinesIn(read)|) ==> !HeardIn(read, answers, n).1.Fine?
  {
    if read.Chunk? {
      HandedIsPrefix(LinesIn(read), answers, n);
    }
  }

  // ---------- which lines the callback sees ----------

  function Range(from: nat, count: nat): (r: seq<nat>)
    ensures |r| == count && forall i :: 0 <= i < count ==> r[i] == from + i
  {
    seq(count, i requires 0 <= i => from + i)
  }

  /** The places, among all lines read, of the lines that the callback sees, when `at` lines came before. */
  function Places(inputs: seq<Read>, answers: Answers, n: nat, at: nat): seq<nat> {
    if inputs == [] then []
    else
      var (lines, status) := HeardIn(inputs[0], answers, n);
      Range(at, |lines|)
      + if status.Failed? then [] else Places(inputs[1..], answers, n + |lines|, at + |LinesIn(inputs[0])|)
  }

  /** The places increase, and name the lines heard among the lines read. */
  ghost predicate InOrder(places: seq<nat>, at: nat, heard: seq<seq<byte>>, lines: seq<seq<byte>>) {
    && |places| == |heard|
    && (forall i, j :: 0 <= i < j < |places| ==> places[i] < places[j])
    && (forall i :: 0 <= i < |places| ==> at <= places[i] < at + |lines| && heard[i] == lines[places[i] - at])
  }

  lemma RangeInOrder(first: seq<seq<byte>>, lines: seq<seq<byte>>, at: nat)
    requires first <= lines
    ensures InOrder(Range(at, |first|), at, first, lines)
  {
  }

  lemma InOrderStep(a: seq<nat>, b: seq<nat>, at: nat, first: seq<seq<byte>>, lines: seq<seq<byte>>,
                    heard: seq<seq<byte>>, rest: seq<seq<byte>>)
    requires InOrder(a, at, first, lines) && InOrder(b, at + |lines|, heard, rest)
    ensures InOrder(a + b, at, first + heard, lines + rest)
  {
  }

  lemma {:induction false} PlacesInOrder(inputs: seq<Read>, answers: Answers, n: nat, at: nat)
    ensures InOrder(Places(inputs, answers, n, at), at, Heard(inputs, answers, n), LinesRead(inputs))
  {
    hide LinesRead, LinesIn, HeardIn, InOrder, Range;
    if inputs == [] {
      NothingInOrder(at);
    } else {
      var read, rest := inputs[0], inputs[1..];
      var (lines, status) := HeardIn(read, answers, n);
      var next := at + |LinesIn(read)|;
      LinesReadStep(inputs);
      HeardInIsPrefix(read, answers, n);
      RangeInOrder(lines, LinesIn(read), at);
      if status.Failed? {
        NoneOf(next, LinesRead(rest));
        InOrderStep(Range(at, |lines|), [], at, lines, LinesIn(read), [], LinesRead(rest));
      } else {
        PlacesInOrder(rest, answers, n + |lines|, next);
        InOrderStep(Range(at, |lines|), Places(rest, answers, n + |lines|, next), at, lines, LinesIn(read),
                    Heard(rest, answers, n + |lines|), LinesRead(rest));
      }
    }
  }

  lemma NothingInOrder(at: nat)
    ensures InOrder([], at, [], LinesRead([]))
  {
  }

  lemma NoneOf(at: nat, lines: seq<seq<byte>>)
    ensures InOrder([], at, [], lines)
  {
  }

  /** Whatever the callback answers, no line is made up, repeated or moved. */
  lemma HeardInOrder(inputs: seq<Read>, answers: Answers)
    ensures InOrder(Places(inputs, answers, 0, 0), 0, Heard(inputs, answers, 0), LinesRead(inputs))
  {
    PlacesInOrder(inputs, answers, 0, 0);
  }

  predicate StillToCome(inputs: seq<Read>) {
    exists i :: 0 <= i < |inputs| && LinesIn(inputs[i]) != []
  }

  lemma {:induction false} StillToComeMeaning(inputs: seq<Read>)
    ensures StillToCome(inputs) <==> LinesRead(inputs) != []
  {
    hide LinesIn, LinesRead;
    if inputs == [] {
      NothingRead();
    } else {
      StillToComeMeaning(inputs[1..]);
      LinesReadStep(inputs);
      assert forall i :: 1 <= i < |inputs| ==> inputs[i] == inputs[1..][i - 1];
    }
  }

  /**
   * Some line that was read is not handed over: a line is rejected before the last of its read,
   * or the loop ends, at an error, with lines still to come.
   */
  predicate Skips(inputs: seq<Read>, answers: Answers, n: nat) {
    inputs != [] &&
    var (lines, status) := HeardIn(inputs[0], answers, n);
    || RejectsEarly(answers, n, |LinesIn(inputs[0])|)
    || if status.Failed? then StillToCome(inputs[1..]) else Skips(inputs[1..], answers, n + |lines|)
  }

  /** The callback sees all lines read if and only if none is skipped. */
  lemma {:induction false} HeardExact(inputs: seq<Read>, answers: Answers, n: nat)
    ensures Heard(inputs, answers, n) == LinesRead(inputs) <==> !Skips(inputs, answers, n)
    ensures |Heard(inputs, answers, n)| <= |LinesRead(inputs)|
    ensures |Heard(inputs, answers, n)| == |LinesRead(inputs)| ==> Heard(inputs, answers, n) == LinesRead(inputs)
  {
    hide LinesRead, LinesIn, HeardIn, StillToCome, RejectsEarly;
    if inputs == [] {
      NothingRead();
    } else {
      var (lines, status) := HeardIn(inputs[0], answers, n);
      HeardExact(inputs[1..], answers, n + |lines|);
      LinesReadStep(inputs);
      HeardInIsPrefix(inputs[0], answers, n);
      StillToComeMeaning(inputs[1..]);
    }
  }

  /** When no read fails and every line is accepted, the callback sees all of them. */
  lemma {:induction false} HeardAll(inputs: seq<Read>, answers: Answers, n: nat)
    requires forall i :: 0 <= i < |inputs| ==> !inputs[i].ReadError?
    requires AllAccepted(answers, n, |LinesRead(inputs)|)
    ensures Heard(inputs, answers, n) == LinesRead(inputs)
  {
    hide LinesRead, LinesIn, HeardIn;
    if inputs == [] {
      NothingRead();
    } else {
      LinesReadStep(inputs);
      HeardInAll(inputs[0], answers, n);
      HeardAll(inputs[1..], answers, n + |LinesIn(inputs[0])|);
    }
  }

  lemma HeardInAll(read: Read, answers: Answers, n: nat)
    requires !read.ReadError? && AllAccepted(answers, n, |LinesIn(read)|)
    ensures HeardIn(read, answers, n).0 == LinesIn(read) && !HeardIn(read, answers, n).1.Failed?
  {
    HandedAll(LinesIn(read), answers, n);
  }

  /** Lines of a read are skipped over, and later ones are heard. */
  predicate PassesOver(inputs: seq<Read>, answers: Answers, n: nat) {
    inputs != [] &&
    var (lines, status) := HeardIn(inputs[0], answers, n);
    && !status.Failed?
    && (|| (RejectsEarly(answers, n, |LinesIn(inputs[0])|) && Heard(inputs[1..], answers, n + |lines|) != [])
        || PassesOver(inputs[1..], answers, n + |lines|))
  }

  predicate Consecutive(places: seq<nat>, at: nat) {
    forall i :: 0 <= i < |places| ==> places[i] == at + i
  }

  lemma ConsecutiveStep(count: nat, b: seq<nat>, at: nat, next: nat)
    requires at + count <= next && forall i :: 0 <= i < |b| ==> next <= b[i]
    ensures Consecutive(Range(at, count) + b, at) <==> b == [] || (at + count == next && Consecutive(b, next))
  {
    var a := Range(at, count) + b;
    if Consecutive(a, at) && b != [] {
      assert a[count] == b[0];
      assert forall i :: 0 <= i < |b| ==> a[count + i] == b[i];
    }
  }

  lemma {:induction false} PassedOverIsHeard(inputs: seq<Read>, answers: Answers, n: nat)
    requires PassesOver(inputs, answers, n)
    ensures Heard(inputs, answers, n) != []
  {
    hide HeardIn, RejectsEarly, LinesIn;
    var (lines, status) := HeardIn(inputs[0], answers, n);
    if PassesOver(inputs[1..], answers, n + |lines|) {
      PassedOverIsHeard(inputs[1..], answers, n + |lines|);
    }
  }

  lemma PlacesAfter(inputs: seq<Read>, answers: Answers, n: nat, at: nat)
    ensures |Places(inputs, answers, n, at)| == |Heard(inputs, answers, n)|
    ensures forall i :: 0 <= i < |Places(inputs, answers, n, at)| ==> at <= Places(inputs, answers, n, at)[i]
  {
    hide Places, Heard, LinesRead;
    PlacesInOrder(inputs, answers, n, at);
  }

  lemma PlacesStep(inputs: seq<Read>, answers: Answers, n: nat, at: nat)
    requires inputs != []
    ensures var (lines, status), next := HeardIn(inputs[0], answers, n), at + |LinesIn(inputs[0])|;
            var rest := if status.Failed? then [] else Places(inputs[1..], answers, n + |lines|, next);
            && Places(inputs, answers, n, at) == Range(at, |lines|) + rest
            && (forall i :: 0 <= i < |rest| ==> next <= rest[i])
            && (!status.Failed? ==> |rest| == |Heard(inputs[1..], answers, n + |lines|)|)
  {
    hide HeardIn, LinesIn, Range, Heard;
    var (lines, status) := HeardIn(inputs[0], answers, n);
    PlacesAfter(inputs[1..], answers, n + |lines|, at + |LinesIn(inputs[0])|);
  }

  lemma {:induction false} PlacesConsecutive(inputs: seq<Read>, answers: Answers, n: nat, at: nat)
    ensures Consecutive(Places(inputs, answers, n, at), at) <==> !PassesOver(inputs, answers, n)
  {
    hide HeardIn, RejectsEarly, LinesIn, LinesRead, Range, Consecutive, InOrder, Heard, Places;
    if inputs == [] {
      NonePlaced(answers, n, at);
    } else {
      var read, rest := inputs[0], inputs[1..];
      var (lines, status) := HeardIn(read, answers, n);
      var next := at + |LinesIn(read)|;
      HeardInIsPrefix(read, answers, n);
      PlacesStep(inputs, answers, n, at);
      if status.Failed? {
        ConsecutiveStep(|lines|, [], at, next);
      } else {
        PlacesConsecutive(rest, answers, n + |lines|, next);
        ConsecutiveStep(|lines|, Places(rest, answers, n + |lines|, next), at, next);
        if PassesOver(rest, answers, n + |lines|) {
          PassedOverIsHeard(rest, answers, n + |lines|);
        }
      }
    }
  }

  lemma NonePlaced(answers: Answers, n: nat, at: nat)
    ensures Consecutive(Places([], answers, n, at), at)
  {
  }

  lemma ConsecutiveIsPrefix(places: seq<nat>, heard: seq<seq<byte>>, lines: seq<seq<byte>>)
    requires InOrder(places, 0, heard, lines) && Consecutive(places, 0)
    ensures heard <= lines
  {
    if heard != [] {
      assert places[|heard| - 1] == |heard| - 1;
    }
  }

  /** A callback that never reports a passed deadline ends the loop with the first line it rejects. */
  lemma {:induction false} NothingPassedOver(inputs: seq<Read>, answers: Answers, n: nat)
    requires forall i :: n <= i ==> !answers(i).TimedOut?
    ensures !PassesOver(inputs, answers, n)
  {
    hide HeardIn, RejectsEarly, LinesIn;
    if inputs != [] {
      var (lines, status) := HeardIn(inputs[0], answers, n);
      HeardInIsPrefix(inputs[0], answers, n);
      NothingPassedOver(inputs[1..], answers, n + |lines|);
    }
  }

  /** The loop ends with the first read that fails: nothing after it is heard. */
  lemma {:induction false} HeardStopsAtError(inputs: seq<Read>, answers: Answers, n: nat, k: nat)
    requires k < |inputs| && inputs[k].ReadError?
    ensures Heard(inputs, answers, n) == Heard(inputs[..k], answers, n)
  {
    hide HeardIn, Heard;
    HeardFirst(inputs, answers, n);
    if k == 0 {
      ErrorHeard(inputs[0], answers, n);
      NothingHeard(answers, n);
      assert inputs[..0] == [];
    } else {
      HeardFirst(inputs[..k], answers, n);
      assert inputs[1..][..k - 1] == inputs[..k][1..];
      HeardStopsAtError(inputs[1..], answers, n + |HeardIn(inputs[0], answers, n).0|, k - 1);
    }
  }

  lemma ErrorHeard(read: Read, answers: Answers, n: nat)
    requires read.ReadError?
    ensures HeardIn(read, answers, n) == ([], Failed)
  {
  }

  lemma HeardFirst(inputs: seq<Read>, answers: Answers, n: nat)
    requires inputs != []
    ensures var (lines, status) := HeardIn(inputs[0], answers, n);
            Heard(inputs, answers, n) == lines + if status.Failed? then [] else Heard(inputs[1..], answers, n + |lines|)
  {
    hide HeardIn;
  }

  lemma {:induction false} FailedAnswerEndsRead(lines: seq<seq<byte>>, answers: Answers, n: nat, k: nat)
    requires n <= k && answers(k).Failed?
    ensures n + |Handed(lines, answers, n)| <= k + 1
    ensures n + |Handed(lines, answers, n)| == k + 1 ==> Answer(lines, answers, n).Failed?
  {
    if lines != [] && k > n {
      FailedAnswerEndsRead(lines[1..], answers, n + 1, k);
    }
  }

  lemma FailedAnswerEndsInput(read: Read, answers: Answers, n: nat, k: nat)
    requires n <= k && answers(k).Failed?
    ensures var (lines, status) := HeardIn(read, answers, n); n + |lines| <= k + 1 && (n + |lines| == k + 1 ==> status.Failed?)
  {
    if read.Chunk? {
      FailedAnswerEndsRead(LinesIn(read), answers, n, k);
    }
  }

  lemma HeardLength(inputs: seq<Read>, answers: Answers, n: nat)
    requires inputs != []
    ensures var (lines, status) := HeardIn(inputs[0], answers, n);
            |Heard(inputs, answers, n)| == |lines| + if status.Failed? then 0 else |Heard(inputs[1..], answers, n + |lines|)|
  {
    hide HeardIn, Heard;
    HeardFirst(inputs, answers, n);
  }

  /** And with the first line whose answer is an error other than a passed deadline. */
  lemma {:induction false} HeardStopsAtFailure(inputs: seq<Read>, answers: Answers, n: nat, k: nat)
    requires n <= k && answers(k).Failed?
    ensures n + |Heard(inputs, answers, n)| <= k + 1
  {
    hide *;
    NothingHeard(answers, n);
    if inputs != [] {
      var heard := HeardIn(inputs[0], answers, n);
      HeardLength(inputs, answers, n);
      FailedAnswerEndsInput(inputs[0], answers, n, k);
      if !heard.1.Failed? {
        assert n + |heard.0| <= k;
        HeardStopsAtFailure(inputs[1..], answers, n + |heard.0|, k);
      }
    }
  }

  /** The lines heard are the first so many lines read if and only if none is passed over, as none is without a timeout. */
  lemma HeardIsPrefix(inputs: seq<Read>, answers: Answers)
    ensures Consecutive(Places(inputs, answers, 0, 0), 0) <==> !PassesOver(inputs, answers, 0)
    ensures !PassesOver(inputs, answers, 0) ==> Heard(inputs, answers, 0) <= LinesRead(inputs)
    ensures (forall i :: 0 <= i ==> !answers(i).TimedOut?) ==> !PassesOver(inputs, answers, 0)
  {
    hide Places, PassesOver, LinesRead, Heard;
    PlacesConsecutive(inputs, answers, 0, 0);
    PlacesInOrder(inputs, answers, 0, 0);
    if !PassesOver(inputs, answers, 0) {
      ConsecutiveIsPrefix(Places(inputs, answers, 0, 0), Heard(inputs, answers, 0), LinesRead(inputs));
    }
    if forall i :: 0 <= i ==> !answers(i).TimedOut? {
      NothingPassedOver(inputs, answers, 0);
    }
  }

  /** A reply that misses its deadline loses the rest of its read: the second of three lines is never handled. */
  lemma TimeoutLosesLine()
    ensures var inputs, answers := [Chunk([65, NEWLINE, 66, NEWLINE]), Chunk([67, NEWLINE])], k => if k == 0 then TimedOut else Fine;
            && Heard(inputs, answers, 0) == [[65], [67]]
            && LinesRead(inputs) == [[65], [66], [67]]
  {
    var answers: Answers := k => if k == 0 then TimedOut else Fine;
    var first, second: Read := Chunk([65, NEWLINE, 66, NEWLINE]), Chunk([67, NEWLINE]);
    LinesOfTwo(65, 66);
    LinesOfOne(67);
    FirstTimesOut(first, [65], [66], answers);
    OnlyLineHeard(second, [67], answers, 1);
    hide LinesIn, HeardIn, LinesRead, Heard;
    TwoReads(first, second, answers, 0);
    assert [[65]] + [[67]] == [[65], [67]];
  }

  lemma LinesOfTwo(x: byte, y: byte)
    requires NUL !in {x, y} && NEWLINE !in {x, y} && RETURN !in {x, y}
    ensures LinesIn(Chunk([x, NEWLINE, y, NEWLINE])) == [[x], [y]]
  {
    hide Lines, RemoveNul;
    TwoLines(x, y);
  }

  lemma LinesOfOne(x: byte)
    requires x != NUL && x != NEWLINE && x != RETURN
    ensures LinesIn(Chunk([x, NEWLINE])) == [[x]]
  {
    hide Lines, RemoveNul;
    OneLine(x);
  }

  lemma FirstTimesOut(read: Read, x: seq<byte>, y: seq<byte>, answers: Answers)
    requires read.Chunk? && LinesIn(read) == [x, y] && answers(0) == TimedOut
    ensures HeardIn(read, answers, 0) == ([x], TimedOut)
  {
    hide Lines, RemoveNul, Handed, Answer;
    OneHanded(LinesIn(read), answers, 0);
    assert Handed(LinesIn(read), answers, 0) == [x];
  }

  lemma OnlyLineHeard(read: Read, x: seq<byte>, answers: Answers, n: nat)
    requires read.Chunk? && LinesIn(read) == [x] && answers(n) == Fine
    ensures HeardIn(read, answers, n) == ([x], Fine)
  {
    OneHanded(LinesIn(read), answers, n);
    NoLines(answers, n + 1);
    hide Lines, RemoveNul, Handed, Answer;
    assert LinesIn(read)[1..] == [];
  }

  /** What is read and heard of two reads when the first does not fail. */
  lemma TwoReads(first: Read, second: Read, answers: Answers, n: nat)
    requires !HeardIn(first, answers, n).1.Failed?
    ensures LinesRead([first, second]) == LinesIn(first) + LinesIn(second)
    ensures var (lines, _) := HeardIn(first, answers, n);
            Heard([first, second], answers, n) == lines + HeardIn(second, answers, n + |lines|).0
  {
    hide LinesIn, HeardIn, LinesRead, Heard;
    var inputs := [first, second];
    assert inputs[1..] == [second] && [second][1..] == [];
    LinesReadStep(inputs);
    LinesReadStep([second]);
    NothingRead();
    var n' := n + |HeardIn(first, answers, n).0|;
    HeardFrom(inputs, 0, answers, n);
    HeardFrom(inputs, 1, answers, n');
    NothingHeard(answers, n' + |HeardIn(second, answers, n').0|);
    assert inputs[0..] == inputs && inputs[2..] == [];
  }

  lemma DeliveredNothing()
    ensures Delivered([]) == []
  {
  }

  lemma OneLine(x: byte)
    requires x != NUL && x != NEWLINE && x != RETURN
    ensures RemoveNul([x, NEWLINE]) == [x, NEWLINE] && Lines([x, NEWLINE]) == [[x]]
  {
    var b := [x, NEWLINE];
    assert b == [x] + [NEWLINE];
    OneFrame([x]);
  }

  lemma TwoLines(x: byte, y: byte)
    requires NUL !in {x, y} && NEWLINE !in {x, y} && RETURN !in {x, y}
    ensures var b := [x, NEWLINE, y, NEWLINE]; RemoveNul(b) == b && Lines(b) == [[x], [y]]
  {
    hide Lines, RemoveNul;
    OneLine(x);
    OneLine(y);
    var first, second := [x, NEWLINE], [y, NEWLINE];
    assert first + second == [x, NEWLINE, y, NEWLINE];
    RemoveNulConcat(first, second);
    LinesConcat(first, second);
    assert [[x]] + [[y]] == [[x], [y]];
  }

  /** The data ends inside a line. */
  predicate EndsInLine(b: seq<byte>) {
    b != [] && b[|b| - 1] != NEWLINE
  }

  /** No read ends inside a line, NULs aside, unless nothing more follows. */
  predicate SplitsAtLines(chunks: seq<seq<byte>>) {
    forall i, j :: 0 <= i < j < |chunks| && EndsInLine(RemoveNul(chunks[i])) ==> RemoveNul(chunks[j]) == []
  }

  lemma {:induction false} RemoveNulConcat(a: seq<byte>, b: seq<byte>)
    ensures RemoveNul(a + b) == RemoveNul(a) + RemoveNul(b)
  {
    if b == [] {
      assert a + b == a;
    } else {
      assert (a + b)[..|a + b| - 1] == a + b[..|b| - 1];
      RemoveNulConcat(a, b[..|b| - 1]);
    }
  }

  predicate InsideLine(b: seq<byte>) {
    forall i :: 0 <= i < |b| ==> b[i] != NEWLINE
  }

  /** One line with its newline, and whatever follows. */
  function LineThen(head: seq<byte>, rest: seq<byte>): seq<byte> {
    head + [NEWLINE] + rest
  }

  /** Data that has a newline is a line and a rest. */
  lemma SplitLine(b: seq<byte>) returns (head: seq<byte>, rest: seq<byte>)
    requires !InsideLine(b)
    ensures b == LineThen(head, rest) && InsideLine(head) && |rest| < |b|
  {
    var i := LineEnd(b);
    head, rest := b[..i], b[i + 1..];
  }

  lemma LineEndOf(head: seq<byte>, rest: seq<byte>)
    requires InsideLine(head)
    ensures LineEnd(LineThen(head, rest)) == |head|
  {
    hide LineEnd;
    var b := LineThen(head, rest);
    assert b[|head|] == NEWLINE && forall j :: 0 <= j < |head| ==> b[j] == head[j];
    var i := LineEnd(b);
  }

  lemma LinesOf(head: seq<byte>, rest: seq<byte>)
    requires InsideLine(head)
    ensures Lines(LineThen(head, rest)) == [DropReturn(head)] + Lines(rest)
  {
    var b := LineThen(head, rest);
    LineEndOf(head, rest);
    assert b[..|head|] == head && b[|head| + 1..] == rest;
  }

  lemma LinesOfUnfinished(b: seq<byte>)
    requires b != [] && InsideLine(b)
    ensures Lines(b) == [DropReturn(b)]
  {
    assert b[..|b|] == b;
  }

  /** One carriage return at the end of a line goes with its newline, or with the end of the data. */
  lemma ReturnDropped(p: seq<byte>)
    requires InsideLine(p)
    ensures Lines(p + [13, 10]) == [p]
    ensures Lines(p + [13]) == [p]
  {
    var line := p + [13];
    assert InsideLine(line) && line[..|line| - 1] == p;
    LinesOfUnfinished(line);
    hide Lines;
    LinesOf(line, []);
    NoLines(_ => Fine, 0);
    assert p + [13, 10] == LineThen(line, []);
  }

  lemma LineThenConcat(head: seq<byte>, rest: seq<byte>, b: seq<byte>)
    ensures LineThen(head, rest) + b == LineThen(head, rest + b)
    ensures EndsInLine(LineThen(head, rest)) <==> EndsInLine(rest)
  {
  }

  /** Lines of two pieces are the lines of the whole when the first does not end inside a line. */
  lemma {:induction false} LinesConcat(a: seq<byte>, b: seq<byte>)
    requires !EndsInLine(a) || b == []
    ensures Lines(a + b) == Lines(a) + Lines(b)
    decreases |a|
  {
    if b == [] {
      assert a + b == a;
    } else if a == [] {
      assert a + b == b;
    } else {
      var head, rest := SplitLine(a);
      hide *;
      LineThenConcat(head, rest, b);
      LinesOf(head, rest);
      LinesOf(head, rest + b);
      LinesConcat(rest, b);
      Prepend(DropReturn(head), Lines(rest), Lines(b));
    }
  }

  lemma Prepend(first: seq<byte>, xs: seq<seq<byte>>, ys: seq<seq<byte>>)
    ensures [first] + (xs + ys) == [first] + xs + ys
  {
  }

  function Newlines(b: seq<byte>): nat {
    if b == [] then 0 else Newlines(b[..|b| - 1]) + if b[|b| - 1] == NEWLINE then 1 else 0
  }

  lemma {:induction false} NewlinesConcat(a: seq<byte>, b: seq<byte>)
    ensures Newlines(a + b) == Newlines(a) + Newlines(b)
  {
    if b == [] {
      assert a + b == a;
    } else {
      assert (a + b)[..|a + b| - 1] == a + b[..|b| - 1];
      NewlinesConcat(a, b[..|b| - 1]);
    }
  }

  lemma {:induction false} NoNewlines(b: seq<byte>)
    requires InsideLine(b)
    ensures Newlines(b) == 0
  {
    if b != [] {
      NoNewlines(b[..|b| - 1]);
    }
  }

  lemma OneNewline()
    ensures Newlines([NEWLINE]) == 1
  {
    assert [NEWLINE][..0] == [];
  }

  lemma NewlinesOf(head: seq<byte>, rest: seq<byte>)
    requires InsideLine(head)
    ensures Newlines(LineThen(head, rest)) == 1 + Newlines(rest)
  {
    hide Newlines, InsideLine;
    NoNewlines(head);
    OneNewline();
    NewlinesConcat(head, [NEWLINE]);
    NewlinesConcat(head + [NEWLINE], rest);
  }

  function Partial(b: seq<byte>): nat {
    if EndsInLine(b) then 1 else 0
  }

  /** There is one line per newline, and one more when the data ends inside a line. */
  lemma {:induction false} LineCount(b: seq<byte>)
    ensures |Lines(b)| == Newlines(b) + Partial(b)
    decreases |b|
  {
    if b != [] {
      if InsideLine(b) {
        NoNewlines(b);
        LinesOfUnfinished(b);
      } else {
        var head, rest := SplitLine(b);
        hide Lines, Newlines, InsideLine, EndsInLine, LineThen;
        LineThenConcat(head, rest, []);
        LinesOf(head, rest);
        NewlinesOf(head, rest);
        LineCount(rest);
      }
    }
  }

  /** Reads that end inside a line. */
  function Partials(chunks: seq<seq<byte>>): nat {
    if chunks == [] then 0 else Partials(chunks[..|chunks| - 1]) + Partial(RemoveNul(chunks[|chunks| - 1]))
  }

  lemma {:induction false} DeliveredCount(chunks: seq<seq<byte>>)
    ensures |Delivered(chunks)| == Newlines(RemoveNul(Flatten(chunks))) + Partials(chunks)
  {
    if chunks != [] {
      var init, last := chunks[..|chunks| - 1], chunks[|chunks| - 1];
      DeliveredCount(init);
      RemoveNulConcat(Flatten(init), last);
      NewlinesConcat(RemoveNul(Flatten(init)), RemoveNul(last));
      LineCount(RemoveNul(last));
    }
  }

  /** A stream that ends inside a line does so because of some read that does, followed by nothing. */
  lemma {:induction false} StreamPartial(chunks: seq<seq<byte>>)
    ensures Partial(RemoveNul(Flatten(chunks))) <= Partials(chunks)
    ensures chunks != [] && RemoveNul(chunks[|chunks| - 1]) != [] ==>
              Partial(RemoveNul(Flatten(chunks))) == Partial(RemoveNul(chunks[|chunks| - 1]))
    ensures chunks != [] && RemoveNul(chunks[|chunks| - 1]) == [] ==>
              RemoveNul(Flatten(chunks)) == RemoveNul(Flatten(chunks[..|chunks| - 1]))
  {
    if chunks != [] {
      var init, last := chunks[..|chunks| - 1], chunks[|chunks| - 1];
      RemoveNulConcat(Flatten(init), last);
      StreamPartial(init);
      if RemoveNul(last) == [] {
        assert RemoveNul(Flatten(chunks)) == RemoveNul(Flatten(init));
      }
    }
  }

  lemma {:induction false} NoPartials(chunks: seq<seq<byte>>)
    ensures Partials(chunks) == 0 <==> forall i :: 0 <= i < |chunks| ==> !EndsInLine(RemoveNul(chunks[i]))
  {
    if chunks != [] {
      var n := |chunks| - 1;
      NoPartials(chunks[..n]);
      assert forall i :: 0 <= i < n ==> chunks[..n][i] == chunks[i];
    }
  }

  lemma {:induction false} CountsForceSplits(chunks: seq<seq<byte>>)
    requires Partials(chunks) == Partial(RemoveNul(Flatten(chunks)))
    ensures SplitsAtLines(chunks)
  {
    if chunks != [] {
      var n := |chunks| - 1;
      var init, last := chunks[..n], RemoveNul(chunks[n]);
      StreamPartial(chunks);
      assert forall i :: 0 <= i < n ==> init[i] == chunks[i];
      if last == [] {
        CountsForceSplits(init);
      } else {
        NoPartials(init);
      }
    }
  }

  lemma {:induction false} SplitsDeliver(chunks: seq<seq<byte>>)
    requires SplitsAtLines(chunks)
    ensures Delivered(chunks) == Lines(RemoveNul(Flatten(chunks)))
  {
    if chunks != [] {
      var n := |chunks| - 1;
      SplitsDeliver(chunks[..n]) by {
        hide RemoveNul, EndsInLine;
        assert forall i :: 0 <= i < n ==> chunks[..n][i] == chunks[i];
      }
      hide Lines, RemoveNul;
      RemoveNulConcat(Flatten(chunks[..n]), chunks[n]);
      EarlierReadsWhole(chunks);
      LinesConcat(RemoveNul(Flatten(chunks[..n])), RemoveNul(chunks[n]));
    }
  }

  /** What came before a read with data does not end inside a line. */
  lemma EarlierReadsWhole(chunks: seq<seq<byte>>)
    requires SplitsAtLines(chunks) && chunks != []
    ensures var n := |chunks| - 1;
            !EndsInLine(RemoveNul(Flatten(chunks[..n]))) || RemoveNul(chunks[n]) == []
  {
    hide RemoveNul, EndsInLine;
    var n := |chunks| - 1;
    if RemoveNul(chunks[n]) != [] {
      assert forall i :: 0 <= i < n ==> chunks[..n][i] == chunks[i];
      NoPartials(chunks[..n]);
      StreamPartial(chunks[..n]);
    }
  }

  /** The lines delivered are those of the whole stream if and only if no read but the last ends inside a line. */
  lemma DeliveryExact(chunks: seq<seq<byte>>)
    ensures Delivered(chunks) == Lines(RemoveNul(Flatten(chunks))) <==> SplitsAtLines(chunks)
  {
    if Delivered(chunks) == Lines(RemoveNul(Flatten(chunks))) {
      DeliveredCount(chunks);
      LineCount(RemoveNul(Flatten(chunks)));
      CountsForceSplits(chunks);
    } else if SplitsAtLines(chunks) {
      SplitsDeliver(chunks);
    }
  }

  lemma UnfinishedLine(x: byte)
    requires x != NUL && x != NEWLINE && x != RETURN
    ensures RemoveNul([x]) == [x] && Lines([x]) == [[x]]
  {
    NothingToRemove([x]);
    LinesOfUnfinished([x]);
  }

  lemma WholeLine(x: byte, y: byte)
    requires NUL !in {x, y} && NEWLINE !in {x, y} && RETURN !in {x, y}
    ensures RemoveNul([x, y, NEWLINE]) == [x, y, NEWLINE] && Lines([x, y, NEWLINE]) == [[x, y]]
  {
    hide RemoveNul, Lines;
    OneFrame([x, y]);
    assert [x, y] + [NEWLINE] == [x, y, NEWLINE];
  }

  lemma TwoChunks(a: seq<byte>, b: seq<byte>)
    ensures Flatten([a, b]) == a + b
    ensures Delivered([a, b]) == Lines(RemoveNul(a)) + Lines(RemoveNul(b))
  {
    hide RemoveNul, Lines;
    assert [a, b][..1] == [a];
    OneChunk(a);
  }

  lemma OneChunk(a: seq<byte>)
    ensures Flatten([a]) == a && Delivered([a]) == Lines(RemoveNul(a))
  {
    hide RemoveNul, Lines;
    DeliveredNothing();
    var none: seq<seq<byte>> := [a][..0];
    assert none == [];
  }

  /** A line cut by a read arrives as two. */
  lemma SplitReadBreaksLine()
    ensures var chunks: seq<seq<byte>> := [[65], [66, NEWLINE]];
            Delivered(chunks) == [[65], [66]] && Lines(RemoveNul(Flatten(chunks))) == [[65, 66]]
  {
    hide RemoveNul, Lines, Flatten, Delivered;
    UnfinishedLine(65);
    OneLine(66);
    WholeLine(65, 66);
    TwoChunks([65], [66, NEWLINE]);
    assert [65] + [66, NEWLINE] == [65, 66, NEWLINE];
  }

  // ---------- frames ----------

  /** A payload that survives framing: no newline or NUL inside, no carriage return at the end. */
  predicate Framable(p: seq<byte>) {
    && (forall i :: 0 <= i < |p| ==> p[i] != NEWLINE && p[i] != NUL)
    && (p != [] ==> p[|p| - 1] != RETURN)
  }

  function Framed(payloads: seq<seq<byte>>): seq<seq<byte>> {
    seq(|payloads|, i requires 0 <= i < |payloads| => payloads[i] + [NEWLINE])
  }

  lemma {:induction false} NothingToRemove(b: seq<byte>)
    requires forall i :: 0 <= i < |b| ==> b[i] != NUL
    ensures RemoveNul(b) == b
  {
    if b != [] {
      NothingToRemove(b[..|b| - 1]);
    }
  }

  lemma OneFrame(p: seq<byte>)
    requires Framable(p)
    ensures RemoveNul(p + [NEWLINE]) == p + [NEWLINE]
    ensures Lines(p + [NEWLINE]) == [p]
    ensures !EndsInLine(p + [NEWLINE])
  {
    hide RemoveNul, Lines;
    NothingToRemove(p + [NEWLINE]);
    NoLines(_ => Fine, 0);
    LinesOf(p, []);
    assert LineThen(p, []) == p + [NEWLINE];
  }

  lemma FramedStep(payloads: seq<seq<byte>>)
    requires payloads != []
    ensures var n := |payloads| - 1;
            Flatten(Framed(payloads)) == Flatten(Framed(payloads[..n])) + (payloads[n] + [NEWLINE])
  {
    assert Framed(payloads)[..|payloads| - 1] == Framed(payloads[..|payloads| - 1]);
  }

  lemma EndsLater(a: seq<byte>, b: seq<byte>)
    requires b != []
    ensures EndsInLine(a + b) <==> EndsInLine(b)
  {
  }

  lemma NothingFramed()
    ensures Flatten(Framed([])) == [] && RemoveNul([]) == [] && Lines([]) == [] && !EndsInLine([])
  {
  }

  lemma OneMoreFrame(before: seq<byte>, init: seq<seq<byte>>, last: seq<byte>)
    requires Lines(RemoveNul(before)) == init && !EndsInLine(RemoveNul(before)) && Framable(last)
    ensures var whole := RemoveNul(before + (last + [NEWLINE]));
            Lines(whole) == init + [last] && !EndsInLine(whole)
  {
    hide *;
    RemoveNulConcat(before, last + [NEWLINE]);
    OneFrame(last);
    LinesConcat(RemoveNul(before), last + [NEWLINE]);
    EndsLater(RemoveNul(before), last + [NEWLINE]);
  }

  lemma {:induction false} FramesArrive(payloads: seq<seq<byte>>)
    requires forall i :: 0 <= i < |payloads| ==> Framable(payloads[i])
    ensures Lines(RemoveNul(Flatten(Framed(payloads)))) == payloads
    ensures !EndsInLine(RemoveNul(Flatten(Framed(payloads))))
  {
    hide *;
    if payloads == [] {
      NothingFramed();
    } else {
      var n := |payloads| - 1;
      FramesArrive(payloads[..n]);
      FramedStep(payloads);
      OneMoreFrame(Flatten(Framed(payloads[..n])), payloads[..n], payloads[n]);
      assert payloads == payloads[..n] + [payloads[n]];
    }
  }

  /** Frames arrive one for one, in order, if and only if no read but the last ends inside one. */
  lemma FramesReadBack(payloads: seq<seq<byte>>, chunks: seq<seq<byte>>)
    requires forall i :: 0 <= i < |payloads| ==> Framable(payloads[i])
    requires Flatten(chunks) == Flatten(Framed(payloads))
    ensures Delivered(chunks) == payloads <==> SplitsAtLines(chunks)
  {
    DeliveryExact(chunks);
    FramesArrive(payloads);
  }

  /** What a caller asked to send, without the newline. */
  function Payload(frame: seq<byte>): seq<byte> {
    if frame == [] then [] else frame[..|frame| - 1]
  }

  function SentPayloads(s: State): seq<seq<byte>>
    requires forall j :: 0 <= j < |s.segments| ==> s.segments[j].owner < |s.callers|
  {
    seq(|s.segments|, j requires 0 <= j < |s.segments| => Payload(s.callers[s.segments[j].owner].frame))
  }

  lemma {:induction false} FramesEndInNewline(actions: seq<Action>, c: nat)
    requires c < |Run(actions).callers|
    ensures var f := Run(actions).callers[c].frame; f != [] && f[|f| - 1] == NEWLINE
  {
    if actions != [] {
      var before, a := actions[..|actions| - 1], actions[|actions| - 1];
      StepKeepsFrame(Run(before), a, c);
      hide Step;
      if c < |Run(before).callers| {
        FramesEndInNewline(before, c);
      }
    }
  }

  lemma StepKeepsFrame(s: State, a: Action, c: nat)
    requires c < |Step(s, a).callers|
    ensures c < |s.callers| ==> Step(s, a).callers[c].frame == s.callers[c].frame
    ensures c >= |s.callers| ==> a.Call? && Step(s, a).callers[c].frame == a.payload + [NEWLINE]
  {
  }

  lemma FramesAreFramed(actions: seq<Action>)
    requires forall j :: 0 <= j < |Run(actions).segments| ==> Run(actions).segments[j].owner < |Run(actions).callers|
    ensures var s := Run(actions); FramesOf(s, s.segments) == Framed(SentPayloads(s))
  {
    hide Run;
    var s := Run(actions);
    forall j | 0 <= j < |s.segments|
      ensures FramesOf(s, s.segments)[j] == SentPayloads(s)[j] + [NEWLINE]
    {
      FramesEndInNewline(actions, s.segments[j].owner);
    }
  }

  /**
   * Writers and reader together: in every run without a failed or unfinished write, the payloads on the wire are those
   * of exactly the callers that were told "sent", each once, and a peer sees exactly these, in wire order, if and only
   * if no read of it but the last ends inside a line.
   */
  lemma WireReadBack(actions: seq<Action>, chunks: seq<seq<byte>>)
    requires CleanWire(Run(actions)) && Flatten(chunks) == Run(actions).wire
    requires var s := Run(actions);
             forall j :: 0 <= j < |s.segments| && s.segments[j].owner < |s.callers| ==>
               Framable(Payload(s.callers[s.segments[j].owner].frame))
    ensures var s := Run(actions);
            && (forall j :: 0 <= j < |s.segments| ==> s.segments[j].owner < |s.callers|)
            && (forall i, j :: 0 <= i < j < |s.segments| ==> s.segments[i].owner != s.segments[j].owner)
            && (forall c :: 0 <= c < |s.callers| ==> (Owns(s, c) <==> ResultIs(s.callers[c].pc, Sent)))
            && (Delivered(chunks) == SentPayloads(s) <==> SplitsAtLines(chunks))
  {
    CleanWireIsWholeFrames(actions);
    CleanWireOwners(actions);
    FramesAreFramed(actions);
    hide *;
    FramesReadBack(SentPayloads(Run(actions)), chunks);
  }
}
