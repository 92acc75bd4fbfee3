/** The 32-slot job table of a connection, as a window on the log of all jobs ever added to it. */
module JobRing {
  import opened GoInts
  import opened Digits

  const MAX_JOBS: int := 32

  datatype Option<+T> = None | Some(value: T)

  /** The id that AddJob returned for the i-th job; the Go counter wraps after 2^63 - 1. */
  function IdOf(i: nat): int {
    WrapInt64(i)
  }

  /** The slot an id names: Go's remainder, so negative ids name slots of their own, or slot 0. */
  function Slot(id: int): int {
    GoRem(id, MAX_JOBS)
  }

  /** The newest of the first n jobs (counted from 1) whose id names the given slot; 0 if there is none. */
  function Newest(n: nat, slot: int): (i: nat)
    ensures i <= n
    ensures i > 0 ==> Slot(IdOf(i)) == slot
    ensures forall j :: i < j <= n ==> Slot(IdOf(j)) != slot
  {
    if n == 0 then 0 else if Slot(IdOf(n)) == slot then n else Newest(n - 1, slot)
  }

  /** What looking up an id in the unbounded log gives. */
  function Lookup<T>(log: seq<T>, id: int): Option<T> {
    var i := Newest(|log|, Slot(id));
    if i == 0 then None else Some(log[i - 1])
  }

  /** The table after the jobs of the log were added one by one. */
  function Table<T>(log: seq<T>): map<int, T> {
    if log == [] then map[]
    else Table(log[..|log| - 1])[Slot(IdOf(|log|)) := log[|log| - 1]]
  }

  lemma IdStep(n: nat)
    ensures WrapInt64(IdOf(n) + 1) == IdOf(n + 1)
  {
    var x := n + TWO_63;
    assert IdOf(n) + TWO_63 == x % TWO_64;
    assert (x % TWO_64 + 1) % TWO_64 == (x + 1) % TWO_64;
  }

  /** The table answers every id exactly as the unbounded log does. */
  lemma {:induction false} TableIsLookup<T>(log: seq<T>, id: int)
    ensures Lookup(log, id) == if Slot(id) in Table(log) then Some(Table(log)[Slot(id)]) else None
  {
    if log != [] {
      TableIsLookup(log[..|log| - 1], id);
    }
  }

  lemma SmallId(i: nat)
    requires i < TWO_63
    ensures IdOf(i) == i && Slot(IdOf(i)) == i % 32
  {
  }

  /** The newest number up to n that is s modulo 32, or 0. */
  function NewestCongruent(n: nat, s: int): int {
    if s < 0 || n < s then 0 else n - (n - s) % 32
  }

  lemma CongruentStep(n: nat, s: int)
    requires n > 0 && s < 32
    ensures NewestCongruent(n, s) == if n % 32 == s then n else NewestCongruent(n - 1, s)
  {
  }

  /** The newest congruent number is congruent, positive unless out of reach, and less than 32 back. */
  lemma CongruentFacts(n: nat, s: int)
    requires s < 32
    ensures var i := NewestCongruent(n, s);
            && (s < 0 || n < s || i == 0 || (n - 32 < i <= n && i > 0 && i % 32 == s))
            && (i == 0 <==> s < 0 || n < s || (s == 0 && n < 32))
  {
  }

  lemma CongruentUnique(n: nat, i: int)
    requires 0 < i <= n
    ensures NewestCongruent(n, i % 32) == i <==> n - 32 < i
  {
    CongruentFacts(n, i % 32);
  }

  /** While the counter has not wrapped, Newest is a closed formula. */
  lemma {:induction false} NewestFormula(n: nat, slot: int)
    requires n < TWO_63 && -MAX_JOBS < slot < MAX_JOBS
    ensures Newest(n, slot) == NewestCongruent(n, slot)
  {
    hide IdOf, Slot, NewestCongruent;
    if n > 0 {
      SmallId(n);
      CongruentStep(n, slot);
      NewestFormula(n - 1, slot);
    } else {
      NoneYet(slot);
    }
  }

  lemma NoneYet(s: int)
    ensures NewestCongruent(0, s) == 0
  {
  }

  /** What GetJob finds for any int whatever, in terms of the number of jobs added. */
  lemma LookupFormula<T>(log: seq<T>, id: int)
    requires |log| < TWO_63
    ensures var i := NewestCongruent(|log|, Slot(id));
            0 <= i <= |log| && Lookup(log, id) == if i == 0 then None else Some(log[i - 1])
  {
    hide NewestCongruent, IdOf;
    NewestFormula(|log|, Slot(id));
  }

  /** An issued id finds its own job exactly while it is among the last 32 issued. */
  lemma WindowExact<T>(log: seq<T>, id: int)
    requires 0 < id <= |log| < TWO_63
    ensures Newest(|log|, Slot(id)) == id <==> |log| - 32 < id
    ensures |log| - 32 < id ==> Lookup(log, id) == Some(log[id - 1])
  {
    hide NewestCongruent, IdOf, Newest;
    NewestFormula(|log|, Slot(id));
    CongruentUnique(|log|, id);
  }

  /** Whatever id is asked for, the job found is one of the last 32 added. */
  lemma FoundIsRecent<T>(log: seq<T>, id: int)
    requires |log| < TWO_63 && Lookup(log, id).Some?
    ensures var i := Newest(|log|, Slot(id));
            |log| - 32 < i <= |log| && Lookup(log, id) == Some(log[i - 1])
  {
    hide NewestCongruent, IdOf, Newest;
    NewestFormula(|log|, Slot(id));
    CongruentFacts(|log|, Slot(id));
  }

  /** Ids that were never issued alias: 32 below the first id is the newest multiple of 32. */
  lemma NeverIssuedIdsAlias<T>(log: seq<T>)
    requires 32 <= |log| < TWO_63
    ensures Lookup(log, -32) == Lookup(log, 0) == Some(log[|log| - |log| % 32 - 1])
    ensures Lookup(log, |log| + 32) == Some(log[|log| - 1])
    ensures Lookup(log, -1) == None
  {
    hide IdOf, Newest;
    LookupFormula(log, 0);
    LookupFormula(log, -32);
    LookupFormula(log, -1);
    LookupFormula(log, |log| + 32);
  }

  /** The occupied slots: none negative, and each one that some added job has named. */
  lemma TableKeys<T>(log: seq<T>, s: int)
    requires |log| < TWO_63
    ensures s in Table(log) <==> 0 <= s < 32 && 0 < NewestCongruent(|log|, s)
  {
    hide NewestCongruent, IdOf, Newest;
    if -32 < s < 32 {
      assert Slot(s) == s;
      NewestFormula(|log|, s);
      CongruentFacts(|log|, s);
      TableIsLookup(log, s);
    } else if s in Table(log) {
      TableSlots(log, s);
    }
  }

  lemma {:induction false} TableSlots<T>(log: seq<T>, s: int)
    requires s in Table(log)
    ensures -32 < s < 32
  {
    if log != [] && s != Slot(IdOf(|log|)) {
      TableSlots(log[..|log| - 1], s);
    }
  }

  function FirstInts(n: nat): (s: set<int>)
    ensures forall i :: i in s <==> 0 <= i < n
    ensures |s| == n
  {
    if n == 0 then {} else FirstInts(n - 1) + {n - 1}
  }

  lemma OccupiedSlots(n: nat, s: int)
    ensures 0 <= s < 32 && 0 < NewestCongruent(n, s) <==> if n < 32 then 1 <= s <= n else 0 <= s < 32
  {
    if 0 <= s < 32 {
      CongruentFacts(n, s);
    }
  }

  lemma SetSize(keys: set<int>, n: nat)
    requires n <= 32
    requires forall s :: s in keys <==> if n < 32 then 1 <= s <= n else 0 <= s < 32
    ensures |keys| == n
  {
    hide FirstInts;
    if n < 32 {
      assert keys == FirstInts(n + 1) - {0};
    } else {
      assert keys == FirstInts(n);
    }
  }

  /** The table holds as many jobs as were added, and never more than 32. */
  lemma TableSize<T>(log: seq<T>)
    requires |log| < TWO_63
    ensures |Table(log)| == if |log| < 32 then |log| else 32
  {
    hide Table, NewestCongruent, FirstInts;
    var n := |log|;
    forall s
      ensures s in Table(log).Keys <==> if n < 32 then 1 <= s <= n else 0 <= s < 32
    {
      TableKeys(log, s);
      OccupiedSlots(n, s);
    }
    SetSize(Table(log).Keys, if n < 32 then n else 32);
    assert |Table(log)| == |Table(log).Keys|;
  }

  /** A miner that sends back a job id as it was printed gets the job printed under that id. */
  lemma EchoedIdFindsJob<T>(log: seq<T>, id: int)
    requires 0 < id <= |log| < TWO_63 && |log| - 32 < id
    ensures ParseInt(PrintInt(IdOf(id))) == Num(id)
    ensures Lookup(log, id) == Some(log[id - 1])
  {
    SmallId(id);
    ParsePrintedInt(id);
    WindowExact(log, id);
  }
}
