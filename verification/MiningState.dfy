/** The per-connection mining state. */
module MiningStates {
  import opened GoInts
  import opened JobRing
  import opened HeaderStream
  import opened Difficulty

  /** What a mining state amounts to: the jobs ever added and the one-time settings. */
  datatype Mining = Mining(
    log: seq<Header>,
    bigDiff: nat,
    initialized: bool,
    useBigJob: bool,
    stratumDiff: Option<KaspaDiff>)

  const FRESH: Mining := Mining([], 0, false, false, None)

  class MiningState {
    var jobs: map<int, Header>
    var jobCounter: int
    var bigDiff: nat
    var initialized: bool
    var useBigJob: bool
    var stratumDiff: Option<KaspaDiff>
    ghost var log: seq<Header>

    ghost predicate Valid()
      reads this
    {
      jobCounter == IdOf(|log|) && jobs == Table(log)
    }

    ghost function View(): Mining
      reads this
    {
      Mining(log, bigDiff, initialized, useBigJob, stratumDiff)
    }

    constructor ()
      ensures Valid() && View() == FRESH
    {
      jobs, jobCounter, log := map[], 0, [];
      bigDiff, initialized, useBigJob, stratumDiff := 0, false, false, None;
    }

    method AddJob(job: Header) returns (idx: int)
      requires Valid()
      modifies this
      ensures Valid() && View() == old(View()).(log := old(log) + [job])
      ensures idx == IdOf(|log|)
    {
      jobCounter := WrapInt64(jobCounter + 1);
      idx := jobCounter;
      jobs := jobs[GoRem(idx, MAX_JOBS) := job];
      log := log + [job];
      assert log[..|log| - 1] == old(log);
      IdStep(|old(log)|);
    }

    method GetJob(id: int) returns (job: Option<Header>)
      requires Valid()
      ensures job == Lookup(log, id)
    {
      TableIsLookup(log, id);
      var slot := GoRem(id, MAX_JOBS);
      job := if slot in jobs then Some(jobs[slot]) else None;
    }
  }
}
