/** Share accounting row by row: which row every count goes to. */
module StatsRows {
  import opened StatsTables
  import opened StatsRuns

  // ---------- one handler alone ----------

  /** The counters of row r, which are zero before the row exists. */
  function CountsOf(t: Table, r: nat): Counters {
    if r < |t.rows| then t.rows[r].counters else Zero()
  }

  lemma LookUpKeepsCounts(t: Table, w: Worker, q: nat)
    requires ValidTable(t)
    ensures CountsOf(LookUp(t, w).0, q) == CountsOf(t, q)
  {
    hide GetCreate, ValidTable;
    GetCreateFiles(t, w.device, w.addr, w.app);
    if q < |t.rows| {
      assert SameCounters(t, LookUp(t, w).0, q);
    }
  }

  lemma BumpCounts(t: Table, r: nat, delta: Counters, q: nat)
    requires r < |t.rows|
    ensures CountsOf(Bump(t, r, delta), q) == if q == r then Plus(CountsOf(t, q), delta) else CountsOf(t, q)
  {
  }

  /**
   * A submit of a named worker that no other handler interrupts counts its verdict and its share in one row, the one it
   * looked up, which ends up under the worker's name when there is a verdict; every other row keeps its counts.
   */
  lemma SubmitCountsInOwnRow(t: Table, overall: Counters, w: Worker, v: Verdict)
    requires ValidTable(t) && w.device != ""
    ensures var (t', overall') := Alone(t, overall, w, v);
            var r := LookUp(t, w).1;
            && CountsOf(t', r) == Plus(Plus(CountsOf(t, r), VerdictCount(v)), OneShare())
            && overall' == Plus(Plus(overall, VerdictCount(v)), OneShare())
            && (forall q: nat :: q != r ==> CountsOf(t', q) == CountsOf(t, q))
            && (w.device in t.filed ==> r == t.filed[w.device] && t'.filed == t.filed)
            && (!v.NoBlock? ==> w.device in t'.filed && t'.filed[w.device] == r)
  {
    hide GetCreate, ValidTable, Bump, Plus;
    var (t1, r) := LookUp(t, w);
    GetCreateFiles(t, w.device, w.addr, w.app);
    PlusLaws(CountsOf(t, r), Zero(), Zero());
    PlusLaws(overall, Zero(), Zero());
    if v.NoBlock? {
      OneBump(t, w, OneShare());
    } else {
      var (t2, second) := LookUp(t1, w);
      NamedWorkerIsFiled(t, w.device, w.addr, w.app);
      GetCreateFiles(t1, w.device, w.addr, w.app);
      var t3 := Bump(t2, r, VerdictCount(v));
      TwoBumps(t, w, v);
      BumpFiles(t2, r, VerdictCount(v));
      BumpFiles(t3, r, OneShare());
    }
  }

  lemma BumpFiles(t: Table, r: nat, delta: Counters)
    requires r < |t.rows|
    ensures Bump(t, r, delta).filed == t.filed && |Bump(t, r, delta).rows| == |t.rows|
  {
  }

  lemma OneBump(t: Table, w: Worker, delta: Counters)
    requires ValidTable(t)
    ensures var (t1, r) := LookUp(t, w);
            && Bump(t1, r, delta).filed == t1.filed
            && forall q: nat :: CountsOf(Bump(t1, r, delta), q) == if q == r then Plus(CountsOf(t, q), delta) else CountsOf(t, q)
  {
    hide GetCreate, ValidTable, Bump, Plus, LookUp;
    var (t1, r) := LookUp(t, w);
    BumpFiles(t1, r, delta);
    forall q: nat
      ensures CountsOf(Bump(t1, r, delta), q) == if q == r then Plus(CountsOf(t, q), delta) else CountsOf(t, q)
    {
      LookUpKeepsCounts(t, w, q);
      BumpCounts(t1, r, delta, q);
    }
  }

  lemma TwoBumps(t: Table, w: Worker, v: Verdict)
    requires ValidTable(t) && w.device != ""
    ensures var (t1, r) := LookUp(t, w);
            var (t2, second) := LookUp(t1, w);
            && second == r
            && forall q: nat :: CountsOf(Bump(Bump(t2, r, VerdictCount(v)), r, OneShare()), q)
                             == if q == r then Plus(Plus(CountsOf(t, q), VerdictCount(v)), OneShare()) else CountsOf(t, q)
  {
    hide GetCreate, ValidTable, Bump, Plus, LookUp;
    var (t1, r) := LookUp(t, w);
    var (t2, second) := LookUp(t1, w);
    SameRowAgain(t, w);
    var t3 := Bump(t2, r, VerdictCount(v));
    BumpFiles(t2, r, VerdictCount(v));
    forall q: nat
      ensures CountsOf(Bump(t3, r, OneShare()), q)
           == if q == r then Plus(Plus(CountsOf(t, q), VerdictCount(v)), OneShare()) else CountsOf(t, q)
    {
      LookUpKeepsCounts(t, w, q);
      LookUpKeepsCounts(t1, w, q);
      BumpCounts(t2, r, VerdictCount(v), q);
      BumpCounts(t3, r, OneShare(), q);
    }
  }

  lemma SameRowAgain(t: Table, w: Worker)
    requires ValidTable(t) && w.device != ""
    ensures LookUp(LookUp(t, w).0, w).1 == LookUp(t, w).1
  {
    hide GetCreate, ValidTable;
    NamedWorkerIsFiled(t, w.device, w.addr, w.app);
  }

  // ---------- every interleaving ----------

  /** The verdict that handler h has counted in row r. */
  function VerdictIn(h: Handler, r: nat): Counters {
    if h.second == r && (h.stage.VerdictInRow? || h.stage.Sharing? || h.stage.ShareInRow? || h.stage.Done?)
    then VerdictCount(h.verdict) else Zero()
  }

  /** The share that handler h has counted in row r. */
  function ShareIn(h: Handler, r: nat): Counters {
    if h.row == r && (h.stage.ShareInRow? || h.stage.Done?) then OneShare() else Zero()
  }

  function CountedIn(h: Handler, r: nat): Counters {
    Plus(VerdictIn(h, r), ShareIn(h, r))
  }

  /** What all handlers together have counted in row r. */
  function AllCountedIn(hs: seq<Handler>, r: nat): Counters {
    if hs == [] then Zero() else Plus(AllCountedIn(hs[..|hs| - 1], r), CountedIn(hs[|hs| - 1], r))
  }

  ghost predicate RowsExact(s: State) {
    forall r: nat :: CountsOf(s.table, r) == AllCountedIn(s.handlers, r)
  }

  lemma {:induction false} CountedUpdate(hs: seq<Handler>, i: nat, h: Handler, r: nat)
    requires i < |hs|
    ensures Plus(AllCountedIn(hs[i := h], r), CountedIn(hs[i], r)) == Plus(AllCountedIn(hs, r), CountedIn(h, r))
  {
    hide CountedIn;
    var n := |hs| - 1;
    if i == n {
      assert hs[i := h][..n] == hs[..n];
    } else {
      assert hs[i := h][..n] == hs[..n][i := h];
      CountedUpdate(hs[..n], i, h, r);
    }
  }

  /** A handler moves on and a row gains what the handler has newly counted there. */
  lemma MoveKeepsRow(s: State, h: nat, me: Handler, t: Table, r: nat, delta: Counters)
    requires h < |s.handlers| && CountsOf(s.table, r) == AllCountedIn(s.handlers, r)
    requires CountsOf(t, r) == Plus(CountsOf(s.table, r), delta)
    requires CountedIn(me, r) == Plus(CountedIn(s.handlers[h], r), delta)
    ensures CountsOf(t, r) == AllCountedIn(s.handlers[h := me], r)
  {
    hide CountedIn, AllCountedIn, CountsOf, Plus;
    CountedUpdate(s.handlers, h, me, r);
    Cancel(AllCountedIn(s.handlers[h := me], r), CountedIn(s.handlers[h], r), AllCountedIn(s.handlers, r), delta);
  }

  lemma Cancel(sum': Counters, was: Counters, sum: Counters, delta: Counters)
    requires Plus(sum', was) == Plus(sum, Plus(was, delta))
    ensures sum' == Plus(sum, delta)
  {
  }

  /** What a count adds to row r on behalf of the handler. */
  function Gain(me: Handler, r: nat): Counters {
    if me.stage.Located? && me.second == r then VerdictCount(me.verdict)
    else if me.stage.Sharing? && me.row == r then OneShare()
    else Zero()
  }

  lemma IncrementKeepsRow(s: State, h: nat, r: nat)
    requires Valid(s) && h < |s.handlers| && CountsOf(s.table, r) == AllCountedIn(s.handlers, r)
    ensures CountsOf(Increment(s, h).table, r) == AllCountedIn(Increment(s, h).handlers, r)
  {
    hide AllCountedIn, ValidTable, CountsOf, CountedIn, Gain, Plus, Bump, VerdictCount, OneShare;
    var me, s' := s.handlers[h], Increment(s, h);
    if me.stage.Located? || me.stage.VerdictInRow? || me.stage.Sharing? || me.stage.ShareInRow? {
      GainInTable(s, h, r);
      GainOfHandler(s, h, r);
      assert s'.handlers == s.handlers[h := s'.handlers[h]];
      MoveKeepsRow(s, h, s'.handlers[h], s'.table, r, Gain(me, r));
    }
  }

  lemma GainInTable(s: State, h: nat, r: nat)
    requires Valid(s) && h < |s.handlers|
    ensures CountsOf(Increment(s, h).table, r) == Plus(CountsOf(s.table, r), Gain(s.handlers[h], r))
  {
    hide ValidTable, Bump, CountsOf, Plus, Zero;
    var me := s.handlers[h];
    PlusLaws(CountsOf(s.table, r), Zero(), Zero());
    if me.stage.Located? {
      BumpCounts(s.table, me.second, VerdictCount(me.verdict), r);
    } else if me.stage.Sharing? {
      BumpCounts(s.table, me.row, OneShare(), r);
    }
  }

  lemma Regrouped(v: Counters, c: Counters)
    ensures Plus(v, c) == Plus(Plus(v, Zero()), c) && Plus(v, Zero()) == v
    ensures Plus(c, Zero()) == Plus(Plus(Zero(), Zero()), c)
  {
    hide Plus, Zero;
    PlusLaws(v, c, c);
    PlusLaws(c, Zero(), Zero());
    PlusLaws(Zero(), c, c);
    PlusLaws(Zero(), Zero(), Zero());
  }

  lemma GainOfHandler(s: State, h: nat, r: nat)
    requires Valid(s) && h < |s.handlers|
    ensures CountedIn(Increment(s, h).handlers[h], r) == Plus(CountedIn(s.handlers[h], r), Gain(s.handlers[h], r))
  {
    hide ValidTable, Bump, Plus, Zero, VerdictCount, OneShare;
    var me := s.handlers[h];
    Regrouped(VerdictIn(me, r), Gain(me, r));
    Regrouped(CountedIn(me, r), Zero());
  }

  /** Handlers that have not counted anything yet count nothing anywhere, whatever rows they have in hand. */
  lemma NothingCounted(h: Handler, r: nat)
    requires h.stage.Judging? || h.stage.Answered? || h.stage.Located? || h.stage.Abandoned? || (h.stage.Sharing? && h.verdict.NoBlock?)
    ensures CountedIn(h, r) == Zero()
  {
    hide Plus, Zero;
    Regrouped(Zero(), Zero());
  }

  lemma CountedAppend(hs: seq<Handler>, h: Handler, r: nat)
    requires CountedIn(h, r) == Zero()
    ensures AllCountedIn(hs + [h], r) == AllCountedIn(hs, r)
  {
    hide Plus, Zero, CountedIn;
    assert (hs + [h])[..|hs|] == hs;
    Regrouped(AllCountedIn(hs, r), Zero());
  }

  lemma IdleMove(s: State, h: nat, me: Handler, t: Table, r: nat)
    requires h < |s.handlers| && CountsOf(s.table, r) == AllCountedIn(s.handlers, r)
    requires CountsOf(t, r) == CountsOf(s.table, r) && CountedIn(me, r) == CountedIn(s.handlers[h], r) == Zero()
    ensures CountsOf(t, r) == AllCountedIn(s.handlers[h := me], r)
  {
    hide CountsOf, AllCountedIn, CountedIn, Plus, Zero;
    Regrouped(CountsOf(t, r), Zero());
    Regrouped(Zero(), Zero());
    MoveKeepsRow(s, h, me, t, r, Zero());
  }

  lemma StepKeepsRow(s: State, a: Action, r: nat)
    requires Valid(s) && CountsOf(s.table, r) == AllCountedIn(s.handlers, r)
    ensures CountsOf(Step(s, a).table, r) == AllCountedIn(Step(s, a).handlers, r)
  {
    hide ValidTable, CountsOf, AllCountedIn, CountedIn, LookUp, Increment;
    match a
    case Enter(w) =>
      LookUpKeepsCounts(s.table, w, r);
      var row := LookUp(s.table, w).1;
      NothingCounted(Handler(row, row, NoBlock, Judging), r);
      CountedAppend(s.handlers, Handler(row, row, NoBlock, Judging), r);
    case Touch(w) => LookUpKeepsCounts(s.table, w, r);
    case Abandon(h) =>
      if h < |s.handlers| && s.handlers[h].stage.Judging? {
        var me := s.handlers[h];
        NothingCounted(me, r);
        NothingCounted(me.(stage := Abandoned), r);
        IdleMove(s, h, me.(stage := Abandoned), s.table, r);
      }
    case Judge(h, answer) =>
      if h < |s.handlers| && s.handlers[h].stage.Judging? {
        NothingCounted(s.handlers[h], r);
        NothingCounted(Judged(s.handlers[h], answer), r);
        IdleMove(s, h, Judged(s.handlers[h], answer), s.table, r);
      }
    case Locate(h, w) =>
      if h < |s.handlers| && s.handlers[h].stage.Answered? {
        var me := s.handlers[h].(second := LookUp(s.table, w).1, stage := Located);
        LookUpKeepsCounts(s.table, w, r);
        NothingCounted(s.handlers[h], r);
        NothingCounted(me, r);
        IdleMove(s, h, me, LookUp(s.table, w).0, r);
      }
    case Count(h) =>
      if h < |s.handlers| {
        IncrementKeepsRow(s, h, r);
      }
  }

  /**
   * At any moment of any run, every row counts exactly the verdicts of the handlers that looked it up again for their
   * verdict and counted it, and the shares of those that looked it up first and counted their share.
   */
  lemma {:induction false} RowsAreExact(actions: seq<Action>)
    ensures RowsExact(Run(actions))
  {
    hide Step, Valid, CountsOf;
    if actions == [] {
      NoRows();
    } else {
      var s, a := Run(actions[..|actions| - 1]), actions[|actions| - 1];
      RowsAreExact(actions[..|actions| - 1]);
      forall r: nat
        ensures CountsOf(Step(s, a).table, r) == AllCountedIn(Step(s, a).handlers, r)
      {
        StepKeepsRow(s, a, r);
      }
    }
  }

  lemma NoRows()
    ensures RowsExact(Start())
  {
  }

  // ---------- a worker's row over a run ----------

  /** The step looks a row up and so takes the row away from the name. */
  predicate StepTakes(s: State, a: Action, name: string) {
    match a
    case Enter(w) => TakesName(s.table, name, w.device, w.addr)
    case Touch(w) => TakesName(s.table, name, w.device, w.addr)
    case Locate(h, w) => h < |s.handlers| && s.handlers[h].stage.Answered? && TakesName(s.table, name, w.device, w.addr)
    case _ => false
  }

  lemma StepKeepsName(s: State, a: Action, name: string)
    requires Valid(s) && name != "" && name in s.table.filed
    ensures SameName(s.table, Step(s, a).table, name) <==> !StepTakes(s, a, name)
  {
    hide ValidTable, GetCreate, TakesName;
    match a
    case Enter(w) => NameKeepsRow(s.table, name, w.device, w.addr, w.app);
    case Touch(w) => NameKeepsRow(s.table, name, w.device, w.addr, w.app);
    case Locate(h, w) => NameKeepsRow(s.table, name, w.device, w.addr, w.app);
    case _ =>
  }

  /** No step of `more`, which follows `actions`, takes the row away from the name. */
  predicate NobodyTakes(actions: seq<Action>, more: seq<Action>, name: string) {
    more == [] ||
    var n := |more| - 1;
    NobodyTakes(actions, more[..n], name) && !StepTakes(Run(actions + more[..n]), more[n], name)
  }

  /**
   * Once a worker's row is filed under its device name it stays there, as long as no lookup comes from an address spelled
   * like that name by a worker not on file, and a lookup with that name returns it from any address.
   */
  lemma {:induction false} NamedRowStays(actions: seq<Action>, more: seq<Action>, w: Worker)
    requires w.device != "" && w.device in Run(actions).table.filed
    requires NobodyTakes(actions, more, w.device)
    ensures var t := Run(actions + more).table;
            && w.device in t.filed && t.filed[w.device] == Run(actions).table.filed[w.device]
            && LookUp(t, w).1 == Run(actions).table.filed[w.device]
    decreases |more|
  {
    hide Run, Step, StepTakes;
    if more == [] {
      assert actions + more == actions;
    } else {
      var n := |more| - 1;
      NamedRowStays(actions, more[..n], w);
      assert actions + more == actions + more[..n] + [more[n]];
      RunStep(actions + more[..n], more[n]);
      StepKeepsName(Run(actions + more[..n]), more[n], w.device);
    }
    hide NobodyTakes;
    var t := Run(actions + more).table;
    GetCreateFiles(t, w.device, w.addr, w.app);
  }
}
