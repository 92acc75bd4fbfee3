/**
 * Share accounting under every interleaving of submit handlers.
 * Looking a row up is one step (it holds the table's lock); every counter increment is a step of its own.
 */
module StatsRuns {
  import opened StatsTables

  /** What became of the proof of work: below the network target, or submitted and answered by the node. */
  datatype Verdict = NoBlock | Accepted | Duplicate | Rejected

  function VerdictCount(v: Verdict): Counters {
    match v
    case NoBlock => Zero()
    case Accepted => Counters(0, 1, 0, 0)
    case Duplicate => Counters(0, 0, 1, 0)
    case Rejected => Counters(0, 0, 0, 1)
  }

  function OneShare(): Counters {
    Counters(1, 0, 0, 0)
  }

  datatype Stage =
    | Judging              // has looked its row up; the proof of work is being judged
    | Answered             // SubmitBlock has answered; the row is about to be looked up again
    | Located              // has looked the row up again, in which the verdict is counted
    | VerdictInRow         // counted there, not yet overall
    | Sharing              // about to count the share in the row looked up first
    | ShareInRow           // counted there, not yet overall
    | Done
    | Abandoned            // the template could not be converted; nothing is counted

  /** The row looked up first, the row looked up again for the verdict (the same until then), and where the handler is. */
  datatype Handler = Handler(row: nat, second: nat, verdict: Verdict, stage: Stage)

  datatype State = State(table: Table, overall: Counters, handlers: seq<Handler>)

  /** A connection as its context shows it at the moment of a lookup. */
  datatype Worker = Worker(device: string, addr: string, app: string)

  datatype Action =
    | Enter(worker: Worker)                // a submit whose nonce was parsed looks its row up
    | Touch(worker: Worker)                // the delayed lookup that follows a connect
    | Abandon(h: nat)
    | Judge(h: nat, answer: Verdict)
    | Locate(h: nat, worker: Worker)
    | Count(h: nat)                        // the next increment of handler h

  function Start(): State {
    State(EmptyTable(), Zero(), [])
  }

  function LookUp(t: Table, w: Worker): (result: (Table, nat))
    requires ValidTable(t)
    ensures ValidTable(result.0) && result.1 < |result.0.rows| && |t.rows| <= |result.0.rows|
  {
    GetCreate(t, w.device, w.addr, w.app)
  }

  /** What handler h has counted in a row but not yet overall. */
  function InRows(h: Handler): Counters {
    if h.stage.VerdictInRow? then VerdictCount(h.verdict)
    else if h.stage.ShareInRow? then OneShare()
    else Zero()
  }

  /** What handler h has counted overall. */
  function Credited(h: Handler): Counters {
    if h.stage.Sharing? || h.stage.ShareInRow? then VerdictCount(h.verdict)
    else if h.stage.Done? then Plus(VerdictCount(h.verdict), OneShare())
    else Zero()
  }

  predicate ValidHandler(t: Table, h: Handler) {
    && h.row < |t.rows|
    && (h.stage.Judging? || h.stage.Abandoned? ==> h.verdict.NoBlock?)
    && (h.stage.Answered? || h.stage.Located? || h.stage.VerdictInRow? ==> !h.verdict.NoBlock?)
    && h.second < |t.rows|
  }

  predicate Valid(s: State) {
    ValidTable(s.table) && forall i :: 0 <= i < |s.handlers| ==> ValidHandler(s.table, s.handlers[i])
  }

  function At(s: State, h: nat, stage: Stage): State
    requires h < |s.handlers|
  {
    s.(handlers := s.handlers[h := s.handlers[h].(stage := stage)])
  }

  /** The next increment of a handler, if that is what it is about to do. */
  function Increment(s: State, h: nat): State
    requires Valid(s) && h < |s.handlers|
  {
    var me := s.handlers[h];
    match me.stage
    case Located => At(s, h, VerdictInRow).(table := Bump(s.table, me.second, VerdictCount(me.verdict)))
    case VerdictInRow => At(s, h, Sharing).(overall := Plus(s.overall, VerdictCount(me.verdict)))
    case Sharing => At(s, h, ShareInRow).(table := Bump(s.table, me.row, OneShare()))
    case ShareInRow => At(s, h, Done).(overall := Plus(s.overall, OneShare()))
    case _ => s
  }

  /** The handler after the proof of work was judged. */
  function Judged(h: Handler, answer: Verdict): Handler {
    h.(verdict := answer, stage := if answer.NoBlock? then Sharing else Answered)
  }

  /** One step; an action that is not enabled changes nothing. */
  function Step(s: State, a: Action): State
    requires Valid(s)
  {
    match a
    case Enter(w) =>
      var (t, r) := LookUp(s.table, w);
      s.(table := t, handlers := s.handlers + [Handler(r, r, NoBlock, Judging)])
    case Touch(w) => s.(table := LookUp(s.table, w).0)
    case Abandon(h) =>
      if h < |s.handlers| && s.handlers[h].stage.Judging? then At(s, h, Abandoned) else s
    case Judge(h, answer) =>
      if h < |s.handlers| && s.handlers[h].stage.Judging?
      then s.(handlers := s.handlers[h := Judged(s.handlers[h], answer)])
      else s
    case Locate(h, w) =>
      if h < |s.handlers| && s.handlers[h].stage.Answered?
      then
        var (t, r) := LookUp(s.table, w);
        s.(table := t, handlers := s.handlers[h := s.handlers[h].(second := r, stage := Located)])
      else s
    case Count(h) => if h < |s.handlers| then Increment(s, h) else s
  }

  lemma StepValid(s: State, a: Action)
    requires Valid(s)
    ensures Valid(Step(s, a))
  {
    hide GetCreate;
  }

  function Run(actions: seq<Action>): (s: State)
    ensures Valid(s)
  {
    if actions == [] then Start()
    else
      var before := Run(actions[..|actions| - 1]);
      StepValid(before, actions[|actions| - 1]);
      Step(before, actions[|actions| - 1])
  }

  // ---------- sums over handlers ----------

  /** What handlers hold in hand, and what they have counted overall. */
  datatype Ledger = Ledger(inHand: Counters, credited: Counters)

  function Blank(): Ledger {
    Ledger(Zero(), Zero())
  }

  function Entry(h: Handler): Ledger {
    Ledger(InRows(h), Credited(h))
  }

  function Add(a: Ledger, b: Ledger): Ledger {
    Ledger(Plus(a.inHand, b.inHand), Plus(a.credited, b.credited))
  }

  function LedgerOf(hs: seq<Handler>): Ledger {
    if hs == [] then Blank() else Add(LedgerOf(hs[..|hs| - 1]), Entry(hs[|hs| - 1]))
  }

  lemma Exchange(a: Ledger, a': Ledger, was: Ledger, now: Ledger, last: Ledger)
    requires Add(a', was) == Add(a, now)
    ensures Add(Add(a', last), was) == Add(Add(a, last), now)
  {
  }

  lemma ExchangeLast(a: Ledger, x: Ledger, y: Ledger)
    ensures Add(Add(a, y), x) == Add(Add(a, x), y)
  {
  }

  lemma {:induction false} LedgerUpdate(hs: seq<Handler>, i: nat, h: Handler)
    requires i < |hs|
    ensures Add(LedgerOf(hs[i := h]), Entry(hs[i])) == Add(LedgerOf(hs), Entry(h))
  {
    hide Add, Entry;
    var n := |hs| - 1;
    if i == n {
      assert hs[i := h][..n] == hs[..n];
      ExchangeLast(LedgerOf(hs[..n]), Entry(hs[n]), Entry(h));
    } else {
      assert hs[i := h][..n] == hs[..n][i := h];
      LedgerUpdate(hs[..n], i, h);
      Exchange(LedgerOf(hs[..n]), LedgerOf(hs[..n][i := h]), Entry(hs[i]), Entry(h), Entry(hs[n]));
    }
  }

  lemma LedgerAppend(hs: seq<Handler>, h: Handler)
    ensures LedgerOf(hs + [h]) == Add(LedgerOf(hs), Entry(h))
  {
    assert (hs + [h])[..|hs|] == hs;
  }

  /** Rows are ahead of the overall counters by exactly what handlers have in hand. */
  predicate Balances(rows: Counters, overall: Counters, ledger: Ledger) {
    rows == Plus(overall, ledger.inHand) && overall == ledger.credited
  }

  predicate Balanced(s: State) {
    Balances(RowSum(s.table.rows), s.overall, LedgerOf(s.handlers))
  }

  lemma BumpAdds(t: Table, r: nat, delta: Counters)
    requires r < |t.rows|
    ensures RowSum(Bump(t, r, delta).rows) == Plus(RowSum(t.rows), delta)
  {
    hide RowSum;
    RowSumUpdate(t.rows, r, Bump(t, r, delta).rows[r]);
  }

  lemma LookUpKeepsSum(t: Table, w: Worker)
    requires ValidTable(t)
    ensures RowSum(LookUp(t, w).0.rows) == RowSum(t.rows)
  {
    GetCreateSums(t, w.device, w.addr, w.app);
  }

  /** One handler's step balances when it moves counts between row, hand and overall without making or losing any. */
  lemma MoveBalances(rows: Counters, overall: Counters, ledger: Ledger, rows': Counters, overall': Counters,
                     ledger': Ledger, before: Ledger, after: Ledger)
    requires Balances(rows, overall, ledger) && Add(ledger', before) == Add(ledger, after)
    requires Plus(rows', Plus(before.inHand, before.credited)) == Plus(rows, Plus(after.inHand, after.credited))
    requires Plus(overall', before.credited) == Plus(overall, after.credited)
    ensures Balances(rows', overall', ledger')
  {
  }

  /** A counted increment balances: what the row or the overall counter gains, the handler's ledger shows. */
  lemma CountBalanced(s: State, h: nat, stage: Stage, t: Table, overall: Counters)
    requires Balanced(s) && h < |s.handlers|
    requires var before, after := Entry(s.handlers[h]), Entry(s.handlers[h].(stage := stage));
             && Plus(RowSum(t.rows), Plus(before.inHand, before.credited))
             == Plus(RowSum(s.table.rows), Plus(after.inHand, after.credited))
             && Plus(overall, before.credited) == Plus(s.overall, after.credited)
    ensures Balanced(At(s, h, stage).(table := t, overall := overall))
  {
    hide RowSum, LedgerOf, Balances, Add, Entry, Plus;
    var me := s.handlers[h].(stage := stage);
    LedgerUpdate(s.handlers, h, me);
    MoveBalances(RowSum(s.table.rows), s.overall, LedgerOf(s.handlers), RowSum(t.rows), overall,
                 LedgerOf(s.handlers[h := me]), Entry(s.handlers[h]), Entry(me));
  }

  lemma RowIncrement(s: State, h: nat, stage: Stage, r: nat, delta: Counters)
    requires Balanced(s) && h < |s.handlers| && r < |s.table.rows|
    requires Entry(s.handlers[h]).inHand == Zero()
    requires Entry(s.handlers[h].(stage := stage)) == Ledger(delta, Entry(s.handlers[h]).credited)
    ensures Balanced(At(s, h, stage).(table := Bump(s.table, r, delta)))
  {
    hide RowSum, LedgerOf, Balanced, Entry, Bump;
    BumpAdds(s.table, r, delta);
    CountBalanced(s, h, stage, Bump(s.table, r, delta), s.overall);
  }

  lemma OverallIncrement(s: State, h: nat, stage: Stage, delta: Counters)
    requires Balanced(s) && h < |s.handlers|
    requires Entry(s.handlers[h]).inHand == delta
    requires Entry(s.handlers[h].(stage := stage)) == Ledger(Zero(), Plus(Entry(s.handlers[h]).credited, delta))
    ensures Balanced(At(s, h, stage).(overall := Plus(s.overall, delta)))
  {
    hide RowSum, LedgerOf, Balanced, Entry;
    CountBalanced(s, h, stage, s.table, Plus(s.overall, delta));
  }

  lemma IncrementBalanced(s: State, h: nat)
    requires Valid(s) && h < |s.handlers| && Balanced(s)
    ensures Balanced(Increment(s, h))
  {
    hide RowSum, LedgerOf, ValidTable, Bump, Balanced;
    var me := s.handlers[h];
    match me.stage
    case Located => RowIncrement(s, h, VerdictInRow, me.second, VerdictCount(me.verdict));
    case VerdictInRow => OverallIncrement(s, h, Sharing, VerdictCount(me.verdict));
    case Sharing => RowIncrement(s, h, ShareInRow, me.row, OneShare());
    case ShareInRow => OverallIncrement(s, h, Done, OneShare());
    case _ =>
  }

  lemma HandlerMoveBalanced(s: State, h: nat, me: Handler, t: Table)
    requires h < |s.handlers| && Balanced(s) && Entry(me) == Entry(s.handlers[h])
    requires RowSum(t.rows) == RowSum(s.table.rows)
    ensures Balanced(s.(handlers := s.handlers[h := me], table := t))
  {
    hide RowSum, LedgerOf, Balances, Add, InRows, Credited;
    LedgerUpdate(s.handlers, h, me);
    MoveBalances(RowSum(s.table.rows), s.overall, LedgerOf(s.handlers), RowSum(t.rows), s.overall,
                 LedgerOf(s.handlers[h := me]), Entry(me), Entry(me));
  }

  lemma EnterBalanced(s: State, w: Worker)
    requires Valid(s) && Balanced(s)
    ensures Balanced(Step(s, Enter(w)))
  {
    hide RowSum, LedgerOf, ValidTable, LookUp;
    LookUpKeepsSum(s.table, w);
    LedgerAppend(s.handlers, Handler(LookUp(s.table, w).1, LookUp(s.table, w).1, NoBlock, Judging));
  }

  lemma StepBalanced(s: State, a: Action)
    requires Valid(s) && Balanced(s)
    ensures Balanced(Step(s, a))
  {
    hide RowSum, LedgerOf, ValidTable, Increment, LookUp, Balances;
    match a
    case Enter(w) => EnterBalanced(s, w);
    case Touch(w) => LookUpKeepsSum(s.table, w);
    case Abandon(h) =>
      if h < |s.handlers| && s.handlers[h].stage.Judging? {
        HandlerMoveBalanced(s, h, s.handlers[h].(stage := Abandoned), s.table);
      }
    case Judge(h, answer) =>
      if h < |s.handlers| && s.handlers[h].stage.Judging? {
        JudgeBalanced(s, h, answer);
      }
    case Locate(h, w) =>
      if h < |s.handlers| && s.handlers[h].stage.Answered? {
        LookUpKeepsSum(s.table, w);
        HandlerMoveBalanced(s, h, s.handlers[h].(second := LookUp(s.table, w).1, stage := Located), LookUp(s.table, w).0);
      }
    case Count(h) =>
      if h < |s.handlers| {
        IncrementBalanced(s, h);
      }
  }

  lemma JudgeBalanced(s: State, h: nat, answer: Verdict)
    requires Valid(s) && Balanced(s) && h < |s.handlers| && s.handlers[h].stage.Judging?
    ensures Balanced(Step(s, Judge(h, answer)))
  {
    var me := s.handlers[h];
    HandlerMoveBalanced(s, h, Judged(me, answer), s.table);
  }

  lemma {:induction false} RunBalanced(actions: seq<Action>)
    ensures Balanced(Run(actions))
  {
    hide Step, Valid, Balanced;
    if actions == [] {
      StartBalanced();
    } else {
      RunBalanced(actions[..|actions| - 1]);
      StepBalanced(Run(actions[..|actions| - 1]), actions[|actions| - 1]);
    }
  }

  lemma StartBalanced()
    ensures Balanced(Start())
  {
    hide LedgerOf, RowSum;
    EmptySums();
  }

  lemma EmptySums()
    ensures RowSum([]) == Zero() && LedgerOf([]) == Blank()
  {
  }

  // ---------- conservation ----------

  /** Every handler has run to its end. */
  predicate Quiet(s: State) {
    forall i :: 0 <= i < |s.handlers| ==> s.handlers[i].stage.Done? || s.handlers[i].stage.Abandoned?
  }

  lemma {:induction false} QuietHandsEmpty(hs: seq<Handler>)
    requires forall i :: 0 <= i < |hs| ==> hs[i].stage.Done? || hs[i].stage.Abandoned?
    ensures LedgerOf(hs).inHand == Zero()
  {
    hide Plus, Credited;
    if hs != [] {
      QuietHandsEmpty(hs[..|hs| - 1]);
      PlusLaws(Zero(), Zero(), Zero());
    }
  }

  /** At any moment of any run: on file plus lost is overall plus what handlers have in hand. */
  lemma CountsConserved(actions: seq<Action>)
    ensures var s := Run(actions);
            Plus(MapSum(OnFile(s.table)), Lost(s.table)) == Plus(s.overall, LedgerOf(s.handlers).inHand)
  {
    RunBalanced(actions);
    FiledPlusLost(Run(actions).table);
  }

  lemma Parts(filed: Counters, lost: Counters, overall: Counters)
    requires Plus(filed, lost) == overall
    ensures AtMost(filed, overall) && (filed == overall <==> lost == Zero())
  {
  }

  /** At rest what is on file and what was lost make up the overall counters, which the rows on file never exceed. */
  lemma QuietTotals(actions: seq<Action>)
    requires Quiet(Run(actions))
    ensures var s := Run(actions);
            && Plus(MapSum(OnFile(s.table)), Lost(s.table)) == s.overall
            && AtMost(MapSum(OnFile(s.table)), s.overall)
  {
    hide Run, MapSum, Lost, OnFile;
    var s := Run(actions);
    CountsConserved(actions);
    QuietHandsEmpty(s.handlers);
    Parts(MapSum(OnFile(s.table)), Lost(s.table), s.overall);
  }

  // ---------- the steps that lose counts ----------

  /** A lookup that overwrites a row which has counted something. */
  predicate LosesRow(t: Table, w: Worker)
    requires ValidTable(t)
  {
    Overwrites(t, w.device, w.addr) && t.rows[t.filed[""]].counters != Zero()
  }

  /** The row that handler h is about to count in, if that is what it is about to do. */
  function CountsIn(h: Handler): seq<nat> {
    if h.stage.Located? then [h.second] else if h.stage.Sharing? then [h.row] else []
  }

  /** A step that loses counts: it overwrites a row that counted, or counts in a row that is no longer on file. */
  predicate Loses(s: State, a: Action)
    requires Valid(s)
  {
    match a
    case Enter(w) => LosesRow(s.table, w)
    case Touch(w) => LosesRow(s.table, w)
    case Locate(h, w) => h < |s.handlers| && s.handlers[h].stage.Answered? && LosesRow(s.table, w)
    case Count(h) => h < |s.handlers| && CountsIn(s.handlers[h]) != [] && !IsFiled(s.table, CountsIn(s.handlers[h])[0])
    case _ => false
  }

  predicate NothingLoses(actions: seq<Action>) {
    actions == [] ||
    var before := actions[..|actions| - 1];
    NothingLoses(before) && !Loses(Run(before), actions[|actions| - 1])
  }

  lemma IsZero(a: Counters)
    ensures a == Zero() <==> a.shares == 0 && a.blocks == 0 && a.stale == 0 && a.invalid == 0
  {
  }

  lemma PlusZero(a: Counters, b: Counters)
    ensures Plus(a, b) == Zero() <==> a == Zero() && b == Zero()
  {
    var c := Plus(a, b);
    assert c.shares == a.shares + b.shares && c.blocks == a.blocks + b.blocks;
    assert c.stale == a.stale + b.stale && c.invalid == a.invalid + b.invalid;
    IsZero(a);
    IsZero(b);
    IsZero(c);
    hide *;
  }

  lemma LookUpLoses(t: Table, w: Worker)
    requires ValidTable(t)
    ensures Lost(LookUp(t, w).0) == Zero() <==> Lost(t) == Zero() && !LosesRow(t, w)
  {
    hide GetCreate, Lost, Plus;
    GetCreateSums(t, w.device, w.addr, w.app);
    PlusZero(Lost(t), Dropped(t, w.device, w.addr));
  }

  /** Counting in a row on file leaves what was lost; counting in any other row adds to it. */
  lemma {:induction false} EvictedBump(t: Table, r: nat, delta: Counters, n: nat)
    requires r < |t.rows| && n <= |t.rows|
    ensures Evicted(Bump(t, r, delta), n)
         == if r < n && !IsFiled(t, r) then Plus(Evicted(t, n), delta) else Evicted(t, n)
  {
    if n > 0 {
      EvictedBump(t, r, delta, n - 1);
      assert IsFiled(Bump(t, r, delta), n - 1) <==> IsFiled(t, n - 1);
    }
  }

  lemma BumpLoses(t: Table, r: nat, delta: Counters)
    requires r < |t.rows| && delta != Zero()
    ensures Lost(Bump(t, r, delta)) == Zero() <==> Lost(t) == Zero() && IsFiled(t, r)
  {
    hide Plus, Evicted, IsFiled;
    EvictedBump(t, r, delta, |t.rows|);
    PlusZero(Lost(t), delta);
  }

  /** Once counts are lost they stay lost, and a step first loses some exactly when it is one of these. */
  lemma StepLoses(s: State, a: Action)
    requires Valid(s)
    ensures Lost(Step(s, a).table) == Zero() <==> Lost(s.table) == Zero() && !Loses(s, a)
  {
    hide LookUp, Lost, LosesRow, IsFiled, Bump, ValidTable;
    match a
    case Enter(w) => LookUpLoses(s.table, w);
    case Touch(w) => LookUpLoses(s.table, w);
    case Abandon(h) =>
    case Judge(h, answer) =>
    case Locate(h, w) => LookUpLoses(s.table, w);
    case Count(h) =>
      if h < |s.handlers| && CountsIn(s.handlers[h]) != [] {
        var me := s.handlers[h];
        BumpLoses(s.table, CountsIn(me)[0], if me.stage.Located? then VerdictCount(me.verdict) else OneShare());
      }
  }

  lemma {:induction false} NothingLost(actions: seq<Action>)
    ensures Lost(Run(actions).table) == Zero() <==> NothingLoses(actions)
  {
    hide Step, Loses, Valid, Lost;
    if actions == [] {
      NothingLostYet();
    } else {
      NothingLost(actions[..|actions| - 1]);
      StepLoses(Run(actions[..|actions| - 1]), actions[|actions| - 1]);
    }
  }

  lemma NothingLostYet()
    ensures Lost(EmptyTable()) == Zero()
  {
  }

  /**
   * At rest the rows on file add up to the overall counters if and only if no step of the run overwrote a row that
   * had counted something, or counted in a row that had been overwritten.
   */
  lemma QuietTotalsExact(actions: seq<Action>)
    requires Quiet(Run(actions))
    ensures MapSum(OnFile(Run(actions).table)) == Run(actions).overall <==> NothingLoses(actions)
  {
    hide Run, MapSum, Lost, OnFile, NothingLoses;
    QuietTotals(actions);
    var s := Run(actions);
    Parts(MapSum(OnFile(s.table)), Lost(s.table), s.overall);
    NothingLost(actions);
  }

  predicate NamedWorker(a: Action) {
    match a
    case Enter(w) => w.device != ""
    case Touch(w) => w.device != ""
    case Locate(h, w) => w.device != ""
    case _ => true
  }

  predicate AllNamed(actions: seq<Action>) {
    forall i :: 0 <= i < |actions| ==> NamedWorker(actions[i])
  }

  lemma BumpKeepsFiled(t: Table, r: nat, delta: Counters)
    requires r < |t.rows| && AllFiled(t)
    ensures AllFiled(Bump(t, r, delta))
  {
    forall q: nat | q < |t.rows|
      ensures IsFiled(Bump(t, r, delta), q)
    {
      assert IsFiled(t, q);
    }
  }

  lemma NamedStepKeepsFiled(s: State, a: Action)
    requires Valid(s) && AllFiled(s.table) && NamedWorker(a)
    ensures AllFiled(Step(s, a).table)
  {
    hide GetCreate, AllFiled, Bump;
    match a
    case Enter(w) => NamedKeepsFiled(s.table, w.device, w.addr, w.app);
    case Touch(w) => NamedKeepsFiled(s.table, w.device, w.addr, w.app);
    case Locate(h, w) => NamedKeepsFiled(s.table, w.device, w.addr, w.app);
    case Count(h) =>
      if h < |s.handlers| {
        var me := s.handlers[h];
        match me.stage
        case Located => BumpKeepsFiled(s.table, me.second, VerdictCount(me.verdict));
        case Sharing => BumpKeepsFiled(s.table, me.row, OneShare());
        case _ =>
      }
    case _ =>
  }

  lemma {:induction false} NamedRunKeepsFiled(actions: seq<Action>)
    requires AllNamed(actions)
    ensures AllFiled(Run(actions).table)
  {
    hide Step;
    if actions != [] {
      var n := |actions| - 1;
      assert forall i :: 0 <= i < n ==> actions[..n][i] == actions[i];
      NamedRunKeepsFiled(actions[..n]);
      NamedStepKeepsFiled(Run(actions[..n]), actions[n]);
    }
  }

  /** When every worker has a name, nothing is ever lost: at any moment the table is overall plus what is in hand. */
  lemma NamedWorkersBalance(actions: seq<Action>)
    requires AllNamed(actions)
    ensures var s := Run(actions); MapSum(OnFile(s.table)) == Plus(s.overall, LedgerOf(s.handlers).inHand)
  {
    hide Run, MapSum, LedgerOf, Plus, Zero;
    var s := Run(actions);
    CountsConserved(actions);
    NamedRunKeepsFiled(actions);
    AllFiledLosesNothing(s.table, |s.table.rows|);
    PlusLaws(MapSum(OnFile(s.table)), Zero(), Zero());
  }

  /** So at rest the table sums to the overall counters. */
  lemma NamedWorkersConserve(actions: seq<Action>)
    requires AllNamed(actions) && Quiet(Run(actions))
    ensures MapSum(OnFile(Run(actions).table)) == Run(actions).overall
  {
    hide Run, MapSum, LedgerOf, Plus, Zero;
    NamedWorkersBalance(actions);
    QuietHandsEmpty(Run(actions).handlers);
    PlusLaws(Run(actions).overall, Zero(), Zero());
  }

  // ---------- share accounting ----------

  /** The handler's verdict is in the overall counters. */
  predicate VerdictCounted(h: Handler) {
    h.stage.Sharing? || h.stage.ShareInRow? || h.stage.Done?
  }

  predicate IsRunning(h: Handler) {
    !h.stage.Done? && !h.stage.Abandoned?
  }

  function One(b: bool): nat {
    if b then 1 else 0
  }

  /** How many handlers ran to their end, how many are still running, and how many counted the given verdict. */
  function Finished(hs: seq<Handler>): nat {
    if hs == [] then 0 else Finished(hs[..|hs| - 1]) + One(hs[|hs| - 1].stage.Done?)
  }

  function Running(hs: seq<Handler>): nat {
    if hs == [] then 0 else Running(hs[..|hs| - 1]) + One(IsRunning(hs[|hs| - 1]))
  }

  function CountedWith(hs: seq<Handler>, v: Verdict): nat {
    if hs == [] then 0
    else CountedWith(hs[..|hs| - 1], v) + One(VerdictCounted(hs[|hs| - 1]) && hs[|hs| - 1].verdict == v)
  }

  function FinishedWith(hs: seq<Handler>, v: Verdict): nat {
    if hs == [] then 0
    else FinishedWith(hs[..|hs| - 1], v) + One(hs[|hs| - 1].stage.Done? && hs[|hs| - 1].verdict == v)
  }

  function Tally(hs: seq<Handler>): Counters {
    Counters(Finished(hs), CountedWith(hs, Accepted), CountedWith(hs, Duplicate), CountedWith(hs, Rejected))
  }

  lemma CountedStep(init: seq<Handler>, h: Handler, v: Verdict)
    ensures Finished(init + [h]) == Finished(init) + One(h.stage.Done?)
    ensures Running(init + [h]) == Running(init) + One(IsRunning(h))
    ensures CountedWith(init + [h], v) == CountedWith(init, v) + One(VerdictCounted(h) && h.verdict == v)
  {
    assert (init + [h])[..|init|] == init;
  }

  lemma PlusIs(a: Counters, b: Counters, c: Counters)
    requires c.shares == a.shares + b.shares && c.blocks == a.blocks + b.blocks
    requires c.stale == a.stale + b.stale && c.invalid == a.invalid + b.invalid
    ensures Plus(a, b) == c
  {
  }

  /** What a handler adds to the tally. */
  function Share(h: Handler): Counters {
    var counted := VerdictCounted(h);
    Counters(One(h.stage.Done?), One(counted && h.verdict == Accepted),
             One(counted && h.verdict == Duplicate), One(counted && h.verdict == Rejected))
  }

  lemma ShareIsCredit(h: Handler)
    ensures Share(h) == Credited(h)
    ensures Share(h).blocks + Share(h).stale + Share(h).invalid <= Share(h).shares + One(IsRunning(h))
  {
    hide Plus;
    if h.stage.Done? {
      PlusIs(VerdictCount(h.verdict), OneShare(), Share(h));
    }
  }

  lemma TallyStep(init: seq<Handler>, h: Handler)
    ensures Tally(init + [h]) == Plus(Tally(init), Share(h))
    ensures Running(init + [h]) == Running(init) + One(IsRunning(h))
  {
    hide Finished, Running, CountedWith;
    CountedStep(init, h, Accepted);
    CountedStep(init, h, Duplicate);
    CountedStep(init, h, Rejected);
  }

  lemma {:induction false} CreditedIsTally(hs: seq<Handler>)
    ensures LedgerOf(hs).credited == Tally(hs)
    ensures var c := Tally(hs); c.blocks + c.stale + c.invalid <= c.shares + Running(hs)
  {
    hide Credited, InRows, Share;
    if hs != [] {
      hide Tally, Running, One;
      var init, h := hs[..|hs| - 1], hs[|hs| - 1];
      CreditedIsTally(init);
      TallyStep(init, h);
      ShareIsCredit(h);
      assert hs == init + [h];
    }
  }

  /**
   * At any moment every overall counter is the number of handlers that have counted in it, and blocks, stale and invalid
   * together exceed the shares by at most the handlers still running.
   */
  lemma OverallAtAnyMoment(actions: seq<Action>)
    ensures var s := Run(actions);
            && s.overall.shares == Finished(s.handlers)
            && s.overall.blocks == CountedWith(s.handlers, Accepted)
            && s.overall.stale == CountedWith(s.handlers, Duplicate)
            && s.overall.invalid == CountedWith(s.handlers, Rejected)
            && s.overall.blocks + s.overall.stale + s.overall.invalid <= s.overall.shares + Running(s.handlers)
  {
    hide Run;
    RunBalanced(actions);
    CreditedIsTally(Run(actions).handlers);
  }

  lemma {:induction false} CountedAtRest(hs: seq<Handler>, v: Verdict)
    requires forall i :: 0 <= i < |hs| ==> hs[i].stage.Done? || hs[i].stage.Abandoned?
    ensures CountedWith(hs, v) == FinishedWith(hs, v) && Running(hs) == 0
  {
    if hs != [] {
      CountedAtRest(hs[..|hs| - 1], v);
    }
  }

  /** At rest every overall counter is the number of submits it stands for, and each block, stale or invalid is also a share. */
  lemma OverallIsExact(actions: seq<Action>)
    requires Quiet(Run(actions))
    ensures var s := Run(actions);
            && s.overall.shares == Finished(s.handlers)
            && s.overall.blocks == FinishedWith(s.handlers, Accepted)
            && s.overall.stale == FinishedWith(s.handlers, Duplicate)
            && s.overall.invalid == FinishedWith(s.handlers, Rejected)
            && s.overall.blocks + s.overall.stale + s.overall.invalid <= s.overall.shares
  {
    hide Run;
    var hs := Run(actions).handlers;
    OverallAtAnyMoment(actions);
    CountedAtRest(hs, Accepted);
    CountedAtRest(hs, Duplicate);
    CountedAtRest(hs, Rejected);
  }

  // ---------- one handler alone ----------

  /** The whole effect of a submit that no other handler interrupts. */
  function Alone(t: Table, overall: Counters, w: Worker, v: Verdict): (result: (Table, Counters))
    requires ValidTable(t)
    ensures ValidTable(result.0)
  {
    var (t1, r) := LookUp(t, w);
    if v.NoBlock? then (Bump(t1, r, OneShare()), Plus(overall, OneShare()))
    else
      var (t2, second) := LookUp(t1, w);
      (Bump(Bump(t2, second, VerdictCount(v)), r, OneShare()), Plus(Plus(overall, VerdictCount(v)), OneShare()))
  }

  /** The steps that handler h takes from its first lookup to its end. */
  function HandlerSteps(h: nat, w: Worker, v: Verdict): seq<Action> {
    [Enter(w), Judge(h, v)]
    + (if v.NoBlock? then [] else [Locate(h, w), Count(h), Count(h)])
    + [Count(h), Count(h)]
  }

  lemma RunStep(actions: seq<Action>, a: Action)
    ensures Run(actions + [a]) == Step(Run(actions), a)
  {
    assert (actions + [a])[..|actions|] == actions;
  }

  /** From `before`, the state where the last handler has just been judged, its share increments lead here. */
  lemma ShareSteps(before: State, h: nat, s: State)
    requires Valid(before) && h < |before.handlers| && before.handlers[h].stage.Sharing?
    requires Valid(Step(before, Count(h))) && s == Step(Step(before, Count(h)), Count(h))
    ensures s.table == Bump(before.table, before.handlers[h].row, OneShare())
    ensures s.overall == Plus(before.overall, OneShare())
  {
    hide OneShare, Plus, Bump;
  }

  lemma BlockSteps(before: State, h: nat, w: Worker, located: State, inRow: State, s: State)
    requires Valid(before) && h < |before.handlers| && before.handlers[h].stage.Answered?
    requires located == Step(before, Locate(h, w)) && Valid(located)
    requires inRow == Step(located, Count(h)) && Valid(inRow) && s == Step(inRow, Count(h))
    ensures var (t2, second) := LookUp(before.table, w);
            && s.table == Bump(t2, second, VerdictCount(before.handlers[h].verdict))
            && s.overall == Plus(before.overall, VerdictCount(before.handlers[h].verdict))
    ensures h < |s.handlers|
    ensures s.handlers[h] == before.handlers[h].(second := LookUp(before.table, w).1, stage := Sharing)
  {
    hide Plus, Bump, LookUp, VerdictCount;
  }

  lemma EnterAndJudge(actions: seq<Action>, w: Worker, v: Verdict)
    ensures var s, h := Run(actions), |Run(actions).handlers|;
            var s2 := Run(actions + [Enter(w)] + [Judge(h, v)]);
            && s2.table == LookUp(s.table, w).0 && s2.overall == s.overall
            && |s2.handlers| == h + 1
            && s2.handlers[h]
               == Handler(LookUp(s.table, w).1, LookUp(s.table, w).1, v, if v.NoBlock? then Sharing else Answered)
  {
    hide LookUp, Run;
    var h := |Run(actions).handlers|;
    RunStep(actions, Enter(w));
    RunStep(actions + [Enter(w)], Judge(h, v));
  }

  /** In any run, a handler that is not interrupted has exactly the effect of `Alone`. */
  lemma UninterruptedHandler(actions: seq<Action>, w: Worker, v: Verdict)
    ensures var s, s' := Run(actions), Run(actions + HandlerSteps(|Run(actions).handlers|, w, v));
            (s'.table, s'.overall) == Alone(s.table, s.overall, w, v)
  {
    hide LookUp, Run, Bump, Plus, OneShare, VerdictCount, Step, Valid;
    var s, h := Run(actions), |Run(actions).handlers|;
    var judged := actions + [Enter(w)] + [Judge(h, v)];
    EnterAndJudge(actions, w, v);
    var before := judged;
    if !v.NoBlock? {
      before := judged + [Locate(h, w)] + [Count(h)] + [Count(h)];
      RunStep(judged, Locate(h, w));
      RunStep(judged + [Locate(h, w)], Count(h));
      RunStep(judged + [Locate(h, w)] + [Count(h)], Count(h));
      BlockSteps(Run(judged), h, w, Run(judged + [Locate(h, w)]), Run(judged + [Locate(h, w)] + [Count(h)]), Run(before));
    }
    RunStep(before, Count(h));
    RunStep(before + [Count(h)], Count(h));
    ShareSteps(Run(before), h, Run(before + [Count(h)] + [Count(h)]));
    assert actions + HandlerSteps(h, w, v) == before + [Count(h)] + [Count(h)];
  }

  // ---------- nameless workers ----------

  lemma FirstLookup(w: Worker)
    ensures LookUp(EmptyTable(), w).0 == Table([Row(Zero(), w.addr, w.app)], map[w.addr := 0])
    ensures LookUp(EmptyTable(), w).1 == 0
  {
    assert LookUp(EmptyTable(), w).0.rows == [Row(Zero(), w.addr, w.app)];
  }

  lemma SecondLookup(w: Worker, row: Row)
    requires w.device == "" && w.addr != "" && row.deviceName == w.addr
    ensures LookUp(Table([row], map[w.addr := 0]), w).0
         == Table([Row(row.counters, "", w.app)], map["" := 0])
  {
    assert map[w.addr := 0] - {w.addr} == map[];
    assert LookUp(Table([row], map[w.addr := 0]), w).0.rows == [Row(row.counters, "", w.app)];
  }

  lemma ThirdLookup(w: Worker, row: Row)
    requires w.device == "" && w.addr != "" && row.deviceName == ""
    ensures LookUp(Table([row], map["" := 0]), w).0
         == Table([row, Row(Zero(), w.addr, w.app)], map["" := 0, w.addr := 1])
  {
  }

  lemma FourthLookup(w: Worker, row: Row)
    requires w.device == "" && w.addr != "" && row.deviceName == ""
    ensures LookUp(Table([row, Row(Zero(), w.addr, w.app)], map["" := 0, w.addr := 1]), w).0
         == Table([row, Row(Zero(), "", w.app)], map["" := 1])
  {
    var t := Table([row, Row(Zero(), w.addr, w.app)], map["" := 0, w.addr := 1]);
    assert (t.filed - {w.addr})["" := 1] == map["" := 1];
    assert LookUp(t, w).0.rows == [row, Row(Zero(), "", w.app)];
  }

  /** A share by a worker without a name, then three more lookups of the same worker. */
  function LosingRun(w: Worker): seq<Action> {
    [Enter(w), Judge(0, NoBlock), Count(0), Count(0), Touch(w), Touch(w), Touch(w)]
  }

  /** The same steps, with the lookups before the share is counted. */
  function LateRun(w: Worker): seq<Action> {
    [Enter(w), Touch(w), Touch(w), Touch(w), Judge(0, NoBlock), Count(0), Count(0)]
  }

  lemma StepTo(actions: seq<Action>, n: nat, s: State)
    requires n < |actions| && Valid(s) && Run(actions[..n]) == s
    ensures Run(actions[..n + 1]) == Step(s, actions[n])
  {
    assert actions[..n + 1] == actions[..n] + [actions[n]];
    RunStep(actions[..n], actions[n]);
  }

  lemma EmptyRun()
    ensures Run([]) == Start()
  {
  }

  /** The table that holds one row, under the worker's address. */
  function OneRow(w: Worker, c: Counters): Table {
    Table([Row(c, w.addr, w.app)], map[w.addr := 0])
  }

  /** The table after that row was moved to the empty name and then overwritten there by a second one. */
  function Overwritten(w: Worker, c: Counters): Table {
    Table([Row(c, "", w.app), Row(Zero(), "", w.app)], map["" := 1])
  }

  lemma EnterStep(actions: seq<Action>, w: Worker)
    requires actions != [] && actions[0] == Enter(w)
    ensures Run(actions[..1]) == State(OneRow(w, Zero()), Zero(), [Handler(0, 0, NoBlock, Judging)])
  {
    FirstLookup(w);
    hide LookUp;
    assert actions[..0] == [];
    EmptyRun();
    hide Run;
    StepTo(actions, 0, Start());
  }

  lemma ShareTo(actions: seq<Action>, n: nat, t: Table)
    requires n + 3 <= |actions| && actions[n] == Judge(0, NoBlock) && actions[n + 1] == actions[n + 2] == Count(0)
    requires ValidTable(t) && t.rows != []
    requires Run(actions[..n]) == State(t, Zero(), [Handler(0, 0, NoBlock, Judging)])
    ensures Run(actions[..n + 1]) == State(t, Zero(), [Handler(0, 0, NoBlock, Sharing)])
    ensures Run(actions[..n + 3]) == State(Bump(t, 0, OneShare()), OneShare(), [Handler(0, 0, NoBlock, Done)])
  {
    hide Run, LookUp;
    var s0, s1 := State(t, Zero(), [Handler(0, 0, NoBlock, Judging)]), State(t, Zero(), [Handler(0, 0, NoBlock, Sharing)]);
    var s2 := State(Bump(t, 0, OneShare()), Zero(), [Handler(0, 0, NoBlock, ShareInRow)]);
    StepTo(actions, n, s0);
    assert Step(s0, actions[n]) == s1;
    StepTo(actions, n + 1, s1);
    assert Step(s1, actions[n + 1]) == s2;
    StepTo(actions, n + 2, s2);
    PlusIs(Zero(), OneShare(), OneShare());
  }

  lemma TouchTo(actions: seq<Action>, n: nat, w: Worker, s: State, t: Table)
    requires n < |actions| && actions[n] == Touch(w)
    requires Valid(s) && Run(actions[..n]) == s && LookUp(s.table, w).0 == t
    ensures Run(actions[..n + 1]) == s.(table := t)
  {
    hide Run, LookUp;
    StepTo(actions, n, s);
  }

  lemma TouchesTo(actions: seq<Action>, n: nat, w: Worker, s: State, c: Counters)
    requires n + 3 <= |actions| && actions[n] == actions[n + 1] == actions[n + 2] == Touch(w)
    requires w.device == "" && w.addr != "" && Valid(s) && Run(actions[..n]) == s && s.table == OneRow(w, c)
    ensures Run(actions[..n + 3]) == s.(table := Overwritten(w, c))
  {
    hide LookUp, Run, Zero;
    var kept := Row(c, "", w.app);
    SecondLookup(w, Row(c, w.addr, w.app));
    var s1 := s.(table := Table([kept], map["" := 0]));
    TouchTo(actions, n, w, s, s1.table);
    ThirdLookup(w, kept);
    var s2 := s.(table := Table([kept, Row(Zero(), w.addr, w.app)], map["" := 0, w.addr := 1]));
    TouchTo(actions, n + 1, w, s1, s2.table);
    FourthLookup(w, kept);
    TouchTo(actions, n + 2, w, s2, Overwritten(w, c));
  }

  lemma ZeroPlus(c: Counters)
    ensures Plus(Zero(), c) == c
  {
  }

  lemma BumpFirst(t: Table, c: Counters)
    requires t.rows != [] && t.rows[0].counters == Zero()
    ensures Bump(t, 0, c) == t.(rows := t.rows[0 := t.rows[0].(counters := c)])
  {
    ZeroPlus(c);
  }

  lemma OneEntry(k: string, c: Counters)
    ensures MapSum(map[k := c]) == c
  {
    MapSumPick(map[k := c], k);
    assert map[k := c] - {k} == map[];
    PlusLaws(c, Zero(), Zero());
  }

  lemma OverwrittenOnFile(w: Worker, c: Counters)
    ensures ValidTable(Overwritten(w, c)) && OnFile(Overwritten(w, c)) == map["" := Zero()]
  {
    hide Zero;
    var t := Overwritten(w, c);
    assert t.filed.Keys == {""} && t.filed[""] == 1;
  }

  lemma OverwrittenShowsNothing(w: Worker, c: Counters)
    ensures ValidTable(Overwritten(w, c)) && MapSum(OnFile(Overwritten(w, c))) == Zero()
  {
    hide MapSum;
    OneEntry("", Zero());
    OverwrittenOnFile(w, c);
  }

  /** A worker without a name pushes its own row out: the table ends up showing no share at all. */
  lemma NamelessWorkerLosesShare(w: Worker)
    requires w.device == "" && w.addr != ""
    ensures var s := Run(LosingRun(w));
            Quiet(s) && s.overall == OneShare() && MapSum(OnFile(s.table)) == Zero()
  {
    hide LookUp, Run, MapSum, Bump, OneShare;
    var a := LosingRun(w);
    EnterStep(a, w);
    ShareTo(a, 1, OneRow(w, Zero()));
    BumpFirst(OneRow(w, Zero()), OneShare());
    assert Bump(OneRow(w, Zero()), 0, OneShare()) == OneRow(w, OneShare());
    TouchesTo(a, 4, w, State(OneRow(w, OneShare()), OneShare(), [Handler(0, 0, NoBlock, Done)]), OneShare());
    OverwrittenShowsNothing(w, OneShare());
    assert a[..7] == a;
  }

  /** The second way: the lookups only overwrite an empty row, and then the share is counted in it. */
  lemma LateShareIsLost(w: Worker)
    requires w.device == "" && w.addr != ""
    ensures var s := Run(LateRun(w));
            Quiet(s) && s.overall == OneShare() && MapSum(OnFile(s.table)) == Zero()
    ensures Lost(Run(LateRun(w)[..5]).table) == Zero() && Loses(Run(LateRun(w)[..5]), LateRun(w)[5])
  {
    hide LookUp, Run, MapSum, Bump, OneShare;
    var a := LateRun(w);
    EnterStep(a, w);
    TouchesTo(a, 1, w, State(OneRow(w, Zero()), Zero(), [Handler(0, 0, NoBlock, Judging)]), Zero());
    ShareTo(a, 4, Overwritten(w, Zero()));
    BumpFirst(Overwritten(w, Zero()), OneShare());
    assert Bump(Overwritten(w, Zero()), 0, OneShare()) == Overwritten(w, OneShare());
    OverwrittenShowsNothing(w, OneShare());
    OverwrittenLost(w);
    assert a[..7] == a;
  }

  lemma OverwrittenLost(w: Worker)
    ensures !IsFiled(Overwritten(w, Zero()), 0) && Lost(Overwritten(w, Zero())) == Zero()
  {
    hide Zero, Plus;
    var t := Overwritten(w, Zero());
    assert t.filed.Keys == {""} && t.filed[""] == 1;
    assert !IsFiled(t, 0);
    assert IsFiled(t, 1) by {
      assert t.filed[""] in t.filed.Values;
    }
    PlusLaws(Zero(), Zero(), Zero());
    assert Evicted(t, 1) == Plus(Evicted(t, 0), t.rows[0].counters);
  }
}
