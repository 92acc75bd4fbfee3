/** The table of per-worker statistics as a value: rows that live forever, and the names they are filed under. */
module StatsTables {
  import opened Sets

  datatype Counters = Counters(shares: nat, blocks: nat, stale: nat, invalid: nat)

  function Zero(): Counters {
    Counters(0, 0, 0, 0)
  }

  function Plus(a: Counters, b: Counters): Counters {
    Counters(a.shares + b.shares, a.blocks + b.blocks, a.stale + b.stale, a.invalid + b.invalid)
  }

  predicate AtMost(a: Counters, b: Counters) {
    a.shares <= b.shares && a.blocks <= b.blocks && a.stale <= b.stale && a.invalid <= b.invalid
  }

  datatype Row = Row(counters: Counters, deviceName: string, appNameOrVer: string)

  /** Every row ever created, by creation order, and the rows on file. */
  datatype Table = Table(rows: seq<Row>, filed: map<string, nat>)

  function EmptyTable(): Table {
    Table([], map[])
  }

  /** Each row on file exists and carries the name it is filed under; so no two names share a row. */
  predicate ValidTable(t: Table) {
    forall k :: k in t.filed ==> t.filed[k] < |t.rows| && t.rows[t.filed[k]].deviceName == k
  }

  // ---------- operations ----------

  /** Files the row of `addr` under `device` instead. */
  function Refile(t: Table, device: string, addr: string): Table
    requires addr in t.filed && t.filed[addr] < |t.rows|
  {
    var r := t.filed[addr];
    Table(t.rows[r := t.rows[r].(deviceName := device)], (t.filed - {addr})[device := r])
  }

  function Labelled(t: Table, r: nat, app: string): Table
    requires r < |t.rows|
  {
    t.(rows := t.rows[r := t.rows[r].(appNameOrVer := app)])
  }

  /** getCreateStats: the row found under the device name, or moved there from the address, or created. */
  function GetCreate(t: Table, device: string, addr: string, app: string): (result: (Table, nat))
    requires ValidTable(t)
    ensures ValidTable(result.0)
    ensures result.1 < |result.0.rows|
    ensures |t.rows| <= |result.0.rows|
  {
    if device != "" && device in t.filed then
      (Labelled(t, t.filed[device], app), t.filed[device])
    else if addr in t.filed then
      (Labelled(Refile(t, device, addr), t.filed[addr], app), t.filed[addr])
    else
      (Table(t.rows + [Row(Zero(), addr, app)], t.filed[addr := |t.rows|]), |t.rows|)
  }

  function Bump(t: Table, r: nat, delta: Counters): Table
    requires r < |t.rows|
  {
    t.(rows := t.rows[r := t.rows[r].(counters := Plus(t.rows[r].counters, delta))])
  }

  // ---------- what looking a row up does to the table ----------

  /** Row q is as it was. */
  predicate SameRow(t: Table, t': Table, q: nat) {
    q < |t.rows| && q < |t'.rows| && t'.rows[q] == t.rows[q]
  }

  /** Row q counts what it counted. */
  predicate SameCounters(t: Table, t': Table, q: nat) {
    q < |t.rows| && q < |t'.rows| && t'.rows[q].counters == t.rows[q].counters
  }

  /** A name stands for the row it stood for, if any. */
  predicate SameName(t: Table, t': Table, k: string) {
    (k in t'.filed <==> k in t.filed) && (k in t.filed ==> t'.filed[k] == t.filed[k])
  }

  /**
   * Which row a lookup returns and where that row is filed: the one under the device name, where it stays; or else the one
   * under the address, which moves from there to the device name; or else a new one, with no counts, under the address.
   * Every other name stands for what it did, every other row is untouched, and no row loses a count.
   */
  lemma GetCreateFiles(t: Table, device: string, addr: string, app: string)
    requires ValidTable(t)
    ensures var (t', r) := GetCreate(t, device, addr, app);
            var known, moves := device != "" && device in t.filed, addr in t.filed;
            && (known ==> r == t.filed[device] && t'.filed == t.filed)
            && (!known && moves ==>
                  r == t.filed[addr] && device in t'.filed && t'.filed[device] == r && (addr != device ==> addr !in t'.filed))
            && (!known && !moves ==>
                  r == |t.rows| && addr in t'.filed && t'.filed[addr] == r && t'.rows[r].counters == Zero())
            && (forall k :: k != device && k != addr ==> SameName(t, t', k))
            && (!known && !moves && device != addr ==> SameName(t, t', device))
            && (forall q: nat :: q < |t.rows| ==> SameCounters(t, t', q))
            && (forall q: nat :: q < |t.rows| && q != r ==> SameRow(t, t', q))
            && |t'.rows| == (if known || moves then |t.rows| else |t.rows| + 1)
            && t'.rows[r].appNameOrVer == app
  {
  }

  /** Of two lookups by the same named worker, one right after the other, both return the same row, which ends up under its name. */
  lemma NamedWorkerIsFiled(t: Table, device: string, addr: string, app: string)
    requires ValidTable(t) && device != ""
    ensures var (t1, r1) := GetCreate(t, device, addr, app);
            var (t2, r2) := GetCreate(t1, device, addr, app);
            && r2 == r1 && device in t2.filed && t2.filed[device] == r1
  {
    hide ValidTable, GetCreate;
    GetCreateFiles(t, device, addr, app);
    GetCreateFiles(GetCreate(t, device, addr, app).0, device, addr, app);
  }

  /** A lookup takes a row away from a name when it comes from an address spelled like the name, by a worker not on file. */
  predicate TakesName(t: Table, name: string, device: string, addr: string) {
    addr == name && !(device != "" && device in t.filed)
  }

  /** A device name on file keeps its row through a lookup if and only if the lookup does not take it away. */
  lemma NameKeepsRow(t: Table, name: string, device: string, addr: string, app: string)
    requires ValidTable(t) && name != "" && name in t.filed
    ensures SameName(t, GetCreate(t, device, addr, app).0, name) <==> !TakesName(t, name, device, addr)
  {
    hide ValidTable, GetCreate;
    GetCreateFiles(t, device, addr, app);
  }

  // ---------- sums ----------

  /** The total over every row ever created. */
  function RowSum(rows: seq<Row>): Counters {
    if rows == [] then Zero() else Plus(RowSum(rows[..|rows| - 1]), rows[|rows| - 1].counters)
  }

  /** The counters on file, by name. */
  function OnFile(t: Table): map<string, Counters>
    requires ValidTable(t)
  {
    map k | k in t.filed :: t.rows[t.filed[k]].counters
  }

  /** The total over a map. */
  ghost function MapSum(m: map<string, Counters>): Counters {
    if m == map[] then Zero()
    else
      var k := AnyKey(m);
      Plus(m[k], MapSum(m - {k}))
  }

  ghost function AnyKey(m: map<string, Counters>): (k: string)
    requires m != map[]
    ensures k in m
  {
    assert exists k :: k in m by {
      ghost var k := Member(m.Keys);
    }
    var k :| k in m;
    k
  }

  /** Rows that are on file count; rows that dropped out do not. */
  predicate IsFiled(t: Table, r: nat) {
    r in t.filed.Values
  }

  function Evicted(t: Table, n: nat): Counters
    requires n <= |t.rows|
  {
    if n == 0 then Zero()
    else Plus(Evicted(t, n - 1), if IsFiled(t, n - 1) then Zero() else t.rows[n - 1].counters)
  }

  /** The total over the rows that dropped out of the table. */
  function Lost(t: Table): Counters {
    Evicted(t, |t.rows|)
  }

  lemma PlusLaws(a: Counters, b: Counters, c: Counters)
    ensures Plus(Plus(a, b), c) == Plus(a, Plus(b, c)) && Plus(a, b) == Plus(b, a) && Plus(a, Zero()) == a
  {
  }

  /** The total does not depend on the order in which the names are taken. */
  lemma {:induction false} MapSumPick(m: map<string, Counters>, k: string)
    requires k in m
    ensures MapSum(m) == Plus(m[k], MapSum(m - {k}))
    decreases |m|
  {
    var j := AnyKey(m);
    if j != k {
      MapSumPick(m - {j}, k);
      MapSumPick(m - {k}, j);
      assert m - {j} - {k} == m - {k} - {j};
    }
  }

  lemma {:induction false} EvictedSame(t: Table, t': Table, n: nat)
    requires n <= |t.rows| && n <= |t'.rows|
    requires forall r: nat :: r < n ==> t'.rows[r].counters == t.rows[r].counters && (IsFiled(t, r) <==> IsFiled(t', r))
    ensures Evicted(t', n) == Evicted(t, n)
  {
    if n > 0 {
      EvictedSame(t, t', n - 1);
    }
  }

  /** Taking one row off file adds its counters to those that are lost. */
  lemma {:induction false} EvictedMore(t: Table, t': Table, r: nat, n: nat)
    requires n <= |t.rows| && t'.rows == t.rows && r < |t.rows|
    requires IsFiled(t, r) && !IsFiled(t', r)
    requires forall q: nat :: q != r ==> (IsFiled(t, q) <==> IsFiled(t', q))
    ensures Evicted(t', n) == if r < n then Plus(Evicted(t, n), t.rows[r].counters) else Evicted(t, n)
  {
    if n > 0 {
      EvictedMore(t, t', r, n - 1);
    }
  }

  lemma {:induction false} EvictedAll(t: Table, n: nat)
    requires n <= |t.rows| && t.filed == map[]
    ensures Evicted(t, n) == RowSum(t.rows[..n])
  {
    if n > 0 {
      EvictedAll(t, n - 1);
      assert t.rows[..n][..n - 1] == t.rows[..n - 1];
    }
  }

  /** What is on file and what was lost make up everything that was ever counted. */
  lemma {:induction false} FiledPlusLost(t: Table)
    requires ValidTable(t)
    ensures Plus(MapSum(OnFile(t)), Lost(t)) == RowSum(t.rows)
    decreases |t.filed|
  {
    if t.filed == map[] {
      EvictedAll(t, |t.rows|);
      assert t.rows[..|t.rows|] == t.rows;
      assert OnFile(t) == map[];
    } else {
      var k := AnyKey(OnFile(t));
      var r, t' := t.filed[k], t.(filed := t.filed - {k});
      forall q: nat
        ensures q != r ==> (IsFiled(t, q) <==> IsFiled(t', q))
        ensures !IsFiled(t', r)
      {
        FiledWithout(t, k, q);
        FiledWithout(t, k, r);
      }
      assert k in t.filed.Keys && IsFiled(t, r);
      EvictedMore(t, t', r, |t.rows|);
      FiledPlusLost(t');
      assert OnFile(t') == OnFile(t) - {k};
      MapSumPick(OnFile(t), k);
    }
  }

  lemma FiledWithout(t: Table, k: string, q: nat)
    requires ValidTable(t) && k in t.filed
    ensures IsFiled(t.(filed := t.filed - {k}), q) <==> IsFiled(t, q) && q != t.filed[k]
  {
    var t' := t.(filed := t.filed - {k});
    if IsFiled(t, q) && q != t.filed[k] {
      var j :| j in t.filed && t.filed[j] == q;
      assert j in t'.filed && t'.filed[j] == q;
    }
    if IsFiled(t', q) {
      var j :| j in t'.filed && t'.filed[j] == q;
      assert j in t.filed && t.filed[j] == q;
    }
  }

  // ---------- what looking a row up does to the sums ----------

  /** The row that getCreateStats pushes out of the table: the one under "" when a nameless worker's row takes its place. */
  function Dropped(t: Table, device: string, addr: string): Counters
    requires ValidTable(t)
  {
    if Overwrites(t, device, addr) then t.rows[t.filed[""]].counters else Zero()
  }

  predicate Overwrites(t: Table, device: string, addr: string) {
    device == "" && addr != "" && addr in t.filed && "" in t.filed
  }

  lemma {:induction false} RowSumUpdate(rows: seq<Row>, r: nat, row: Row)
    requires r < |rows|
    ensures Plus(RowSum(rows[r := row]), rows[r].counters) == Plus(RowSum(rows), row.counters)
  {
    var n := |rows| - 1;
    if r == n {
      assert rows[r := row][..n] == rows[..n];
    } else {
      assert rows[r := row][..n] == rows[..n][r := row];
      RowSumUpdate(rows[..n], r, row);
    }
  }

  /** Which rows are on file after a row has been refiled. */
  lemma RefiledRows(t: Table, device: string, addr: string, q: nat)
    requires ValidTable(t) && addr in t.filed
    ensures IsFiled(Refile(t, device, addr), q)
       <==> IsFiled(t, q) && !(device != addr && device in t.filed && q == t.filed[device])
  {
    var t', r := Refile(t, device, addr), t.filed[addr];
    if IsFiled(t, q) {
      var j :| j in t.filed && t.filed[j] == q;
      assert t'.filed[device] == r;
      assert j != addr && j != device ==> j in t'.filed && t'.filed[j] == q;
    }
    if IsFiled(t', q) {
      var j :| j in t'.filed && t'.filed[j] == q;
      assert j == device ==> t.filed[addr] == q;
      assert j != device ==> j in t.filed && t.filed[j] == q;
    }
  }

  lemma RefileLoses(t: Table, device: string, addr: string)
    requires ValidTable(t) && addr in t.filed && (device == "" || device !in t.filed)
    ensures Lost(Refile(t, device, addr)) == Plus(Lost(t), Dropped(t, device, addr))
  {
    var t' := Refile(t, device, addr);
    var mid := t.(filed := t'.filed);
    forall q: nat
      ensures IsFiled(mid, q) <==> IsFiled(t, q) && !(device != addr && device in t.filed && q == t.filed[device])
    {
      RefiledRows(t, device, addr, q);
    }
    EvictedSame(mid, t', |t.rows|);
    if Overwrites(t, device, addr) {
      assert IsFiled(t, t.filed[""]);
      EvictedMore(t, mid, t.filed[""], |t.rows|);
    } else {
      EvictedSame(t, mid, |t.rows|);
    }
  }

  lemma CreateLoses(t: Table, t': Table, addr: string, row: Row)
    requires ValidTable(t) && addr !in t.filed && row.counters == Zero()
    requires t' == Table(t.rows + [row], t.filed[addr := |t.rows|])
    ensures Lost(t') == Lost(t)
  {
    hide Evicted;
    var n := |t.rows|;
    forall q: nat
      ensures IsFiled(t', q) <==> IsFiled(t, q) || q == n
    {
      CreatedRows(t, t', addr, q);
    }
    assert !IsFiled(t, n);
    EvictedSame(t, t', n);
    EvictedStep(t', n);
  }

  lemma EvictedStep(t: Table, n: nat)
    requires n < |t.rows| && IsFiled(t, n)
    ensures Evicted(t, n + 1) == Evicted(t, n)
  {
  }

  lemma CreatedRows(t: Table, t': Table, addr: string, q: nat)
    requires addr !in t.filed && t'.filed == t.filed[addr := |t.rows|]
    ensures IsFiled(t', q) <==> IsFiled(t, q) || q == |t.rows|
  {
    if IsFiled(t, q) {
      var j :| j in t.filed && t.filed[j] == q;
      assert t'.filed[j] == q;
    }
    if IsFiled(t', q) {
      var j :| j in t'.filed && t'.filed[j] == q;
      assert j != addr ==> j in t.filed && t.filed[j] == q;
    }
    assert t'.filed[addr] == |t.rows|;
  }

  lemma LabelKeepsLost(t: Table, r: nat, app: string)
    requires r < |t.rows|
    ensures Lost(Labelled(t, r, app)) == Lost(t)
  {
    EvictedSame(t, Labelled(t, r, app), |t.rows|);
  }

  /** Looking a row up counts nothing, and loses exactly the row it overwrites. */
  lemma GetCreateSums(t: Table, device: string, addr: string, app: string)
    requires ValidTable(t)
    ensures var t' := GetCreate(t, device, addr, app).0;
            && RowSum(t'.rows) == RowSum(t.rows)
            && Lost(t') == Plus(Lost(t), Dropped(t, device, addr))
  {
    hide RowSum, Evicted;
    if device != "" && device in t.filed {
      var r := t.filed[device];
      RowSumUpdate(t.rows, r, t.rows[r].(appNameOrVer := app));
      LabelKeepsLost(t, r, app);
    } else if addr in t.filed {
      var r, t1 := t.filed[addr], Refile(t, device, addr);
      RowSumUpdate(t.rows, r, t1.rows[r]);
      RowSumUpdate(t1.rows, r, t1.rows[r].(appNameOrVer := app));
      RefileLoses(t, device, addr);
      LabelKeepsLost(t1, r, app);
    } else {
      var row := Row(Zero(), addr, app);
      RowSumAppend(t.rows, row);
      CreateLoses(t, GetCreate(t, device, addr, app).0, addr, row);
    }
  }

  lemma RowSumAppend(rows: seq<Row>, row: Row)
    ensures RowSum(rows + [row]) == Plus(RowSum(rows), row.counters)
  {
    assert (rows + [row])[..|rows|] == rows;
  }

  /** The totals on file change by exactly what is overwritten. */
  lemma GetCreateConserves(t: Table, device: string, addr: string, app: string)
    requires ValidTable(t)
    ensures Plus(MapSum(OnFile(GetCreate(t, device, addr, app).0)), Dropped(t, device, addr)) == MapSum(OnFile(t))
  {
    hide GetCreate, RowSum, MapSum, Lost, Dropped, OnFile;
    var t' := GetCreate(t, device, addr, app).0;
    GetCreateSums(t, device, addr, app);
    FiledPlusLost(t);
    FiledPlusLost(t');
  }

  // ---------- named workers ----------

  /** No row has dropped out. */
  predicate AllFiled(t: Table) {
    forall r: nat :: r < |t.rows| ==> IsFiled(t, r)
  }

  lemma {:induction false} AllFiledLosesNothing(t: Table, n: nat)
    requires AllFiled(t) && n <= |t.rows|
    ensures Evicted(t, n) == Zero()
  {
    if n > 0 {
      AllFiledLosesNothing(t, n - 1);
    }
  }

  /** Workers with a name never push a row out. */
  lemma NamedKeepsFiled(t: Table, device: string, addr: string, app: string)
    requires ValidTable(t) && AllFiled(t) && device != ""
    ensures AllFiled(GetCreate(t, device, addr, app).0)
  {
    var t' := GetCreate(t, device, addr, app).0;
    forall q: nat | q < |t'.rows|
      ensures IsFiled(t', q)
    {
      if device in t.filed {
        assert IsFiled(t, q);
      } else if addr in t.filed {
        RefiledRows(t, device, addr, q);
      } else {
        CreatedRows(t, t', addr, q);
      }
    }
  }
}
