/** Submits: validating them, composing their nonce, judging them and counting them. */
module ShareHandlers {
  import opened GoInts
  import opened Digits
  import opened JobRing
  import opened HeaderStream
  import opened Nonces
  import opened Sessions
  import opened StatsTables
  import opened StatsRuns

  // ---------- validation ----------

  datatype Refusal = Malformed | MissingJob | BadNonce

  /** What a submit asks for, once it is understood. */
  datatype Understood =
    | Refused(why: Refusal)
    | Work(block: Header, nonce: int)

  /** A submit is understood from its job id, the jobs issued, and its nonce put behind the extranonce. */
  function Understand(c: Conn, params: seq<Param>): Understood {
    if |params| < 3 || !params[1].Str? then Refused(Malformed)
    else
      match ParseInt(params[1].text)
      case SyntaxError => Refused(Malformed)
      case RangeError => Refused(Malformed)
      case Num(id) =>
        match Lookup(c.mining.log, id)
        case None => Refused(MissingJob)
        case Some(block) =>
          if !params[2].Str? then Refused(Malformed)
          else
            match NonceVal(c.extranonce, params[2].text)
            case Num(nonce) => Work(block, nonce)
            case SyntaxError => Refused(BadNonce)
            case RangeError => Refused(BadNonce)
  }

  /** An accepted submit was made for a job of this connection, with a nonce of 64 bits. */
  lemma UnderstoodWork(c: Conn, params: seq<Param>)
    requires Understand(c, params).Work?
    ensures c.mining.log != [] && Understand(c, params).block in c.mining.log
    ensures 0 <= Understand(c, params).nonce < TWO_64
  {
    ParseUintMeaning(Compose(c.extranonce, StripHexPrefix(params[2].text)), 16);
  }

  /** A submit has its three parameters, and its job id is an int. */
  predicate NamesJob(params: seq<Param>) {
    |params| >= 3 && params[1].Str? && ParseInt(params[1].text).Num?
  }

  /** Exactly when a submit is understood, and when it is refused for which reason. */
  lemma UnderstoodExactly(c: Conn, params: seq<Param>)
    ensures var u := Understand(c, params);
            var found := NamesJob(params) && Lookup(c.mining.log, ParseInt(params[1].text).value).Some?;
            var nonce := if found && params[2].Str? then NonceVal(c.extranonce, params[2].text) else SyntaxError;
            && (u.Work? <==> found && params[2].Str? && nonce.Num?)
            && (u.Work? ==> u == Work(Lookup(c.mining.log, ParseInt(params[1].text).value).value, nonce.value))
            && (u == Refused(MissingJob) <==> NamesJob(params) && !found)
            && (u == Refused(BadNonce) <==> found && params[2].Str? && !nonce.Num?)
            && (u == Refused(Malformed) <==> !NamesJob(params) || (found && !params[2].Str?))
  {
    hide ParseInt, Lookup, NonceVal;
  }

  /** What happens to a submit in the end. */
  datatype Outcome =
    | Ignored(why: Refusal)
    | NotConverted
    | Counted(hashValue: real, replied: bool)

  /** The network and the node: which verdict a block gets with a nonce. */
  type Network = (Header, int) -> Verdict

  // ---------- counters ----------

  class WorkStats {
    var counters: Counters
    var deviceName: string
    var appNameOrVer: string

    constructor (deviceName: string)
      ensures counters == Zero() && this.deviceName == deviceName && appNameOrVer == ""
    {
      counters, this.deviceName, appNameOrVer := Zero(), deviceName, "";
    }

    ghost function View(): Row
      reads this
    {
      Row(counters, deviceName, appNameOrVer)
    }

    method Add(delta: Counters)
      modifies this`counters
      ensures counters == Plus(old(counters), delta)
    {
      counters := Plus(counters, delta);
    }
  }

  ghost function Rows(pool: seq<WorkStats>): (rows: seq<Row>)
    reads pool
    ensures |rows| == |pool|
    ensures forall i :: 0 <= i < |pool| ==> rows[i] == pool[i].View()
  {
    seq(|pool|, i requires 0 <= i < |pool| reads pool => pool[i].View())
  }

  lemma LabelledNew(t: Table, addr: string, app: string)
    ensures Labelled(Table(t.rows + [Row(Zero(), addr, "")], t.filed[addr := |t.rows|]), |t.rows|, app)
         == Table(t.rows + [Row(Zero(), addr, app)], t.filed[addr := |t.rows|])
  {
  }

  lemma RefileValid(t: Table, device: string, addr: string)
    requires ValidTable(t) && addr in t.filed && (device == "" || device !in t.filed)
    ensures ValidTable(Refile(t, device, addr))
  {
  }

  class ShareHandler {
    var stats: map<string, WorkStats>
    const overall: WorkStats
    /** Every row ever created, and which of them each name stands for. */
    ghost var pool: seq<WorkStats>
    ghost var refs: map<string, nat>

    ghost function View(): Table
      reads this, pool
    {
      Table(Rows(pool), refs)
    }

    /** No object is filed twice in the pool, and the map of objects is the map of pool positions. */
    ghost predicate Shape()
      reads this
    {
      && overall !in pool
      && (forall i, j :: 0 <= i < j < |pool| ==> pool[i] != pool[j])
      && refs.Keys == stats.Keys
      && (forall k :: k in stats ==> refs[k] < |pool| && stats[k] == pool[refs[k]])
    }

    ghost predicate Valid()
      reads this, pool
    {
      Shape() && ValidTable(View())
    }

    constructor ()
      ensures Valid() && fresh(overall)
      ensures View() == EmptyTable() && overall.counters == Zero()
    {
      stats, pool, refs := map[], [], map[];
      overall := new WorkStats("");
    }

    /** The pool position of a filed row. */
    ghost function FiledAt(name: string): (r: nat)
      requires Shape() && name in stats
      reads this
      ensures r < |pool| && pool[r] == stats[name]
    {
      refs[name]
    }

    method RenameRow(row: WorkStats, device: string, ghost r: nat)
      requires Shape() && r < |pool| && row == pool[r]
      modifies row`deviceName
      ensures Rows(pool) == old(Rows(pool))[r := old(Rows(pool))[r].(deviceName := device)]
    {
      ghost var before := Rows(pool);
      row.deviceName := device;
      assert Rows(pool) == before[r := before[r].(deviceName := device)];
    }

    /** Files the row under another name. */
    method RebindRow(row: WorkStats, device: string, addr: string, ghost r: nat)
      requires Shape() && addr in stats && row == stats[addr] && r == refs[addr]
      modifies this`stats, this`refs
      ensures Shape()
      ensures refs == (old(refs) - {addr})[device := r]
    {
      stats := stats - {addr};
      stats := stats[device := row];
      refs := (refs - {addr})[device := r];
    }

    /** Moves the row under the address to the device name. */
    method RefileRow(device: string, addr: string) returns (row: WorkStats, ghost r: nat)
      requires Valid() && addr in stats && (device == "" || device !in stats)
      modifies this`stats, this`refs, pool
      ensures Valid() && pool == old(pool)
      ensures View() == Refile(old(View()), device, addr)
      ensures r == old(refs)[addr]
      ensures r < |pool| && row == pool[r]
    {
      row, r := stats[addr], FiledAt(addr);
      ghost var before := View();
      RefileValid(before, device, addr);
      hide ValidTable, Rows;
      RenameRow(row, device, r);
      RebindRow(row, device, addr, r);
      assert View() == Refile(before, device, addr);
    }

    /** Files a new row under the address. */
    method CreateRow(addr: string) returns (row: WorkStats, ghost r: nat)
      requires Valid() && addr !in stats
      modifies this`stats, this`refs, this`pool
      ensures Valid() && fresh(row) && pool == old(pool) + [row] && r == |old(pool)|
      ensures View() == Table(old(View()).rows + [Row(Zero(), addr, "")], old(View()).filed[addr := r])
    {
      row := new WorkStats(addr);
      r := |pool|;
      stats := stats[addr := row];
      refs := refs[addr := r];
      pool := pool + [row];
      assert Rows(pool) == old(View()).rows + [Row(Zero(), addr, "")];
    }

    /** Stamps a row with the client's application. */
    method LabelRow(row: WorkStats, app: string, ghost r: nat)
      requires Valid() && r < |pool| && row == pool[r]
      modifies row`appNameOrVer
      ensures Valid() && View() == Labelled(old(View()), r, app)
    {
      ghost var before := Rows(pool);
      row.appNameOrVer := app;
      assert Rows(pool) == before[r := before[r].(appNameOrVer := app)];
    }

    method GetCreateStats(ctx: WorkerContext) returns (row: WorkStats, ghost r: nat)
      requires Valid()
      modifies this, pool
      ensures Valid()
      ensures (View(), r) == LookUp(old(View()), WorkerOf(ctx))
      ensures WorkerOf(ctx) == Worker(ctx.deviceName, ctx.remoteAddr, ctx.appName + "/" + ctx.appVersion)
      ensures r < |pool| && row == pool[r]
      ensures old(pool) <= pool && fresh(set s | s in pool && s !in old(pool))
    {
      hide ValidTable, Refile, Labelled, Rows;
      if ctx.deviceName != "" && ctx.deviceName in stats {
        row, r := stats[ctx.deviceName], FiledAt(ctx.deviceName);
      } else if ctx.remoteAddr in stats {
        row, r := RefileRow(ctx.deviceName, ctx.remoteAddr);
      } else {
        row, r := CreateRow(ctx.remoteAddr);
        LabelledNew(old(View()), ctx.remoteAddr, AppOf(ctx));
      }
      LabelRow(row, AppOf(ctx), r);
    }

    /** Adds to one row; every other row stays. */
    method AddToRow(row: WorkStats, delta: Counters, ghost r: nat)
      requires Valid() && r < |pool| && row == pool[r]
      modifies row`counters
      ensures Valid() && View() == Bump(old(View()), r, delta)
    {
      ghost var before := Rows(pool);
      row.Add(delta);
      assert Rows(pool) == before[r := before[r].(counters := Plus(before[r].counters, delta))];
    }

    /** validateSubmit: the job and the nonce text of a submit, or why it is refused. */
    method ValidateSubmit(ctx: WorkerContext, params: seq<Param>) returns (job: Option<(Header, string)>, why: Refusal)
      requires ctx.Valid()
      ensures job.Some? ==> |params| >= 3 && params[2].Str? && Stripped(params[2].text, job.value.1)
      ensures var u := Understand(ctx.View(), params);
              if job.None? then u == Refused(why)
              else match NonceVal(ctx.extranonce, params[2].text)
                   case Num(nonce) => u == Work(job.value.0, nonce)
                   case _ => u == Refused(BadNonce)
    {
      why := Malformed;
      if |params| < 3 {
        return None, Malformed;
      }
      if !params[1].Str? {
        return None, Malformed;
      }
      var jobId := ParseInt(params[1].text);
      if !jobId.Num? {
        return None, Malformed;
      }
      var block := ctx.state.GetJob(jobId.value);
      if block.None? {
        return None, MissingJob;
      }
      if !params[2].Str? {
        return None, Malformed;
      }
      StripMeaning(params[2].text, StripHexPrefix(params[2].text));
      return Some((block.value, StripHexPrefix(params[2].text))), Malformed;
    }

    /** temp_kasp_submit after SubmitBlock has answered: the verdict is counted in the row and overall. */
    method CountVerdict(ctx: WorkerContext, verdict: Verdict)
      requires Valid()
      modifies this, pool, overall`counters
      ensures Valid() && old(pool) <= pool && fresh(set s | s in pool && s !in old(pool))
      ensures var (t, r) := LookUp(old(View()), WorkerOf(ctx)); View() == Bump(t, r, VerdictCount(verdict))
      ensures overall.counters == Plus(old(overall.counters), VerdictCount(verdict))
    {
      hide LookUp, ValidTable, Bump, Rows, Plus, VerdictCount;
      var row, r := GetCreateStats(ctx);
      AddToRow(row, VerdictCount(verdict), r);
      overall.Add(VerdictCount(verdict));
    }

    /** TempKaspHandleSubmit, from the raw parameters to the reply. */
    method TempKaspHandleSubmit(ctx: WorkerContext, params: seq<Param>, converts: bool, network: Network, sent: bool)
      returns (outcome: Outcome)
      requires Valid() && ctx.Valid()
      requires ctx.state.log != [] ==> ctx.state.stratumDiff.Some?
      modifies this, pool, overall`counters
      ensures Valid()
      ensures match Understand(ctx.View(), params)
              case Refused(why) =>
                outcome == Ignored(why) && View() == old(View()) && overall.counters == old(overall.counters)
              case Work(block, nonce) =>
                if !converts then
                  && outcome == NotConverted && overall.counters == old(overall.counters)
                  && View() == LookUp(old(View()), WorkerOf(ctx)).0
                else
                  && (View(), overall.counters)
                     == Alone(old(View()), old(overall.counters), WorkerOf(ctx), network(block, nonce))
                  && ctx.state.stratumDiff.Some?
                  && outcome == Counted(ctx.state.stratumDiff.value.hashValue, Delivered(ctx.View(), sent))
    {
      hide LookUp, Alone, ValidTable, Rows, Understand;
      var work := ReadSubmit(ctx, params);
      if work.Refused? {
        return Ignored(work.why);
      }
      UnderstoodWork(ctx.View(), params);
      if !converts {
        var _, _ := GetCreateStats(ctx);
        return NotConverted;
      }
      CountSubmit(ctx, network(work.block, work.nonce));
      var replied := ctx.Reply(sent);
      return Counted(ctx.state.stratumDiff.value.hashValue, replied);
    }

    /** The part of TempKaspHandleSubmit up to the parsed nonce. */
    method ReadSubmit(ctx: WorkerContext, params: seq<Param>) returns (work: Understood)
      requires ctx.Valid()
      ensures work == Understand(ctx.View(), params)
    {
      hide Lookup, Understand, StripHexPrefix, Stripped, ParseUint, PadLeft;
      var job, why := ValidateSubmit(ctx, params);
      if job.None? {
        return Refused(why);
      }
      var (block, nonceStr) := job.value;
      StripMeaning(params[2].text, nonceStr);
      if ctx.extranonce != "" {
        var extranonce2Len := 16 - |ctx.extranonce|;
        if |nonceStr| <= extranonce2Len {
          nonceStr := ctx.extranonce + PadLeft(nonceStr, extranonce2Len);
        }
      }
      var parsed := ParseUint(nonceStr, 16);
      if !parsed.Num? {
        return Refused(BadNonce);
      }
      return Work(block, parsed.value);
    }

    /** The part of TempKaspHandleSubmit that looks the row up, counts the verdict if there is one, and counts the share. */
    method CountSubmit(ctx: WorkerContext, verdict: Verdict)
      requires Valid()
      modifies this, pool, overall`counters
      ensures Valid()
      ensures (View(), overall.counters) == Alone(old(View()), old(overall.counters), WorkerOf(ctx), verdict)
    {
      hide LookUp, ValidTable, Bump, Rows, Plus, VerdictCount, OneShare;
      var row, r := GetCreateStats(ctx);
      if !verdict.NoBlock? {
        CountVerdict(ctx, verdict);
      }
      AddToRow(row, OneShare(), r);
      overall.Add(OneShare());
    }
  }

  function AppOf(ctx: WorkerContext): string
    reads ctx
  {
    ctx.appName + "/" + ctx.appVersion
  }

  function WorkerOf(ctx: WorkerContext): Worker
    reads ctx
  {
    Worker(ctx.deviceName, ctx.remoteAddr, AppOf(ctx))
  }
}
