/** One miner's connection: what each handler makes of it. */
module Sessions {
  import opened GoInts
  import opened Digits
  import opened Bytes
  import opened JobRing
  import opened HeaderStream
  import opened JobEncodings
  import opened CompactBits
  import opened Difficulty
  import opened MiningStates
  import opened Rounding

  const KASPA: string := "kaspa"
  const ALEO: string := "aleo"
  const BIG_JOB_MINER: string := "BzMiner"
  const POOL_WALLET: string := "kaspa:qzn4fltcsh30n22f6zszvuy9pkzjnmz97dcvm740wd5l98dqw94q6s820ggvg"

  /** A parameter of an event: a string, or anything else. */
  datatype Param = Str(text: string) | OtherType

  datatype JobParams =
    | BigJob(id: string, text: string)
    | WordsJob(id: string, words: seq<nat>, timestamp: int)

  /** What the server hands to Send. */
  datatype Message =
    | SetExtranonce(extranonce: string, length: nat)
    | SetDifficulty(diff: real)
    | Notify(jobId: int, params: JobParams)

  /** One call of Send, and whether it reported success. */
  datatype Attempted = Attempted(message: Message, delivered: bool)

  datatype Conn = Conn(
    chainType: string,
    appName: string,
    appVersion: string,
    deviceCompany: string,
    deviceType: string,
    minerName: string,
    deviceName: string,
    walletAddr: string,
    extranonce: string,
    disconnecting: bool,
    mining: Mining,
    attempts: seq<Attempted>)

  // ---------- handlers on values ----------

  /** Reply and Send fail on a connection that is going away, and otherwise as the socket decides. */
  predicate Delivered(c: Conn, sent: bool) {
    !c.disconnecting && sent
  }

  function Attempt(c: Conn, m: Message, sent: bool): Conn {
    c.(attempts := c.attempts + [Attempted(m, Delivered(c, sent))])
  }

  /** A string parameter replaces the old value; a missing or other one leaves it. */
  function TextOr(params: seq<Param>, i: nat, otherwise: string): string {
    if i < |params| && params[i].Str? then params[i].text else otherwise
  }

  function Subscribed(c: Conn, params: seq<Param>, sent: bool): Conn {
    if (c.chainType == ALEO || c.chainType == KASPA) && Delivered(c, sent) then
      c.(appName := TextOr(params, 0, c.appName),
         appVersion := TextOr(params, 1, c.appVersion),
         deviceCompany := TextOr(params, 2, c.deviceCompany),
         deviceType := TextOr(params, 3, c.deviceType))
    else c
  }

  /** CleanWallet on the pool's own address, which is its only argument. */
  function CleanWallet(appName: string): string {
    if appName == KASPA then POOL_WALLET else ""
  }

  predicate WellFormedAuthorize(params: seq<Param>) {
    |params| >= 2 && params[0].Str? && params[1].Str?
  }

  /** The fields are set before the reply is sent, so they stay set when the reply fails. */
  function Authorized(c: Conn, params: seq<Param>, sent: bool, extranonceSent: bool): Conn {
    if !WellFormedAuthorize(params) then c else
      var c1 := c.(walletAddr := CleanWallet(c.appName), minerName := params[0].text, deviceName := params[1].text);
      if Delivered(c1, sent) && c1.extranonce != ""
      then Attempt(c1, SetExtranonce(c1.extranonce, |c1.extranonce|), extranonceSent)
      else c1
  }

  predicate AuthorizeSucceeds(c: Conn, params: seq<Param>, sent: bool) {
    WellFormedAuthorize(params) && Delivered(c, sent)
  }

  predicate Contains(s: string, t: string) {
    exists i :: 0 <= i <= |s| - |t| && s[i..][..|t|] == t
  }

  datatype Fetch = Template(block: Header) | BadAddress | FetchFailed

  /** The parameters announced for the job with the given id. */
  function ParamsFor(big: bool, id: int, block: Header, blake: Blake): JobParams {
    var digest := blake(Stream(block));
    if big then BigJob(PrintInt(id), LargeForm(digest, block.timestamp % TWO_64))
    else WordsJob(PrintInt(id), JobWords(digest), block.timestamp)
  }

  /** The parameters carry the block's header digest and its timestamp, in whichever form. */
  predicate JobSays(params: JobParams, block: Header, blake: Blake) {
    match params
    case BigJob(_, text) =>
      && |text| == 80 && AllDigits(text, 16)
      && HexDecode(text[..64]) == blake(Stream(block))
      && HexDecode(text[64..]) == LittleEndian(block.timestamp % TWO_64, 8)
    case WordsJob(_, words, timestamp) =>
      && |words| == 4 && WordsToBytes(words) == blake(Stream(block))
      && timestamp == block.timestamp
  }

  /** What a miner decodes from the parameters of a job is the digest and the timestamp of its template. */
  lemma ParamsSay(big: bool, id: int, block: Header, blake: Blake)
    ensures var params := ParamsFor(big, id, block, blake);
            && JobSays(params, block, blake)
            && (params.BigJob? <==> big) && params.id == PrintInt(id)
  {
    hide Stream, LargeForm, JobWords, WordsToBytes, HexDecode, LittleEndian, PrintInt, AllDigits;
    var digest := blake(Stream(block));
    LargeFormDecodes(digest, block.timestamp % TWO_64);
    WordsInvert(digest);
    assert digest[..HEADER_SIZE] == digest;
  }

  /** The state after a template was fetched and added, before anything is sent about it. */
  function Issued(c: Conn, block: Header, diff: Positive, diffSent: bool): Conn {
    var m := c.mining.(log := c.mining.log + [block], bigDiff := CalculateTarget(block.bits));
    if m.initialized then c.(mining := m) else
      Attempt(
        c.(mining := m.(initialized := true,
                        useBigJob := Contains(c.minerName, BIG_JOB_MINER),
                        stratumDiff := Some(MakeDiff(diff)))),
        SetDifficulty(diff),
        diffSent)
  }

  /** GetNotifyParams returns a job exactly then. */
  predicate JobReady(c: Conn, fetch: Fetch, diffSent: bool) {
    c.walletAddr != "" && fetch.Template? && (c.mining.initialized || Delivered(c, diffSent))
  }

  function Prepared(c: Conn, timedOut: bool, fetch: Fetch, diffSent: bool, diff: Positive): Conn {
    if c.walletAddr == "" then c.(disconnecting := c.disconnecting || timedOut)
    else match fetch
      case BadAddress => c.(disconnecting := true)
      case FetchFailed => c
      case Template(block) => Issued(c, block, diff, diffSent)
  }

  /** The job that Prepared has just added, as it is announced. */
  function NewestJob(c: Conn, blake: Blake): Message
    requires c.mining.log != []
  {
    var n := |c.mining.log|;
    Notify(IdOf(n), ParamsFor(c.mining.useBigJob, IdOf(n), c.mining.log[n - 1], blake))
  }

  function Notified(c: Conn, timedOut: bool, fetch: Fetch, diffSent: bool, jobSent: bool, diff: Positive, blake: Blake): Conn {
    var c1 := Prepared(c, timedOut, fetch, diffSent, diff);
    if JobReady(c, fetch, diffSent) then Attempt(c1, NewestJob(c1, blake), jobSent) else c1
  }

  // ---------- the worker context ----------

  class WorkerContext {
    const chainType: string
    const remoteAddr: string
    const state: MiningState
    var id: int
    var appName: string
    var appVersion: string
    var deviceCompany: string
    var deviceType: string
    var minerName: string
    var deviceName: string
    var walletAddr: string
    var extranonce: string
    var disconnecting: bool
    ghost var attempts: seq<Attempted>

    ghost predicate Valid()
      reads this, state
    {
      state.Valid()
    }

    ghost function View(): Conn
      reads this, state
    {
      Conn(chainType, appName, appVersion, deviceCompany, deviceType, minerName, deviceName, walletAddr,
           extranonce, disconnecting, state.View(), attempts)
    }

    constructor (chainType: string, remoteAddr: string)
      ensures Valid() && fresh(state)
      ensures this.remoteAddr == remoteAddr
      ensures View() == Conn(chainType, "", "", "", "", "", "", "", "", false, FRESH, [])
    {
      this.chainType := chainType;
      this.remoteAddr := remoteAddr;
      state := new MiningState();
      id := 0;
      appName, appVersion, deviceCompany, deviceType, minerName, deviceName := "", "", "", "", "", "";
      walletAddr, extranonce, disconnecting, attempts := "", "", false, [];
    }

    /** Reply: `sent` says whether the socket would take the message. */
    method Reply(sent: bool) returns (ok: bool)
      ensures ok == (!disconnecting && sent)
    {
      if disconnecting {
        return false;
      }
      return sent;
    }

    method Send(m: Message, sent: bool) returns (ok: bool)
      modifies this`attempts
      ensures attempts == old(attempts) + [Attempted(m, ok)]
      ensures ok == (!disconnecting && sent)
    {
      if disconnecting {
        attempts := attempts + [Attempted(m, false)];
        return false;
      }
      attempts := attempts + [Attempted(m, sent)];
      return sent;
    }

    method Disconnect()
      modifies this`disconnecting
      ensures disconnecting
    {
      if !disconnecting {
        disconnecting := true;
      }
    }

    method HandleSubscribe(params: seq<Param>, sent: bool) returns (ok: bool)
      modifies this
      ensures View() == Subscribed(old(View()), params, sent)
      ensures id == old(id)
      ensures ok == (chainType == ALEO || chainType == KASPA ==> Delivered(old(View()), sent))
    {
      if chainType == ALEO || chainType == KASPA {
        var replied := Reply(sent);
        if !replied {
          return false;
        }
        if |params| > 0 && params[0].Str? {
          appName := params[0].text;
        }
        if |params| > 1 && params[1].Str? {
          appVersion := params[1].text;
        }
        if |params| > 2 && params[2].Str? {
          deviceCompany := params[2].text;
        }
        if |params| > 3 && params[3].Str? {
          deviceType := params[3].text;
        }
      }
      return true;
    }

    method HandleAuthorize(params: seq<Param>, sent: bool, extranonceSent: bool) returns (ok: bool)
      modifies this
      ensures View() == Authorized(old(View()), params, sent, extranonceSent)
      ensures id == old(id)
      ensures ok == AuthorizeSucceeds(old(View()), params, sent)
    {
      if |params| < 2 {
        return false;
      }
      if !params[0].Str? {
        return false;
      }
      if !params[1].Str? {
        return false;
      }
      walletAddr := CleanWallet(appName);
      minerName := params[0].text;
      deviceName := params[1].text;
      var replied := Reply(sent);
      if !replied {
        return false;
      }
      if extranonce != "" {
        var _ := Send(SetExtranonce(extranonce, |extranonce|), extranonceSent);
      }
      return true;
    }

    /** GetNotifyParams of a kaspa node on this client. */
    method GetNotifyParams(diff: Positive, timedOut: bool, fetch: Fetch, diffSent: bool, blake: Blake)
      returns (job: Option<(int, JobParams)>)
      requires Valid()
      modifies this, state
      ensures Valid()
      ensures id == old(id)
      ensures View() == Prepared(old(View()), timedOut, fetch, diffSent, diff)
      ensures job.Some? == JobReady(old(View()), fetch, diffSent)
      ensures job.Some? ==> View().mining.log != [] && Notify(job.value.0, job.value.1) == NewestJob(View(), blake)
      ensures job.Some? ==> fetch.Template? && JobSays(job.value.1, fetch.block, blake)
    {
      hide IdOf, Table, Contains, CalculateTarget, MakeDiff, Stream, LargeForm, JobWords, PrintInt;
      if walletAddr == "" {
        if timedOut {
          Disconnect();
        }
        return None;
      }
      if fetch.BadAddress? {
        Disconnect();
        return None;
      }
      if fetch.FetchFailed? {
        return None;
      }
      var header := SerializeBlockHeader(fetch.block, blake);
      var jobId, ready := IssueJob(fetch.block, diff, diffSent);
      if !ready {
        return None;
      }
      var params := FormatJob(jobId, header, fetch.block.timestamp);
      ParamsSay(state.useBigJob, jobId, fetch.block, blake);
      hide JobSays;
      return Some((jobId, params));
    }

    /** The part of GetNotifyParams that records the template and, the first time, sends the difficulty. */
    method IssueJob(block: Header, diff: Positive, diffSent: bool) returns (jobId: int, ready: bool)
      requires Valid()
      modifies this`attempts, state
      ensures Valid()
      ensures View() == Issued(old(View()), block, diff, diffSent)
      ensures jobId == IdOf(|View().mining.log|)
      ensures ready == (old(state.initialized) || Delivered(old(View()), diffSent))
    {
      hide IdOf, Table, Contains, CalculateTarget, DiffToTarget, DiffToHash;
      state.bigDiff := CalculateTarget(block.bits);
      jobId := state.AddJob(block);
      if !state.initialized {
        state.initialized := true;
        state.useBigJob := Contains(minerName, BIG_JOB_MINER);
        state.stratumDiff := Some(MakeDiff(diff));
        ready := Send(SetDifficulty(state.stratumDiff.value.diffValue), diffSent);
      } else {
        ready := true;
      }
    }

    /** The part of GetNotifyParams that encodes the job in the form this miner understands. */
    method FormatJob(jobId: int, header: Digest, timestamp: int) returns (params: JobParams)
      ensures params == if state.useBigJob then BigJob(PrintInt(jobId), LargeForm(header, timestamp % TWO_64))
                        else WordsJob(PrintInt(jobId), JobWords(header), timestamp)
    {
      if state.useBigJob {
        var text := GenerateLargeJobParams(header, timestamp % TWO_64);
        params := BigJob(PrintInt(jobId), text);
      } else {
        var words := GenerateJobHeader(header);
        params := WordsJob(PrintInt(jobId), words, timestamp);
      }
    }

    /** What NewBlockAvailable starts for a client. */
    method SendNewJob(diff: Positive, timedOut: bool, fetch: Fetch, diffSent: bool, jobSent: bool, blake: Blake)
      requires Valid()
      modifies this, state
      ensures Valid()
      ensures id == old(id)
      ensures View() == Notified(old(View()), timedOut, fetch, diffSent, jobSent, diff, blake)
    {
      var job := GetNotifyParams(diff, timedOut, fetch, diffSent, blake);
      if job.None? {
        return;
      }
      var _ := Send(Notify(job.value.0, job.value.1), jobSent);
    }
  }
}
