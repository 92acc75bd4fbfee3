/** Whole lives of a kaspa connection, one handler at a time. */
module SessionRuns {
  import opened GoInts
  import opened Digits
  import opened JobRing
  import opened HeaderStream
  import opened JobEncodings
  import opened CompactBits
  import opened Difficulty
  import opened MiningStates
  import opened Sessions
  import opened Rounding

  datatype Event =
    | Subscribe(params: seq<Param>, sent: bool)
    | Authorize(authParams: seq<Param>, authSent: bool, extranonceSent: bool)
    | NewBlock
    | SendJob(timedOut: bool, fetch: Fetch, diffSent: bool, jobSent: bool)
    | Drop

  /** What is fixed for the server's lifetime. */
  datatype Server = Server(minShareDiff: Positive, blake: Blake)

  /** A connection and how many job senders NewBlockAvailable has started for it that have not run yet. */
  datatype Session = Session(conn: Conn, pending: nat)

  function NewSession(extranonce: string): Session {
    Session(Conn(KASPA, "", "", "", "", "", "", "", extranonce, false, FRESH, []), 0)
  }

  /** NewBlockAvailable starts a job sender for clients of this chain that are still there. */
  function Announced(s: Session): Session {
    if s.conn.appName == KASPA && !s.conn.disconnecting then s.(pending := s.pending + 1) else s
  }

  function Step(server: Server, s: Session, e: Event): Session {
    match e
    case Subscribe(params, sent) => s.(conn := Subscribed(s.conn, params, sent))
    case Authorize(params, sent, extranonceSent) =>
      var s1 := s.(conn := Authorized(s.conn, params, sent, extranonceSent));
      if AuthorizeSucceeds(s.conn, params, sent) then Announced(s1) else s1
    case NewBlock => Announced(s)
    case SendJob(timedOut, fetch, diffSent, jobSent) =>
      if s.pending == 0 then s
      else Session(Notified(s.conn, timedOut, fetch, diffSent, jobSent, server.minShareDiff, server.blake), s.pending - 1)
    case Drop => s.(conn := s.conn.(disconnecting := true))
  }

  /** The connection after the given events. */
  function Run(server: Server, extranonce: string, events: seq<Event>): Session {
    if events == [] then NewSession(extranonce)
    else Step(server, Run(server, extranonce, events[..|events| - 1]), events[|events| - 1])
  }

  // ---------- templates fetched for this connection ----------

  /** The templates that GetBlockTemplate returned during the run, oldest first. */
  function Fetched(server: Server, extranonce: string, events: seq<Event>): seq<Header> {
    if events == [] then []
    else
      var before, e := events[..|events| - 1], events[|events| - 1];
      var s := Run(server, extranonce, before);
      Fetched(server, extranonce, before)
      + if Fetches(s, e) then [e.fetch.block] else []
  }

  /** The jobs of a connection are exactly the templates fetched for it, in order. */
  lemma {:induction false} LogIsFetched(server: Server, extranonce: string, events: seq<Event>)
    ensures Run(server, extranonce, events).conn.mining.log == Fetched(server, extranonce, events)
    ensures |Fetched(server, extranonce, events)| <= |events|
  {
    hide Step;
    if events != [] {
      var before := events[..|events| - 1];
      LogIsFetched(server, extranonce, before);
      StepLog(server, Run(server, extranonce, before), events[|events| - 1]);
    }
  }

  /** A step adds a job exactly when it fetches a template for a client with a wallet. */
  lemma StepLog(server: Server, s: Session, e: Event)
    ensures Step(server, s, e).conn.mining.log
         == s.conn.mining.log
            + if Fetches(s, e) then [e.fetch.block] else []
  {
    hide Contains, MakeDiff, CalculateTarget, ParamsFor, IdOf;
  }

  // ---------- what every handler keeps ----------

  ghost predicate AtMostOneDifficulty(attempts: seq<Attempted>) {
    forall i, j :: 0 <= i < |attempts| && 0 <= j < |attempts| && attempts[i].message.SetDifficulty? && attempts[j].message.SetDifficulty? ==> i == j
  }

  ghost predicate DifficultyTried(attempts: seq<Attempted>) {
    exists i :: 0 <= i < |attempts| && attempts[i].message.SetDifficulty?
  }

  ghost predicate JobsAfterDifficulty(attempts: seq<Attempted>) {
    forall j :: 0 <= j < |attempts| && attempts[j].message.Notify? ==> DifficultyTried(attempts[..j])
  }

  /** An announced job carries the id, and the encoding in the connection's one form, of a job in the log. */
  ghost predicate Announces(m: Mining, blake: Blake, msg: Message, i: nat) {
    && 0 < i <= |m.log|
    && msg == Notify(IdOf(i), ParamsFor(m.useBigJob, IdOf(i), m.log[i - 1], blake))
  }

  ghost predicate AnnouncesSome(m: Mining, blake: Blake, msg: Message) {
    exists i: nat :: Announces(m, blake, msg, i)
  }

  ghost predicate JobsAreLogged(m: Mining, blake: Blake, attempts: seq<Attempted>) {
    forall j :: 0 <= j < |attempts| && attempts[j].message.Notify? ==> AnnouncesSome(m, blake, attempts[j].message)
  }

  predicate Settings(server: Server, m: Mining) {
    && (m.log != [] ==> m.initialized)
    && m.stratumDiff == if m.initialized then Some(MakeDiff(server.minShareDiff)) else None
  }

  ghost predicate Inv(server: Server, c: Conn) {
    && c.chainType == KASPA
    && Settings(server, c.mining)
    && (c.mining.initialized <==> DifficultyTried(c.attempts))
    && AtMostOneDifficulty(c.attempts)
    && JobsAfterDifficulty(c.attempts)
    && JobsAreLogged(c.mining, server.blake, c.attempts)
  }

  lemma AttemptOther(server: Server, c: Conn, m: Message, sent: bool)
    requires Inv(server, c)
    requires m.SetExtranonce? || (m.Notify? && c.mining.initialized && AnnouncesSome(c.mining, server.blake, m))
    ensures Inv(server, Attempt(c, m, sent))
  {
    hide MakeDiff, ParamsFor, IdOf;
    var a, b := c.attempts, Attempt(c, m, sent).attempts;
    forall j | 0 <= j < |b| && b[j].message.Notify?
      ensures DifficultyTried(b[..j])
    {
      assert b[..j] == a[..j];
      assert a[..|a|] == a;
    }
    if DifficultyTried(a) {
      var i :| 0 <= i < |a| && a[i].message.SetDifficulty?;
      assert b[i].message.SetDifficulty?;
    }
  }

  lemma AttemptDifficulty(server: Server, c: Conn, c': Conn, ok: bool)
    requires Inv(server, c) && !c.mining.initialized
    requires c'.chainType == c.chainType && c'.mining.initialized && Settings(server, c'.mining)
    requires c'.attempts == c.attempts + [Attempted(SetDifficulty(server.minShareDiff), ok)]
    ensures Inv(server, c')
  {
    hide MakeDiff, ParamsFor, IdOf;
    var a, b := c.attempts, c'.attempts;
    assert forall i :: 0 <= i < |a| ==> !a[i].message.SetDifficulty?;
    assert forall j :: 0 <= j < |a| ==> !DifficultyTried(a[..j]);
    assert b[|a|].message.SetDifficulty?;
  }

  lemma LongerLogAnnounces(m: Mining, m': Mining, blake: Blake, msg: Message)
    requires m.log <= m'.log && m.useBigJob == m'.useBigJob && AnnouncesSome(m, blake, msg)
    ensures AnnouncesSome(m', blake, msg)
  {
    hide ParamsFor, IdOf;
    var i: nat :| Announces(m, blake, msg, i);
    assert Announces(m', blake, msg, i);
  }

  lemma IssuedKeeps(server: Server, c: Conn, block: Header, diffSent: bool)
    requires Inv(server, c)
    ensures Inv(server, Issued(c, block, server.minShareDiff, diffSent))
  {
    hide MakeDiff, ParamsFor, IdOf, Contains, CalculateTarget, Announces, AnnouncesSome;
    var c' := Issued(c, block, server.minShareDiff, diffSent);
    if c.mining.initialized {
      forall j | 0 <= j < |c.attempts| && c.attempts[j].message.Notify?
        ensures AnnouncesSome(c'.mining, server.blake, c.attempts[j].message)
      {
        LongerLogAnnounces(c.mining, c'.mining, server.blake, c.attempts[j].message);
      }
    } else {
      AttemptDifficulty(server, c, c', Delivered(c, diffSent));
    }
  }

  lemma NotifiedKeeps(server: Server, c: Conn, timedOut: bool, fetch: Fetch, diffSent: bool, jobSent: bool)
    requires Inv(server, c)
    ensures Inv(server, Notified(c, timedOut, fetch, diffSent, jobSent, server.minShareDiff, server.blake))
  {
    hide MakeDiff, ParamsFor, IdOf, Contains, CalculateTarget, AtMostOneDifficulty, JobsAfterDifficulty,
      JobsAreLogged, DifficultyTried, AnnouncesSome;
    if c.walletAddr != "" && fetch.Template? {
      IssuedKeeps(server, c, fetch.block, diffSent);
      var c1 := Prepared(c, timedOut, fetch, diffSent, server.minShareDiff);
      if JobReady(c, fetch, diffSent) {
        NewestIsAnnounced(c1, server.blake);
        AttemptOther(server, c1, NewestJob(c1, server.blake), jobSent);
      }
    }
  }

  lemma NewestIsAnnounced(c: Conn, blake: Blake)
    requires c.mining.log != []
    ensures NewestJob(c, blake).Notify? && AnnouncesSome(c.mining, blake, NewestJob(c, blake))
  {
    hide ParamsFor, IdOf;
    assert Announces(c.mining, blake, NewestJob(c, blake), |c.mining.log|);
  }

  lemma StepKeeps(server: Server, s: Session, e: Event)
    requires Inv(server, s.conn)
    ensures Inv(server, Step(server, s, e).conn)
  {
    hide MakeDiff, ParamsFor, IdOf, Contains, AtMostOneDifficulty, JobsAfterDifficulty, JobsAreLogged, DifficultyTried,
      Notified;
    match e
    case Subscribe(params, sent) =>
    case Authorize(params, sent, extranonceSent) =>
      if WellFormedAuthorize(params) {
        var c1 := s.conn.(walletAddr := CleanWallet(s.conn.appName), minerName := params[0].text, deviceName := params[1].text);
        AttemptOther(server, c1, SetExtranonce(c1.extranonce, |c1.extranonce|), extranonceSent);
      }
    case NewBlock =>
    case SendJob(timedOut, fetch, diffSent, jobSent) => NotifiedKeeps(server, s.conn, timedOut, fetch, diffSent, jobSent);
    case Drop =>
  }

  /** Every reachable connection satisfies the invariant. */
  lemma {:induction false} RunKeeps(server: Server, extranonce: string, events: seq<Event>)
    ensures Inv(server, Run(server, extranonce, events).conn)
  {
    hide Inv, Step;
    if events == [] {
      FreshInv(server, extranonce);
    } else {
      RunKeeps(server, extranonce, events[..|events| - 1]);
      StepKeeps(server, Run(server, extranonce, events[..|events| - 1]), events[|events| - 1]);
    }
  }

  lemma FreshInv(server: Server, extranonce: string)
    ensures Inv(server, NewSession(extranonce).conn)
  {
  }

  /** Over a whole run the difficulty is attempted at most once and before any job. */
  lemma DifficultyOnceAndFirst(server: Server, extranonce: string, events: seq<Event>)
    ensures var a := Run(server, extranonce, events).conn.attempts;
            AtMostOneDifficulty(a) && JobsAfterDifficulty(a)
  {
    hide Run, AtMostOneDifficulty, JobsAfterDifficulty;
    RunKeeps(server, extranonce, events);
  }

  // ---------- the wallet ----------

  /** Event i is a well-formed authorize that arrives while the client calls itself a kaspa miner. */
  ghost predicate KaspaAuthorize(server: Server, extranonce: string, events: seq<Event>, i: nat) {
    && i < |events| && events[i].Authorize? && WellFormedAuthorize(events[i].authParams)
    && Run(server, extranonce, events[..i]).conn.appName == KASPA
  }

  predicate IsAuthorize(e: Event) {
    e.Authorize? && WellFormedAuthorize(e.authParams)
  }

  /** Event i is the last well-formed authorize, and it arrived under app name "kaspa". */
  ghost predicate LastAuthorizeIsKaspa(server: Server, extranonce: string, events: seq<Event>, i: nat) {
    && KaspaAuthorize(server, extranonce, events, i)
    && forall j :: i < j < |events| ==> !IsAuthorize(events[j])
  }

  lemma LastAuthorizeStays(server: Server, extranonce: string, events: seq<Event>, i: nat)
    requires events != [] && !IsAuthorize(events[|events| - 1])
    ensures LastAuthorizeIsKaspa(server, extranonce, events, i)
       <==> LastAuthorizeIsKaspa(server, extranonce, events[..|events| - 1], i)
  {
    hide Run;
    var before := events[..|events| - 1];
    if i < |before| {
      assert events[..i] == before[..i];
    }
  }

  /** A wallet is on file exactly when the last well-formed authorize came under app name "kaspa". */
  lemma {:induction false} WalletMeansAuthorized(server: Server, extranonce: string, events: seq<Event>)
    ensures Run(server, extranonce, events).conn.walletAddr != "" <==>
            exists i: nat :: LastAuthorizeIsKaspa(server, extranonce, events, i)
  {
    hide Notified, Subscribed, Announced, LastAuthorizeIsKaspa;
    if events == [] {
      NoAuthorizeYet(server, extranonce);
    } else {
      var n := |events| - 1;
      var before := events[..n];
      WalletMeansAuthorized(server, extranonce, before);
      if IsAuthorize(events[n]) {
        AuthorizeSetsWallet(server, extranonce, events);
      } else {
        WalletUnchanged(server, Run(server, extranonce, before), events[n]);
        forall i: nat
          ensures LastAuthorizeIsKaspa(server, extranonce, events, i) <==> LastAuthorizeIsKaspa(server, extranonce, before, i)
        {
          LastAuthorizeStays(server, extranonce, events, i);
        }
      }
    }
  }

  lemma NoAuthorizeYet(server: Server, extranonce: string)
    ensures Run(server, extranonce, []).conn.walletAddr == ""
    ensures forall i: nat :: !LastAuthorizeIsKaspa(server, extranonce, [], i)
  {
  }

  lemma AuthorizeSetsWallet(server: Server, extranonce: string, events: seq<Event>)
    requires events != [] && IsAuthorize(events[|events| - 1])
    ensures Run(server, extranonce, events).conn.walletAddr != "" <==>
            exists i: nat :: LastAuthorizeIsKaspa(server, extranonce, events, i)
  {
    hide Notified, Subscribed;
    var n := |events| - 1;
    var s := Run(server, extranonce, events[..n]);
    assert Run(server, extranonce, events) == Step(server, s, events[n]);
    assert Run(server, extranonce, events).conn.walletAddr == CleanWallet(s.conn.appName);
    if s.conn.appName == KASPA {
      assert LastAuthorizeIsKaspa(server, extranonce, events, n);
    } else {
      forall i: nat
        ensures !LastAuthorizeIsKaspa(server, extranonce, events, i)
      {
        if i < n {
          assert IsAuthorize(events[n]);
        }
      }
    }
  }

  lemma WalletUnchanged(server: Server, s: Session, e: Event)
    requires !IsAuthorize(e)
    ensures Step(server, s, e).conn.walletAddr == s.conn.walletAddr
  {
    hide ParamsFor, IdOf, Contains, MakeDiff;
  }

  /** No job is ever issued without an earlier authorize under app name "kaspa". */
  lemma {:induction false} JobsNeedAuthorize(server: Server, extranonce: string, events: seq<Event>)
    requires Run(server, extranonce, events).conn.mining.log != []
    ensures exists i: nat :: KaspaAuthorize(server, extranonce, events, i)
  {
    LogIsFetched(server, extranonce, events);
    var before := events[..|events| - 1];
    var i: nat;
    if Fetched(server, extranonce, before) != [] {
      LogIsFetched(server, extranonce, before);
      JobsNeedAuthorize(server, extranonce, before);
      i :| KaspaAuthorize(server, extranonce, before, i);
    } else {
      WalletMeansAuthorized(server, extranonce, before);
      i :| LastAuthorizeIsKaspa(server, extranonce, before, i);
    }
    EarlierAuthorize(server, extranonce, events, i);
  }

  lemma EarlierAuthorize(server: Server, extranonce: string, events: seq<Event>, i: nat)
    requires events != [] && KaspaAuthorize(server, extranonce, events[..|events| - 1], i)
    ensures KaspaAuthorize(server, extranonce, events, i)
  {
    assert events[..i] == events[..|events| - 1][..i];
  }

  // ---------- submits ----------

  /** Over every run: a submit whose job id is found works on one of the last 32 templates fetched, with a difficulty set. */
  lemma SubmitIsSafe(server: Server, extranonce: string, events: seq<Event>, id: int)
    requires |events| < TWO_63
    requires Lookup(Run(server, extranonce, events).conn.mining.log, id).Some?
    ensures var c, fetched := Run(server, extranonce, events).conn, Fetched(server, extranonce, events);
            && c.mining.stratumDiff == Some(MakeDiff(server.minShareDiff))
            && (exists i :: 0 <= i < |fetched| && |fetched| - 32 <= i && Lookup(c.mining.log, id) == Some(fetched[i]))
            && (exists i: nat :: KaspaAuthorize(server, extranonce, events, i))
  {
    hide Run, MakeDiff, IdOf, Slot;
    RunKeeps(server, extranonce, events);
    LogIsFetched(server, extranonce, events);
    var log := Run(server, extranonce, events).conn.mining.log;
    FoundIsRecent(log, id);
    JobsNeedAuthorize(server, extranonce, events);
    var i := Newest(|log|, Slot(id));
    assert Lookup(log, id) == Some(log[i - 1]);
  }

  /** What an announcement promises about the log. */
  predicate Answerable(m: Mining, blake: Blake, msg: Message)
    requires msg.Notify?
  {
    var id := msg.jobId;
    && 0 < id <= |m.log|
    && msg.params == ParamsFor(m.useBigJob, id, m.log[id - 1], blake)
    && JobSays(msg.params, m.log[id - 1], blake) && (msg.params.BigJob? <==> m.useBigJob)
    && ParseInt(msg.params.id) == Num(id)
    && (|m.log| - 32 < id ==> Lookup(m.log, id) == Some(m.log[id - 1]))
  }

  lemma AnnouncedIsAnswerable(m: Mining, blake: Blake, msg: Message, i: nat)
    requires |m.log| < TWO_63 && Announces(m, blake, msg, i)
    ensures Answerable(m, blake, msg)
  {
    hide ParseInt, PrintInt, Stream, LargeForm, JobWords, Lookup;
    SmallId(i);
    ParsePrintedInt(i);
    ParamsSay(m.useBigJob, i, m.log[i - 1], blake);
    hide JobSays, ParamsFor;
    if |m.log| - 32 < i {
      WindowExact(m.log, i);
    }
  }

  /** A miner that sends back the id of any of the last 32 announced jobs is answered from the template it was built from. */
  lemma AnnouncedJobIsFound(server: Server, extranonce: string, events: seq<Event>, j: nat)
    requires |events| < TWO_63
    requires var a := Run(server, extranonce, events).conn.attempts; j < |a| && a[j].message.Notify?
    ensures var c := Run(server, extranonce, events).conn; Answerable(c.mining, server.blake, c.attempts[j].message)
  {
    hide Run, Announces, Answerable, Fetched;
    RunKeeps(server, extranonce, events);
    LogIsFetched(server, extranonce, events);
    var c := Run(server, extranonce, events).conn;
    assert AnnouncesSome(c.mining, server.blake, c.attempts[j].message);
    var i: nat :| Announces(c.mining, server.blake, c.attempts[j].message, i);
    AnnouncedIsAnswerable(c.mining, server.blake, c.attempts[j].message, i);
  }

  // ---------- jobs and a difficulty that arrived ----------

  /** A job sender fetches a template for a client with a wallet. */
  predicate Fetches(s: Session, e: Event) {
    e.SendJob? && s.pending > 0 && s.conn.walletAddr != "" && e.fetch.Template?
  }

  /** The one step that tries to send the difficulty: the first template fetched for the connection. */
  predicate IssuesFirst(s: Session, e: Event) {
    Fetches(s, e) && !s.conn.mining.initialized
  }

  /** When the first template was issued, the client was still there and the socket took the difficulty. */
  predicate FirstIssueDelivers(server: Server, extranonce: string, events: seq<Event>) {
    events == [] ||
    var before, e := events[..|events| - 1], events[|events| - 1];
    var s := Run(server, extranonce, before);
    && (IssuesFirst(s, e) ==> Delivered(s.conn, e.diffSent))
    && FirstIssueDelivers(server, extranonce, before)
  }

  predicate IsDelivered(a: Attempted) {
    a.message.SetDifficulty? && a.delivered
  }

  ghost predicate DifficultyArrived(attempts: seq<Attempted>) {
    exists i :: 0 <= i < |attempts| && IsDelivered(attempts[i])
  }

  ghost predicate JobsAfterArrival(attempts: seq<Attempted>) {
    forall j :: 0 <= j < |attempts| && attempts[j].message.Notify? ==> DifficultyArrived(attempts[..j])
  }

  predicate NoJobs(attempts: seq<Attempted>) {
    forall j :: 0 <= j < |attempts| ==> !attempts[j].message.Notify?
  }

  /** What one event adds to the attempts: a difficulty only at the first issue, and then as the first thing. */
  lemma StepAttempts(server: Server, s: Session, e: Event) returns (added: seq<Attempted>)
    ensures Step(server, s, e).conn.attempts == s.conn.attempts + added
    ensures IssuesFirst(s, e) ==> added != [] && added[0] == Attempted(SetDifficulty(server.minShareDiff), Delivered(s.conn, e.diffSent))
    ensures forall i :: 0 <= i < |added| && added[i].message.SetDifficulty? ==> i == 0 && IssuesFirst(s, e)
    ensures NoJobs(added) <==> !(Fetches(s, e) && (s.conn.mining.initialized || Delivered(s.conn, e.diffSent)))
    ensures Step(server, s, e).conn.mining.initialized == (s.conn.mining.initialized || IssuesFirst(s, e))
  {
    hide MakeDiff, ParamsFor, IdOf, Contains, CalculateTarget, Notified, Subscribed;
    if e.SendJob? && s.pending > 0 {
      added := NotifiedAttempts(s.conn, e, server);
    } else {
      OtherAttempts(server, s, e);
      added := Step(server, s, e).conn.attempts[|s.conn.attempts|..];
    }
  }

  lemma OtherAttempts(server: Server, s: Session, e: Event)
    requires !e.SendJob? || s.pending == 0
    ensures var c := Step(server, s, e).conn;
            && s.conn.attempts <= c.attempts && c.mining.initialized == s.conn.mining.initialized
            && forall i :: |s.conn.attempts| <= i < |c.attempts| ==> c.attempts[i].message.SetExtranonce?
  {
    hide Notified;
  }

  lemma NotifiedAttempts(c: Conn, e: Event, server: Server) returns (added: seq<Attempted>)
    requires e.SendJob?
    ensures var c' := Notified(c, e.timedOut, e.fetch, e.diffSent, e.jobSent, server.minShareDiff, server.blake);
            var issues := c.walletAddr != "" && e.fetch.Template? && !c.mining.initialized;
            && c'.attempts == c.attempts + added
            && (issues ==> added != [] && added[0] == Attempted(SetDifficulty(server.minShareDiff), Delivered(c, e.diffSent)))
            && (forall i :: 0 <= i < |added| && added[i].message.SetDifficulty? ==> i == 0 && issues)
            && (NoJobs(added) <==> !JobReady(c, e.fetch, e.diffSent))
            && c'.mining.initialized == (c.mining.initialized || issues)
  {
    hide Prepared, ParamsFor, IdOf, MakeDiff;
    var c1 := Prepared(c, e.timedOut, e.fetch, e.diffSent, server.minShareDiff);
    added := PreparedAttempts(c, e, server);
    if JobReady(c, e.fetch, e.diffSent) {
      assert NewestJob(c1, server.blake).Notify?;
      var sent := Attempted(NewestJob(c1, server.blake), Delivered(c1, e.jobSent));
      added := added + [sent];
      assert added[|added| - 1] == sent;
    }
  }

  lemma PreparedAttempts(c: Conn, e: Event, server: Server) returns (added: seq<Attempted>)
    requires e.SendJob?
    ensures var c1 := Prepared(c, e.timedOut, e.fetch, e.diffSent, server.minShareDiff);
            var issues := c.walletAddr != "" && e.fetch.Template? && !c.mining.initialized;
            && c1.attempts == c.attempts + added
            && added == (if issues then [Attempted(SetDifficulty(server.minShareDiff), Delivered(c, e.diffSent))] else [])
            && c1.mining.initialized == (c.mining.initialized || issues)
            && (JobReady(c, e.fetch, e.diffSent) ==> c1.mining.log != [])
  {
    hide MakeDiff, Contains, CalculateTarget;
    added := Prepared(c, e.timedOut, e.fetch, e.diffSent, server.minShareDiff).attempts[|c.attempts|..];
  }

  lemma ArrivedStep(a: seq<Attempted>, added: seq<Attempted>, arrives: bool)
    requires forall i :: 0 <= i < |added| && added[i].message.SetDifficulty? ==> i == 0
    requires arrives <==> added != [] && IsDelivered(added[0])
    ensures DifficultyArrived(a + added) <==> DifficultyArrived(a) || arrives
  {
    var b := a + added;
    if DifficultyArrived(a) {
      var i :| 0 <= i < |a| && IsDelivered(a[i]);
      assert IsDelivered(b[i]);
    }
    if arrives {
      assert IsDelivered(b[|a|]);
    }
  }

  /** The difficulty has arrived exactly when it was issued and that one step delivered it. */
  lemma {:induction false} ArrivalRecorded(server: Server, extranonce: string, events: seq<Event>)
    ensures var c := Run(server, extranonce, events).conn;
            && (DifficultyArrived(c.attempts) <==> c.mining.initialized && FirstIssueDelivers(server, extranonce, events))
            && (!c.mining.initialized ==> FirstIssueDelivers(server, extranonce, events))
  {
    hide Step, DifficultyArrived;
    if events == [] {
      assert !DifficultyArrived([]) by {
        NothingArrived();
      }
    } else {
      var before, e := events[..|events| - 1], events[|events| - 1];
      var s := Run(server, extranonce, before);
      ArrivalRecorded(server, extranonce, before);
      var added := StepAttempts(server, s, e);
      ArrivedStep(s.conn.attempts, added, IssuesFirst(s, e) && Delivered(s.conn, e.diffSent));
    }
  }

  lemma NothingArrived()
    ensures !DifficultyArrived([])
  {
  }

  /** With a single difficulty attempt before all jobs, jobs follow an arrival exactly when there is one. */
  lemma ArrivalBeforeJobs(attempts: seq<Attempted>)
    requires AtMostOneDifficulty(attempts) && JobsAfterDifficulty(attempts)
    ensures JobsAfterArrival(attempts) <==> NoJobs(attempts) || DifficultyArrived(attempts)
  {
    if DifficultyArrived(attempts) {
      var k :| 0 <= k < |attempts| && IsDelivered(attempts[k]);
      forall j | 0 <= j < |attempts| && attempts[j].message.Notify?
        ensures DifficultyArrived(attempts[..j])
      {
        var i :| 0 <= i < |attempts[..j]| && attempts[..j][i].message.SetDifficulty?;
        assert attempts[i].message.SetDifficulty? && i == k;
        assert IsDelivered(attempts[..j][k]);
      }
    } else if !NoJobs(attempts) {
      var j :| 0 <= j < |attempts| && attempts[j].message.Notify?;
      assert forall i :: 0 <= i < j ==> attempts[..j][i] == attempts[i];
    }
  }

  lemma JobsAppended(a: seq<Attempted>, added: seq<Attempted>)
    ensures NoJobs(a + added) <==> NoJobs(a) && NoJobs(added)
  {
    var b := a + added;
    assert forall j :: 0 <= j < |a| ==> b[j] == a[j];
    assert forall j :: |a| <= j < |b| ==> b[j] == added[j - |a|];
    if NoJobs(b) {
      forall j | 0 <= j < |added|
        ensures !added[j].message.Notify?
      {
        assert b[|a| + j] == added[j];
      }
    }
  }

  /** Once the first issue has failed to deliver, a job is announced exactly when a second template is fetched. */
  lemma {:induction false} JobsAfterFailure(server: Server, extranonce: string, events: seq<Event>)
    requires !FirstIssueDelivers(server, extranonce, events)
    ensures NoJobs(Run(server, extranonce, events).conn.attempts) <==> |Fetched(server, extranonce, events)| <= 1
    ensures Fetched(server, extranonce, events) != []
  {
    hide Step, NoJobs;
    var before, e := events[..|events| - 1], events[|events| - 1];
    var s := Run(server, extranonce, before);
    var added := StepAttempts(server, s, e);
    JobsAppended(s.conn.attempts, added);
    if FirstIssueDelivers(server, extranonce, before) {
      FirstIssueOnly(server, extranonce, before, e);
    } else {
      ArrivalRecorded(server, extranonce, before);
      JobsAfterFailure(server, extranonce, before);
    }
  }

  /** Before the first issue no template was fetched and no job announced. */
  lemma FirstIssueOnly(server: Server, extranonce: string, before: seq<Event>, e: Event)
    requires IssuesFirst(Run(server, extranonce, before), e)
    ensures Fetched(server, extranonce, before) == [] && NoJobs(Run(server, extranonce, before).conn.attempts)
  {
    hide Run, JobsAfterDifficulty, DifficultyTried, JobsAreLogged, AtMostOneDifficulty, NoJobs;
    RunKeeps(server, extranonce, before);
    LogIsFetched(server, extranonce, before);
    NoDifficultyNoJobs(Run(server, extranonce, before).conn.attempts);
  }

  /**
   * Over every run, each announced job comes after a difficulty that arrived if and only if the step that issued the
   * first template delivered its difficulty, or no second template was fetched.
   */
  lemma JobsFollowArrival(server: Server, extranonce: string, events: seq<Event>)
    ensures JobsAfterArrival(Run(server, extranonce, events).conn.attempts)
       <==> FirstIssueDelivers(server, extranonce, events) || |Fetched(server, extranonce, events)| <= 1
  {
    hide Run, AtMostOneDifficulty, JobsAfterArrival, JobsAfterDifficulty, DifficultyArrived, FirstIssueDelivers, NoJobs,
      DifficultyTried, JobsAreLogged, Fetched;
    RunKeeps(server, extranonce, events);
    ArrivalRecorded(server, extranonce, events);
    var c := Run(server, extranonce, events).conn;
    ArrivalBeforeJobs(c.attempts);
    if !FirstIssueDelivers(server, extranonce, events) {
      JobsAfterFailure(server, extranonce, events);
    } else if !c.mining.initialized {
      NoDifficultyNoJobs(c.attempts);
    }
  }

  lemma NoDifficultyNoJobs(attempts: seq<Attempted>)
    requires JobsAfterDifficulty(attempts) && !DifficultyTried(attempts)
    ensures NoJobs(attempts)
  {
    assert forall j, i :: 0 <= i < j < |attempts| ==> attempts[..j][i] == attempts[i];
  }

  /** A miner subscribes and authorizes, the difficulty does not get through, and the next template does. */
  function FailingRun(first: Header, second: Header): seq<Event> {
    [ Subscribe([Str(KASPA)], true),
      Authorize([Str("rig"), Str("worker")], true, true),
      NewBlock,
      SendJob(false, Template(first), false, true),
      SendJob(false, Template(second), true, true) ]
  }

  lemma RunTo(server: Server, extranonce: string, events: seq<Event>, n: nat)
    requires n < |events|
    ensures Run(server, extranonce, events[..n + 1])
         == Step(server, Run(server, extranonce, events[..n]), events[n])
  {
    assert events[..n + 1][..n] == events[..n];
  }

  /** The miner of that run, after both job senders have been started. */
  lemma AuthorizedMiner(server: Server, first: Header, second: Header)
    ensures var s := Run(server, "", FailingRun(first, second)[..3]);
            && s.pending == 2 && s.conn.walletAddr != "" && !s.conn.disconnecting
            && s.conn.mining == FRESH && s.conn.attempts == []
  {
    var events := FailingRun(first, second);
    assert events[..0] == [];
    RunTo(server, "", events, 0);
    RunTo(server, "", events, 1);
    RunTo(server, "", events, 2);
    hide Run;
  }

  /** The attempt to send the difficulty is not repeated: that run announces job 2 without a difficulty that arrived. */
  lemma JobsWithoutDelivery(server: Server, first: Header, second: Header)
    ensures var a := Run(server, "", FailingRun(first, second)).conn.attempts;
            && |a| == 2 && a[0] == Attempted(SetDifficulty(server.minShareDiff), false)
            && a[1].message.Notify? && a[1].message.jobId == 2 && a[1].delivered
            && !JobsAfterArrival(a)
  {
    hide MakeDiff, Contains, CalculateTarget, ParamsFor, Run;
    var events := FailingRun(first, second);
    AuthorizedMiner(server, first, second);
    RunTo(server, "", events, 3);
    RunTo(server, "", events, 4);
    assert events[..5] == events;
    SmallId(2);
    var a := Run(server, "", events).conn.attempts;
    assert a[..1] == [a[0]];
  }
}
