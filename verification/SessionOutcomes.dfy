/** What the handlers of a kaspa connection bring about: fields, job senders, announcements and disconnects. */
module SessionOutcomes {
  import opened GoInts
  import opened Digits
  import opened JobRing
  import opened CompactBits
  import opened Difficulty
  import opened Sessions
  import opened SessionRuns

  // ---------- names ----------

  /** A field is the parameter at the given place when that is a string, and else what it was. */
  predicate Takes(field: string, was: string, params: seq<Param>, i: nat) {
    if i < |params| && params[i].Str? then field == params[i].text else field == was
  }

  /** A delivered subscribe sets app name, version, company and device type from parameters 0 to 3, and nothing else. */
  lemma SubscribeFields(c: Conn, params: seq<Param>, sent: bool)
    requires c.chainType == KASPA && !c.disconnecting && sent
    ensures var c' := Subscribed(c, params, sent);
            && Takes(c'.appName, c.appName, params, 0)
            && Takes(c'.appVersion, c.appVersion, params, 1)
            && Takes(c'.deviceCompany, c.deviceCompany, params, 2)
            && Takes(c'.deviceType, c.deviceType, params, 3)
            && c'.minerName == c.minerName && c'.deviceName == c.deviceName && c'.walletAddr == c.walletAddr
            && c'.extranonce == c.extranonce && c'.mining == c.mining && c'.attempts == c.attempts
  {
  }

  /** Event i is the last well-formed authorize of the run. */
  predicate IsLastAuthorize(events: seq<Event>, i: nat) {
    i < |events| && IsAuthorize(events[i]) && forall j :: i < j < |events| ==> !IsAuthorize(events[j])
  }

  /** Miner and device name are the first two parameters of the authorize. */
  predicate NamedBy(c: Conn, e: Event) {
    IsAuthorize(e) && c.minerName == e.authParams[0].text && c.deviceName == e.authParams[1].text
  }

  lemma NamesStep(server: Server, s: Session, e: Event)
    ensures var c' := Step(server, s, e).conn;
            if IsAuthorize(e) then NamedBy(c', e)
            else c'.minerName == s.conn.minerName && c'.deviceName == s.conn.deviceName
  {
    hide ParamsFor, IdOf, Contains, MakeDiff;
  }

  lemma NamesKept(c: Conn, c': Conn, e: Event)
    requires c'.minerName == c.minerName && c'.deviceName == c.deviceName && NamedBy(c, e)
    ensures NamedBy(c', e)
  {
  }

  /** Over every run, miner and device name are those of the last well-formed authorize, and empty before there is one. */
  lemma {:induction false} NamesFromAuthorize(server: Server, extranonce: string, events: seq<Event>)
    ensures var c := Run(server, extranonce, events).conn;
            && (forall i: nat :: IsLastAuthorize(events, i) ==> i < |events| && NamedBy(c, events[i]))
            && ((forall i :: 0 <= i < |events| ==> !IsAuthorize(events[i])) ==> c.minerName == c.deviceName == "")
  {
    hide Step, IsAuthorize, NamedBy;
    if events != [] {
      var n := |events| - 1;
      var before := events[..n];
      var c, c' := Run(server, extranonce, before).conn, Run(server, extranonce, events).conn;
      NamesFromAuthorize(server, extranonce, before);
      NamesStep(server, Run(server, extranonce, before), events[n]);
      assert forall i :: 0 <= i < n ==> before[i] == events[i];
      hide Run;
      forall i: nat | IsLastAuthorize(events, i)
        ensures NamedBy(c', events[i])
      {
        if i < n {
          assert IsLastAuthorize(before, i);
          NamesKept(c, c', events[i]);
        }
      }
    }
  }

  // ---------- job senders ----------

  /** The event makes NewBlockAvailable run: a block, or an authorize that succeeds. */
  predicate Notifies(s: Session, e: Event) {
    e.NewBlock? || (e.Authorize? && WellFormedAuthorize(e.authParams) && !s.conn.disconnecting && e.authSent)
  }

  /** Exactly when a job sender is started for the connection, and when one has run. */
  lemma SendersExactly(server: Server, s: Session, e: Event)
    ensures Step(server, s, e).pending
         == if Notifies(s, e) && s.conn.appName == "kaspa" && !s.conn.disconnecting then s.pending + 1
            else if e.SendJob? && s.pending > 0 then s.pending - 1
            else s.pending
  {
    hide Notified;
  }

  /** What a job sender that fetched a template did. */
  predicate Served(server: Server, s: Session, e: Event, c: Conn)
    requires e.SendJob? && e.fetch.Template?
  {
    var n := |s.conn.mining.log| + 1;
    && c.mining.log == s.conn.mining.log + [e.fetch.block]
    && c.mining.bigDiff == CalculateTarget(e.fetch.block.bits)
    && (s.conn.mining.initialized || (!s.conn.disconnecting && e.diffSent) ==>
          && |c.attempts| > |s.conn.attempts|
          && var last := c.attempts[|c.attempts| - 1];
             && last.message.Notify? && last.message.jobId == WrapInt64(n)
             && last.message.params.id == PrintInt(WrapInt64(n))
             && JobSays(last.message.params, e.fetch.block, server.blake)
             && (last.delivered <==> !s.conn.disconnecting && e.jobSent))
  }

  /** A fetched template is logged and, unless the first difficulty failed just now, announced last, as what it is. */
  lemma FetchedIsServed(server: Server, s: Session, e: Event)
    requires Fetches(s, e)
    ensures Served(server, s, e, Step(server, s, e).conn)
  {
    hide MakeDiff, Contains, CalculateTarget, JobSays, PrintInt, ParamsFor, Prepared;
    var c1 := Prepared(s.conn, e.timedOut, e.fetch, e.diffSent, server.minShareDiff);
    FetchedIsLogged(s.conn, e, server);
    ParamsSay(c1.mining.useBigJob, IdOf(|c1.mining.log|), e.fetch.block, server.blake);
  }

  lemma FetchedIsLogged(c: Conn, e: Event, server: Server)
    requires e.SendJob? && c.walletAddr != "" && e.fetch.Template?
    ensures var c1 := Prepared(c, e.timedOut, e.fetch, e.diffSent, server.minShareDiff);
            && c1.mining.log == c.mining.log + [e.fetch.block]
            && c1.mining.bigDiff == CalculateTarget(e.fetch.block.bits)
            && c1.disconnecting == c.disconnecting
            && |c1.attempts| >= |c.attempts|
  {
    hide MakeDiff, Contains, CalculateTarget;
  }

  lemma RunOne(server: Server, extranonce: string, events: seq<Event>, e: Event)
    ensures Run(server, extranonce, events + [e]) == Step(server, Run(server, extranonce, events), e)
  {
    assert (events + [e])[..|events|] == events;
  }

  /**
   * Over every run: when a client that is there and calls itself a kaspa miner authorizes, a job sender that then fetches a
   * template announces it, whatever happened before.
   */
  lemma AuthorizedMinerIsServed(server: Server, extranonce: string, events: seq<Event>, authorize: Event, send: Event)
    requires var c := Run(server, extranonce, events).conn; c.appName == "kaspa" && !c.disconnecting
    requires IsAuthorize(authorize) && authorize.authSent
    requires send.SendJob? && send.fetch.Template? && send.diffSent && send.jobSent
    ensures var c := Run(server, extranonce, events + [authorize] + [send]).conn;
            && c.mining.log != [] && c.mining.log[|c.mining.log| - 1] == send.fetch.block
            && c.attempts != []
            && var last := c.attempts[|c.attempts| - 1];
               last.message.Notify? && last.delivered && JobSays(last.message.params, send.fetch.block, server.blake)
  {
    hide Run, Step, JobSays, CalculateTarget, PrintInt;
    RunOne(server, extranonce, events, authorize);
    RunOne(server, extranonce, events + [authorize], send);
    AuthorizeIsKept(server, Run(server, extranonce, events), authorize);
    FetchedIsServed(server, Run(server, extranonce, events + [authorize]), send);
  }

  lemma AuthorizeIsKept(server: Server, s: Session, e: Event)
    requires s.conn.appName == "kaspa" && !s.conn.disconnecting && IsAuthorize(e) && e.authSent
    ensures var s' := Step(server, s, e);
            s'.pending > 0 && s'.conn.walletAddr != "" && !s'.conn.disconnecting && s'.conn.appName == "kaspa"
  {
  }

  // ---------- the form of jobs ----------

  /** t stands somewhere in s. */
  ghost predicate Occurs(s: string, t: string) {
    exists before: string, after: string :: s == before + t + after
  }

  lemma ContainsMeaning(s: string, t: string)
    ensures Contains(s, t) <==> Occurs(s, t)
  {
    if Contains(s, t) {
      var i :| 0 <= i <= |s| - |t| && s[i..][..|t|] == t;
      assert s == s[..i] + t + s[i..][|t|..];
    }
    if Occurs(s, t) {
      var before: string, after: string :| s == before + t + after;
      assert s[|before|..][..|t|] == t;
    }
  }

  /** The first template of the run was issued by event k. */
  ghost predicate FirstIssuedAt(server: Server, extranonce: string, events: seq<Event>, k: nat) {
    k < |events| && IssuesFirst(Run(server, extranonce, events[..k]), events[k])
  }

  ghost predicate FormDecided(server: Server, extranonce: string, events: seq<Event>) {
    exists k: nat :: FirstIssuedAt(server, extranonce, events, k) &&
      (Run(server, extranonce, events).conn.mining.useBigJob
       <==> Occurs(Run(server, extranonce, events[..k]).conn.minerName, "BzMiner"))
  }

  lemma FormStep(server: Server, s: Session, e: Event)
    ensures var m, m' := s.conn.mining, Step(server, s, e).conn.mining;
            && m'.initialized == (m.initialized || IssuesFirst(s, e))
            && m'.useBigJob == if IssuesFirst(s, e) then Contains(s.conn.minerName, "BzMiner") else m.useBigJob
  {
    hide MakeDiff, ParamsFor, IdOf, Contains, CalculateTarget;
  }

  /** Over every run, the form of a connection's jobs is decided by the miner name at the first template, for good. */
  lemma {:induction false} FormByMinerName(server: Server, extranonce: string, events: seq<Event>)
    requires Run(server, extranonce, events).conn.mining.initialized
    ensures FormDecided(server, extranonce, events)
  {
    hide Step, IssuesFirst, Occurs;
    var n := |events| - 1;
    var before := events[..n];
    var s := Run(server, extranonce, before);
    FormStep(server, s, events[n]);
    if IssuesFirst(s, events[n]) {
      ContainsMeaning(s.conn.minerName, "BzMiner");
      assert FirstIssuedAt(server, extranonce, events, n);
    } else {
      FormByMinerName(server, extranonce, before);
      hide Run;
      var k: nat :| FirstIssuedAt(server, extranonce, before, k) &&
        (s.conn.mining.useBigJob <==> Occurs(Run(server, extranonce, before[..k]).conn.minerName, "BzMiner"));
      assert before[..k] == events[..k];
      assert FirstIssuedAt(server, extranonce, events, k);
    }
  }

  // ---------- messages other than jobs ----------

  /** The message announces the given extranonce and its length, or sets the given difficulty, or is a job. */
  predicate Proper(msg: Message, extranonce: string, diff: real) {
    match msg
    case SetExtranonce(e, length) => e == extranonce && length == |extranonce| && extranonce != ""
    case SetDifficulty(d) => d == diff
    case Notify(_, _) => true
  }

  predicate AllProper(attempts: seq<Attempted>, extranonce: string, diff: real) {
    forall i :: 0 <= i < |attempts| ==> Proper(attempts[i].message, extranonce, diff)
  }

  lemma ProperStep(server: Server, s: Session, e: Event)
    requires AllProper(s.conn.attempts, s.conn.extranonce, server.minShareDiff)
    ensures AllProper(Step(server, s, e).conn.attempts, s.conn.extranonce, server.minShareDiff)
    ensures Step(server, s, e).conn.extranonce == s.conn.extranonce
  {
    hide Notified;
    if e.SendJob? && s.pending > 0 {
      NotifiedProper(server, s.conn, e);
    }
  }

  lemma NotifiedProper(server: Server, c: Conn, e: Event)
    requires e.SendJob? && AllProper(c.attempts, c.extranonce, server.minShareDiff)
    ensures var c' := Notified(c, e.timedOut, e.fetch, e.diffSent, e.jobSent, server.minShareDiff, server.blake);
            AllProper(c'.attempts, c.extranonce, server.minShareDiff) && c'.extranonce == c.extranonce
  {
    var added := PreparedAttempts(c, e, server);
    PreparedKeepsExtranonce(server, c, e);
    hide Prepared, ParamsFor, IdOf;
  }

  lemma PreparedKeepsExtranonce(server: Server, c: Conn, e: Event)
    requires e.SendJob?
    ensures Prepared(c, e.timedOut, e.fetch, e.diffSent, server.minShareDiff).extranonce == c.extranonce
  {
    hide MakeDiff, Contains, CalculateTarget;
  }

  /** Over every run, only the connection's own extranonce and the server's difficulty are ever sent. */
  lemma {:induction false} MessagesAreProper(server: Server, extranonce: string, events: seq<Event>)
    ensures var c := Run(server, extranonce, events).conn;
            c.extranonce == extranonce && AllProper(c.attempts, extranonce, server.minShareDiff)
  {
    hide Step, AllProper;
    if events == [] {
      NothingImproper(extranonce, server.minShareDiff);
    } else {
      MessagesAreProper(server, extranonce, events[..|events| - 1]);
      ProperStep(server, Run(server, extranonce, events[..|events| - 1]), events[|events| - 1]);
    }
  }

  lemma NothingImproper(extranonce: string, diff: real)
    ensures AllProper([], extranonce, diff)
  {
  }

  /** A successful authorize announces the extranonce, if the connection has one, and nothing else. */
  lemma AuthorizeAnnouncesExtranonce(server: Server, s: Session, e: Event)
    requires e.Authorize?
    ensures Step(server, s, e).conn.attempts
         == s.conn.attempts
            + if WellFormedAuthorize(e.authParams) && !s.conn.disconnecting && e.authSent && s.conn.extranonce != ""
              then [Attempted(SetExtranonce(s.conn.extranonce, |s.conn.extranonce|), e.extranonceSent)]
              else []
  {
  }

  // ---------- disconnects ----------

  /** The step makes the server let go of the connection, or the miner hung up. */
  predicate Disconnects(s: Session, e: Event) {
    || e.Drop?
    || (e.SendJob? && s.pending > 0 && if s.conn.walletAddr == "" then e.timedOut else e.fetch.BadAddress?)
  }

  lemma DisconnectStep(server: Server, s: Session, e: Event)
    ensures Step(server, s, e).conn.disconnecting <==> s.conn.disconnecting || Disconnects(s, e)
    ensures s.conn.attempts <= Step(server, s, e).conn.attempts
    ensures s.conn.disconnecting ==>
              forall i :: |s.conn.attempts| <= i < |Step(server, s, e).conn.attempts| ==> !Step(server, s, e).conn.attempts[i].delivered
  {
    hide MakeDiff, ParamsFor, IdOf, Contains, CalculateTarget;
  }

  /** Some event of the run disconnected the client. */
  predicate Dropped(server: Server, extranonce: string, events: seq<Event>) {
    events != [] &&
    var before := events[..|events| - 1];
    Disconnects(Run(server, extranonce, before), events[|events| - 1]) || Dropped(server, extranonce, before)
  }

  /** Over every run, a connection is going away if and only if the miner hung up, never sent a wallet in time, or sent a bad one. */
  lemma {:induction false} GoingAwayExactly(server: Server, extranonce: string, events: seq<Event>)
    ensures Run(server, extranonce, events).conn.disconnecting <==> Dropped(server, extranonce, events)
  {
    hide Step, Disconnects;
    if events != [] {
      GoingAwayExactly(server, extranonce, events[..|events| - 1]);
      DisconnectStep(server, Run(server, extranonce, events[..|events| - 1]), events[|events| - 1]);
    }
  }

  /** Over every run, nothing is delivered to a connection that is going away. */
  lemma {:induction false} NothingAfterwards(server: Server, extranonce: string, events: seq<Event>, more: seq<Event>)
    requires Run(server, extranonce, events).conn.disconnecting
    ensures var c, c' := Run(server, extranonce, events).conn, Run(server, extranonce, events + more).conn;
            && c'.disconnecting && c.attempts <= c'.attempts
            && forall i :: |c.attempts| <= i < |c'.attempts| ==> !c'.attempts[i].delivered
    decreases |more|
  {
    hide Run, Step, Disconnects;
    if more == [] {
      assert events + more == events;
    } else {
      var n := |more| - 1;
      NothingAfterwards(server, extranonce, events, more[..n]);
      assert events + more == events + more[..n] + [more[n]];
      RunOne(server, extranonce, events + more[..n], more[n]);
      DisconnectStep(server, Run(server, extranonce, events + more[..n]), more[n]);
    }
  }
}
