/** Submits in the context of everything that led to them: the allocator, the session and the job table together. */
module SubmitRuns {
  import opened GoInts
  import opened Digits
  import opened JobRing
  import opened Difficulty
  import opened Nonces
  import opened Sessions
  import opened ShareHandlers
  import SessionRuns
  import NonceRuns

  /** The connection that was given an extranonce, after the given events. */
  function ConnAfter(server: SessionRuns.Server, extranonce: string, events: seq<SessionRuns.Event>): Conn {
    SessionRuns.Run(server, extranonce, events).conn
  }

  lemma StepKeepsExtranonce(server: SessionRuns.Server, s: SessionRuns.Session, e: SessionRuns.Event)
    ensures SessionRuns.Step(server, s, e).conn.extranonce == s.conn.extranonce
  {
    hide ParamsFor, IdOf, Contains, MakeDiff;
  }

  /** A connection keeps the extranonce it was given. */
  lemma {:induction false} ExtranonceStays(server: SessionRuns.Server, extranonce: string, events: seq<SessionRuns.Event>)
    ensures ConnAfter(server, extranonce, events).extranonce == extranonce
  {
    hide SessionRuns.Step;
    if events != [] {
      var before := events[..|events| - 1];
      ExtranonceStays(server, extranonce, before);
      StepKeepsExtranonce(server, SessionRuns.Run(server, extranonce, before), events[|events| - 1]);
    }
  }

  lemma WorkParts(c: Conn, params: seq<Param>)
    requires Understand(c, params).Work?
    ensures |params| >= 3 && params[1].Str? && params[2].Str? && ParseInt(params[1].text).Num?
    ensures Lookup(c.mining.log, ParseInt(params[1].text).value) == Some(Understand(c, params).block)
    ensures NonceVal(c.extranonce, params[2].text) == Num(Understand(c, params).nonce)
  {
    hide ParseInt, Lookup, NonceVal;
  }

  /** Over every run: an accepted submit works on one of the last 32 templates fetched for its connection, with a difficulty set, after an authorize. */
  lemma WorkIsSafe(server: SessionRuns.Server, extranonce: string, events: seq<SessionRuns.Event>, params: seq<Param>)
    requires |events| < TWO_63
    requires Understand(ConnAfter(server, extranonce, events), params).Work?
    ensures var c, fetched := ConnAfter(server, extranonce, events), SessionRuns.Fetched(server, extranonce, events);
            && c.mining.stratumDiff == Some(MakeDiff(server.minShareDiff))
            && (exists i :: 0 <= i < |fetched| && |fetched| - 32 <= i && Understand(c, params).block == fetched[i])
            && (exists i: nat :: SessionRuns.KaspaAuthorize(server, extranonce, events, i))
  {
    hide Understand, Lookup, MakeDiff, SessionRuns.Run, SessionRuns.Fetched;
    WorkParts(ConnAfter(server, extranonce, events), params);
    SessionRuns.SubmitIsSafe(server, extranonce, events, ParseInt(params[1].text).value);
  }

  /** The n-th client to connect in a run of the listener, after the given events on its connection. */
  function NthConn(world: NonceRuns.World, n: nat, server: SessionRuns.Server, events: seq<SessionRuns.Event>): Conn
    requires n < |world.seen|
  {
    ConnAfter(server, world.seen[n].extranonce, events)
  }

  /** The nonce submitted by the n-th client is composed, or starts in its slice anyway. */
  predicate OwnSubmit(size: Size, n: nat, params: seq<Param>) {
    |params| >= 3 && params[2].Str? && InOwnSlice(size, n % NonceRuns.Extranonces(size), params[2].text)
  }

  lemma WorkIsAccepted(configured: nat, connects: seq<NonceRuns.Event>, n: nat, server: SessionRuns.Server,
                       events: seq<SessionRuns.Event>, params: seq<Param>)
    requires n < |NonceRuns.Run(configured, connects).seen|
    requires Understand(NthConn(NonceRuns.Run(configured, connects), n, server, events), params).Work?
    ensures |params| >= 3 && params[2].Str?
    ensures var work := Understand(NthConn(NonceRuns.Run(configured, connects), n, server, events), params);
            NonceRuns.AcceptedRight(ClampSize(configured), n + 1, NonceRuns.Accepted(n, params[2].text, work.nonce))
  {
    hide Understand, NonceVal, SessionRuns.Run, NonceRuns.Given, NonceRuns.Run;
    NonceRuns.AllocatorClosedForm(configured, connects);
    var world := NonceRuns.Run(configured, connects);
    WorkParts(NthConn(world, n, server, events), params);
    ExtranonceStays(server, world.seen[n].extranonce, events);
  }

  /**
   * In any run of the listener, two clients whose connects are not congruent modulo 256^size never have work accepted
   * for the same nonce, whatever happened on their connections before, as long as both nonces are composed or start in
   * their client's slice anyway.
   */
  lemma ClientsSearchApart(configured: nat, connects: seq<NonceRuns.Event>, m: nat, n: nat, server: SessionRuns.Server,
                           ofM: seq<SessionRuns.Event>, ofN: seq<SessionRuns.Event>, fromM: seq<Param>, fromN: seq<Param>)
    requires ClampSize(configured) > 0
    requires m % Pow(256, ClampSize(configured)) != n % Pow(256, ClampSize(configured))
    requires var world := NonceRuns.Run(configured, connects); m < |world.seen| && n < |world.seen|
    requires OwnSubmit(ClampSize(configured), m, fromM) && OwnSubmit(ClampSize(configured), n, fromN)
    requires Understand(NthConn(NonceRuns.Run(configured, connects), m, server, ofM), fromM).Work?
    requires Understand(NthConn(NonceRuns.Run(configured, connects), n, server, ofN), fromN).Work?
    ensures var world := NonceRuns.Run(configured, connects);
            Understand(NthConn(world, m, server, ofM), fromM).nonce != Understand(NthConn(world, n, server, ofN), fromN).nonce
  {
    hide Understand, NthConn, NonceRuns.AcceptedRight, NonceRuns.Run, InOwnSlice, NonceRuns.Extranonces;
    var size, world := ClampSize(configured), NonceRuns.Run(configured, connects);
    WorkIsAccepted(configured, connects, m, server, ofM, fromM);
    WorkIsAccepted(configured, connects, n, server, ofN, fromN);
    var a := NonceRuns.Accepted(m, fromM[2].text, Understand(NthConn(world, m, server, ofM), fromM).nonce);
    var b := NonceRuns.Accepted(n, fromN[2].text, Understand(NthConn(world, n, server, ofN), fromN).nonce);
    NonceRuns.NonceNamesClient(size, m + 1, a);
    NonceRuns.NonceNamesClient(size, n + 1, b);
    NonceRuns.ExtranonceCount(size);
  }

  /**
   * In any run of the listener, a submit that echoes the id of a recently announced job, with a short hex nonce in either
   * spelling, is understood as work on that job's template, at the nonce in the client's slice with the digits submitted.
   */
  lemma HonestSubmitUnderstood(configured: nat, connects: seq<NonceRuns.Event>, n: nat, server: SessionRuns.Server,
                               events: seq<SessionRuns.Event>, j: nat, params: seq<Param>, nonce: string)
    requires ClampSize(configured) > 0 && n < |NonceRuns.Run(configured, connects).seen| && |events| < TWO_63
    requires var c := NthConn(NonceRuns.Run(configured, connects), n, server, events);
             && j < |c.attempts| && c.attempts[j].message.Notify?
             && |c.mining.log| - 32 < c.attempts[j].message.jobId
             && |params| >= 3 && params[1] == Str(c.attempts[j].message.params.id) && params[2].Str?
    requires Stripped(params[2].text, nonce) && AllDigits(nonce, 16) && |nonce| <= 16 - 2 * ClampSize(configured)
    ensures var size, c := ClampSize(configured), NthConn(NonceRuns.Run(configured, connects), n, server, events);
            var id := c.attempts[j].message.jobId;
            && 0 < id <= |c.mining.log|
            && Understand(c, params)
               == Work(c.mining.log[id - 1], n % Pow(256, size) * SliceWidth(size) + Value(nonce, 16))
  {
    hide NonceRuns.Run, SessionRuns.Run, NonceVal, Lookup, ParseInt, ExtranonceString, Stripped, Sessions.JobSays,
      Sessions.ParamsFor, SliceWidth, MaxExtranonce;
    var size, world := ClampSize(configured), NonceRuns.Run(configured, connects);
    NonceRuns.AllocatorClosedForm(configured, connects);
    NonceRuns.ExtranonceCount(size);
    ExtranonceStays(server, world.seen[n].extranonce, events);
    SessionRuns.AnnouncedJobIsFound(server, world.seen[n].extranonce, events, j);
    ShortNonce(size, n % Pow(256, size), params[2].text, nonce);
  }
}
