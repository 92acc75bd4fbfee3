/** The nonce space over whole runs of the server: connects, disconnects and submits in any order. */
module NonceRuns {
  import opened GoInts
  import opened Digits
  import opened Nonces
  import opened WorkersListeners

  datatype Client = Client(id: int, extranonce: string)

  /** A submit whose nonce was accepted: who sent it, what was sent, and the nonce it stands for. */
  datatype Accepted = Accepted(ordinal: nat, submitted: string, nonce: int)

  /** Clients go by the ordinal of their connect, from 0; `live` are those not yet removed. */
  datatype World = World(registry: Registry<nat>, seen: seq<Client>, live: set<nat>, accepted: seq<Accepted>)

  datatype Event =
    | Connects
    | Disconnects(leaving: nat)
    | Submits(ordinal: nat, submitted: string)

  function NewWorld(size: Size): World {
    World(NewRegistry(size), [], {}, [])
  }

  function Step(w: World, e: Event): World {
    match e
    case Connects =>
      var n := |w.seen|;
      w.(registry := Connect(w.registry, n),
         seen := w.seen + [Client(NextId(w.registry), NextExtranonce(w.registry))],
         live := w.live + {n})
    case Disconnects(n) =>
      if n in w.live && n < |w.seen|
      then w.(registry := Remove(w.registry, w.seen[n].id), live := w.live - {n})
      else w
    case Submits(n, submitted) =>
      if n < |w.seen| && NonceVal(w.seen[n].extranonce, submitted).Num?
      then w.(accepted := w.accepted + [Accepted(n, submitted, NonceVal(w.seen[n].extranonce, submitted).value)])
      else w
  }

  /** The world of a server configured with the given extranonce size, after the given events. */
  function Run(configured: nat, events: seq<Event>): World {
    if events == [] then NewWorld(ClampSize(configured))
    else Step(Run(configured, events[..|events| - 1]), events[|events| - 1])
  }

  /** How many extranonces there are. */
  function Extranonces(size: Size): (w: nat)
    ensures w > 0
  {
    MaxExtranonce(size) + 1
  }

  /** What the client of a given ordinal was given. */
  function Given(size: Size, ordinal: nat): Client {
    Client(WrapInt32(ordinal + 1), ExtranonceString(size, ordinal % Extranonces(size)))
  }

  predicate Inv(size: Size, w: World) {
    && w.registry.size == size
    && w.registry.counter == WrapInt32(|w.seen|)
    && w.registry.next == (if size == 0 then 0 else |w.seen| % Extranonces(size))
    && (forall n :: 0 <= n < |w.seen| ==> w.seen[n] == Given(size, n))
    && (forall n :: n in w.live ==> n < |w.seen|)
    && (forall i :: 0 <= i < |w.accepted| ==> AcceptedRight(size, |w.seen|, w.accepted[i]))
  }

  predicate AcceptedRight(size: Size, connects: nat, a: Accepted) {
    a.ordinal < connects && NonceVal(Given(size, a.ordinal).extranonce, a.submitted) == Num(a.nonce)
  }

  lemma WrapStep(n: nat)
    ensures WrapInt32(WrapInt32(n) + 1) == WrapInt32(n + 1)
  {
    var x := n + TWO_31;
    assert (x % TWO_32 + 1) % TWO_32 == (x + 1) % TWO_32;
  }

  lemma NextModulo(n: nat, m: nat)
    requires m > 0
    ensures (n + 1) % m == if n % m < m - 1 then n % m + 1 else 0
  {
    DivMod(n, m);
    var q, r := n / m, n % m;
    if r < m - 1 {
      QuotientIs(n + 1, m, q, r + 1);
    } else {
      QuotientIs(n + 1, m, q + 1, 0);
    }
  }

  lemma QuotientIs(n: nat, m: nat, q: nat, r: nat)
    requires m > 0 && r < m && n == q * m + r
    ensures n % m == r
  {
    DivOfSlice(q, m, r);
  }

  lemma StepKeeps(size: Size, w: World, e: Event)
    requires Inv(size, w)
    ensures Inv(size, Step(w, e))
  {
    hide ExtranonceString, NonceVal, MaxExtranonce, WrapInt32;
    if e.Connects? {
      WrapStep(|w.seen|);
      NextModulo(|w.seen|, Extranonces(size));
      NoExtranonces(size);
    }
  }

  lemma NoExtranonces(size: Size)
    ensures size == 0 ==> forall n: nat :: ExtranonceString(size, n) == ""
  {
  }

  /** The allocator in closed form: the n-th connect gets id n + 1 and extranonce n modulo 256^size. */
  lemma {:induction false} AllocatorClosedForm(configured: nat, events: seq<Event>)
    ensures Inv(ClampSize(configured), Run(configured, events))
  {
    hide Inv, Step;
    if events == [] {
      FreshInv(ClampSize(configured));
    } else {
      AllocatorClosedForm(configured, events[..|events| - 1]);
      StepKeeps(ClampSize(configured), Run(configured, events[..|events| - 1]), events[|events| - 1]);
    }
  }

  lemma FreshInv(size: Size)
    ensures Inv(size, NewWorld(size))
  {
    hide NonceVal, ExtranonceString;
    assert MaxExtranonce(size) >= 0;
    if size > 0 {
      QuotientIs(0, Extranonces(size), 0, 0);
    }
  }

  // ---------- disjoint search spaces ----------

  lemma ResiduesDiffer(i: nat, j: nat, m: nat)
    requires i < j < i + m
    ensures i % m != j % m
  {
    DivMod(i, m);
    DivMod(j, m);
    var q, q' := i / m, j / m;
    if q' <= q {
      MulLe(q', q, m);
    } else {
      MulLe(q + 1, q', m);
    }
  }

  predicate IsShortNonce(size: Size, submitted: string) {
    IsShort(size, StripHexPrefix(submitted))
  }

  /** The nonce is composed, or starts in its client's slice anyway. */
  predicate IsOwnNonce(size: Size, a: Accepted) {
    InOwnSlice(size, a.ordinal % Extranonces(size), a.submitted)
  }

  /** Such a nonce tells which client it came from. */
  lemma NonceNamesClient(size: Size, connects: nat, a: Accepted)
    requires size > 0 && AcceptedRight(size, connects, a) && IsOwnNonce(size, a)
    ensures 0 <= a.nonce < TWO_64
    ensures a.nonce / SliceWidth(size) == a.ordinal % Extranonces(size)
  {
    hide ExtranonceString, MaxExtranonce, NonceVal, SliceWidth, InOwnSlice;
    InsideSlice(size, a.ordinal % Extranonces(size), a.submitted);
  }

  /**
   * Over every run, clients whose connects are not congruent modulo 256^size never have the same nonce accepted, as long
   * as both nonces are composed or start in their client's slice anyway.
   */
  lemma NoncesDisjoint(configured: nat, events: seq<Event>, i: nat, j: nat)
    requires ClampSize(configured) > 0
    requires var log := Run(configured, events).accepted;
             && i < |log| && j < |log|
             && log[i].ordinal % Pow(256, ClampSize(configured)) != log[j].ordinal % Pow(256, ClampSize(configured))
             && IsOwnNonce(ClampSize(configured), log[i])
             && IsOwnNonce(ClampSize(configured), log[j])
    ensures var log := Run(configured, events).accepted; log[i].nonce != log[j].nonce
  {
    hide Run, AcceptedRight, IsOwnNonce;
    var size := ClampSize(configured);
    AllocatorClosedForm(configured, events);
    var w := Run(configured, events);
    NonceNamesClient(size, |w.seen|, w.accepted[i]);
    NonceNamesClient(size, |w.seen|, w.accepted[j]);
    ExtranonceCount(size);
  }

  /** In particular those of clients that connected fewer than 256^size apart. */
  lemma NearbyNoncesDisjoint(configured: nat, events: seq<Event>, i: nat, j: nat)
    requires ClampSize(configured) > 0
    requires var log := Run(configured, events).accepted;
             && i < |log| && j < |log|
             && log[i].ordinal < log[j].ordinal < log[i].ordinal + Pow(256, ClampSize(configured))
             && IsOwnNonce(ClampSize(configured), log[i])
             && IsOwnNonce(ClampSize(configured), log[j])
    ensures var log := Run(configured, events).accepted; log[i].nonce != log[j].nonce
  {
    hide Run, IsOwnNonce;
    var log := Run(configured, events).accepted;
    ResiduesDiffer(log[i].ordinal, log[j].ordinal, Pow(256, ClampSize(configured)));
    NoncesDisjoint(configured, events, i, j);
  }

  lemma ExtranonceCount(size: Size)
    ensures Extranonces(size) == Pow(256, size)
  {
    ExtranonceRange(size);
    PowAdd(16, 2, 2);
    PowAdd(16, 2, 4);
    assert Pow(16, 2) == 256;
    PowAdd(256, 1, 1);
    PowAdd(256, 1, 2);
    assert Pow(256, 1) == 256;
  }

  /** Some composed nonce of one client is a composed nonce of the other. */
  ghost predicate CanCoincide(size: Size, e1: string, e2: string) {
    exists s: string, t: string :: Coincide(size, e1, s, e2, t)
  }

  predicate Coincide(size: Size, e1: string, s: string, e2: string, t: string) {
    && IsShortNonce(size, s) && IsShortNonce(size, t)
    && NonceVal(e1, s).Num? && NonceVal(e1, s) == NonceVal(e2, t)
  }

  lemma GivenCoincide(size: Size, i: nat, j: nat, s: string, t: string)
    requires size > 0 && Coincide(size, Given(size, i).extranonce, s, Given(size, j).extranonce, t)
    ensures i % Extranonces(size) == j % Extranonces(size)
  {
    hide NonceVal, Given, Extranonces;
    var v := NonceVal(Given(size, i).extranonce, s).value;
    NonceNamesClient(size, i + 1, Accepted(i, s, v));
    NonceNamesClient(size, j + 1, Accepted(j, t, v));
  }

  /** A single zero is composed and accepted for every client. */
  lemma ZeroIsAccepted(size: Size, i: nat)
    requires size > 0
    ensures IsShortNonce(size, "0") && NonceVal(Given(size, i).extranonce, "0").Num?
  {
    hide NonceVal, ExtranonceString;
    assert StripHexPrefix("0") == "0" && AllDigits("0", 16);
    StripMeaning("0", "0");
    AcceptedNonce(size, i % Extranonces(size), "0", "0");
  }

  /**
   * Over every run, two clients can reach the same composed nonce if and only if their ordinals are congruent modulo
   * 256^size, and then every string stands for the same nonce from both.
   */
  lemma WrappedClientsCollide(configured: nat, events: seq<Event>, i: nat, j: nat)
    requires ClampSize(configured) > 0
    requires var w := Run(configured, events); i < |w.seen| && j < |w.seen|
    ensures var size, w := ClampSize(configured), Run(configured, events);
            var congruent := i % Pow(256, size) == j % Pow(256, size);
            && (CanCoincide(size, w.seen[i].extranonce, w.seen[j].extranonce) <==> congruent)
            && ((forall s: string :: NonceVal(w.seen[i].extranonce, s) == NonceVal(w.seen[j].extranonce, s)) <==> congruent)
  {
    hide Run, NonceVal, ExtranonceString, Extranonces, IsShortNonce;
    var size := ClampSize(configured);
    AllocatorClosedForm(configured, events);
    ExtranonceCount(size);
    ZeroIsAccepted(size, i);
    var e1, e2 := Given(size, i).extranonce, Given(size, j).extranonce;
    if NonceVal(e1, "0") == NonceVal(e2, "0") {
      assert Coincide(size, e1, "0", e2, "0");
    }
    if CanCoincide(size, e1, e2) {
      var s, t :| Coincide(size, e1, s, e2, t);
      GivenCoincide(size, i, j, s, t);
    }
  }

  // ---------- the registry ----------

  /** The registry knows every live client under its own id, and nothing else. */
  predicate RegistryExact(w: World) {
    && (forall n :: n in w.live ==>
          n < |w.seen| && w.seen[n].id in w.registry.clients && w.registry.clients[w.seen[n].id] == n)
    && (forall id :: id in w.registry.clients ==>
          var n := w.registry.clients[id]; n in w.live && n < |w.seen| && w.seen[n].id == id)
  }

  /** A connect is about to be given an id that is still registered. */
  predicate TakesId(w: World, e: Event) {
    e.Connects? && NextId(w.registry) in w.registry.clients
  }

  lemma EmptyRegistryExact(size: Size)
    ensures RegistryExact(NewWorld(size))
  {
  }

  /** One event keeps an exact registry exact if and only if it does not take a registered id. */
  lemma RegistryStep(w: World, e: Event)
    requires RegistryExact(w)
    ensures RegistryExact(Step(w, e)) <==> !TakesId(w, e)
  {
    hide ExtranonceString, NonceVal, MaxExtranonce, WrapInt32;
    if TakesId(w, e) {
      var n := w.registry.clients[NextId(w.registry)];
      assert n in Step(w, e).live;
      assert Step(w, e).seen[n] == w.seen[n];
    }
  }

  /** The registry was exact at every point of the run. */
  predicate ExactThroughout(configured: nat, events: seq<Event>) {
    RegistryExact(Run(configured, events)) && (events == [] || ExactThroughout(configured, events[..|events| - 1]))
  }

  /** No connect of the run was given an id that was still registered. */
  predicate NoIdTaken(configured: nat, events: seq<Event>) {
    events == [] ||
    var before := events[..|events| - 1];
    !TakesId(Run(configured, before), events[|events| - 1]) && NoIdTaken(configured, before)
  }

  /** Over every run, the registry stays exact if and only if no connect is given an id that is still registered. */
  lemma {:induction false} RegistryExactUnlessTaken(configured: nat, events: seq<Event>)
    ensures ExactThroughout(configured, events) <==> NoIdTaken(configured, events)
  {
    hide Step, RegistryExact, TakesId;
    if events == [] {
      EmptyRegistryExact(ClampSize(configured));
    } else {
      var before := events[..|events| - 1];
      RegistryExactUnlessTaken(configured, before);
      if ExactThroughout(configured, before) {
        RegistryStep(Run(configured, before), events[|events| - 1]);
      }
    }
  }

  lemma IdsDiffer(i: nat, j: nat)
    requires i < j < TWO_32
    ensures WrapInt32(i + 1) != WrapInt32(j + 1)
  {
    if WrapInt32(i + 1) == WrapInt32(j + 1) {
      WrapInt32Injective(i + 1, j + 1);
    }
  }

  lemma FirstIdsAreFree(size: Size, w: World, e: Event)
    requires Inv(size, w) && RegistryExact(w)
    requires |w.seen| < TWO_32 || !e.Connects?
    ensures !TakesId(w, e)
  {
    hide ExtranonceString, NonceVal, MaxExtranonce, WrapInt32;
    if TakesId(w, e) {
      var n := w.registry.clients[NextId(w.registry)];
      WrapStep(|w.seen|);
      IdsDiffer(n, |w.seen|);
    }
  }

  /** The first 2^32 connects never take an id, whoever is still there, so up to then the registry is exact. */
  lemma {:induction false} RegistryIsExact(configured: nat, events: seq<Event>)
    requires |Run(configured, events).seen| <= TWO_32
    ensures RegistryExact(Run(configured, events))
  {
    hide Inv, RegistryExact, TakesId;
    if events == [] {
      EmptyRegistryExact(ClampSize(configured));
    } else {
      var before := events[..|events| - 1];
      var w, e := Run(configured, before), events[|events| - 1];
      AllocatorClosedForm(configured, before);
      RegistryIsExact(configured, before);
      FirstIdsAreFree(ClampSize(configured), w, e);
      RegistryStep(w, e);
    }
  }

  // ---------- an id that is taken ----------

  function Connecting(n: nat): seq<Event> {
    seq(n, i => Connects)
  }

  lemma {:induction false} AllStay(configured: nat, n: nat)
    ensures var w := Run(configured, Connecting(n)); |w.seen| == n && forall k :: 0 <= k < n ==> k in w.live
  {
    if n > 0 {
      hide NextId, NextExtranonce, Connect;
      assert Connecting(n)[..n - 1] == Connecting(n - 1);
      AllStay(configured, n - 1);
    }
  }

  lemma FirstIsRegistered(w: World)
    requires RegistryExact(w) && 0 in w.live
    ensures |w.seen| > 0 && w.seen[0].id in w.registry.clients
  {
  }

  lemma WrappedOnce()
    ensures WrapInt32(TWO_32 + 1) == WrapInt32(1)
  {
  }

  /** After 2^32 connects the next one takes the id of the first client, if that is still there. */
  lemma FirstIdTaken(configured: nat, events: seq<Event>)
    requires |Run(configured, events).seen| == TWO_32 && 0 in Run(configured, events).live
    ensures TakesId(Run(configured, events), Connects)
  {
    hide Run, ExtranonceString, NonceVal;
    AllocatorClosedForm(configured, events);
    RegistryIsExact(configured, events);
    var w := Run(configured, events);
    assert w.seen[0] == Given(ClampSize(configured), 0);
    hide WrapInt32, RegistryExact;
    FirstIsRegistered(w);
    WrapStep(TWO_32);
    WrappedOnce();
  }

  /** Such a run: 2^32 clients connect and stay. */
  lemma IdCanBeTaken(configured: nat)
    ensures TakesId(Run(configured, Connecting(TWO_32)), Connects)
  {
    hide Run, TakesId, Connecting;
    AllStay(configured, TWO_32);
    FirstIdTaken(configured, Connecting(TWO_32));
  }
}
