/** The registry of connected clients and the allocator of their extranonces. */
module WorkersListeners {
  import opened GoInts
  import opened Digits
  import opened Nonces
  import opened Sessions
  import opened Sets

  /** The listener's state, for any type of client handle. */
  datatype Registry<!C> = Registry(size: Size, next: nat, counter: int, clients: map<int, C>)

  function NewRegistry<C>(size: Size): Registry<C> {
    Registry(size, 0, 0, map[])
  }

  /** The id and extranonce string that the next connect gets. */
  function NextId<C>(r: Registry<C>): int {
    WrapInt32(r.counter + 1)
  }

  function NextExtranonce<C>(r: Registry<C>): string {
    ExtranonceString(r.size, r.next)
  }

  function Connect<C>(r: Registry<C>, client: C): Registry<C> {
    Registry(
      r.size,
      if r.size == 0 then r.next else if r.next < MaxExtranonce(r.size) then r.next + 1 else 0,
      NextId(r),
      r.clients[NextId(r) := client])
  }

  function Remove<C>(r: Registry<C>, id: int): Registry<C> {
    r.(clients := r.clients - {id})
  }

  class WorkersListener {
    const extranonceSize: Size
    const maxExtranonce: nat
    var clients: map<int, WorkerContext>
    var clientCounter: int
    var nextExtranonce: nat

    ghost function View(): Registry<WorkerContext>
      reads this
    {
      Registry(extranonceSize, nextExtranonce, clientCounter, clients)
    }

    ghost predicate Valid()
      reads this
    {
      maxExtranonce == MaxExtranonce(extranonceSize) && nextExtranonce <= maxExtranonce
    }

    /** ListenAndServe clamps the configured size before it gets here. */
    constructor (configured: nat)
      ensures Valid() && View() == NewRegistry(ClampSize(configured))
    {
      extranonceSize := ClampSize(configured);
      maxExtranonce := MaxExtranonce(ClampSize(configured));
      clients, clientCounter, nextExtranonce := map[], 0, 0;
    }

    method OnConnect(ctx: WorkerContext)
      requires Valid()
      modifies this, ctx`id, ctx`extranonce
      ensures Valid() && View() == Connect(old(View()), ctx)
      ensures ctx.id == NextId(old(View()))
      ensures ctx.extranonce == if extranonceSize > 0 then NextExtranonce(old(View())) else old(ctx.extranonce)
    {
      var extranonce := 0;
      clientCounter := WrapInt32(clientCounter + 1);
      var idx := clientCounter;
      ctx.id := idx;
      if extranonceSize > 0 {
        extranonce := nextExtranonce;
        if nextExtranonce < maxExtranonce {
          nextExtranonce := nextExtranonce + 1;
        } else {
          nextExtranonce := 0;
        }
      }
      clients := clients[idx := ctx];
      if extranonceSize > 0 {
        ctx.extranonce := PrintPadded(extranonce, extranonceSize * 2, 16);
      }
    }

    method OnDisconnect(ctx: WorkerContext)
      requires Valid()
      modifies this
      ensures Valid() && View() == Remove(old(View()), ctx.id)
    {
      clients := clients - {ctx.id};
    }

    /** Which clients get a job sender, each once, and whose balances are asked for. */
    method NewBlockAvailable() returns (started: seq<int>, addresses: seq<string>)
      ensures forall i :: 0 <= i < |started| ==> started[i] in clients
      ensures forall id :: id in clients ==>
                (id in started <==> clients[id].appName == "kaspa" && !clients[id].disconnecting)
      ensures forall i, j :: 0 <= i < j < |started| ==> started[i] != started[j]
      ensures addresses == Wallets(started)
      ensures forall i :: 0 <= i < |started| && clients[started[i]].walletAddr != "" ==> clients[started[i]].walletAddr in addresses
      ensures forall a :: a in addresses ==> a != "" && exists i :: 0 <= i < |started| && clients[started[i]].walletAddr == a
    {
      started, addresses := [], [];
      var left := clients.Keys;
      while left != {}
        invariant left <= clients.Keys
        invariant forall i :: 0 <= i < |started| ==> started[i] in clients && started[i] !in left
        invariant forall i :: 0 <= i < |started| ==> Eligible(clients[started[i]])
        invariant forall id :: id in clients && id !in left && Eligible(clients[id]) ==> id in started
        invariant forall i, j :: 0 <= i < j < |started| ==> started[i] != started[j]
        invariant addresses == Wallets(started)
        invariant forall i :: 0 <= i < |started| && clients[started[i]].walletAddr != "" ==> clients[started[i]].walletAddr in addresses
        invariant forall a :: a in addresses ==> a != "" && exists i :: 0 <= i < |started| && clients[started[i]].walletAddr == a
        decreases left
      {
        ghost var some := Member(left);
        var id :| id in left;
        left := left - {id};
        var cl := clients[id];
        if cl.appName != KASPA {
          continue;
        }
        if cl.disconnecting {
          continue;
        }
        ghost var before := started;
        started := started + [id];
        assert started[..|started| - 1] == before;
        if cl.walletAddr != "" {
          addresses := addresses + [cl.walletAddr];
        }
      }
    }

    predicate Eligible(cl: WorkerContext)
      reads cl
    {
      cl.appName == KASPA && !cl.disconnecting
    }

    /** The non-empty wallet addresses of the given clients, in order. */
    function Wallets(ids: seq<int>): seq<string>
      reads this, clients.Values
      requires forall i :: 0 <= i < |ids| ==> ids[i] in clients
    {
      if ids == [] then []
      else
        var last := clients[ids[|ids| - 1]];
        Wallets(ids[..|ids| - 1]) + if last.walletAddr != "" then [last.walletAddr] else []
    }
  }
}
