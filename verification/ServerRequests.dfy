/** Correlation of backend-initiated requests (`_server_message`,
    `_route_client_reply` and `_route_client_cancellation` in yamp/router.py). Each
    method is one atomic step. */
module ServerRequests {
  import opened Basics
  import opened Json
  import Decimal

  const STEM := "srv-"

  function ClientId(n: nat): string { Decimal.Mint(STEM, n) }

  /** A backend and the id it used itself. */
  datatype Asker = Asker(backend: string, original: Json)

  /** One message sent on to a backend because of the client's use of a minted id. */
  datatype Delivery = Delivery(clientId: string, backend: string, message: Object)

  /** `_params(message)`. */
  function ParamsOf(message: Object): Object {
    if GetOrNull(message, "params").Obj? then message["params"].fields else map[]
  }

  /** Parameters that are put into a message are read back; anything else that stands
      in their place reads as none. */
  lemma ParamsMeaning(message: Object, params: Json)
    ensures ParamsOf(message["params" := params]) == if params.Obj? then params.fields else map[]
    ensures "params" !in message ==> ParamsOf(message) == map[]
  {
  }

  /** A delivery to exactly the backend that asked, with its own id put back. */
  predicate Restored(d: Delivery, asker: Asker) {
    d.backend == asker.backend &&
    (Get(d.message, "id") == Some(asker.original) || Get(ParamsOf(d.message), "requestId") == Some(asker.original))
  }

  predicate DistinctDeliveries(ds: seq<Delivery>) {
    forall i, j :: 0 <= i < j < |ds| ==> ds[i].clientId != ds[j].clientId
  }

  /** The books: every delivery consumed one asked id, nobody is answered twice, and
      what was asked is either outstanding or delivered. */
  predicate Books(outstanding: map<string, Asker>, asked: map<string, Asker>, deliveries: seq<Delivery>, count: nat) {
    && (forall id :: id in outstanding ==> id in asked && outstanding[id] == asked[id])
    && (forall i :: 0 <= i < |deliveries| ==>
          && deliveries[i].clientId in asked && deliveries[i].clientId !in outstanding
          && Restored(deliveries[i], asked[deliveries[i].clientId]))
    && DistinctDeliveries(deliveries)
    && |outstanding| + |deliveries| == count
  }

  lemma Ask(outstanding: map<string, Asker>, asked: map<string, Asker>, deliveries: seq<Delivery>, count: nat,
            id: string, asker: Asker)
    requires Books(outstanding, asked, deliveries, count) && id !in asked
    ensures Books(outstanding[id := asker], asked[id := asker], deliveries, count + 1)
  {
  }

  lemma RestoredId(d: Delivery, asker: Asker)
    requires d.backend == asker.backend && "id" in d.message && d.message["id"] == asker.original
    ensures Restored(d, asker)
  {
  }

  lemma RestoredRequestId(d: Delivery, asker: Asker, message: Object)
    requires d.backend == asker.backend
    requires d.message == message["params" := Obj(ParamsOf(message)["requestId" := asker.original])]
    ensures Restored(d, asker)
  {
  }

  /** Recording one delivery keeps the books. */
  lemma Record(outstanding: map<string, Asker>, asked: map<string, Asker>, deliveries: seq<Delivery>, d: Delivery,
               count: nat)
    requires Books(outstanding, asked, deliveries, count)
    requires d.clientId in outstanding && d.clientId in asked && Restored(d, asked[d.clientId])
    ensures Books(outstanding - {d.clientId}, asked, deliveries + [d], count)
  {
  }

  class Correlator {
    var outstanding: map<string, Asker>
    var count: nat
    /** The ids of the pooled calls in `_pool_tasks`, which a cancellation looks up
        first, and those of them whose task has been cancelled. */
    var poolTasks: set<Json>
    var cancelled: set<Json>
    ghost var asked: map<string, Asker>
    ghost var deliveries: seq<Delivery>

    ghost predicate Valid()
      reads this
    {
      && |asked| == count
      && (forall id :: id in asked ==> Decimal.Minted(STEM, id, count))
      && Books(outstanding, asked, deliveries, count)
      && cancelled <= poolTasks
    }

    constructor ()
      ensures Valid() && outstanding == map[] && deliveries == [] && count == 0 && poolTasks == {} && cancelled == {}
    {
      outstanding, count, poolTasks, cancelled := map[], 0, {}, {};
      asked, deliveries := map[], [];
    }

    /** A pooled call is spawned. */
    method PoolCall(callId: Json)
      requires Valid() && !Unhashable(callId)
      modifies this
      ensures Valid() && poolTasks == old(poolTasks) + {callId} && cancelled == old(cancelled) - {callId}
      ensures outstanding == old(outstanding) && asked == old(asked) && deliveries == old(deliveries)
      ensures count == old(count)
    {
      poolTasks, cancelled := poolTasks + {callId}, cancelled - {callId};
    }

    /** A pooled call's done callback. */
    method PoolDone(callId: Json)
      requires Valid()
      modifies this
      ensures Valid() && poolTasks == old(poolTasks) - {callId} && cancelled == old(cancelled) - {callId}
      ensures outstanding == old(outstanding) && asked == old(asked) && deliveries == old(deliveries)
      ensures count == old(count)
    {
      poolTasks, cancelled := poolTasks - {callId}, cancelled - {callId};
    }

    /** A message from a backend on its way to the client: a request gets a fresh
        client-facing id, anything else passes as it is. */
    method ServerMessage(backend: string, message: Object) returns (relayed: Object)
      requires Valid()
      modifies this
      ensures Valid() && deliveries == old(deliveries) && poolTasks == old(poolTasks) && cancelled == old(cancelled)
      ensures var request := "id" in message && !GetOrNull(message, "method").Null?;
              if request then
                && count == old(count) + 1 && ClientId(count) !in old(asked)
                && relayed == message["id" := Str(ClientId(count))]
                && asked == old(asked)[ClientId(count) := Asker(backend, message["id"])]
                && outstanding == old(outstanding)[ClientId(count) := Asker(backend, message["id"])]
              else relayed == message && outstanding == old(outstanding) && asked == old(asked) && count == old(count)
    {
      hide Decimal.Mint, Decimal.Minted, Books;
      relayed := message;
      if "id" in message && !GetOrNull(message, "method").Null? {
        Decimal.NextIdIsFresh(STEM, count);
        count := count + 1;
        var clientId := ClientId(count);
        Ask(outstanding, asked, deliveries, old(count), clientId, Asker(backend, message["id"]));
        outstanding := outstanding[clientId := Asker(backend, message["id"])];
        asked := asked[clientId := Asker(backend, message["id"])];
        relayed := message["id" := Str(clientId)];
      }
    }

    /** Take the correlation of a minted id out of the table. */
    method Consume(id: Json) returns (asker: Option<Asker>)
      requires Valid() && !Unhashable(id)
      modifies this`outstanding
      ensures asker.Some? <==> id.Str? && id.s in old(outstanding)
      ensures asker.Some? ==> id.s in asked && asker.value == old(outstanding)[id.s] == asked[id.s]
      ensures asker.Some? ==> outstanding == old(outstanding) - {id.s}
      ensures asker.None? ==> outstanding == old(outstanding)
    {
      if !id.Str? || id.s !in outstanding {
        return None;
      }
      asker := Some(outstanding[id.s]);
      outstanding := outstanding - {id.s};
    }

    /** A client's response: sent to the backend that asked, under its own id; an
        unknown id is dropped. */
    method ClientReply(message: Object) returns (raised: bool, sent: Option<Delivery>)
      requires Valid()
      modifies this
      ensures Valid() && count == old(count) && asked == old(asked)
      ensures poolTasks == old(poolTasks) && cancelled == old(cancelled)
      ensures raised <==> Unhashable(GetOrNull(message, "id"))
      ensures var id := GetOrNull(message, "id");
              if id.Str? && id.s in old(outstanding) then
                && sent == Some(Delivery(id.s, asked[id.s].backend, message["id" := asked[id.s].original]))
                && outstanding == old(outstanding) - {id.s} && deliveries == old(deliveries) + [sent.value]
              else sent == None && outstanding == old(outstanding) && deliveries == old(deliveries)
    {
      hide Books, Decimal.Minted, Restored;
      var id := GetOrNull(message, "id");
      if Unhashable(id) {
        return true, None;
      }
      var asker := Consume(id);
      if asker.None? {
        return false, None;
      }
      var delivery := Delivery(id.s, asker.value.backend, message["id" := asker.value.original]);
      RestoredId(delivery, asker.value);
      Record(old(outstanding), asked, deliveries, delivery, count);
      deliveries := deliveries + [delivery];
      return false, Some(delivery);
    }

    /** A client's cancellation: a pooled call is cancelled here; a minted id is
        passed to the one backend that asked; anything else is dropped. */
    method ClientCancellation(message: Object) returns (raised: bool, pooled: bool, sent: Option<Delivery>)
      requires Valid()
      modifies this
      ensures Valid() && count == old(count) && asked == old(asked) && poolTasks == old(poolTasks)
      ensures raised <==> Unhashable(GetOrNull(ParamsOf(message), "requestId"))
      ensures pooled <==> !raised && GetOrNull(ParamsOf(message), "requestId") in poolTasks
      ensures cancelled == if pooled then old(cancelled) +
              {GetOrNull(ParamsOf(message), "requestId")} else old(cancelled)
      ensures var id := GetOrNull(ParamsOf(message), "requestId");
              if !pooled && id.Str? && id.s in old(outstanding) then
                && sent == Some(Delivery(id.s, asked[id.s].backend,
                     message["params" := Obj(ParamsOf(message)["requestId" := asked[id.s].original])]))
                && outstanding == old(outstanding) - {id.s} && deliveries == old(deliveries) + [sent.value]
              else sent == None && outstanding == old(outstanding) && deliveries == old(deliveries)
    {
      hide Books, Decimal.Minted, Restored;
      var id := GetOrNull(ParamsOf(message), "requestId");
      if Unhashable(id) {
        return true, false, None;
      }
      if id in poolTasks {
        cancelled := cancelled + {id};
        return false, true, None;
      }
      var asker := Consume(id);
      if asker.None? {
        return false, false, None;
      }
      var forwarded := message["params" := Obj(ParamsOf(message)["requestId" := asker.value.original])];
      var delivery := Delivery(id.s, asker.value.backend, forwarded);
      RestoredRequestId(delivery, asker.value, message);
      Record(old(outstanding), asked, deliveries, delivery, count);
      deliveries := deliveries + [delivery];
      return false, false, Some(delivery);
    }
  }

  /** Over any run, what the client's replies and cancellations caused reached only
      backends that asked, each asked id at most once, and the requests asked are
      exactly those still outstanding and those delivered. */
  lemma NobodyAnsweredTwice(c: Correlator, i: nat, j: nat)
    requires c.Valid() && i < |c.deliveries| && j < |c.deliveries|
    ensures c.deliveries[i].backend == c.asked[c.deliveries[i].clientId].backend
    ensures c.deliveries[i].clientId == c.deliveries[j].clientId ==> i == j
    ensures |c.asked| == |c.outstanding| + |c.deliveries|
  {
  }

  /** Backends may reuse each other's ids, and the proxy still mints distinct ones. */
  lemma ClientIdsDistinct(m: nat, n: nat)
    ensures ClientId(n) == "srv-" + Decimal.Print(n)
    ensures ClientId(m) == ClientId(n) <==> m == n
  {
    Decimal.MintInjective(STEM, m, n);
  }
}
