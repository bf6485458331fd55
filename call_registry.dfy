/** The registry of outstanding remote calls: a map from locally generated call
    ids to calls, fed by a counter that only grows. */
module Calls {
  import opened Base

  /** What `notifyCall` does with a response: offer it to the matching call,
      or report on the error stream that no call has that id. */
  datatype NotifyResult = Offered(call: Call, response: Reply) | NoCall(callId: int)

  /** One `call.onDisconnect(deadAddress)` made by `disconnectExistingCalls`. */
  datatype Disconnect = Disconnect(callId: int, call: Call, dead: Address)

  class CallRegistry {
    var calls: map<int, Call>     // mapCalls
    var idGen: int                // localIdGen
    ghost var issued: set<int>    // every id handed out so far

    ghost predicate Valid()
      reads this
    {
      && 0 <= idGen
      && calls.Keys <= issued
      && forall id :: id in issued ==> 1 <= id <= idGen
    }

    constructor ()
      ensures Valid()
      ensures calls == map[] && idGen == 0 && issued == {}
    {
      calls := map[];
      idGen := 0;
      issued := {};
    }

    /** Allocates the next id and registers `call` under it. */
    method Register(call: Call) returns (id: int)
      requires Valid()
      modifies this
      ensures Valid()
      ensures id == old(idGen) + 1 && idGen == id
      ensures forall earlier :: earlier in old(issued) ==> earlier < id
      ensures issued == old(issued) + {id}
      ensures id !in old(calls) && calls == old(calls)[id := call]
    {
      idGen := idGen + 1;
      id := idGen;
      calls := calls[id := call];
      issued := issued + {id};
    }

    /** Removes and returns the call registered under `id`, if any. */
    method Deregister(id: int) returns (call: Option<Call>)
      requires Valid()
      modifies this`calls
      ensures Valid()
      ensures call == if id in old(calls) then Some(old(calls)[id]) else None
      ensures calls == old(calls) - {id}
    {
      if id in calls {
        call := Some(calls[id]);
      } else {
        call := None;
      }
      calls := calls - {id};
    }

    /** Matches a response to its call: the call is deregistered and offered
        the response; an unknown id only yields the error-stream report. */
    method Notify(id: int, response: Reply) returns (n: NotifyResult)
      requires Valid()
      modifies this`calls
      ensures Valid()
      ensures id in old(calls) ==> n == Offered(old(calls)[id], response)
      ensures id !in old(calls) ==> n == NoCall(id) && calls == old(calls)
      ensures calls == old(calls) - {id}
    {
      var call := Deregister(id);
      if call.Some? {
        n := Offered(call.value, response);
      } else {
        n := NoCall(id);
      }
    }

    /** Tells every registered call, once each, that `dead` has left; the
        calls decide for themselves whether that concerns them, and the
        registry is left as it is. */
    method DisconnectExisting(dead: Address) returns (notices: seq<Disconnect>)
      ensures forall i :: 0 <= i < |notices| ==>
        notices[i].callId in calls && notices[i].call == calls[notices[i].callId] && notices[i].dead == dead
      ensures forall i, j :: 0 <= i < j < |notices| ==> notices[i].callId != notices[j].callId
      ensures forall id :: id in calls ==> exists i :: 0 <= i < |notices| && notices[i].callId == id
    {
      var ids := Enumerate(calls.Keys);
      notices := [];
      for i := 0 to |ids|
        invariant |notices| == i
        invariant forall k :: 0 <= k < i ==> notices[k] == Disconnect(ids[k], calls[ids[k]], dead)
      {
        notices := notices + [Disconnect(ids[i], calls[ids[i]], dead)];
      }
      forall id | id in calls
        ensures exists i :: 0 <= i < |notices| && notices[i].callId == id
      {
        var i :| 0 <= i < |ids| && ids[i] == id;
        assert notices[i].callId == id;
      }
    }

    /** Drops every registered call on shutdown; the counter keeps its value,
        so ids are never reused. */
    method Clear()
      requires Valid()
      modifies this`calls
      ensures Valid()
      ensures calls == map[]
    {
      calls := map[];
    }
  }

  /** Registering a call and then notifying its id twice offers the response
      exactly once: the second notification finds nothing. The first id a
      fresh registry hands out is 1. */
  method RegisterThenNotifyTwice(call: Call, response: Reply)
    returns (id: int, first: NotifyResult, second: NotifyResult)
    ensures id == 1
    ensures first == Offered(call, response)
    ensures second == NoCall(id)
  {
    var registry := new CallRegistry();
    id := registry.Register(call);
    first := registry.Notify(id, response);
    second := registry.Notify(id, response);
  }
}
