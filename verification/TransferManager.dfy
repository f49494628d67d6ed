/**
 The transfers known to the daemon: their metadata, the manager that maps identifiers to metadata, and the
 scheduler thread's pass over them. Handles stand for transfers running inside Cargo; whatever Cargo reports
 about one is a `Reading`.
 */
module Transfers {
  import opened Common

  type TransferId = nat
  type Handle = nat

  datatype CargoState = Pending | Running | Completed | Failed {
    predicate Terminal() {
      Completed? || Failed?
    }
  }

  /** The answer Cargo gives to one `status()` call. */
  datatype Reading = Reading(state: CargoState, bw: real)

  /** `bw_control(+1)` asks Cargo to slow down, `bw_control(-1)` to speed up. */
  datatype Signal = SlowDown | SpeedUp

  /** A signal together with the transfer it is sent to. */
  datatype Sent = Sent(id: TransferId, signal: Signal)

  /** The value of a `transfer_metadata` object. */
  datatype Transfer = Transfer(handle: Handle, limits: seq<nat>, measuredBandwidth: real)

  const UNMEASURED: real := -1.0
  const THRESHOLD: real := 0.1

  /** The signal a measured bandwidth calls for, given the first limit of the transfer. */
  function Steer(bw: real, qos: nat): Option<Signal> {
    if bw == UNMEASURED then None
    else if bw + bw * THRESHOLD > qos as real then Some(SlowDown)
    else if bw - bw * THRESHOLD < qos as real then Some(SpeedUp)
    else None
  }

  /** The signal one visit of the scheduler sends, if any. */
  function SignalFor(t: Transfer, r: Reading): Option<Signal> {
    if r.state.Running? && t.limits != [] then Steer(r.bw, t.limits[0]) else None
  }

  /** The metadata after one visit of the scheduler: only a running transfer is measured. */
  function Measured(t: Transfer, r: Reading): Transfer {
    if r.state.Running? then t.(measuredBandwidth := r.bw) else t
  }

  /** What one visit adds to the list of collected identifiers. */
  function Collected(id: TransferId, r: Reading): seq<TransferId> {
    if r.state.Terminal() then [id] else []
  }

  /** What one visit adds to the list of signals. */
  function Signalled(id: TransferId, t: Transfer, r: Reading): seq<Sent> {
    match SignalFor(t, r)
    case Some(signal) => [Sent(id, signal)]
    case None => []
  }

  /**
   A pass over `view` that has visited exactly `visited`: each visited terminal transfer was collected once, each
   visited transfer that calls for a signal was sent that one signal, nothing else was collected or sent, and
   only visited running transfers were measured.
   */
  ghost predicate PassDone(view: map<TransferId, Transfer>, visited: set<TransferId>, readings: TransferId -> Reading,
                           view': map<TransferId, Transfer>, vIds: seq<TransferId>, sent: seq<Sent>)
  {
    && view'.Keys == view.Keys
    && (forall id :: id in view ==> view'[id] == if id in visited then Measured(view[id], readings(id)) else view[id])
    && (forall id :: multiset(vIds)[id] == if id in visited && readings(id).state.Terminal() then 1 else 0)
    && (forall m :: multiset(sent)[m] ==
          if m.id in visited && m.id in view && SignalFor(view[m.id], readings(m.id)) == Some(m.signal) then 1 else 0)
  }

  lemma VisitedOneMore(view: map<TransferId, Transfer>, visited: set<TransferId>, id: TransferId,
                       readings: TransferId -> Reading, view': map<TransferId, Transfer>, vIds: seq<TransferId>, sent: seq<Sent>)
    requires PassDone(view, visited, readings, view', vIds, sent)
    requires id in view && id !in visited
    ensures PassDone(view, visited + {id}, readings, view'[id := Measured(view'[id], readings(id))],
                     vIds + Collected(id, readings(id)), sent + Signalled(id, view'[id], readings(id)))
  {
  }

  /** The transfer is running and has a limit, its bandwidth plus a tenth being above the first limit or not. */
  predicate RunsOver(t: Transfer, r: Reading) {
    r.state == Running && t.limits != [] && 1.1 * r.bw > t.limits[0] as real
  }

  predicate RunsUnder(t: Transfer, r: Reading) {
    r.state == Running && t.limits != [] && 1.1 * r.bw <= t.limits[0] as real
  }

  /** Cargo reports no bandwidth, or none while none is allowed. */
  predicate SilentReading(t: Transfer, r: Reading) {
    r.bw == -1.0 || (r.bw == 0.0 && t.limits != [] && t.limits[0] == 0)
  }

  /** Every running transfer over its limit is told once to slow down, every one under it once to speed up, and no other. */
  ghost predicate SteersToLimits(view: map<TransferId, Transfer>, readings: TransferId -> Reading, sent: seq<Sent>) {
    forall id: TransferId ::
      && multiset(sent)[Sent(id, SlowDown)] == (if id in view && RunsOver(view[id], readings(id)) then 1 else 0)
      && multiset(sent)[Sent(id, SpeedUp)] ==
           (if id in view && RunsUnder(view[id], readings(id)) && !SilentReading(view[id], readings(id)) then 1 else 0)
  }

  /** Running transfers have the bandwidth read as their measured one; nothing else is different. */
  ghost predicate StoresReadings(view: map<TransferId, Transfer>, readings: TransferId -> Reading, view': map<TransferId, Transfer>) {
    && view'.Keys == view.Keys
    && (forall id :: id in view ==>
          view'[id] == Transfer(view[id].handle, view[id].limits,
                                if readings(id).state == Running then readings(id).bw else view[id].measuredBandwidth))
  }

  /** The identifiers of the completed and failed transfers, each once. */
  ghost predicate CollectsEnded(view: map<TransferId, Transfer>, readings: TransferId -> Reading, vIds: seq<TransferId>) {
    forall id :: multiset(vIds)[id] ==
      if id in view && (readings(id).state == Completed || readings(id).state == Failed) then 1 else 0
  }

  /** What a pass leaves behind: the pending transfers as they were, the running ones with the bandwidth read. */
  ghost predicate LeavesTheRest(view: map<TransferId, Transfer>, readings: TransferId -> Reading, view': map<TransferId, Transfer>) {
    && (forall id :: id in view' <==> id in view && (readings(id).state == Pending || readings(id).state == Running))
    && (forall id :: id in view' ==>
          view'[id] == Transfer(view[id].handle, view[id].limits,
                                if readings(id).state == Running then readings(id).bw else view[id].measuredBandwidth))
  }

  lemma PassLeavesTheRest(view: map<TransferId, Transfer>, readings: TransferId -> Reading, view': map<TransferId, Transfer>,
                          vIds: seq<TransferId>)
    requires StoresReadings(view, readings, view') && CollectsEnded(view, readings, vIds)
    ensures LeavesTheRest(view, readings, view' - (set id | id in vIds))
  {
    assert forall id :: id in vIds <==> multiset(vIds)[id] > 0;
  }

  /** A whole pass in plain terms. */
  lemma PassMeans(view: map<TransferId, Transfer>, readings: TransferId -> Reading, view': map<TransferId, Transfer>,
                  vIds: seq<TransferId>, sent: seq<Sent>)
    requires PassDone(view, view.Keys, readings, view', vIds, sent)
    ensures SteersToLimits(view, readings, sent) && StoresReadings(view, readings, view') && CollectsEnded(view, readings, vIds)
  {
    forall id: TransferId
      ensures multiset(sent)[Sent(id, SlowDown)] == (if id in view && RunsOver(view[id], readings(id)) then 1 else 0)
      ensures multiset(sent)[Sent(id, SpeedUp)] ==
              (if id in view && RunsUnder(view[id], readings(id)) && !SilentReading(view[id], readings(id)) then 1 else 0)
    {
      if id in view {
        SignalMeans(view[id], readings(id));
      }
    }
  }

  lemma SignalMeans(t: Transfer, r: Reading)
    ensures SignalFor(t, r) == Some(SlowDown) <==> RunsOver(t, r)
    ensures SignalFor(t, r) == Some(SpeedUp) <==> RunsUnder(t, r) && !SilentReading(t, r)
  {
    if r.bw > 0.0 {
      assert r.bw * THRESHOLD > 0.0;
    }
  }

  class TransferMetadata {
    const id: TransferId
    const handle: Handle
    const limits: seq<nat>
    var measuredBandwidth: real

    constructor (id: TransferId, handle: Handle, limits: seq<nat>)
      ensures this.id == id && View() == Transfer(handle, limits, UNMEASURED)
    {
      this.id, this.handle, this.limits := id, handle, limits;
      measuredBandwidth := UNMEASURED;
    }

    function View(): Transfer
      reads this
    {
      Transfer(handle, limits, measuredBandwidth)
    }

    method Update(bandwidth: real)
      modifies this
      ensures View() == old(View()).(measuredBandwidth := bandwidth)
    {
      measuredBandwidth := bandwidth;
    }
  }

  class TransferManager {
    /** How many times `current_id++` has been executed. */
    var tickets: nat
    var transfers: map<TransferId, TransferMetadata>

    ghost predicate Valid()
      reads this, transfers.Values
    {
      forall id :: id in transfers ==> transfers[id].id == id
    }

    ghost function View(): (v: map<TransferId, Transfer>)
      reads this, transfers.Values
      ensures v.Keys == transfers.Keys
    {
      map id | id in transfers :: transfers[id].View()
    }

    constructor ()
      ensures Valid() && View() == map[] && tickets == 0
    {
      tickets := 0;
      transfers := map[];
    }

    /** The unlocked half of `create`. */
    method AllocateId() returns (id: TransferId)
      requires Valid()
      modifies this`tickets
      ensures Valid() && View() == old(View())
      ensures id == IdOf(old(tickets)) && tickets == old(tickets) + 1
    {
      id := IdOf(tickets);
      tickets := tickets + 1;
    }

    /** The half of `create` that runs under the exclusive lock. */
    method Insert(id: TransferId, handle: Handle, limits: seq<nat>) returns (r: Expected<TransferMetadata>)
      requires Valid()
      modifies this`transfers
      ensures Valid()
      ensures id in old(View()) ==> r == Unexpected(EntityExists) && View() == old(View())
      ensures id !in old(View()) ==>
                && r.Value? && fresh(r.value) && r.value.id == id && transfers == old(transfers)[id := r.value]
                && View() == old(View())[id := Transfer(handle, limits, UNMEASURED)]
    {
      if id !in transfers {
        var metadata := new TransferMetadata(id, handle, limits);
        transfers := transfers[id := metadata];
        return Value(metadata);
      }
      return Unexpected(EntityExists);
    }

    method Create(handle: Handle, limits: seq<nat>) returns (r: Expected<TransferMetadata>)
      requires Valid()
      modifies this
      ensures Valid() && tickets == old(tickets) + 1
      ensures IdOf(old(tickets)) in old(View()) ==> r == Unexpected(EntityExists) && View() == old(View())
      ensures IdOf(old(tickets)) !in old(View()) ==>
                && r.Value? && r.value.id == IdOf(old(tickets))
                && View() == old(View())[IdOf(old(tickets)) := Transfer(handle, limits, UNMEASURED)]
    {
      var id := AllocateId();
      r := Insert(id, handle, limits);
    }

    method Update(id: TransferId, bw: real) returns (ec: ErrorCode)
      requires Valid()
      modifies transfers.Values
      ensures Valid()
      ensures ec == if id in old(View()) then Success else NoSuchEntity
      ensures View() == if id in old(View()) then old(View())[id := old(View())[id].(measuredBandwidth := bw)]
                        else old(View())
    {
      if id in transfers {
        transfers[id].Update(bw);
        return Success;
      }
      return NoSuchEntity;
    }

    method Find(id: TransferId) returns (r: Expected<TransferMetadata>)
      requires Valid()
      ensures id in View() ==> r.Value? && r.value.id == id && r.value.View() == View()[id]
      ensures id !in View() ==> r == Unexpected(NoSuchEntity)
    {
      if id in transfers {
        return Value(transfers[id]);
      }
      return Unexpected(NoSuchEntity);
    }

    method Remove(id: TransferId) returns (r: Expected<TransferMetadata>)
      requires Valid()
      modifies this`transfers
      ensures Valid() && View() == old(View()) - {id}
      ensures id in old(View()) ==> r.Value? && r.value.View() == old(View())[id]
      ensures id !in old(View()) ==> r == Unexpected(NoSuchEntity)
    {
      if id in transfers {
        r := Value(transfers[id]);
        transfers := transfers - {id};
      } else {
        r := Unexpected(NoSuchEntity);
      }
    }

    /**
     The scheduler's visit to one transfer, under the exclusive lock: `vIds` and `sent` are the lists the pass
     has built so far.
     */
    method VisitOne(id: TransferId, r: Reading, vIds: seq<TransferId>, sent: seq<Sent>)
      returns (vIds': seq<TransferId>, sent': seq<Sent>)
      requires Valid() && id in transfers
      modifies transfers[id]
      ensures Valid()
      ensures View() == old(View())[id := Measured(old(View())[id], r)]
      ensures vIds' == vIds + Collected(id, r)
      ensures sent' == sent + Signalled(id, old(View())[id], r)
      ensures vIds' == vIds + if r.state == Completed || r.state == Failed then [id] else []
      ensures var t := old(View())[id];
              sent' == sent + if RunsOver(t, r) then [Sent(id, SlowDown)]
                              else if RunsUnder(t, r) && !SilentReading(t, r) then [Sent(id, SpeedUp)]
                              else []
    {
      SignalMeans(View()[id], r);
      vIds', sent' := vIds, sent;
      match r.state {
        case Completed => vIds' := vIds' + [id];
        case Failed => vIds' := vIds' + [id];
        case Pending =>
        case Running =>
          var tr := transfers[id];
          tr.Update(r.bw);
          if tr.limits != [] {
            var bw, qos := tr.measuredBandwidth, tr.limits[0] as real;
            if bw != UNMEASURED {
              if bw + bw * THRESHOLD > qos {
                sent' := sent' + [Sent(id, SlowDown)];
              } else if bw - bw * THRESHOLD < qos {
                sent' := sent' + [Sent(id, SpeedUp)];
              }
            }
          }
      }
    }

    /**
     The locked half of a scheduler pass. The transfers are visited in the arbitrary order of the hash map;
     `readings` holds what Cargo reports at each visit. Every terminal transfer is collected exactly once and
     every signal is sent exactly once, whatever the order.
     */
    method Visit(readings: TransferId -> Reading) returns (vIds: seq<TransferId>, sent: seq<Sent>)
      requires Valid()
      modifies transfers.Values
      ensures Valid()
      ensures PassDone(old(View()), old(View()).Keys, readings, View(), vIds, sent)
      ensures SteersToLimits(old(View()), readings, sent)
      ensures StoresReadings(old(View()), readings, View()) && CollectsEnded(old(View()), readings, vIds)
    {
      vIds, sent := [], [];
      var todo := transfers.Keys;
      ghost var before := View();
      while todo != {}
        invariant todo <= transfers.Keys == before.Keys && Valid()
        invariant PassDone(before, before.Keys - todo, readings, View(), vIds, sent)
        decreases todo
      {
        var id :| id in todo;
        ghost var v, c, s := View(), vIds, sent;
        vIds, sent := VisitOne(id, readings(id), vIds, sent);
        VisitedOneMore(before, before.Keys - todo, id, readings, v, c, s);
        assert before.Keys - todo + {id} == before.Keys - (todo - {id});
        todo := todo - {id};
      }
      assert before.Keys - todo == before.Keys;
      PassMeans(before, readings, View(), vIds, sent);
    }

    /** The unlocked half of a scheduler pass: the collected transfers are removed one by one. */
    method RemoveCollected(vIds: seq<TransferId>)
      requires Valid()
      modifies this`transfers
      ensures Valid() && View() == old(View()) - (set id | id in vIds)
    {
      for i := 0 to |vIds|
        invariant Valid() && View() == old(View()) - (set id | id in vIds[..i])
      {
        var _ := Remove(vIds[i]);
        assert vIds[..i + 1] == vIds[..i] + [vIds[i]];
      }
      assert vIds[..|vIds|] == vIds;
    }

    /** One iteration of the scheduler thread when no other thread touches the manager meanwhile. */
    method SchedulerPass(readings: TransferId -> Reading) returns (sent: seq<Sent>)
      requires Valid()
      modifies this`transfers, transfers.Values
      ensures Valid()
      ensures SteersToLimits(old(View()), readings, sent) && LeavesTheRest(old(View()), readings, View())
    {
      hide SteersToLimits, CollectsEnded, StoresReadings, PassDone, LeavesTheRest;
      ghost var before := View();
      var vIds;
      vIds, sent := Visit(readings);
      PassLeavesTheRest(before, readings, View(), vIds);
      RemoveCollected(vIds);
    }
  }
}
