/**
 The abstract lifecycle of single-use OAuth state tokens (`OAuthStateTransitionModel`).
 */
module Lifecycle {
  import opened Text
  import opened Clock

  datatype Status =
    | Uninitialized
    | Pending(created: nat, ttl: nat)
    | Consumed(at: nat)
    | Expired(at: nat)

  datatype Payload = Payload(stateId: string, clientId: string, created: nat, ttl: nat)

  /** Status and payload per token, and how often each was consumed since its last insert. */
  datatype Model = Model(states: map<string, Status>, payloads: map<string, Payload>, counts: map<string, nat>)

  function Empty(): Model { Model(map[], map[], map[]) }

  function StatusOf(m: Model, k: string): Status { if k in m.states then m.states[k] else Uninitialized }

  /** The TTL of a pending token has run out. */
  predicate Lapsed(st: Status, tick: nat) { st.Pending? && SatSub(tick, st.created) >= st.ttl }

  function Insert(m: Model, k: string, clientId: string, ttl: nat, tick: nat): (Model, bool) {
    if k == "" || ttl == 0 then (m, false)
    else
      (Model(m.states[k := Pending(tick, ttl)], m.payloads[k := Payload(k, clientId, tick, ttl)], m.counts - {k}), true)
  }

  function Take(m: Model, k: string, tick: nat): (Model, Option<Payload>) {
    var st := StatusOf(m, k);
    if !st.Pending? then (m, None)
    else if Lapsed(st, tick) then (Model(m.states[k := Expired(tick)], m.payloads - {k}, m.counts), None)
    else
      var count := if k in m.counts then m.counts[k] + 1 else 1;
      (Model(m.states[k := Consumed(tick)], m.payloads - {k}, m.counts[k := count]),
       if k in m.payloads then Some(m.payloads[k]) else None)
  }

  function LapsedKeys(m: Model, tick: nat): set<string> { set k | k in m.states && Lapsed(m.states[k], tick) }

  function Prune(m: Model, tick: nat): Model {
    Model(map k | k in m.states :: if Lapsed(m.states[k], tick) then Expired(tick) else m.states[k],
          m.payloads - LapsedKeys(m, tick), m.counts)
  }

  /** `verify_single_use_invariant` and `verify_global_store_invariants`. */
  predicate StoreInvariants(m: Model) {
    forall k :: k in m.counts ==>
                  && m.counts[k] <= 1
                  && (k in m.states && m.counts[k] == 1 ==> m.states[k].Consumed?)
  }

  datatype Op =
    | DoInsert(key: string, clientId: string, ttl: nat, tick: nat)
    | DoTake(key: string, tick: nat)
    | DoPrune(tick: nat)

  function Step(m: Model, op: Op): Model {
    match op
    case DoInsert(k, c, ttl, tick) => Insert(m, k, c, ttl, tick).0
    case DoTake(k, tick) => Take(m, k, tick).0
    case DoPrune(tick) => Prune(m, tick)
  }

  function Run(m: Model, ops: seq<Op>): Model
    decreases |ops|
  {
    if ops == [] then m else Run(Step(m, ops[0]), ops[1..])
  }

  /** Pending tokens have a payload and a clean counter, consumed ones, and only they, a count of one. */
  ghost predicate Inv(m: Model) {
    && (forall k :: k in m.states && m.states[k].Pending? ==>
                      k in m.payloads && k !in m.counts
                      && m.payloads[k].created == m.states[k].created && m.payloads[k].ttl == m.states[k].ttl)
    && (forall k :: k in m.payloads ==> k in m.states && m.states[k].Pending?)
    && (forall k :: k in m.counts ==> m.counts[k] == 1 && k in m.states && m.states[k].Consumed?)
    && (forall k :: k in m.states && m.states[k].Consumed? ==> k in m.counts)
  }

  lemma StepInv(m: Model, op: Op)
    requires Inv(m)
    ensures Inv(Step(m, op))
  {
  }

  /** The model's two safety properties hold after every sequence of operations, with any clocks. */
  lemma {:induction false} InvariantsAlwaysHold(m: Model, ops: seq<Op>)
    requires Inv(m)
    ensures Inv(Run(m, ops)) && StoreInvariants(Run(m, ops))
    decreases |ops|
  {
    if ops != [] {
      StepInv(m, ops[0]);
      InvariantsAlwaysHold(Step(m, ops[0]), ops[1..]);
    }
  }

  /** Nothing but the token `k` differs. */
  ghost predicate OnlyAt(m: Model, m': Model, k: string) {
    && (forall q :: q != k ==> StatusOf(m', q) == StatusOf(m, q))
    && (forall q :: q != k ==> (q in m'.payloads <==> q in m.payloads) && (q in m.payloads ==> m'.payloads[q] == m.payloads[q]))
    && (forall q :: q != k ==> (q in m'.counts <==> q in m.counts) && (q in m.counts ==> m'.counts[q] == m.counts[q]))
  }

  /** A token is inserted if and only if it is not empty and can live at all; it is then pending, from whatever status. */
  lemma InsertExactly(m: Model, k: string, clientId: string, ttl: nat, tick: nat)
    ensures var (m', ok) := Insert(m, k, clientId, ttl, tick);
            && (ok <==> k != "" && ttl > 0) && (!ok ==> m' == m) && OnlyAt(m, m', k)
            && (ok ==> StatusOf(m', k) == Pending(tick, ttl) && k !in m'.counts
                       && k in m'.payloads && m'.payloads[k] == Payload(k, clientId, tick, ttl))
  {
  }

  /** A take moves a pending token to consumed, with its payload, or to expired, without; any other stays. */
  lemma TakeMoves(m: Model, k: string, tick: nat)
    requires Inv(m)
    ensures var (m', r) := Take(m, k, tick);
            var st := StatusOf(m, k);
            && OnlyAt(m, m', k) && (!st.Pending? ==> m' == m)
            && (r.Some? <==> st.Pending? && st.ttl > 0 && tick < st.created + st.ttl)
            && (r.Some? ==> r.value == m.payloads[k] && StatusOf(m', k) == Consumed(tick))
            && (st.Pending? && r.None? ==> StatusOf(m', k) == Expired(tick) && k !in m'.payloads)
  {
  }

  /** A prune expires exactly the pending tokens whose time is over, drops their payloads, and keeps everything else. */
  lemma PruneExactly(m: Model, k: string, tick: nat)
    requires Inv(m)
    ensures var m' := Prune(m, tick);
            && StatusOf(m', k) == (if Lapsed(StatusOf(m, k), tick) then Expired(tick) else StatusOf(m, k))
            && (k in m'.payloads <==> StatusOf(m', k).Pending?)
            && (k in m'.payloads ==> m'.payloads[k] == m.payloads[k]) && m'.counts == m.counts
            && (k in LapsedKeys(m, tick) <==> StatusOf(m, k) != StatusOf(m', k))
  {
  }

  /** The model with the tokens of `done` expired. */
  function PruneSome(m: Model, done: set<string>, tick: nat): Model {
    Model(map k | k in m.states :: if k in done then Expired(tick) else m.states[k], m.payloads - done, m.counts)
  }

  lemma PruneNothing(m: Model, tick: nat)
    ensures PruneSome(m, {}, tick) == m
  {
  }

  lemma PruneOneMore(m: Model, all: set<string>, todo: set<string>, k: string, tick: nat)
    requires k in todo && todo <= all <= m.states.Keys
    ensures var p := PruneSome(m, all - todo, tick);
            PruneSome(m, all - (todo - {k}), tick) == Model(p.states[k := Expired(tick)], p.payloads - {k}, p.counts)
  {
    assert all - (todo - {k}) == all - todo + {k};
    assert m.payloads - (all - todo + {k}) == m.payloads - (all - todo) - {k};
  }

  lemma PruneLapsed(m: Model, done: set<string>, tick: nat)
    requires done == LapsedKeys(m, tick)
    ensures PruneSome(m, done, tick) == Prune(m, tick)
  {
  }

  /** The mutable model. */
  class OAuthStateTransitionModel {
    var states: map<string, Status>
    var payloads: map<string, Payload>
    var counts: map<string, nat>

    ghost function State(): Model
      reads this
    {
      Model(states, payloads, counts)
    }

    constructor ()
      ensures State() == Empty()
    {
      states, payloads, counts := map[], map[], map[];
    }

    method InsertState(k: string, clientId: string, ttl: nat, tick: nat) returns (ok: bool)
      modifies this
      ensures (State(), ok) == Insert(old(State()), k, clientId, ttl, tick)
    {
      if k == "" || ttl == 0 {
        return false;
      }
      states := states[k := Pending(tick, ttl)];
      payloads := payloads[k := Payload(k, clientId, tick, ttl)];
      counts := counts - {k};
      return true;
    }

    method TakeState(k: string, tick: nat) returns (r: Option<Payload>)
      modifies this
      ensures (State(), r) == Take(old(State()), k, tick)
    {
      var st := if k in states then states[k] else Uninitialized;
      match st {
        case Pending(created, ttl) =>
          if SatSub(tick, created) >= ttl {
            states := states[k := Expired(tick)];
            payloads := payloads - {k};
            return None;
          }
          states := states[k := Consumed(tick)];
          r := if k in payloads then Some(payloads[k]) else None;
          payloads := payloads - {k};
          counts := counts[k := if k in counts then counts[k] + 1 else 1];
        case _ =>
          return None;
      }
    }

    /** Expire every lapsed pending token; returns how many there were. */
    method PruneStates(tick: nat) returns (pruned: nat)
      modifies this
      ensures State() == Prune(old(State()), tick) && pruned == |LapsedKeys(old(State()), tick)|
    {
      var expired := LapsedKeys(Model(states, payloads, counts), tick);
      pruned := |expired|;
      var todo := expired;
      ghost var before := State();
      PruneNothing(before, tick);
      while todo != {}
        invariant todo <= expired <= before.states.Keys && State() == PruneSome(before, expired - todo, tick)
        decreases |todo|
      {
        var k :| k in todo;
        PruneOneMore(before, expired, todo, k, tick);
        states := states[k := Expired(tick)];
        payloads := payloads - {k};
        todo := todo - {k};
      }
      PruneLapsed(before, expired - todo, tick);
    }

    /** The racers of one token at one tick: exactly one wins if the token is live, otherwise none. */
    method SimulateConcurrentConsumptionRace(k: string, racers: nat, tick: nat) returns (wins: nat, losses: nat)
      requires Inv(State())
      modifies this
      ensures Inv(State()) && wins + losses == racers
      ensures wins == if racers > 0 && old(StatusOf(State(), k)).Pending? && !Lapsed(old(StatusOf(State(), k)), tick)
                      then 1 else 0
    {
      wins, losses := 0, 0;
      for i := 0 to racers
        invariant Inv(State()) && wins + losses == i
        invariant i == 0 ==> State() == old(State())
        invariant i > 0 ==> !StatusOf(State(), k).Pending?
        invariant wins == if i > 0 && old(StatusOf(State(), k)).Pending? && !Lapsed(old(StatusOf(State(), k)), tick)
                          then 1 else 0
      {
        StepInv(State(), DoTake(k, tick));
        var r := TakeState(k, tick);
        if r.Some? {
          wins := wins + 1;
        } else {
          losses := losses + 1;
        }
      }
    }
  }
}
