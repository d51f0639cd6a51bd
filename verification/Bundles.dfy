/**
 The life of a policy bundle (src/daily_agent/parakh/receiver.py): received, staged, in shadow, retired, with an audit
 event for every change. Verifying a bundle's signature, checksums and files either succeeds or fails.
 */
module Bundles {
  import opened Options

  type Version = string
  type Checksum = string

  datatype State = Received | Staged | Shadow | Retired {
    function Rank(): nat {
      match this
      case Received => 0
      case Staged => 1
      case Shadow => 2
      case Retired => 3
    }
  }

  /** What an operator may ask for; live traffic is canary and production, and any other word is no state at all. */
  datatype Target = To(state: State) | LiveTraffic | NoSuchState

  function Transitions(from: State): set<State> {
    match from
    case Received => {Staged, Retired}
    case Staged => {Shadow, Retired}
    case Shadow => {Retired}
    case Retired => {}
  }

  /** An audit event. */
  datatype Event = Event(from: Option<State>, to: State)

  /** A bundle's row, with its audit events in the order they were written. */
  datatype Record = Record(checksum: Checksum, state: State, events: seq<Event>) {
    function Moved(to: State): Record { Record(checksum, to, events + [Event(Some(state), to)]) }
  }

  type Store = map<Version, Record>

  datatype Answer = NoOperator | Rejected | LiveRefused | Unknown | NotAllowed | Done

  // ---------- Operations ----------

  /** `verified`: the bundle, its version and the copy made of it all passed verification. */
  function Receive(s: Store, v: Version, checksum: Checksum, operator: bool, verified: bool): (Store, Answer) {
    if !operator then (s, NoOperator)
    else if !verified then (s, Rejected)
    else if v in s then (s, if s[v].checksum != checksum then Rejected else Done)
    else (s[v := Record(checksum, Received, [Event(None, Received)])], Done)
  }

  /** Every other bundle in shadow is retired. */
  function ShadowCleared(s: Store, v: Version): Store {
    map o | o in s :: if s[o].state == Shadow && o != v then s[o].Moved(Retired) else s[o]
  }

  /** `verifies`: the stored copy still passes verification. */
  function Transition(s: Store, v: Version, target: Target, operator: bool, verifies: bool): (Store, Answer) {
    if !operator then (s, NoOperator)
    else if target.LiveTraffic? then (s, LiveRefused)
    else if v !in s then (s, Unknown)
    else if target.NoSuchState? || target.state !in Transitions(s[v].state) then (s, NotAllowed)
    else if target.state in {Staged, Shadow} && !verifies then (s, Rejected)
    else
      var cleared := if target.state == Shadow then ShadowCleared(s, v) else s;
      (cleared[v := s[v].Moved(target.state)], Done)
  }

  class BundleStore {
    var records: Store

    constructor ()
      ensures records == map[]
    {
      records := map[];
    }

    /** Writes the audit event and then the state. */
    method Move(v: Version, to: State)
      requires v in records
      modifies this
      ensures records == old(records)[v := old(records)[v].Moved(to)]
    {
      var r := records[v];
      r := r.(events := r.events + [Event(Some(r.state), to)]);
      records := records[v := r.(state := to)];
    }

    method ReceiveBundle(v: Version, checksum: Checksum, operator: bool, verified: bool) returns (answer: Answer)
      modifies this
      ensures (records, answer) == Receive(old(records), v, checksum, operator, verified)
    {
      if !operator {
        return NoOperator;
      }
      if !verified {
        return Rejected;
      }
      if v in records {
        return if records[v].checksum != checksum then Rejected else Done;
      }
      records := records[v := Record(checksum, Received, [Event(None, Received)])];
      return Done;
    }

    method RetireOthers(v: Version)
      modifies this
      ensures records == ShadowCleared(old(records), v)
    {
      var others := set o | o in records && records[o].state == Shadow && o != v;
      while others != {}
        invariant records.Keys == old(records).Keys
        invariant forall o :: o in others ==> o in records && records[o].state == Shadow && o != v
        invariant forall o :: o in records ==>
                    records[o] == if o in others then old(records)[o] else ShadowCleared(old(records), v)[o]
        decreases others
      {
        var o :| o in others;
        Move(o, Retired);
        others := others - {o};
      }
    }

    method TransitionTo(v: Version, target: Target, operator: bool, verifies: bool) returns (answer: Answer)
      modifies this
      ensures (records, answer) == Transition(old(records), v, target, operator, verifies)
    {
      if !operator {
        return NoOperator;
      }
      if target.LiveTraffic? {
        return LiveRefused;
      }
      if v !in records {
        return Unknown;
      }
      if target.NoSuchState? || target.state !in Transitions(records[v].state) {
        return NotAllowed;
      }
      if target.state in {Staged, Shadow} && !verifies {
        return Rejected;
      }
      if target.state == Shadow {
        RetireOthers(v);
      }
      Move(v, target.state);
      return Done;
    }
  }

  // ---------- What every reachable store satisfies ----------

  /** The events start with the receipt, and each further one leaves the state the one before it reached, by a listed move. */
  predicate LegalTrail(trail: seq<Event>) {
    && trail != [] && trail[0] == Event(None, Received)
    && forall i :: 0 < i < |trail| ==> trail[i].from == Some(trail[i - 1].to) && trail[i].to in Transitions(trail[i - 1].to)
  }

  predicate RecordSound(r: Record) {
    LegalTrail(r.events) && r.events[|r.events| - 1].to == r.state
  }

  ghost predicate Sound(s: Store) {
    && (forall v :: v in s ==> RecordSound(s[v]))
    && (forall v, w :: v in s && w in s && s[v].state == s[w].state == Shadow ==> v == w)
  }

  datatype Action =
    | Receiving(version: Version, checksum: Checksum, operator: bool, verified: bool)
    | Transiting(version: Version, target: Target, operator: bool, verified: bool)

  function Next(s: Store, a: Action): Store {
    match a
    case Receiving(v, checksum, operator, verified) => Receive(s, v, checksum, operator, verified).0
    case Transiting(v, target, operator, verified) => Transition(s, v, target, operator, verified).0
  }

  function After(actions: seq<Action>): Store {
    if actions == [] then map[] else Next(After(actions[..|actions| - 1]), actions[|actions| - 1])
  }

  lemma MoveIsSound(r: Record, to: State)
    requires RecordSound(r) && to in Transitions(r.state)
    ensures RecordSound(r.Moved(to))
  {
  }

  lemma ClearingKeepsSound(s: Store, v: Version)
    requires Sound(s) && v in s
    ensures Sound(ShadowCleared(s, v)) && ShadowCleared(s, v)[v] == s[v]
    ensures forall o :: o in s && o != v ==> ShadowCleared(s, v)[o].state != Shadow
  {
    forall o | o in s && s[o].state == Shadow ensures RecordSound(s[o].Moved(Retired)) {
      MoveIsSound(s[o], Retired);
    }
  }

  lemma MovingKeepsSound(s: Store, v: Version, to: State)
    requires Sound(s) && v in s && to in Transitions(s[v].state)
    requires to == Shadow ==> forall o :: o in s && o != v ==> s[o].state != Shadow
    ensures Sound(s[v := s[v].Moved(to)])
  {
    MoveIsSound(s[v], to);
  }

  lemma TransitionKeepsSound(s: Store, v: Version, to: State)
    requires Sound(s) && v in s && to in Transitions(s[v].state)
    ensures Sound(Transition(s, v, To(to), true, true).0)
  {
    if to == Shadow {
      ClearingKeepsSound(s, v);
      MovingKeepsSound(ShadowCleared(s, v), v, to);
    } else {
      MovingKeepsSound(s, v, to);
    }
  }

  lemma NextKeepsSound(s: Store, a: Action)
    requires Sound(s)
    ensures Sound(Next(s, a))
  {
    if a.Transiting? && Next(s, a) != s {
      TransitionKeepsSound(s, a.version, a.target.state);
    }
  }

  lemma {:induction false} EveryStoreIsSound(actions: seq<Action>)
    ensures Sound(After(actions))
  {
    if actions != [] {
      EveryStoreIsSound(actions[..|actions| - 1]);
      NextKeepsSound(After(actions[..|actions| - 1]), actions[|actions| - 1]);
    }
  }

  /** In every reachable store at most one bundle is in shadow. */
  lemma {:induction false} AtMostOneShadow(actions: seq<Action>, v: Version, w: Version)
    requires v in After(actions) && w in After(actions)
    requires After(actions)[v].state == After(actions)[w].state == Shadow
    ensures v == w
  {
    EveryStoreIsSound(actions);
  }

  lemma {:induction false} TrailClimbs(trail: seq<Event>, i: nat)
    requires LegalTrail(trail) && i < |trail|
    ensures trail[i].to.Rank() >= i
  {
    if i > 0 {
      TrailClimbs(trail, i - 1);
    }
  }

  /** Replaying a bundle's events walks the table of transitions to its current state, in at most four events. */
  lemma TrailsReplay(actions: seq<Action>, v: Version)
    requires v in After(actions)
    ensures var r := After(actions)[v];
            LegalTrail(r.events) && r.events[|r.events| - 1].to == r.state && |r.events| <= 4
  {
    EveryStoreIsSound(actions);
    var trail := After(actions)[v].events;
    TrailClimbs(trail, |trail| - 1);
  }

  lemma NextKeepsRecords(s: Store, a: Action, v: Version)
    requires v in s
    ensures var s' := Next(s, a);
            && v in s' && s'[v].checksum == s[v].checksum && s[v].events <= s'[v].events
            && s'[v].state.Rank() >= s[v].state.Rank()
  {
  }

  /** Once received, a version keeps its checksum for ever; its events are only added to and its state only advances. */
  lemma {:induction false} RecordsStay(actions: seq<Action>, more: seq<Action>, v: Version)
    requires v in After(actions)
    ensures var s, s' := After(actions), After(actions + more);
            && v in s' && s'[v].checksum == s[v].checksum && s[v].events <= s'[v].events
            && s'[v].state.Rank() >= s[v].state.Rank()
  {
    if more == [] {
      assert actions + more == actions;
    } else {
      var longer, before := actions + more, more[..|more| - 1];
      assert longer[..|longer| - 1] == actions + before;
      RecordsStay(actions, before, v);
      NextKeepsRecords(After(actions + before), longer[|longer| - 1], v);
    }
  }

  /** Receiving a version again is refused when the contents differ, and otherwise changes nothing. */
  lemma ReceivingIsIdempotent(s: Store, v: Version, checksum: Checksum, again: Checksum)
    requires Receive(s, v, checksum, true, true).1 == Done
    ensures Receive(Receive(s, v, checksum, true, true).0, v, again, true, true)
         == (Receive(s, v, checksum, true, true).0, if again == checksum then Done else Rejected)
  {
  }

  /** Received bundles may be staged, staged ones put in shadow, and all three retired; nothing else moves. */
  predicate MayMove(from: State, to: State) {
    || (from == Received && to == Staged)
    || (from == Staged && to == Shadow)
    || (from != Retired && to == Retired)
  }

  /** Live traffic is never reached, and a refused request changes nothing. */
  lemma RefusalsChangeNothing(s: Store, v: Version, target: Target, operator: bool, verifies: bool)
    ensures var (s', answer) := Transition(s, v, target, operator, verifies);
            && (answer == Done <==> operator && v in s && target.To? && MayMove(s[v].state, target.state)
                                    && (target.state == Retired || verifies))
            && (answer != Done ==> s' == s)
            && (answer == Done ==>
                  && v in s' && s'[v] == Record(s[v].checksum, target.state, s[v].events + [Event(Some(s[v].state), target.state)])
                  && s'.Keys == s.Keys
                  && forall o :: o in s && o != v ==>
                       s'[o] == if target.state == Shadow && s[o].state == Shadow
                                then Record(s[o].checksum, Retired, s[o].events + [Event(Some(Shadow), Retired)]) else s[o])
  {
  }

  /** A row appears exactly when an operator brings a new version that passes verification; no receipt changes another row. */
  lemma ReceivedIff(s: Store, v: Version, checksum: Checksum, operator: bool, verified: bool)
    ensures var (s', answer) := Receive(s, v, checksum, operator, verified);
            && (s' != s <==> operator && verified && v !in s)
            && (s' != s ==> s' == s[v := Record(checksum, Received, [Event(None, Received)])])
            && (answer == Done <==> operator && verified && (v in s ==> s[v].checksum == checksum))
            && (answer == NoOperator <==> !operator)
  {
    assert v !in s ==> v in s[v := Record(checksum, Received, [Event(None, Received)])];
  }

  /**
   A bundle that is in shadow was verified three times at an operator's request: when it was received, then when it was
   staged, and then when it was put in shadow. A staged one was verified twice, and every one when it was received.
   */
  lemma {:induction false} ShadowWasVerified(actions: seq<Action>, v: Version)
    returns (received: nat, staged: nat, shadowed: nat)
    requires v in After(actions)
    ensures received < |actions| && actions[received] == Receiving(v, After(actions)[v].checksum, true, true)
    ensures After(actions)[v].state in {Staged, Shadow} ==>
              received < staged < |actions| && actions[staged] == Transiting(v, To(Staged), true, true)
    ensures After(actions)[v].state == Shadow ==>
              staged < shadowed < |actions| && actions[shadowed] == Transiting(v, To(Shadow), true, true)
  {
    var last := |actions| - 1;
    var before := After(actions[..last]);
    if v !in before {
      received, staged, shadowed := last, 0, 0;
    } else {
      received, staged, shadowed := ShadowWasVerified(actions[..last], v);
      if After(actions)[v].state == Staged && before[v].state != Staged { staged := last; }
      if After(actions)[v].state == Shadow && before[v].state != Shadow { shadowed := last; }
    }
  }
}
