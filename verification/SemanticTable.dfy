/**
 The semantic-edit table: per target, the checkouts opened on it, the proposals under them and the
 snapshot lock. Every public operation is one critical section of the outer mutex.
 */
module SemanticTable {
  import opened Common

  datatype CheckoutStatus = Open | Closed | Expired

  datatype ProposalStatus = Draft | Finalized | Superseded | Dropped

  /** `Closed` is the finalized state of a checkout. */
  datatype Checkout = Checkout(openedAt: nat, ttl: nat, status: CheckoutStatus)

  datatype Proposal = Proposal(checkout: LineageId, status: ProposalStatus)

  datatype TargetState = TargetState(
    checkouts: map<LineageId, Checkout>,
    proposals: map<LineageId, Proposal>,
    snapshotInProgress: bool,
    lastSnapshot: Option<LineageId>)

  type Table = map<LineageId, TargetState>

  const NEW_TARGET := TargetState(map[], map[], false, None)

  datatype RegisterError = CheckoutNotFound | CheckoutClosed | CheckoutExpired

  datatype FinalizeError = ProposalNotFound | AlreadyFinalized | WasSuperseded | WasDropped

  datatype Registration = Registered(predecessor: Option<LineageId>) | Refused(error: RegisterError)

  datatype FinalizeOutcome = StillPending | SnapshotReady | FinalizeRefused(reason: FinalizeError)

  predicate TtlExpired(c: Checkout, now: nat) {
    c.openedAt + c.ttl <= now
  }

  predicate Lapsed(c: Checkout, now: nat) {
    c.status == Open && TtlExpired(c, now)
  }

  function LapsedIds(ts: TargetState, now: nat): set<LineageId> {
    set id | id in ts.checkouts && Lapsed(ts.checkouts[id], now)
  }

  function Closing(ts: TargetState, ids: set<LineageId>): map<LineageId, Checkout> {
    map id | id in ts.checkouts :: if id in ids then ts.checkouts[id].(status := Expired) else ts.checkouts[id]
  }

  function Dropping(ts: TargetState, ids: set<LineageId>): map<LineageId, Proposal> {
    map p | p in ts.proposals ::
      if ts.proposals[p].checkout in ids && ts.proposals[p].status == Draft
      then ts.proposals[p].(status := Dropped) else ts.proposals[p]
  }

  /** Lapsed checkouts expire, and their drafts are dropped. */
  function SweepTarget(ts: TargetState, now: nat): TargetState {
    var ids := LapsedIds(ts, now);
    ts.(checkouts := Closing(ts, ids), proposals := Dropping(ts, ids))
  }

  function DropFor(ps: map<LineageId, Proposal>, checkout: LineageId): map<LineageId, Proposal> {
    map p | p in ps :: if ps[p].checkout == checkout && ps[p].status == Draft then ps[p].(status := Dropped) else ps[p]
  }

  lemma NothingExpired(ts: TargetState)
    ensures Closing(ts, {}) == ts.checkouts && Dropping(ts, {}) == ts.proposals
  {
  }

  /** Expiring one more checkout, in place. */
  lemma ExpireOne(ts: TargetState, done: set<LineageId>, id: LineageId)
    requires id in ts.checkouts && id !in done
    ensures Closing(ts, done)[id := Closing(ts, done)[id].(status := Expired)] == Closing(ts, done + {id})
    ensures DropFor(Dropping(ts, done), id) == Dropping(ts, done + {id})
  {
  }

  function Sweep(t: Table, target: LineageId, now: nat): Table {
    if target in t then t[target := SweepTarget(t[target], now)] else t
  }

  function StateOf(t: Table, target: LineageId): TargetState {
    if target in t then t[target] else NEW_TARGET
  }

  /** A locked target refuses the checkout; either way the target has an entry afterwards. */
  function TryRegister(t: Table, target: LineageId, id: LineageId, c: Checkout): Table {
    var ts := StateOf(t, target);
    t[target := if ts.snapshotInProgress then ts else ts.(checkouts := ts.checkouts[id := c])]
  }

  function RegisterErrorOf(t: Table, target: LineageId, checkout: LineageId): Option<RegisterError> {
    if target !in t || checkout !in t[target].checkouts then Some(CheckoutNotFound)
    else
      match t[target].checkouts[checkout].status
      case Closed => Some(CheckoutClosed)
      case Expired => Some(CheckoutExpired)
      case Open => None
  }

  function Drafts(ts: TargetState, checkout: LineageId): set<LineageId> {
    set p | p in ts.proposals && ts.proposals[p] == Proposal(checkout, Draft)
  }

  function Superseding(ts: TargetState, checkout: LineageId): map<LineageId, Proposal> {
    map p | p in ts.proposals ::
      if ts.proposals[p] == Proposal(checkout, Draft) then Proposal(checkout, Superseded) else ts.proposals[p]
  }

  /** A new draft supersedes the draft the checkout had. */
  function RegisterProposal(t: Table, target: LineageId, checkout: LineageId, id: LineageId): Table {
    if RegisterErrorOf(t, target, checkout).Some? then t
    else t[target := t[target].(proposals := Superseding(t[target], checkout)[id := Proposal(checkout, Draft)])]
  }

  predicate Hosts(t: Table, target: LineageId, proposal: LineageId) {
    target in t && proposal in t[target].proposals
  }

  /** The proposal and its checkout are finalized, and lapsed checkouts swept, in one go. */
  function FinalizeIn(ts: TargetState, proposal: LineageId, now: nat): TargetState
    requires proposal in ts.proposals
  {
    var p := ts.proposals[proposal];
    var checkouts :=
      if p.checkout in ts.checkouts && ts.checkouts[p.checkout].status == Open
      then ts.checkouts[p.checkout := ts.checkouts[p.checkout].(status := Closed)] else ts.checkouts;
    SweepTarget(ts.(proposals := ts.proposals[proposal := p.(status := Finalized)], checkouts := checkouts), now)
  }

  predicate AnyOpen(ts: TargetState) {
    exists id <- ts.checkouts.Keys :: ts.checkouts[id].status == Open
  }

  function OutcomeOf(ts: TargetState, proposal: LineageId, now: nat): FinalizeOutcome
    requires proposal in ts.proposals
  {
    match ts.proposals[proposal].status
    case Finalized => FinalizeRefused(AlreadyFinalized)
    case Superseded => FinalizeRefused(WasSuperseded)
    case Dropped => FinalizeRefused(WasDropped)
    case Draft => if AnyOpen(FinalizeIn(ts, proposal, now)) then StillPending else SnapshotReady
  }

  /** When no checkout is left open the lock is taken before the mutex is released. */
  function RecordFinalize(t: Table, target: LineageId, proposal: LineageId, now: nat): Table
    requires Hosts(t, target, proposal)
  {
    match OutcomeOf(t[target], proposal, now)
    case FinalizeRefused(_) => t
    case StillPending => t[target := FinalizeIn(t[target], proposal, now)]
    case SnapshotReady => t[target := FinalizeIn(t[target], proposal, now).(snapshotInProgress := true)]
  }

  /** One finalize on one target: the outcome, the new table, and the frozen list when the round closed. */
  ghost predicate FinalizedOn(t: Table, t': Table, target: LineageId, proposal: LineageId, now: nat,
    o: FinalizeOutcome, frozen: seq<LineageId>)
    requires Hosts(t, target, proposal)
  {
    && o == OutcomeOf(t[target], proposal, now)
    && t' == RecordFinalize(t, target, proposal, now)
    && (o == SnapshotReady ==> (set p | p in frozen) == FinalizedIn(t'[target]))
  }

  function FinalizedIn(ts: TargetState): set<LineageId> {
    set p | p in ts.proposals && ts.proposals[p].status == Finalized
  }

  function Release(t: Table, target: LineageId, snapshot: LineageId): Table {
    if target in t then t[target := t[target].(snapshotInProgress := false, lastSnapshot := Some(snapshot))] else t
  }

  // ----- the table itself -----

  class SemanticStateTable {
    var targets: Table

    constructor ()
      ensures targets == map[]
    {
      targets := map[];
    }

    /** The sweep both `sweep_expired` and `record_finalize` run, over a target's two maps in any order. */
    static method SweepLoop(ts: TargetState, now: nat) returns (r: TargetState, ids: set<LineageId>)
      ensures r == SweepTarget(ts, now) && ids == LapsedIds(ts, now)
    {
      ids := CollectLapsed(ts, now);
      r := ts;
      var todo := ids;
      NothingExpired(ts);
      while todo != {}
        invariant todo <= ids
        invariant r == ts.(checkouts := Closing(ts, ids - todo), proposals := Dropping(ts, ids - todo))
        decreases todo
      {
        var id :| id in todo;
        ExpireOne(ts, ids - todo, id);
        assert ids - (todo - {id}) == ids - todo + {id};
        r := r.(checkouts := r.checkouts[id := r.checkouts[id].(status := Expired)]);
        r := r.(proposals := DropFor(r.proposals, id));
        todo := todo - {id};
      }
      assert ids - {} == ids;
    }

    static method CollectLapsed(ts: TargetState, now: nat) returns (ids: set<LineageId>)
      ensures ids == LapsedIds(ts, now)
    {
      ids := {};
      var todo := ts.checkouts.Keys;
      while todo != {}
        invariant todo <= ts.checkouts.Keys
        invariant ids == set id | id in ts.checkouts.Keys - todo && Lapsed(ts.checkouts[id], now)
        decreases todo
      {
        var id :| id in todo;
        if ts.checkouts[id].status == Open && TtlExpired(ts.checkouts[id], now) {
          ids := ids + {id};
        }
        todo := todo - {id};
      }
    }

    method SweepExpired(target: LineageId, now: nat) returns (any: bool)
      modifies this
      ensures targets == Sweep(old(targets), target, now)
      ensures any <==> target in old(targets) && LapsedIds(old(targets)[target], now) != {}
    {
      if target !in targets {
        return false;
      }
      var ts, ids := SweepLoop(targets[target], now);
      targets := targets[target := ts];
      any := ids != {};
    }

    method TryRegisterCheckout(target: LineageId, id: LineageId, c: Checkout) returns (ok: bool)
      modifies this
      ensures ok <==> !StateOf(old(targets), target).snapshotInProgress
      ensures targets == TryRegister(old(targets), target, id, c)
    {
      if target !in targets {
        targets := targets[target := NEW_TARGET];
      }
      var ts := targets[target];
      if ts.snapshotInProgress {
        return false;
      }
      targets := targets[target := ts.(checkouts := ts.checkouts[id := c])];
      ok := true;
    }

    method DoRegisterProposal(target: LineageId, checkout: LineageId, id: LineageId) returns (r: Registration)
      modifies this
      ensures targets == RegisterProposal(old(targets), target, checkout, id)
      ensures match RegisterErrorOf(old(targets), target, checkout)
              case Some(e) => r == Refused(e)
              case None =>
                && r.Registered?
                && (r.predecessor == None <==> Drafts(old(targets)[target], checkout) == {})
                && (r.predecessor.Some? ==> r.predecessor.value in Drafts(old(targets)[target], checkout))
    {
      var bad := RegisterErrorOf(targets, target, checkout);
      if bad.Some? {
        return Refused(bad.value);
      }
      var ts := targets[target];
      var proposals := ts.proposals;
      var superseded: Option<LineageId> := None;
      var todo := proposals.Keys;
      while todo != {}
        invariant todo <= ts.proposals.Keys == proposals.Keys
        invariant forall p <- proposals.Keys ::
                    proposals[p] == if p in todo then ts.proposals[p] else Superseding(ts, checkout)[p]
        invariant superseded == None <==> Drafts(ts, checkout) - todo == {}
        invariant superseded.Some? ==> superseded.value in Drafts(ts, checkout)
        decreases todo
      {
        var p :| p in todo;
        assert p in Drafts(ts, checkout) <==> proposals[p] == Proposal(checkout, Draft);
        todo := todo - {p};
        if proposals[p].checkout == checkout && proposals[p].status == Draft {
          assert p in Drafts(ts, checkout) - todo;
          proposals := proposals[p := proposals[p].(status := Superseded)];
          superseded := Some(p);
        } else {
          assert forall q :: q in Drafts(ts, checkout) - todo <==> q in Drafts(ts, checkout) - (todo + {p});
        }
      }
      assert proposals == Superseding(ts, checkout);
      targets := targets[target := ts.(proposals := proposals[id := Proposal(checkout, Draft)])];
      r := Registered(superseded);
    }

    /** The target is one that hosts the proposal, whichever the iteration meets first. */
    method DoRecordFinalize(proposal: LineageId, now: nat) returns (o: FinalizeOutcome, frozen: seq<LineageId>)
      modifies this
      ensures
        if forall a :: !Hosts(old(targets), a, proposal)
        then o == FinalizeRefused(ProposalNotFound) && targets == old(targets)
        else exists a :: Hosts(old(targets), a, proposal)
                         && FinalizedOn(old(targets), targets, a, proposal, now, o, frozen)
    {
      frozen := [];
      var target := TargetOfProposal(proposal);
      if target == None {
        return FinalizeRefused(ProposalNotFound), frozen;
      }
      var a := target.value;
      assert Hosts(old(targets), a, proposal);
      var ts := targets[a];
      var p := ts.proposals[proposal];
      match p.status
      case Finalized => o := FinalizeRefused(AlreadyFinalized);
      case Superseded => o := FinalizeRefused(WasSuperseded);
      case Dropped => o := FinalizeRefused(WasDropped);
      case Draft =>
        ts := ts.(proposals := ts.proposals[proposal := p.(status := Finalized)]);
        if p.checkout in ts.checkouts && ts.checkouts[p.checkout].status == Open {
          ts := ts.(checkouts := ts.checkouts[p.checkout := ts.checkouts[p.checkout].(status := Closed)]);
        }
        var swept, _ := SweepLoop(ts, now);
        assert swept == FinalizeIn(old(targets)[a], proposal, now);
        var stillOpen := HasOpen(swept);
        if stillOpen {
          targets := targets[a := swept];
          o := StillPending;
        } else {
          targets := targets[a := swept.(snapshotInProgress := true)];
          frozen := ListFinalized(swept);
          assert FinalizedIn(targets[a]) == FinalizedIn(swept);
          o := SnapshotReady;
        }
    }

    method TargetOfProposal(proposal: LineageId) returns (r: Option<LineageId>)
      ensures r.Some? ==> Hosts(targets, r.value, proposal)
      ensures r == None ==> forall a :: !Hosts(targets, a, proposal)
    {
      var todo := targets.Keys;
      while todo != {}
        invariant todo <= targets.Keys
        invariant forall a :: a in targets.Keys - todo ==> !Hosts(targets, a, proposal)
        decreases todo
      {
        var a :| a in todo;
        if proposal in targets[a].proposals {
          return Some(a);
        }
        todo := todo - {a};
      }
      r := None;
    }

    static method HasOpen(ts: TargetState) returns (b: bool)
      ensures b <==> AnyOpen(ts)
    {
      b := false;
      var todo := ts.checkouts.Keys;
      while todo != {}
        invariant todo <= ts.checkouts.Keys
        invariant b <==> exists id <- ts.checkouts.Keys - todo :: ts.checkouts[id].status == Open
        decreases todo
      {
        var id :| id in todo;
        ghost var done := ts.checkouts.Keys - todo;
        b := b || ts.checkouts[id].status == Open;
        todo := todo - {id};
        assert ts.checkouts.Keys - todo == done + {id};
      }
      assert ts.checkouts.Keys - todo == ts.checkouts.Keys;
    }

    static method ListFinalized(ts: TargetState) returns (ids: seq<LineageId>)
      ensures (set p | p in ids) == FinalizedIn(ts)
    {
      ids := [];
      var todo := ts.proposals.Keys;
      while todo != {}
        invariant todo <= ts.proposals.Keys
        invariant (set p | p in ids) == set p | p in ts.proposals.Keys - todo && ts.proposals[p].status == Finalized
        decreases todo
      {
        var p :| p in todo;
        ghost var done, before := ts.proposals.Keys - todo, ids;
        if ts.proposals[p].status == Finalized {
          ids := ids + [p];
          assert (set q | q in ids) == (set q | q in before) + {p};
        }
        todo := todo - {p};
        assert ts.proposals.Keys - todo == done + {p};
      }
      assert ts.proposals.Keys - todo == ts.proposals.Keys;
    }

    method ReleaseSnapshotLock(target: LineageId, snapshot: LineageId)
      modifies this
      ensures targets == Release(old(targets), target, snapshot)
    {
      if target in targets {
        targets := targets[target := targets[target].(snapshotInProgress := false, lastSnapshot := Some(snapshot))];
      }
    }
  }
}
