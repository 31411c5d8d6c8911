/**
  What stays of the review lifecycle when evaluations and resolutions interleave: the row lock
  an evaluation keeps from its write to its commit protects the search for an open review.
*/
module ReviewRaces {
  import opened Basics
  import opened AttendanceRules
  import opened AttendanceProperties
  import opened EvaluationRaces

  ghost predicate Exclusive(s: State) {
    forall v: Id, w: Id, person: Id :: Holds(s, v, person) && Holds(s, w, person) ==> v == w
  }

  /** A written verdict opens a review exactly when none is unresolved for its reason. */
  predicate WriteOk(reg: Register, write: Write) {
    match write.verdict
    case Graded(_, _, status) => status != Pending
    case Deferred(reason) => write.opens <==> !HasUnresolved(reg, write.person, reason)
  }

  ghost predicate WritesOk(reg: Register, writes: seq<Write>) {
    forall i :: 0 <= i < |writes| ==> WriteOk(reg, writes[i])
  }

  ghost predicate OneOpenPerReason(reg: Register) {
    forall i, j :: 0 <= i < j < |reg.reviews| && reg.reviews[i].resolvedAt.None? && reg.reviews[j].resolvedAt.None? ==>
      reg.reviews[i].person != reg.reviews[j].person || reg.reviews[i].reason != reg.reviews[j].reason
  }

  ghost predicate RegisterOk(reg: Register) {
    && OneOpenPerReason(reg)
    && (forall i :: 0 <= i < |reg.reviews| ==> reg.reviews[i].person in reg.consolidations)
    && (forall p :: p in reg.consolidations && reg.consolidations[p].status == Pending ==> Awaits(reg, p))
  }

  ghost predicate Inv(s: State) {
    && Exclusive(s) && AllOnce(s) && RegisterOk(s.register)
    && forall w: Id :: WritesOk(s.register, WritesOf(WorkerOf(s, w)))
  }

  lemma {:induction false} KeptKeepsUnresolved(a: Register, b: Register, person: Id, reason: Reason)
    requires KeptFor(a, b, person)
    ensures HasUnresolved(a, person, reason) <==> HasUnresolved(b, person, reason)
  {
    if HasUnresolved(a, person, reason) {
      UnresolvedCarriesOver(a, b, person, reason);
    } else if i :| 0 <= i < |b.reviews| && IsUnresolved(b.reviews[i], person, reason) {
      assert IsUnresolved(a.reviews[i], person, reason);
    }
  }

  lemma {:induction false} KeptKeepsWrite(a: Register, b: Register, write: Write)
    requires KeptFor(a, b, write.person) && WriteOk(a, write)
    ensures WriteOk(b, write)
  {
    if write.verdict.Deferred? {
      KeptKeepsUnresolved(a, b, write.person, write.verdict.reason);
    }
  }

  lemma {:induction false} KeptKeepsAwaiting(a: Register, b: Register, person: Id)
    requires KeptFor(a, b, person) && Awaits(a, person)
    ensures Awaits(b, person)
  {
    KeptKeepsUnresolved(a, b, person, MissingFactor);
    KeptKeepsUnresolved(a, b, person, MissingExit);
  }

  lemma {:induction false} PublishedSparesOthers(reg: Register, write: Write, person: Id)
    requires write.person != person
    ensures KeptFor(reg, Published(reg, write), person)
  {
  }

  lemma {:induction false} PublishedAwaits(reg: Register, write: Write)
    requires write.verdict.Deferred? && WriteOk(reg, write)
    ensures HasUnresolved(Published(reg, write), write.person, write.verdict.reason)
  {
    var t := Published(reg, write);
    if write.opens {
      assert IsUnresolved(t.reviews[|reg.reviews|], write.person, write.verdict.reason);
    } else {
      UnresolvedCarriesOver(reg, t, write.person, write.verdict.reason);
    }
  }

  lemma {:induction false} PublishedKeepsRegister(reg: Register, write: Write)
    requires RegisterOk(reg) && WriteOk(reg, write)
    ensures RegisterOk(Published(reg, write))
  {
    var t := Published(reg, write);
    if write.verdict.Deferred? {
      PublishedAwaits(reg, write);
      if write.opens {
        assert forall i :: 0 <= i < |reg.reviews| ==> !IsUnresolved(reg.reviews[i], write.person, write.verdict.reason);
      }
    }
    forall p | p in t.consolidations && t.consolidations[p].status == Pending ensures Awaits(t, p) {
      if p != write.person {
        PublishedSparesOthers(reg, write, p);
        KeptKeepsAwaiting(reg, t, p);
      }
    }
  }

  lemma {:induction false} PublishingKeepsRegister(reg: Register, writes: seq<Write>)
    requires RegisterOk(reg) && OncePerPerson(writes) && WritesOk(reg, writes)
    ensures RegisterOk(PublishedAll(reg, writes))
    decreases |writes|
  {
    if writes != [] {
      var init, last := writes[..|writes| - 1], writes[|writes| - 1];
      assert forall i :: 0 <= i < |init| ==> init[i] == writes[i];
      PublishingKeepsRegister(reg, init);
      PublishingSparesOthers(reg, init, last.person);
      KeptKeepsWrite(reg, PublishedAll(reg, init), last);
      PublishedKeepsRegister(PublishedAll(reg, init), last);
    }
  }

  lemma {:induction false} ResolvedKeepsRegister(reg: Register, id: Id, resolver: Id, decision: Status, note: Option<string>, now: int)
    requires RegisterOk(reg) && id < |reg.reviews| && decision != Pending
    ensures RegisterOk(Resolved(reg, id, resolver, decision, note, now))
    ensures forall p :: p != reg.reviews[id].person ==> KeptFor(reg, Resolved(reg, id, resolver, decision, note, now), p)
  {
    var t := Resolved(reg, id, resolver, decision, note, now);
    assert reg.reviews[id].person in reg.consolidations;
    forall p | p in t.consolidations && t.consolidations[p].status == Pending ensures Awaits(t, p) {
      assert p != reg.reviews[id].person;
      KeptKeepsAwaiting(reg, t, p);
    }
  }

  /** A step changes nothing for a person whose row another transaction has locked. */
  lemma {:induction false} LockedIsKept(setting: Setting, s: State, e: Event, w: Id, person: Id)
    requires Exclusive(s) && Holds(s, w, person) && (e.Resolve? || e.w != w)
    ensures KeptFor(s.register, Step(setting, s, e).register, person)
  {
    assert PublishesOver(s, e, person) ==> Holds(s, e.w, person);
    StepSpares(setting, s, e, person);
  }

  lemma {:induction false} StepKeepsExclusive(setting: Setting, s: State, e: Event)
    requires Exclusive(s)
    ensures Exclusive(Step(setting, s, e))
  {
    var t := Step(setting, s, e);
    forall v: Id, person: Id | Holds(t, v, person)
      ensures Holds(s, v, person) || (!e.Resolve? && v == e.w && FreeFor(s, v, person))
    {
      if !e.Resolve? && v != e.w { assert WorkerOf(t, v) == WorkerOf(s, v); }
    }
  }

  lemma {:induction false} StepKeepsWrites(setting: Setting, s: State, e: Event, w: Id)
    requires Inv(s)
    ensures WritesOk(Step(setting, s, e).register, WritesOf(WorkerOf(Step(setting, s, e), w)))
  {
    var t := Step(setting, s, e);
    assert WritesOk(s.register, WritesOf(WorkerOf(s, w)));
    if e.Resolve? || e.w != w {
      assert WorkerOf(t, w) == WorkerOf(s, w);
      var writes := WritesOf(WorkerOf(s, w));
      forall i | 0 <= i < |writes| ensures WriteOk(t.register, writes[i]) {
        assert Holds(s, w, writes[i].person);
        LockedIsKept(setting, s, e, w, writes[i].person);
        KeptKeepsWrite(s.register, t.register, writes[i]);
      }
    } else if e.WriteRows? && WorkerOf(s, w).Evaluating? && WorkerOf(s, w).looked.Some? {
      assert WriteOk(s.register, WriteFor(setting, s.register, e.ev, WorkerOf(s, w).looked.value));
    }
  }

  lemma {:induction false} StepKeepsInv(setting: Setting, s: State, e: Event)
    requires Inv(s)
    ensures Inv(Step(setting, s, e))
  {
    StepKeepsExclusive(setting, s, e);
    StepKeepsOnce(setting, s, e);
    forall w: Id ensures WritesOk(Step(setting, s, e).register, WritesOf(WorkerOf(Step(setting, s, e), w))) {
      StepKeepsWrites(setting, s, e, w);
    }
    if e.Commit? && WorkerOf(s, e.w).Evaluating? {
      assert WritesOk(s.register, WritesOf(WorkerOf(s, e.w))) && OncePerPerson(WritesOf(WorkerOf(s, e.w)));
      PublishingKeepsRegister(s.register, WorkerOf(s, e.w).writes);
    } else if e.Resolve? && Resolves(setting, s, e) {
      ResolvedKeepsRegister(s.register, e.review, e.resolver, e.decision, e.note, e.now);
    }
  }

  lemma {:induction false} EveryRunIsSound(setting: Setting, es: seq<Event>)
    ensures Inv(RunFrom(setting, Quiet, es))
    decreases |es|
  {
    if es == [] {
      assert forall w: Id :: WorkerOf(Quiet, w).Idle?;
    } else {
      EveryRunIsSound(setting, es[..|es| - 1]);
      StepKeepsInv(setting, RunFrom(setting, Quiet, es[..|es| - 1]), es[|es| - 1]);
    }
  }

  /** In every interleaving of evaluations and resolutions of a session: at most one review per
      person and reason is unresolved, every review has a consolidation row, and a pending row
      always has an unresolved review. */
  lemma {:induction false} InterleavedLifecycle(setting: Setting, es: seq<Event>)
    ensures var reg := RunFrom(setting, Quiet, es).register;
            && (forall i, j :: 0 <= i < j < |reg.reviews| && reg.reviews[i].resolvedAt.None? && reg.reviews[j].resolvedAt.None? ==>
                  (reg.reviews[i].person, reg.reviews[i].reason) != (reg.reviews[j].person, reg.reviews[j].reason))
            && (forall i :: 0 <= i < |reg.reviews| ==> reg.reviews[i].person in reg.consolidations)
            && (forall p :: p in reg.consolidations && reg.consolidations[p].status == Pending ==>
                  exists i :: 0 <= i < |reg.reviews| && reg.reviews[i].person == p && reg.reviews[i].resolvedAt.None?)
  {
    EveryRunIsSound(setting, es);
    var reg := RunFrom(setting, Quiet, es).register;
    forall p | p in reg.consolidations && reg.consolidations[p].status == Pending
      ensures exists i :: 0 <= i < |reg.reviews| && reg.reviews[i].person == p && reg.reviews[i].resolvedAt.None?
    {
      assert Awaits(reg, p);
      var reason := if HasUnresolved(reg, p, MissingFactor) then MissingFactor else MissingExit;
      var i :| 0 <= i < |reg.reviews| && IsUnresolved(reg.reviews[i], p, reason);
      assert reg.reviews[i].person == p;
    }
  }

  /** A rolled-back evaluation leaves the register alone and unlocks its rows. */
  lemma {:induction false} AbortRollsBack(setting: Setting, s: State, w: Id)
    ensures var t := Step(setting, s, Abort(w));
            && t.register == s.register && (forall p: Id :: !Holds(t, w, p))
            && forall v: Id :: v != w ==> WorkerOf(t, v) == WorkerOf(s, v)
  {
  }
}
