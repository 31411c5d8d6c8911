/**
  Runs of evaluations and resolutions: an evaluation on its own does what the service does, and
  one that overlaps a resolution can overwrite it.
*/
module EvaluationRuns {
  import opened Basics
  import opened AttendanceRules
  import opened AttendanceProperties
  import opened EvaluationRaces
  import SecondDecision

  // ---------------------------------------------------------------------------
  // A late write wins
  // ---------------------------------------------------------------------------

  /** Whatever others do before its write and before its commit, an evaluation that read the
      person as undecided leaves their row with its own verdict, under the human's name. */
  lemma {:induction false} LateWriteOverwrites(
      setting: Setting, s: State, w: Id, person: Id, ev: Evidence, beforeWrite: seq<Event>, beforeCommit: seq<Event>)
    requires AllOnce(s) && DecidedByHuman(s.register, person)
    requires WorkerOf(s, w).Evaluating? && WorkerOf(s, w).looked == Some(person)
    requires Foreign(beforeWrite, w) && Foreign(beforeCommit, w)
    requires FreeFor(RunFrom(setting, s, beforeWrite), w, person)
    ensures var written := Step(setting, RunFrom(setting, s, beforeWrite), WriteRows(w, ev));
            var t := Step(setting, RunFrom(setting, written, beforeCommit), Commit(w));
            && person in t.register.consolidations
            && Shows(t.register.consolidations[person], VerdictFor(setting.session, setting.sid, ev, person))
            && t.register.consolidations[person].resolvedBy.Some?
  {
    var met := RunFrom(setting, s, beforeWrite);
    ForeignRun(setting, s, beforeWrite, w, person);
    var written := Step(setting, met, WriteRows(w, ev));
    StepKeepsOnce(setting, met, WriteRows(w, ev));
    var n := |WorkerOf(met, w).writes|;
    assert WorkerOf(written, w).writes[n] == WriteFor(setting, met.register, ev, person);
    ForeignRun(setting, written, beforeCommit, w, person);
    var last := RunFrom(setting, written, beforeCommit);
    assert OncePerPerson(WritesOf(WorkerOf(last, w)));
    PublishingShows(last.register, WorkerOf(last, w).writes, n);
    PublishingKeepsResolver(last.register, WorkerOf(last, w).writes, person);
  }

  predicate Foreign(es: seq<Event>, w: Id) {
    forall i :: 0 <= i < |es| ==> es[i].Resolve? || es[i].w != w
  }

  lemma {:induction false} ForeignRun(setting: Setting, s: State, es: seq<Event>, w: Id, person: Id)
    requires AllOnce(s) && Foreign(es, w) && DecidedByHuman(s.register, person)
    ensures var t := RunFrom(setting, s, es);
            AllOnce(t) && WorkerOf(t, w) == WorkerOf(s, w) && DecidedByHuman(t.register, person)
    decreases |es|
  {
    if es != [] {
      var before, e := RunFrom(setting, s, es[..|es| - 1]), es[|es| - 1];
      ForeignRun(setting, s, es[..|es| - 1], w, person);
      StepKeepsOnce(setting, before, e);
      assert e.Resolve? || e.w != w;
      if e.Commit? && WorkerOf(before, e.w).Evaluating? {
        PublishingKeepsResolver(before.register, WorkerOf(before, e.w).writes, person);
      }
    }
  }

  /** A decided person whose row nobody has locked, as right after any resolution, is safe from
      evaluation in every undisputed run iff no evaluation has read them as undecided and not
      written them yet. */
  lemma {:induction false} DecisionIsSafeIff(setting: Setting, s: State, person: Id)
    requires DecidedByHuman(s.register, person) && Unlocked(s, person)
    ensures (forall es :: Undisputed(setting, s, es, person) ==> NeverPublishedOver(setting, s, es, person))
            <==> forall w: Id :: !(WorkerOf(s, w).Evaluating? && WorkerOf(s, w).looked == Some(person))
  {
    if w: Id :| WorkerOf(s, w).Evaluating? && WorkerOf(s, w).looked == Some(person) {
      StaleCanPublish(setting, s, w, person, Evidence(map[], []));
      var es := [WriteRows(w, Evidence(map[], [])), Commit(w)];
      assert Undisputed(setting, s, es, person) && !NeverPublishedOver(setting, s, es, person);
    } else {
      assert forall w: Id :: !Holds(s, w, person);
      assert NobodyStale(s, person);
      forall es | Undisputed(setting, s, es, person) ensures NeverPublishedOver(setting, s, es, person) {
        NobodyStaleLasts(setting, s, es, person);
      }
    }
  }

  lemma {:induction false} StaleCanPublish(setting: Setting, s: State, w: Id, person: Id, ev: Evidence)
    requires Unlocked(s, person)
    requires WorkerOf(s, w).Evaluating? && WorkerOf(s, w).looked == Some(person)
    ensures var es := [WriteRows(w, ev), Commit(w)];
            Undisputed(setting, s, es, person) && !NeverPublishedOver(setting, s, es, person)
  {
    var es := [WriteRows(w, ev), Commit(w)];
    assert es[..1] == [WriteRows(w, ev)] && es[..1][..0] == [];
    assert RunFrom(setting, s, []) == s && Undisputed(setting, s, es[..1][..0], person);
    var written := Step(setting, s, WriteRows(w, ev));
    assert RunFrom(setting, s, es[..1]) == written;
    var writes := WorkerOf(s, w).writes;
    assert WorkerOf(written, w).writes[|writes|].person == person;
    assert Undisputed(setting, s, es[..1], person);
    assert PublishesOver(written, Commit(w), person);
  }

  // ---------------------------------------------------------------------------
  // An evaluation on its own is one of the runs
  // ---------------------------------------------------------------------------

  function RosterEvents(w: Id, ev: Evidence, roster: seq<Id>): seq<Event> {
    if roster == [] then []
    else RosterEvents(w, ev, roster[..|roster| - 1]) + [Look(w, roster[|roster| - 1]), WriteRows(w, ev)]
  }

  lemma {:induction false} RunSplits(setting: Setting, s: State, a: seq<Event>, b: seq<Event>)
    ensures RunFrom(setting, s, a + b) == RunFrom(setting, RunFrom(setting, s, a), b)
    decreases |b|
  {
    if b == [] {
      assert a + b == a;
    } else {
      assert (a + b)[..|a + b| - 1] == a + b[..|b| - 1];
      RunSplits(setting, s, a, b[..|b| - 1]);
    }
  }

  lemma {:induction false} RunOfTwo(setting: Setting, s: State, a: Event, b: Event)
    ensures RunFrom(setting, s, [a, b]) == Step(setting, Step(setting, s, a), b)
  {
    assert [a, b][..1] == [a] && [a][..0] == [];
    assert RunFrom(setting, s, []) == s && RunFrom(setting, s, [a]) == Step(setting, s, a);
  }

  ghost predicate Alone(s: State, w: Id) {
    forall v: Id :: v != w ==> WorkerOf(s, v).Idle?
  }

  /** Evaluating one more person adds their rows to the transaction, unless they are decided. */
  lemma {:induction false} OnePerson(setting: Setting, s: State, w: Id, ev: Evidence, person: Id)
    requires Alone(s, w) && !Holds(s, w, person) && (WorkerOf(s, w).Evaluating? ==> WorkerOf(s, w).looked.None?)
    ensures var t := Step(setting, Step(setting, s, Look(w, person)), WriteRows(w, ev));
            && Alone(t, w) && t.register == s.register
            && WorkerOf(t, w) == Evaluating(None, WritesOf(WorkerOf(s, w))
                 + if DecidedByHuman(s.register, person) then [] else [WriteFor(setting, s.register, ev, person)])
  {
    var looked := Step(setting, s, Look(w, person));
    assert forall v: Id :: v != w ==> WorkerOf(looked, v) == WorkerOf(s, v);
    var t := Step(setting, looked, WriteRows(w, ev));
    assert forall v: Id :: v != w ==> WorkerOf(t, v) == WorkerOf(looked, v);
    assert WritesOf(WorkerOf(s, w)) + [] == WritesOf(WorkerOf(s, w));
  }

  ghost predicate NoRepeats(roster: seq<Id>) {
    forall i, j :: 0 <= i < j < |roster| ==> roster[i] != roster[j]
  }

  /** Publishing a write decided on the stored register equals evaluating the person after
      others have been evaluated. */
  lemma {:induction false} PublishedIsEvaluated(setting: Setting, reg: Register, ev: Evidence, roster: seq<Id>, person: Id)
    requires person !in roster && !DecidedByHuman(reg, person)
    ensures var others := EvaluatedAll(reg, setting.session, setting.sid, ev, roster);
            Published(others, WriteFor(setting, reg, ev, person)) == Evaluated(others, setting.session, setting.sid, ev, person)
  {
    var others := EvaluatedAll(reg, setting.session, setting.sid, ev, roster);
    EvaluationSparesDecided(reg, setting.session, setting.sid, ev, roster, person);
    var verdict := VerdictFor(setting.session, setting.sid, ev, person);
    if verdict.Deferred? {
      SameReviews(reg, others, person, verdict.reason);
      var rebuilt := others.(intervals := others.intervals[person := WriteFor(setting, reg, ev, person).rows]);
      assert Upserted(rebuilt, person, 0, 0.0, Pending).reviews == others.reviews;
      assert HasUnresolved(Upserted(rebuilt, person, 0, 0.0, Pending), person, verdict.reason)
          == HasUnresolved(others, person, verdict.reason);
    }
  }

  lemma {:induction false} SameReviews(a: Register, b: Register, person: Id, reason: Reason)
    requires SameFor(a, b, person)
    ensures HasUnresolved(a, person, reason) == HasUnresolved(b, person, reason)
  {
    if HasUnresolved(a, person, reason) {
      UnresolvedCarriesOver(a, b, person, reason);
    }
  }

  /** The rows the next person of the roster adds to a transaction's writes. */
  function NextWrites(setting: Setting, reg: Register, ev: Evidence, person: Id): seq<Write> {
    if DecidedByHuman(reg, person) then [] else [WriteFor(setting, reg, ev, person)]
  }

  lemma {:induction false} PublishOneMore(setting: Setting, reg: Register, ev: Evidence, before: seq<Write>, init: seq<Id>, last: Id)
    requires PublishedAll(reg, before) == EvaluatedAll(reg, setting.session, setting.sid, ev, init) && last !in init
    ensures PublishedAll(reg, before + NextWrites(setting, reg, ev, last))
         == EvaluatedAll(reg, setting.session, setting.sid, ev, init + [last])
  {
    EvaluatedAllSnoc(reg, setting.session, setting.sid, ev, init, last);
    if DecidedByHuman(reg, last) {
      assert before + [] == before;
      EvaluationSparesDecided(reg, setting.session, setting.sid, ev, init, last);
    } else {
      assert (before + [WriteFor(setting, reg, ev, last)])[..|before|] == before;
      PublishedIsEvaluated(setting, reg, ev, init, last);
    }
  }

  /** The transaction has written the roster so far, and nothing else is open. */
  ghost predicate Prepared(setting: Setting, s: State, t: State, w: Id, ev: Evidence, roster: seq<Id>) {
    && Alone(t, w) && t.register == s.register
    && (WorkerOf(t, w).Evaluating? ==> WorkerOf(t, w).looked.None?)
    && (roster != [] ==> WorkerOf(t, w).Evaluating?)
    && (forall p :: Holds(t, w, p) ==> p in roster)
    && PublishedAll(s.register, WritesOf(WorkerOf(t, w)))
         == EvaluatedAll(s.register, setting.session, setting.sid, ev, roster)
  }

  lemma {:induction false} PrepareOneMore(
      setting: Setting, s: State, t: State, next: State, w: Id, ev: Evidence, init: seq<Id>, last: Id)
    requires Prepared(setting, s, t, w, ev, init) && last !in init
    requires Alone(next, w) && next.register == s.register
    requires WorkerOf(next, w) == Evaluating(None, WritesOf(WorkerOf(t, w)) + NextWrites(setting, s.register, ev, last))
    ensures Prepared(setting, s, next, w, ev, init + [last])
  {
    var before := WritesOf(WorkerOf(t, w));
    PublishOneMore(setting, s.register, ev, before, init, last);
    forall p | Holds(next, w, p) ensures p in init + [last] {
      assert p != last ==> Holds(t, w, p);
    }
  }

  lemma {:induction false} RosterAlone(setting: Setting, s: State, w: Id, ev: Evidence, roster: seq<Id>)
    requires Alone(s, w) && WorkerOf(s, w).Idle? && NoRepeats(roster)
    ensures Prepared(setting, s, RunFrom(setting, s, RosterEvents(w, ev, roster)), w, ev, roster)
    decreases |roster|
  {
    if roster != [] {
      var init, last := roster[..|roster| - 1], roster[|roster| - 1];
      assert forall i :: 0 <= i < |init| ==> init[i] == roster[i];
      RosterAlone(setting, s, w, ev, init);
      var met := RunFrom(setting, s, RosterEvents(w, ev, init));
      RunSplits(setting, s, RosterEvents(w, ev, init), [Look(w, last), WriteRows(w, ev)]);
      RunOfTwo(setting, met, Look(w, last), WriteRows(w, ev));
      OnePerson(setting, met, w, ev, last);
      PrepareOneMore(setting, s, met, RunFrom(setting, s, RosterEvents(w, ev, roster)), w, ev, init, last);
      assert init + [last] == roster;
    }
  }

  /** With no other transaction open, reading, writing and committing a roster stores what
      `EvaluateSession` stores. */
  lemma {:induction false} SerialEvaluationIsARun(setting: Setting, s: State, w: Id, ev: Evidence, roster: seq<Id>)
    requires Alone(s, w) && WorkerOf(s, w).Idle? && NoRepeats(roster)
    ensures Step(setting, RunFrom(setting, s, RosterEvents(w, ev, roster)), Commit(w)).register
         == EvaluatedAll(s.register, setting.session, setting.sid, ev, roster)
  {
    RosterAlone(setting, s, w, ev, roster);
  }

  // ---------------------------------------------------------------------------
  // It happens
  // ---------------------------------------------------------------------------

  const Monday := Setting(OneHour, 0, map[0 := 0])

  const Resolution := Resolve(0, 1, Present, None, 4000000, SecondDecision.Leaders)

  /** Two evaluations find no check-in at all; the first leader resolves the review between the
      second one's read and its write. */
  const Overlap: seq<Event> :=
    RosterEvents(0, SecondDecision.Nothing, [7]) + [Commit(0)] + [Look(0, 7), Resolution]
    + [WriteRows(0, SecondDecision.Nothing), Commit(0)]

  lemma {:induction false} AfterFirstEvaluation()
    ensures var t := RunFrom(Monday, Quiet, RosterEvents(0, SecondDecision.Nothing, [7]) + [Commit(0)]);
            && t.register.reviews == [Review(7, MissingFactor, None, None, None)]
            && t.register.consolidations == map[7 := Consolidation(0, 0.0, Pending, None, None)]
            && forall v: Id :: WorkerOf(t, v).Idle?
  {
    var es := RosterEvents(0, SecondDecision.Nothing, [7]);
    SerialEvaluationIsARun(Monday, Quiet, 0, SecondDecision.Nothing, [7]);
    RosterAlone(Monday, Quiet, 0, SecondDecision.Nothing, [7]);
    assert (es + [Commit(0)])[..|es|] == es;
    SecondDecision.EvaluateOne(EmptyRegister, SecondDecision.Nothing);
    SecondDecision.NothingIsMissingFactor();
    var t := RunFrom(Monday, Quiet, es + [Commit(0)]);
    assert forall v: Id :: v != 0 ==> WorkerOf(t, v) == WorkerOf(RunFrom(Monday, Quiet, es), v);
  }

  lemma {:induction false} DecidedMeanwhile(s: State)
    requires s.register.reviews == [Review(7, MissingFactor, None, None, None)]
    requires s.register.consolidations == map[7 := Consolidation(0, 0.0, Pending, None, None)]
    requires forall v: Id :: WorkerOf(s, v).Idle?
    ensures var t := Step(Monday, Step(Monday, s, Look(0, 7)), Resolution);
            && t.register.reviews == [Review(7, MissingFactor, Some(1), Some(4000000), None)]
            && t.register.consolidations == map[7 := Consolidation(0, 0.0, Present, Some(1), Some(4000000))]
            && WorkerOf(t, 0) == Evaluating(Some(7), []) && Alone(t, 0) && Unlocked(t, 7)
  {
    var looked := Step(Monday, s, Look(0, 7));
    assert forall v: Id :: v != 0 ==> WorkerOf(looked, v) == WorkerOf(s, v);
    assert Unlocked(looked, 7);
    SecondDecision.LeadersMayResolve();
    assert ResolveCheck(looked.register, 0, 1, Present, Chain(Some(OneHour), map[0 := 0], SecondDecision.Leaders)).None?;
    assert Resolves(Monday, looked, Resolution);
    assert forall v: Id :: v != 0 ==> WorkerOf(Step(Monday, looked, Resolution), v) == WorkerOf(looked, v);
  }

  /** The leader's present is turned back into a pending row that still bears the leader's name,
      and a second review is opened for the very reason just resolved. */
  lemma {:induction false} EvaluationCanOverwriteDecision()
    ensures var t := RunFrom(Monday, Quiet, Overlap).register;
            && 7 in t.consolidations && t.consolidations[7].status == Pending && t.consolidations[7].resolvedBy == Some(1)
            && t.reviews == [Review(7, MissingFactor, Some(1), Some(4000000), None), Review(7, MissingFactor, None, None, None)]
  {
    AfterFirstEvaluation();
    var first := RosterEvents(0, SecondDecision.Nothing, [7]) + [Commit(0)];
    var s := RunFrom(Monday, Quiet, first);
    RunSplits(Monday, Quiet, first, [Look(0, 7), Resolution]);
    RunOfTwo(Monday, s, Look(0, 7), Resolution);
    DecidedMeanwhile(s);
    var decided := RunFrom(Monday, Quiet, first + [Look(0, 7), Resolution]);
    var rest := [WriteRows(0, SecondDecision.Nothing), Commit(0)];
    RunSplits(Monday, Quiet, first + [Look(0, 7), Resolution], rest);
    RunOfTwo(Monday, decided, rest[0], rest[1]);
    WrittenBack(decided);
  }

  lemma {:induction false} OneWrite(reg: Register, write: Write)
    ensures PublishedAll(reg, [write]) == Published(reg, write)
  {
    assert [write][..0] == [];
    assert PublishedAll(reg, [write][..0]) == reg;
  }

  /** A resolved review does not keep a new one for the same reason from being opened. */
  lemma {:induction false} OpensAgain(reg: Register)
    requires reg.reviews == [Review(7, MissingFactor, Some(1), Some(4000000), None)]
    requires reg.consolidations == map[7 := Consolidation(0, 0.0, Present, Some(1), Some(4000000))]
    ensures var t := Published(reg, WriteFor(Monday, reg, SecondDecision.Nothing, 7));
            && t.consolidations == map[7 := Consolidation(0, 0.0, Pending, Some(1), Some(4000000))]
            && t.reviews == reg.reviews + [Review(7, MissingFactor, None, None, None)]
  {
    SecondDecision.NothingIsMissingFactor();
    assert !HasUnresolved(reg, 7, MissingFactor);
  }

  lemma {:induction false} WrittenBack(s: State)
    requires s.register.reviews == [Review(7, MissingFactor, Some(1), Some(4000000), None)]
    requires s.register.consolidations == map[7 := Consolidation(0, 0.0, Present, Some(1), Some(4000000))]
    requires WorkerOf(s, 0) == Evaluating(Some(7), []) && Alone(s, 0)
    ensures var t := Step(Monday, Step(Monday, s, WriteRows(0, SecondDecision.Nothing)), Commit(0)).register;
            && t.consolidations == map[7 := Consolidation(0, 0.0, Pending, Some(1), Some(4000000))]
            && t.reviews == s.register.reviews + [Review(7, MissingFactor, None, None, None)]
  {
    var write := WriteFor(Monday, s.register, SecondDecision.Nothing, 7);
    assert FreeFor(s, 0, 7);
    assert WorkerOf(Step(Monday, s, WriteRows(0, SecondDecision.Nothing)), 0) == Evaluating(None, [write]);
    OneWrite(s.register, write);
    OpensAgain(s.register);
  }
}
