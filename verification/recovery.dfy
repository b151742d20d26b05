/** Recover (internal/app/service.go:282-353): what it writes for one model, in order, and why
    a crash between any two writes changes nothing about where a later run ends. */
module Recovery {
  import opened Prelude
  import opened Records
  import opened Publish
  import opened ModelSteps

  /** verifyPublishedPathQuick on the record's path. */
  predicate QuickReady(d: Durable) {
    d.record.Some? && d.record.value.hasPath && d.tree.Some? && QuickOk(d.tree.value)
  }

  function Condemn(d: Durable, message: Message, now: int): Durable
    requires d.record.Some?
  {
    Store(d, d.record.value.(status := Failed, lastError := StateDbCorrupt, message := message), now)
  }

  function Confirm(d: Durable, now: int): Durable
    requires d.record.Some?
  {
    Store(d, d.record.value.(status := Ready, lastError := NoReason, message := NoMessage), now)
  }

  function CheckReady(d: Durable, now: int): seq<Durable>
    requires d.record.Some?
  {
    if d.record.value.status == Ready && !QuickReady(d) then [Condemn(d, InconsistentText, now)] else []
  }

  /** The durable states Recover leads one model through, from the one it finds to the one
      it leaves; a crash can leave any of them. */
  function Trace(d: Durable, now: int): (t: seq<Durable>)
    ensures |t| > 0
  {
    if d.record.None? then [d]
    else if d.journal == {} then [d] + CheckReady(d, now)
    else if Committed in d.journal then
      var dropped := d.(journal := {});
      [d, dropped] + CheckReady(dropped, now)
    else if ReadyWritten in d.journal && QuickReady(d) then
      var put := Confirm(d, now);
      [d, put, Mark(put, Committed), put.(journal := {})]
    else
      var put := Condemn(d, if ReadyWritten in d.journal then AfterReadyText else IncompleteText, now);
      [d, put, put.(journal := {})]
  }

  function Outcome(d: Durable, now: int): Durable {
    var t := Trace(d, now);
    t[|t| - 1]
  }

  /** Everything but the time of the last write. */
  function Untimed(d: Durable): Durable {
    if d.record.Some? then d.(record := Some(d.record.value.(updatedAt := 0))) else d
  }

  /** Recover confirms a READY model, gives a transaction up, or only looks at the record. */
  predicate Confirms(d: Durable) {
    d.record.Some? && d.journal != {} && Committed !in d.journal && ReadyWritten in d.journal && QuickReady(d)
  }

  predicate GivesUp(d: Durable) {
    d.record.Some? && d.journal != {} && Committed !in d.journal && !Confirms(d)
  }

  /** Where Recover leaves a model, the time of the last write aside. */
  function End(d: Durable): Durable {
    if d.record.None? then d
    else
      var bare := d.(journal := {});
      if Confirms(d) then Untimed(Confirm(bare, 0))
      else if GivesUp(d) then
        Untimed(Condemn(bare, if ReadyWritten in d.journal then AfterReadyText else IncompleteText, 0))
      else if d.record.value.status == Ready && !QuickReady(bare) then Untimed(Condemn(bare, InconsistentText, 0))
      else Untimed(bare)
  }

  lemma OutcomeIsEnd(d: Durable, now: int)
    ensures Untimed(Outcome(d, now)) == End(d)
  {
  }

  lemma EndWhileConfirming(d: Durable, i: nat, now: int)
    requires Confirms(d) && i < |Trace(d, now)|
    ensures End(Trace(d, now)[i]) == End(d)
  {
    assert Committed in Mark(Confirm(d, now), Committed).journal;
  }

  lemma EndWhileGivingUp(d: Durable, i: nat, now: int)
    requires GivesUp(d) && i < |Trace(d, now)|
    ensures End(Trace(d, now)[i]) == End(d)
  {
  }

  lemma EndWhileLooking(d: Durable, i: nat, now: int)
    requires !Confirms(d) && !GivesUp(d) && i < |Trace(d, now)|
    ensures End(Trace(d, now)[i]) == End(d)
  {
  }

  /** From every state a crash can leave, and at whatever time, a later run ends where the
      interrupted one would have. */
  lemma CrashChangesNothing(d: Durable, i: nat, now: int, later: int, once: int)
    requires i < |Trace(d, now)|
    ensures Untimed(Outcome(Trace(d, now)[i], later)) == Untimed(Outcome(d, once))
  {
    OutcomeIsEnd(Trace(d, now)[i], later);
    OutcomeIsEnd(d, once);
    if Confirms(d) {
      EndWhileConfirming(d, i, now);
    } else if GivesUp(d) {
      EndWhileGivingUp(d, i, now);
    } else {
      EndWhileLooking(d, i, now);
    }
  }

  /** Recover never touches a tree or a lease, and leaves no marker behind. */
  lemma RecoverKeepsLeases(d: Durable, i: nat, now: int)
    requires i < |Trace(d, now)|
    ensures Trace(d, now)[i].tree == d.tree
    ensures StoredLeases(Trace(d, now)[i]) == StoredLeases(d)
    ensures Trace(d, now)[i].record.Some? <==> d.record.Some?
    ensures d.record.Some? ==> Outcome(d, now).journal == {}
  {
  }

  /** After Recover a READY record's tree passes the full digest verification. */
  lemma ReadyIsVerified(d: Durable, now: int)
    requires d.tree.Some? ==> Grounded(d.tree.value)
    ensures var r := Outcome(d, now);
      r.record.Some? && r.record.value.status == Ready ==>
        r.record.value.hasPath && r.tree.Some? && FullOk(r.tree.value)
  {
    ReadyIsQuickReady(d, now);
    if d.tree.Some? { QuickIsFull(d.tree.value); }
  }

  lemma ReadyIsQuickReady(d: Durable, now: int)
    ensures var r := Outcome(d, now);
      && r.tree == d.tree
      && (r.record.Some? && r.record.value.status == Ready ==> QuickReady(r))
  {
  }

  /** What Recover decides about a model, from its record, journal and tree alone: READY with no
      error where the READY marker was written and the tree is sound; FAILED where a transaction
      was broken off in any other way, or where a READY record's tree is not sound; and
      otherwise nothing. */
  predicate Decided(d: Durable, r': Record)
    requires d.record.Some?
  {
    var r := d.record.value;
    var sound := r.hasPath && d.tree.Some? && QuickOk(d.tree.value);
    if d.journal == {} || Committed in d.journal then
      if r.status == Ready && !sound
      then
        r' == r.(status := Failed, lastError := StateDbCorrupt, message := InconsistentText, updatedAt := r'.updatedAt)
      else r' == r
    else if ReadyWritten in d.journal && sound then
      r' == r.(status := Ready, lastError := NoReason, message := NoMessage, updatedAt := r'.updatedAt)
    else if ReadyWritten in d.journal then
      r' == r.(status := Failed, lastError := StateDbCorrupt, message := AfterReadyText, updatedAt := r'.updatedAt)
    else
      r' == r.(status := Failed, lastError := StateDbCorrupt, message := IncompleteText, updatedAt := r'.updatedAt)
  }

  /** Where Recover leaves a model it has got through with. */
  lemma RecoveredIsDecided(d: Durable, now: int)
    ensures var d' := Outcome(d, now);
      && d'.tree == d.tree
      && (d.record.None? ==> d' == d)
      && (d.record.Some? ==> d'.record.Some? && d'.journal == {} && Decided(d, d'.record.value))
  {
  }

  /** Where a crash, or an error, can leave it: as it was, or decided. */
  lemma InterruptedIsDecided(d: Durable, i: nat, now: int)
    requires i < |Trace(d, now)| && d.record.Some?
    ensures var d' := Trace(d, now)[i];
      d'.tree == d.tree && d'.record.Some? && (d'.record == d.record || Decided(d, d'.record.value))
  {
  }

  lemma VisitedIsDecided(d: Durable, visited: seq<Durable>, now: int)
    requires |visited| > 0 && visited <= Trace(d, now) && d.record.Some?
    ensures var d' := visited[|visited| - 1];
      && d'.record.Some? && (d'.record == d.record || Decided(d, d'.record.value))
      && (visited == Trace(d, now) ==> d'.journal == {} && Decided(d, d'.record.value))
  {
    InterruptedIsDecided(d, |visited| - 1, now);
    RecoveredIsDecided(d, now);
  }

  // ---- All models -------------------------------------------------------------------------

  /** A model's id and manifest digest, which the store joins with an at sign. */
  datatype Key = Key(model: string, digest: string)
  type Models = map<Key, Durable>

  /** A state a crash can leave one model in. */
  ghost predicate OnTrace(d: Durable, d': Durable) {
    exists now, i :: 0 <= i < |Trace(d, now)| && d' == Trace(d, now)[i]
  }

  ghost predicate Recovered(d: Durable, d': Durable) {
    exists now :: d' == Outcome(d, now)
  }

  /** An interrupted run: each model is somewhere on its trace. */
  ghost predicate Interrupted(s: Models, s': Models) {
    s'.Keys == s.Keys && forall k :: k in s ==> OnTrace(s[k], s'[k])
  }

  ghost predicate Completed(s: Models, s': Models) {
    s'.Keys == s.Keys && forall k :: k in s ==> Recovered(s[k], s'[k])
  }

  /** Any number of interrupted runs, then a complete one: the states in between. */
  ghost predicate CrashingRuns(runs: seq<Models>) {
    && |runs| >= 2
    && (forall i :: 0 <= i < |runs| - 2 ==> Interrupted(runs[i], runs[i + 1]))
    && Completed(runs[|runs| - 2], runs[|runs| - 1])
  }

  lemma TracesEndAlike(d: Durable, d': Durable, once: int)
    requires OnTrace(d, d')
    ensures Untimed(Outcome(d', once)) == Untimed(Outcome(d, once))
    ensures StoredLeases(d') == StoredLeases(d) && d'.tree == d.tree
  {
    var now, i :| 0 <= i < |Trace(d, now)| && d' == Trace(d, now)[i];
    CrashChangesNothing(d, i, now, once, once);
    RecoverKeepsLeases(d, i, now);
  }

  lemma OutcomesAlike(d: Durable, d': Durable, once: int)
    requires Recovered(d, d')
    ensures Untimed(d') == Untimed(Outcome(d, once))
    ensures StoredLeases(d') == StoredLeases(d) && d'.tree == d.tree
  {
    var now :| d' == Outcome(d, now);
    assert Trace(d, once)[0] == d;
    CrashChangesNothing(d, 0, once, now, once);
    RecoverKeepsLeases(d, |Trace(d, now)| - 1, now);
  }

  /** Nothing a later run would end with is lost over the first n interruptions. */
  lemma {:induction false} InterruptionsEndAlike(runs: seq<Models>, n: nat, k: Key, once: int)
    requires CrashingRuns(runs) && n <= |runs| - 2 && k in runs[0]
    ensures k in runs[n] && Untimed(Outcome(runs[n][k], once)) == Untimed(Outcome(runs[0][k], once))
    ensures StoredLeases(runs[n][k]) == StoredLeases(runs[0][k]) && runs[n][k].tree == runs[0][k].tree
  {
    if n > 0 {
      InterruptionsEndAlike(runs, n - 1, k, once);
      assert Interrupted(runs[n - 1], runs[n - 1 + 1]);
      TracesEndAlike(runs[n - 1][k], runs[n][k], once);
    }
  }

  /** However often Recover crashes and is started again, it ends with the statuses, errors,
      paths, leases and empty journals of one undisturbed run, and touches no tree. */
  lemma CrashesDoNotMatter(runs: seq<Models>, k: Key, once: int)
    requires CrashingRuns(runs) && k in runs[0]
    ensures var last := runs[|runs| - 1];
      && k in last && Untimed(last[k]) == Untimed(Outcome(runs[0][k], once))
      && StoredLeases(last[k]) == StoredLeases(runs[0][k]) && last[k].tree == runs[0][k].tree
  {
    var n := |runs| - 2;
    InterruptionsEndAlike(runs, n, k, once);
    OutcomesAlike(runs[n][k], runs[n + 1][k], once);
  }

  /** The full-strength conclusion: after crashes and a complete run, every READY record's
      tree passes the full digest verification, and no marker is left. */
  lemma RecoveredReadyIsVerified(runs: seq<Models>, k: Key)
    requires CrashingRuns(runs) && k in runs[0]
    requires runs[0][k].tree.Some? ==> Grounded(runs[0][k].tree.value)
    ensures k in runs[|runs| - 1]
    ensures var d := runs[|runs| - 1][k];
      && (d.record.Some? ==> d.journal == {})
      && (d.record.Some? && d.record.value.status == Ready ==>
            d.record.value.hasPath && d.tree.Some? && FullOk(d.tree.value))
  {
    CrashesDoNotMatter(runs, k, 0);
    ReadyIsVerified(runs[0][k], 0);
    RecoverKeepsLeases(runs[0][k], |Trace(runs[0][k], 0)| - 1, 0);
  }
}
