/**
  Every interleaving of group operations and breakpoint-event handlers over the coordination store, with one lock per
  group that a handler keeps across everything it awaits.
 */
module CoordinationRuns {
  import opened Wrappers
  import opened Coordination

  /** Where the handling of one delivered event by one rule stands. */
  datatype Stage =
    | Claiming | AwaitingLock | Checking | ReadingState | Interrupting | Confirming
    | Finalizing(outcome: EventOutcome, commandSent: bool, targetPaused: bool) | Gone
  {
    predicate HoldsLock() { Checking? || ReadingState? || Interrupting? || Confirming? || Finalizing? }

    /** The claim was won and the interrupt is not attempted yet. */
    predicate MayInterrupt() { AwaitingLock? || Checking? || ReadingState? || Interrupting? }
  }

  /** `row` is the id of its record, `group` the group of its rule. */
  datatype Handler = Handler(sourceEvent: nat, rule: nat, group: nat, row: nat, stage: Stage)

  /** History: every interrupt a handler attempted, by source event and rule. */
  datatype Sys = Sys(store: Store, handlers: seq<Handler>, interrupts: seq<(nat, nat)>)

  ghost predicate Init(s: Sys) { s == Sys(Store(map[], map[], map[], map[]), [], []) }

  ghost predicate LockFree(s: Sys, group: nat) {
    forall i :: 0 <= i < |s.handlers| && s.handlers[i].group == group ==> !s.handlers[i].stage.HoldsLock()
  }

  ghost predicate GroupStep(s: Sys, t: Sys, group: nat) {
    || (exists added :: s.store.Create(group, added).Some? && t == s.(store := s.store.Create(group, added).value))
    || (LockFree(s, group) && exists id, rule: Rule ::
          && rule.group == group && !rule.deleted && s.store.OpenGroup(group) && rule.source != rule.target
          && s.store.AssociatedIn(rule.source, group) && s.store.AssociatedIn(rule.target, group)
          && s.store.CreateRule(id, rule).Some? && t == s.(store := s.store.CreateRule(id, rule).value))
    || (LockFree(s, group) && exists id ::
          s.store.DeleteRule(group, id).Some? && t == s.(store := s.store.DeleteRule(group, id).value))
    || (LockFree(s, group) && exists id ::
          s.store.RemoveMember(group, id).Some? && t == s.(store := s.store.RemoveMember(group, id).value))
    || (LockFree(s, group) && s.store.CloseGroup(group).Some? && t == s.(store := s.store.CloseGroup(group).value))
  }

  /** A breakpoint event is delivered, perhaps not for the first time, and one of its matching rules is handled. */
  ghost predicate DeliverStep(s: Sys, t: Sys, sourceEvent: nat, session: nat, breakpoint: string, rule: nat) {
    && rule in s.store.MatchingRules(session, breakpoint)
    && t.handlers == s.handlers + [Handler(sourceEvent, rule, s.store.rules[rule].group, 0, Claiming)]
    && t == s.(handlers := t.handlers)
  }

  /** What the handler does to the store; its interrupt, if it attempts one now; and where it goes on. */
  ghost predicate HandlerMove(s: Sys, h: Handler, store: Store, interrupts: seq<(nat, nat)>, next: Handler) {
    && next == h.(row := next.row, stage := next.stage)
    && (h.stage.Claiming? || next.row == h.row)
    && (h.stage.Interrupting? || interrupts == s.interrupts)
    && (h.stage.Claiming? || h.stage.Finalizing? || store == s.store)
    && match h.stage
       case Claiming =>
         var (claimed, won) := s.store.ClaimEvent(next.row, h.sourceEvent, h.rule);
         store == claimed && next.stage == if won then AwaitingLock else Gone
       case AwaitingLock => next.stage.Gone? || (LockFree(s, h.group) && next.stage.Checking?)
       case Checking =>
         && h.rule in s.store.rules
         && next.stage ==
            if s.store.OpenGroup(h.group) && s.store.AssociatedIn(s.store.rules[h.rule].source, h.group)
               && s.store.AssociatedIn(s.store.rules[h.rule].target, h.group)
            then ReadingState else Finalizing(Skipped, false, false)
       case ReadingState =>
         || next.stage.Gone? || next.stage.Interrupting?
         || (next.stage.Finalizing? && !next.stage.commandSent && (next.stage.outcome.Failed? || next.stage.outcome.Skipped?))
       case Interrupting =>
         && interrupts == s.interrupts + [(h.sourceEvent, h.rule)]
         && (next.stage.Gone? || next.stage.Confirming? || next.stage == Finalizing(Failed, false, false)
             || next.stage == Finalizing(InterruptConfirmed, true, true))
       case Confirming =>
         || next.stage.Gone?
         || next.stage == Finalizing(InterruptSent, true, false) || next.stage == Finalizing(InterruptConfirmed, true, true)
       case Finalizing(outcome, commandSent, targetPaused) =>
         && next.stage.Gone?
         && (store == s.store || Some(store) == s.store.FinalizeEvent(h.row, outcome, commandSent, targetPaused))
       case Gone => false
  }

  ghost predicate HandlerStep(s: Sys, t: Sys, i: nat) {
    && i < |s.handlers| == |t.handlers|
    && HandlerMove(s, s.handlers[i], t.store, t.interrupts, t.handlers[i])
    && t.handlers == s.handlers[i := t.handlers[i]]
  }

  /** A restart: every handler is gone, the store and what was sent stay. */
  ghost predicate Restart(s: Sys, t: Sys) { t == s.(handlers := []) }

  ghost predicate Step(s: Sys, t: Sys) {
    || (exists group :: GroupStep(s, t, group))
    || (exists sourceEvent, session, breakpoint, rule :: DeliverStep(s, t, sourceEvent, session, breakpoint, rule))
    || (exists i :: HandlerStep(s, t, i))
    || Restart(s, t)
  }

  ghost predicate IsRun(run: seq<Sys>) {
    && |run| > 0 && Init(run[0])
    && forall i :: 0 <= i < |run| - 1 ==> Step(run[i], run[i + 1])
  }

  // ---------------------------------------------------------------- the store's own invariant

  ghost predicate SessionsExclusive(members: map<nat, Member>) {
    forall a, b | a in members && b in members && members[a].associated && members[b].associated ::
      members[a].session == members[b].session ==> a == b
  }

  ghost predicate ClaimsUnique(events: map<nat, EventRow>) {
    forall a, b | a in events && b in events ::
      events[a].sourceEvent == events[b].sourceEvent && events[a].rule == events[b].rule ==> a == b
  }

  ghost predicate StoreOk(s: Store) {
    && SessionsExclusive(s.members)
    && ClaimsUnique(s.events)
    && (forall id <- s.members :: s.members[id].group in s.groups)
    && (forall id <- s.members :: s.members[id].associated ==> s.OpenGroup(s.members[id].group))
    && (forall id <- s.rules ::
          s.MemberOf(s.rules[id].source, s.rules[id].group) && s.MemberOf(s.rules[id].target, s.rules[id].group))
  }

  /** Members, groups and rules never vanish, closed groups stay closed, and members keep their group. */
  ghost predicate StoreKeeps(s: Store, t: Store) {
    && (forall id :: id in s.groups ==> id in t.groups && (s.groups[id].closed ==> t.groups[id].closed))
    && (forall id :: id in s.members ==> id in t.members && t.members[id].group == s.members[id].group)
    && (forall id :: id in s.rules ==> id in t.rules && t.rules[id].(deleted := false) == s.rules[id].(deleted := false))
  }

  /** Nothing of the other groups changes. */
  ghost predicate OthersSame(s: Store, t: Store, group: nat) {
    && (forall id <- s.groups :: id != group ==> id in t.groups && t.groups[id] == s.groups[id])
    && (forall id <- s.members :: s.members[id].group != group ==> id in t.members && t.members[id] == s.members[id])
  }

  lemma AddMemberKeeps(s: Store, group: nat, member: NewMember)
    requires StoreOk(s) && s.OpenGroup(group) && s.AddMember(group, member).Some?
    ensures var t := s.AddMember(group, member).value;
            StoreOk(t) && StoreKeeps(s, t) && t.events == s.events && t.rules == s.rules && t.groups == s.groups
    ensures OthersSame(s, s.AddMember(group, member).value, group)
  {
  }

  lemma {:induction false} AddMembersKeeps(s: Store, group: nat, added: seq<NewMember>)
    requires StoreOk(s) && s.OpenGroup(group) && s.AddMembers(group, added).Some?
    ensures var t := s.AddMembers(group, added).value;
            StoreOk(t) && StoreKeeps(s, t) && t.events == s.events && t.rules == s.rules && t.groups == s.groups
    ensures OthersSame(s, s.AddMembers(group, added).value, group)
  {
    if |added| > 0 {
      AddMembersKeeps(s, group, added[..|added| - 1]);
      AddMemberKeeps(s.AddMembers(group, added[..|added| - 1]).value, group, added[|added| - 1]);
    }
  }

  lemma CreateKeeps(s: Store, group: nat, added: seq<NewMember>)
    requires StoreOk(s) && s.Create(group, added).Some?
    ensures var t := s.Create(group, added).value;
            StoreOk(t) && StoreKeeps(s, t) && OthersSame(s, t, group) && t.events == s.events && t.rules == s.rules
  {
    AddMembersKeeps(s.(groups := s.groups[group := Group(false)]), group, added);
  }

  lemma CloseGroupKeeps(s: Store, group: nat)
    requires StoreOk(s) && s.CloseGroup(group).Some?
    ensures var t := s.CloseGroup(group).value;
            StoreOk(t) && StoreKeeps(s, t) && OthersSame(s, t, group) && t.events == s.events && t.rules == s.rules
  {
  }

  lemma RemoveMemberKeeps(s: Store, group: nat, id: nat)
    requires StoreOk(s) && s.RemoveMember(group, id).Some?
    ensures var t := s.RemoveMember(group, id).value;
            StoreOk(t) && StoreKeeps(s, t) && OthersSame(s, t, group) && t.events == s.events && t.rules == s.rules
  {
  }

  lemma RulesKeep(s: Store, group: nat, id: nat, rule: Rule)
    requires StoreOk(s)
    ensures s.DeleteRule(group, id).Some? ==>
              StoreOk(s.DeleteRule(group, id).value) && StoreKeeps(s, s.DeleteRule(group, id).value)
    ensures s.CreateRule(id, rule).Some? && s.MemberOf(rule.source, rule.group) && s.MemberOf(rule.target, rule.group) ==>
              StoreOk(s.CreateRule(id, rule).value) && StoreKeeps(s, s.CreateRule(id, rule).value)
  {
  }

  // ---------------------------------------------------------------- the invariant of the whole system

  /** The group is open and both partitions of the rule are associated with it. */
  ghost predicate StillAssociated(s: Store, rule: nat, group: nat) {
    && rule in s.rules && s.OpenGroup(group)
    && s.AssociatedIn(s.rules[rule].source, group) && s.AssociatedIn(s.rules[rule].target, group)
  }

  ghost predicate HandlerOk(s: Sys, h: Handler) {
    && h.rule in s.store.rules && s.store.rules[h.rule].group == h.group && h.group in s.store.groups
    && (h.stage.MayInterrupt() ==>
          s.store.Claimed(h.sourceEvent, h.rule) && (h.sourceEvent, h.rule) !in s.interrupts)
    && (h.stage.ReadingState? || h.stage.Interrupting? ==> StillAssociated(s.store, h.rule, h.group))
    && (h.stage.HoldsLock() || h.stage.AwaitingLock? ==> OwnRow(s.store, h))
    && (h.stage.Confirming? || (h.stage.Finalizing? && h.stage.commandSent) ==> (h.sourceEvent, h.rule) in s.interrupts)
  }

  /** The handler's record is the one it claimed. */
  ghost predicate OwnRow(s: Store, h: Handler) {
    h.row in s.events && s.events[h.row].sourceEvent == h.sourceEvent && s.events[h.row].rule == h.rule
  }

  ghost predicate Apart(a: Handler, b: Handler) {
    && (a.stage.MayInterrupt() && b.stage.MayInterrupt() ==> a.sourceEvent != b.sourceEvent || a.rule != b.rule)
    && (a.stage.HoldsLock() && b.stage.HoldsLock() ==> a.group != b.group)
  }

  ghost predicate InterruptsOk(s: Sys) {
    && (forall k :: 0 <= k < |s.interrupts| ==> s.store.Claimed(s.interrupts[k].0, s.interrupts[k].1))
    && (forall j, k :: 0 <= j < k < |s.interrupts| ==> s.interrupts[j] != s.interrupts[k])
    && forall id <- s.store.events :: s.store.events[id].commandSent ==>
         (s.store.events[id].sourceEvent, s.store.events[id].rule) in s.interrupts
  }

  ghost predicate Inv(s: Sys) {
    && StoreOk(s.store) && InterruptsOk(s)
    && (forall i :: 0 <= i < |s.handlers| ==> HandlerOk(s, s.handlers[i]))
    && forall i, j :: 0 <= i < j < |s.handlers| ==> Apart(s.handlers[i], s.handlers[j])
  }

  /** A group operation leaves the store in order, records no event, and needs the group's lock unless the group is new. */
  lemma GroupStepStore(s: Sys, t: Sys, group: nat)
    requires StoreOk(s.store) && GroupStep(s, t, group)
    ensures t == s.(store := t.store) && StoreOk(t.store) && StoreKeeps(s.store, t.store)
    ensures t.store.events == s.store.events && OthersSame(s.store, t.store, group)
    ensures group in s.store.groups ==> LockFree(s, group)
  {
    if added :| s.store.Create(group, added).Some? && t == s.(store := s.store.Create(group, added).value) {
      CreateKeeps(s.store, group, added);
    } else if id, rule: Rule :|
        && rule.group == group && s.store.AssociatedIn(rule.source, group) && s.store.AssociatedIn(rule.target, group)
        && s.store.CreateRule(id, rule).Some? && t == s.(store := s.store.CreateRule(id, rule).value) {
      RulesKeep(s.store, group, id, rule);
    } else if id :| s.store.DeleteRule(group, id).Some? && t == s.(store := s.store.DeleteRule(group, id).value) {
      RulesKeep(s.store, group, id, s.store.rules[id]);
    } else if id :| s.store.RemoveMember(group, id).Some? && t == s.(store := s.store.RemoveMember(group, id).value) {
      RemoveMemberKeeps(s.store, group, id);
    } else {
      CloseGroupKeeps(s.store, group);
    }
  }

  lemma StillAssociatedStays(s: Store, t: Store, rule: nat, group: nat, changed: nat)
    requires StoreKeeps(s, t) && OthersSame(s, t, changed) && changed != group && StillAssociated(s, rule, group)
    ensures StillAssociated(t, rule, group)
  {
  }

  lemma GroupStepKeeps(s: Sys, t: Sys, group: nat)
    requires Inv(s) && GroupStep(s, t, group)
    ensures Inv(t)
  {
    GroupStepStore(s, t, group);
    forall i | 0 <= i < |t.handlers| ensures HandlerOk(t, t.handlers[i]) {
      var h := s.handlers[i];
      assert HandlerOk(s, h);
      ClaimsStay(s.store, t.store, h.sourceEvent, h.rule);
      if h.stage.ReadingState? || h.stage.Interrupting? {
        StillAssociatedStays(s.store, t.store, h.rule, h.group, group);
      }
    }
    forall k | 0 <= k < |t.interrupts| ensures t.store.Claimed(t.interrupts[k].0, t.interrupts[k].1) {
      ClaimsStay(s.store, t.store, s.interrupts[k].0, s.interrupts[k].1);
    }
  }

  lemma ClaimsStay(s: Store, t: Store, sourceEvent: nat, rule: nat)
    requires forall id <- s.events ::
               id in t.events && t.events[id].sourceEvent == s.events[id].sourceEvent && t.events[id].rule == s.events[id].rule
    ensures s.Claimed(sourceEvent, rule) ==> t.Claimed(sourceEvent, rule)
  {
    if s.Claimed(sourceEvent, rule) {
      var id :| id in s.events && s.events[id].sourceEvent == sourceEvent && s.events[id].rule == rule;
      assert id in t.events;
    }
  }

  lemma DeliverKeeps(s: Sys, t: Sys, sourceEvent: nat, session: nat, breakpoint: string, rule: nat)
    requires Inv(s) && DeliverStep(s, t, sourceEvent, session, breakpoint, rule)
    ensures Inv(t)
  {
    forall i | 0 <= i < |t.handlers| ensures HandlerOk(t, t.handlers[i]) {
      if i < |s.handlers| { assert HandlerOk(s, s.handlers[i]); }
    }
  }

  /** What the handler's own move does to the store, to the interrupts, and to itself. */
  lemma MoveKeeps(s: Sys, t: Sys, h: Handler, next: Handler)
    requires StoreOk(s.store) && InterruptsOk(s) && HandlerOk(s, h) && HandlerMove(s, h, t.store, t.interrupts, next)
    ensures StoreOk(t.store) && InterruptsOk(t) && HandlerOk(t, next)
  {
    ClaimsStay(s.store, t.store, h.sourceEvent, h.rule);
    if h.stage.Claiming? && next.stage.AwaitingLock? {
      var row := t.store.events[next.row];
      assert row.sourceEvent == h.sourceEvent && row.rule == h.rule;
    }
    forall k | 0 <= k < |s.interrupts| ensures t.store.Claimed(s.interrupts[k].0, s.interrupts[k].1) {
      ClaimsStay(s.store, t.store, s.interrupts[k].0, s.interrupts[k].1);
    }
  }

  /** And to another handler, which is none the worse for it. */
  lemma OtherHandlerKeeps(s: Sys, t: Sys, h: Handler, next: Handler, other: Handler)
    requires StoreOk(s.store) && HandlerOk(s, h) && HandlerMove(s, h, t.store, t.interrupts, next)
    requires HandlerOk(s, other) && Apart(h, other)
    requires next.stage.HoldsLock() && !h.stage.HoldsLock() ==> other.group == h.group ==> !other.stage.HoldsLock()
    ensures HandlerOk(t, other) && Apart(next, other) && Apart(other, next)
  {
    ClaimsStay(s.store, t.store, other.sourceEvent, other.rule);
  }

  lemma HandlerStepKeeps(s: Sys, t: Sys, i: nat)
    requires Inv(s) && HandlerStep(s, t, i)
    ensures Inv(t)
  {
    var h, next := s.handlers[i], t.handlers[i];
    MoveKeeps(s, t, h, next);
    forall j | 0 <= j < |s.handlers| && j != i
      ensures HandlerOk(t, t.handlers[j]) && Apart(next, t.handlers[j]) && Apart(t.handlers[j], next)
    {
      assert t.handlers[j] == s.handlers[j];
      assert j < i ==> Apart(s.handlers[j], h);
      OtherHandlerKeeps(s, t, h, next, s.handlers[j]);
    }
  }

  lemma StepKeepsInv(s: Sys, t: Sys)
    requires Inv(s) && Step(s, t)
    ensures Inv(t)
  {
    if group: nat :| GroupStep(s, t, group) {
      GroupStepKeeps(s, t, group);
    } else if sourceEvent: nat, session: nat, breakpoint, rule: nat :| DeliverStep(s, t, sourceEvent, session, breakpoint, rule) {
      DeliverKeeps(s, t, sourceEvent, session, breakpoint, rule);
    } else if i: nat :| HandlerStep(s, t, i) {
      HandlerStepKeeps(s, t, i);
    }
  }

  lemma {:induction false} RunKeepsInv(run: seq<Sys>, i: nat)
    requires IsRun(run) && i < |run|
    ensures Inv(run[i])
  {
    if i > 0 {
      RunKeepsInv(run, i - 1);
      StepKeepsInv(run[i - 1], run[i]);
    }
  }

  // ---------------------------------------------------------------- the promises

  /** A debug session is associated with at most one open group, and with none that is closed. */
  lemma SessionsJoinOneOpenGroup(run: seq<Sys>, i: nat, a: nat, b: nat)
    requires IsRun(run) && i < |run|
    requires var members := run[i].store.members;
             a in members && b in members && members[a].associated && members[b].associated
             && members[a].session == members[b].session
    ensures a == b && run[i].store.OpenGroup(run[i].store.members[a].group)
  {
    RunKeepsInv(run, i);
  }

  lemma ClosedGroupsHaveNoMembers(run: seq<Sys>, i: nat, group: nat, id: nat)
    requires IsRun(run) && i < |run| && group in run[i].store.groups && run[i].store.groups[group].closed
    ensures !run[i].store.AssociatedIn(id, group)
  {
    RunKeepsInv(run, i);
  }

  /** Each pair of source event and rule attempts at most one interrupt, however often the event is delivered. */
  lemma AtMostOneInterrupt(run: seq<Sys>, i: nat, j: nat, k: nat)
    requires IsRun(run) && i < |run| && j < |run[i].interrupts| && k < |run[i].interrupts|
    requires run[i].interrupts[j] == run[i].interrupts[k]
    ensures j == k
  {
    RunKeepsInv(run, i);
  }

  /**
    An interrupt is attempted only while the group is open and both partitions of the rule are still
    associated with it, whatever the handler awaited before.
   */
  lemma InterruptsOnlyTheAssociated(run: seq<Sys>, i: nat)
    requires IsRun(run) && i + 1 < |run| && run[i + 1].interrupts != run[i].interrupts
    ensures exists rule, group, sourceEvent ::
              run[i + 1].interrupts == run[i].interrupts + [(sourceEvent, rule)] && StillAssociated(run[i].store, rule, group)
  {
    RunKeepsInv(run, i);
    var s, t := run[i], run[i + 1];
    if group: nat :| GroupStep(s, t, group) {
      GroupStepStore(s, t, group);
      assert false;
    } else if k: nat :| HandlerStep(s, t, k) {
      var h := s.handlers[k];
      assert HandlerOk(s, h);
      assert t.interrupts == s.interrupts + [(h.sourceEvent, h.rule)] && StillAssociated(s.store, h.rule, h.group);
    } else {
      assert false;
    }
  }

  /** A record says that a command was sent only if an interrupt was attempted for its event and rule. */
  lemma RecordedInterruptsWereAttempted(run: seq<Sys>, i: nat, id: nat)
    requires IsRun(run) && i < |run| && id in run[i].store.events && run[i].store.events[id].commandSent
    ensures (run[i].store.events[id].sourceEvent, run[i].store.events[id].rule) in run[i].interrupts
  {
    RunKeepsInv(run, i);
  }

  /** A breakpoint event triggers rules of one open group only. */
  lemma EventsTriggerOneGroup(run: seq<Sys>, i: nat, session: nat, breakpoint: string, a: nat, b: nat)
    requires IsRun(run) && i < |run|
    requires a in run[i].store.MatchingRules(session, breakpoint) && b in run[i].store.MatchingRules(session, breakpoint)
    ensures run[i].store.rules[a].group == run[i].store.rules[b].group && run[i].store.rules[a].source == run[i].store.rules[b].source
    ensures run[i].store.OpenGroup(run[i].store.rules[a].group)
  {
    RunKeepsInv(run, i);
  }

  // ---------------------------------------------------------------- when a deleted rule fires

  /** The operation that deletes one rule, under the lock of its group. */
  ghost predicate DeletesRule(s: Sys, t: Sys, id: nat) {
    exists group :: LockFree(s, group) && s.store.DeleteRule(group, id).Some? && t == s.(store := s.store.DeleteRule(group, id).value)
  }

  ghost predicate Deleted(s: Sys, id: nat) { id in s.store.rules && s.store.rules[id].deleted }

  /** Handler `k` starts with this step, for a rule that matched the event. */
  ghost predicate Delivers(s: Sys, t: Sys, k: nat, rule: nat) {
    && k == |s.handlers|
    && exists sourceEvent, session, breakpoint :: DeliverStep(s, t, sourceEvent, session, breakpoint, rule)
  }

  /** Handler `k` takes the lock of its group with this step. */
  ghost predicate TakesLock(s: Sys, t: Sys, k: nat) {
    && k < |s.handlers| && k < |t.handlers| && HandlerStep(s, t, k)
    && s.handlers[k].stage.AwaitingLock? && t.handlers[k].stage.Checking?
  }

  /** Handler `k` attempts its interrupt with this step. */
  ghost predicate Attempts(s: Sys, t: Sys, k: nat) {
    k < |s.handlers| && s.handlers[k].stage.Interrupting? && HandlerStep(s, t, k)
  }

  lemma GroupStepDeletes(s: Sys, t: Sys, group: nat, id: nat)
    requires StoreOk(s.store) && GroupStep(s, t, group) && id in s.store.rules
    ensures id in t.store.rules && (Deleted(t, id) <==> Deleted(s, id) || DeletesRule(s, t, id))
    ensures t.handlers == s.handlers
  {
    if added :| s.store.Create(group, added).Some? && t == s.(store := s.store.Create(group, added).value) {
      CreateKeeps(s.store, group, added);
    } else if other :| LockFree(s, group) && s.store.DeleteRule(group, other).Some? && t == s.(store := s.store.DeleteRule(group, other).value) {
      DeleteRuleDeletes(s, t, group, other, id);
    } else {
      hide StoreOk, LockFree;
    }
  }

  lemma DeleteRuleDeletes(s: Sys, t: Sys, group: nat, other: nat, id: nat)
    requires LockFree(s, group) && s.store.DeleteRule(group, other).Some? && id in s.store.rules
    requires t == s.(store := s.store.DeleteRule(group, other).value)
    ensures id in t.store.rules && (Deleted(t, id) <==> Deleted(s, id) || DeletesRule(s, t, id))
  {
    hide LockFree;
  }

  /** A step deletes a rule only by deleting it; nothing takes a deletion back. */
  lemma StepDeletes(s: Sys, t: Sys, id: nat)
    requires Inv(s) && Step(s, t) && id in s.store.rules
    ensures id in t.store.rules && (Deleted(t, id) <==> Deleted(s, id) || DeletesRule(s, t, id))
  {
    if group: nat :| GroupStep(s, t, group) {
      GroupStepDeletes(s, t, group, id);
    }
  }

  /** A handler starts with a delivery, keeps its rule and group, and holds the lock only from where it took it. */
  lemma HandlerEvolves(s: Sys, t: Sys, k: nat)
    requires Inv(s) && Step(s, t) && k < |t.handlers|
    ensures k <= |s.handlers|
    ensures k < |s.handlers| ==>
              && t.handlers[k].rule == s.handlers[k].rule && t.handlers[k].group == s.handlers[k].group
              && (t.handlers[k].stage.HoldsLock() ==> s.handlers[k].stage.HoldsLock() || TakesLock(s, t, k))
    ensures k == |s.handlers| ==> t.handlers[k].stage.Claiming? && Delivers(s, t, k, t.handlers[k].rule)
  {
    if group: nat :| GroupStep(s, t, group) {
      GroupStepStore(s, t, group);
    }
  }

  /** Whoever holds the lock of a group keeps its rules from being deleted. */
  lemma LockKeepsRules(s: Sys, t: Sys, k: nat)
    requires Inv(s) && k < |s.handlers| && s.handlers[k].stage.HoldsLock()
    ensures !DeletesRule(s, t, s.handlers[k].rule)
  {
    assert HandlerOk(s, s.handlers[k]);
  }

  /** From step `d`, which delivers its event, to state `i` handler `k` handles one rule of one group. */
  ghost predicate Handles(run: seq<Sys>, d: nat, i: nat, k: nat, rule: nat) {
    && d < i < |run| && Delivers(run[d], run[d + 1], k, rule)
    && forall n :: d < n <= i ==> k < |run[n].handlers| && run[n].handlers[k].rule == rule
  }

  /** From step `a`, which takes it, to state `i` handler `k` holds the lock. */
  ghost predicate Holds(run: seq<Sys>, a: nat, i: nat, k: nat) {
    && a < i < |run| && TakesLock(run[a], run[a + 1], k)
    && forall n :: a < n <= i ==> k < |run[n].handlers| && run[n].handlers[k].stage.HoldsLock()
  }

  ghost predicate Steps(run: seq<Sys>) { forall n :: 0 <= n < |run| - 1 ==> Step(run[n], run[n + 1]) }

  ghost predicate AllInv(run: seq<Sys>) { forall n :: 0 <= n < |run| ==> Inv(run[n]) }

  lemma {:induction false} HandlerStory(run: seq<Sys>, i: nat, k: nat) returns (d: nat, a: nat)
    requires Steps(run) && AllInv(run) && i < |run| && run[0].handlers == [] && k < |run[i].handlers|
    ensures Handles(run, d, i, k, run[i].handlers[k].rule)
    ensures run[i].handlers[k].stage.HoldsLock() ==> d < a && Holds(run, a, i, k)
  {
    hide Step, TakesLock, Delivers, Inv;
    HandlerEvolves(run[i - 1], run[i], k);
    if k == |run[i - 1].handlers| {
      d, a := i - 1, 0;
    } else {
      d, a := HandlerStory(run, i - 1, k);
      HandlesOn(run, d, i - 1, k, run[i].handlers[k].rule);
      if run[i].handlers[k].stage.HoldsLock() {
        if !run[i - 1].handlers[k].stage.HoldsLock() { a := i - 1; } else { HoldsOn(run, a, i - 1, k); }
      }
    }
  }

  lemma HandlesOn(run: seq<Sys>, d: nat, i: nat, k: nat, rule: nat)
    requires Handles(run, d, i, k, rule) && i + 1 < |run|
    requires k < |run[i + 1].handlers| && run[i + 1].handlers[k].rule == rule
    ensures Handles(run, d, i + 1, k, rule)
  {
    hide Delivers;
  }

  lemma HoldsOn(run: seq<Sys>, a: nat, i: nat, k: nat)
    requires Holds(run, a, i, k) && i + 1 < |run| && k < |run[i + 1].handlers| && run[i + 1].handlers[k].stage.HoldsLock()
    ensures Holds(run, a, i + 1, k)
  {
    hide TakesLock;
  }

  lemma {:induction false} DeletedOver(run: seq<Sys>, d: nat, i: nat, id: nat)
    requires Steps(run) && AllInv(run) && d <= i < |run| && id in run[d].store.rules
    ensures id in run[i].store.rules
    ensures Deleted(run[i], id) <==> Deleted(run[d], id) || exists n :: d <= n < i && DeletesRule(run[n], run[n + 1], id)
  {
    hide Step, DeletesRule, Inv;
    if d < i {
      DeletedOver(run, d, i - 1, id);
      StepDeletes(run[i - 1], run[i], id);
    }
  }

  /** The rule was deleted between the delivery at `d` and the step `a` that took the lock. */
  ghost predicate DeletedWhileWaiting(run: seq<Sys>, d: nat, a: nat, rule: nat)
    requires a < |run|
  {
    exists n :: d < n < a && DeletesRule(run[n], run[n + 1], rule)
  }

  lemma DeliveryAndLockDeleteNothing(s: Sys, t: Sys, k: nat, rule: nat)
    requires Delivers(s, t, k, rule) || TakesLock(s, t, k)
    ensures !DeletesRule(s, t, rule)
    ensures Delivers(s, t, k, rule) ==> rule in s.store.rules && !Deleted(s, rule)
  {
  }

  lemma DeletionsAreWhileWaiting(run: seq<Sys>, d: nat, a: nat, i: nat, k: nat, rule: nat)
    requires AllInv(run) && Handles(run, d, i, k, rule) && Holds(run, a, i, k) && d < a
    ensures (exists n :: d <= n < i && DeletesRule(run[n], run[n + 1], rule)) <==> DeletedWhileWaiting(run, d, a, rule)
  {
    hide DeletesRule, Delivers, TakesLock, Inv;
    DeliveryAndLockDeleteNothing(run[d], run[d + 1], k, rule);
    DeliveryAndLockDeleteNothing(run[a], run[a + 1], k, rule);
    forall n | a < n < i ensures !DeletesRule(run[n], run[n + 1], rule) {
      LockKeepsRules(run[n], run[n + 1], k);
    }
  }

  lemma AllStatesInv(run: seq<Sys>)
    requires IsRun(run)
    ensures AllInv(run) && Steps(run) && run[0].handlers == []
  {
    hide Step, Inv;
    forall n | 0 <= n < |run| ensures Inv(run[n]) { RunKeepsInv(run, n); }
  }

  /**
    An interrupt is attempted for a deleted rule if and only if the rule, active when its event was delivered, was deleted
    before the handler got the lock of its group: from then on the rule stays as it was.
   */
  lemma DeletedRulesFireExactly(run: seq<Sys>, i: nat, k: nat)
    requires IsRun(run) && i + 1 < |run| && Attempts(run[i], run[i + 1], k)
    ensures exists d: nat, a: nat :: DeliveredAndLocked(run, d, a, i, k) &&
              (Deleted(run[i], run[i].handlers[k].rule) <==> DeletedWhileWaiting(run, d, a, run[i].handlers[k].rule))
    ensures exists a: nat :: Holds(run, a, i, k) &&
              (Deleted(run[i], run[i].handlers[k].rule) <==> Deleted(run[a], run[i].handlers[k].rule))
  {
    hide Step, IsRun, DeletesRule, Inv;
    AllStatesInv(run);
    var rule := run[i].handlers[k].rule;
    var d, a := HandlerStory(run, i, k);
    DeletedExactly(run, d, a, i, k, rule);
    assert DeliveredAndLocked(run, d, a, i, k);
  }

  ghost predicate DeliveredAndLocked(run: seq<Sys>, d: nat, a: nat, i: nat, k: nat) {
    && i < |run| && k < |run[i].handlers| && d < a
    && Handles(run, d, i, k, run[i].handlers[k].rule) && Holds(run, a, i, k) && !Deleted(run[d], run[i].handlers[k].rule)
  }

  lemma DeletedExactly(run: seq<Sys>, d: nat, a: nat, i: nat, k: nat, rule: nat)
    requires Steps(run) && AllInv(run) && Handles(run, d, i, k, rule) && Holds(run, a, i, k) && d < a
    ensures !Deleted(run[d], rule) && (Deleted(run[i], rule) <==> DeletedWhileWaiting(run, d, a, rule))
    ensures Deleted(run[i], rule) <==> Deleted(run[a], rule)
  {
    hide Step, DeletesRule, Delivers, TakesLock, Inv;
    DeliveryAndLockDeleteNothing(run[d], run[d + 1], k, rule);
    DeletedOver(run, d, i, rule);
    DeletedOver(run, d, a, rule);
    DeletionsAreWhileWaiting(run, d, a, i, k, rule);
  }

  ghost predicate Waits(s: Sys, k: nat) { k < |s.handlers| && !s.handlers[k].stage.HoldsLock() }

  /** So a rule nobody deletes while its handlers wait is active at every interrupt attempted for it. */
  lemma UndeletedRulesFireActive(run: seq<Sys>, i: nat, k: nat)
    requires IsRun(run) && i + 1 < |run| && Attempts(run[i], run[i + 1], k)
    requires forall n | 0 <= n < i && Waits(run[n], k) :: !DeletesRule(run[n], run[n + 1], run[i].handlers[k].rule)
    ensures !Deleted(run[i], run[i].handlers[k].rule)
  {
    hide Step, IsRun, DeletesRule, Inv;
    AllStatesInv(run);
    var rule := run[i].handlers[k].rule;
    var d, a := HandlerStory(run, i, k);
    DeletedExactly(run, d, a, i, k, rule);
    forall n | d < n < a ensures !DeletesRule(run[n], run[n + 1], rule) {
      if run[n].handlers[k].stage.HoldsLock() { LockKeepsRules(run[n], run[n + 1], k); }
    }
  }

  // ---------------------------------------------------------------- a rule deleted after the claim

  /** Two associated partitions of one open group, with one rule between them. */
  function Armed(deleted: bool, events: map<nat, EventRow>): Store {
    Store(map[0 := Group(false)], map[0 := Member(0, 10, true), 1 := Member(0, 11, true)],
          map[0 := Rule(0, 0, "1", 1, deleted)], events)
  }

  lemma ArmedIsReachable() returns (run: seq<Sys>)
    ensures IsRun(run) && run[|run| - 1] == Sys(Armed(false, map[]), [], [])
  {
    var empty := Store(map[], map[], map[], map[]);
    var added := [NewMember(0, 10), NewMember(1, 11)];
    var open := empty.(groups := map[0 := Group(false)]);
    var first := open.(members := map[0 := Member(0, 10, true)]);
    var both := open.(members := map[0 := Member(0, 10, true), 1 := Member(0, 11, true)]);
    assert added[..1] == [added[0]] && added[..1][..0] == [];
    assert open.AddMembers(0, []) == Some(open);
    assert open.AddMembers(0, [added[0]]) == Some(first);
    assert open.AddMembers(0, added) == Some(both);
    assert empty.Create(0, added) == Some(both);
    var rule := Rule(0, 0, "1", 1, false);
    assert both.CreateRule(0, rule) == Some(Armed(false, map[]));
    var s0, s1, s2 := Sys(empty, [], []), Sys(both, [], []), Sys(Armed(false, map[]), [], []);
    assert GroupStep(s0, s1, 0);
    assert LockFree(s1, 0) && both.AssociatedIn(0, 0) && both.AssociatedIn(1, 0) && both.OpenGroup(0);
    assert rule.group == 0 && both.CreateRule(0, rule).Some?;
    assert GroupStep(s1, s2, 0);
    run := [s0, s1, s2];
  }

  function Handling(stage: Stage): Handler { Handler(7, 0, 0, 0, stage) }

  function AtStage(deleted: bool, stage: Stage, interrupts: seq<(nat, nat)>): Sys {
    Sys(Armed(deleted, map[0 := EventRow(7, 0, Processing, false, false)]), [Handling(stage)], interrupts)
  }

  lemma ClaimThenDelete() returns (delivered: Sys)
    ensures Step(Sys(Armed(false, map[]), [], []), delivered)
    ensures Step(delivered, AtStage(false, AwaitingLock, []))
    ensures Step(AtStage(false, AwaitingLock, []), AtStage(true, AwaitingLock, []))
  {
    var before, claimed, deleted := Sys(Armed(false, map[]), [], []), AtStage(false, AwaitingLock, []), AtStage(true, AwaitingLock, []);
    delivered := before.(handlers := [Handling(Claiming)]);
    assert before.handlers + [Handling(Claiming)] == delivered.handlers;
    assert before.store.AssociatedIn(0, 0) && 0 in before.store.MatchingRules(10, "1");
    assert DeliverStep(before, delivered, 7, 10, "1", 0);
    assert delivered.store.ClaimEvent(0, 7, 0) == (claimed.store, true);
    assert claimed.handlers == delivered.handlers[0 := claimed.handlers[0]];
    assert HandlerStep(delivered, claimed, 0);
    assert LockFree(claimed, 0);
    assert claimed.store.rules[0 := claimed.store.rules[0].(deleted := true)] == deleted.store.rules;
    assert claimed.store.DeleteRule(0, 0) == Some(deleted.store);
    assert GroupStep(claimed, deleted, 0);
  }

  lemma NextStage(deleted: bool, from: Stage, to: Stage, interrupts: seq<(nat, nat)>, sent: seq<(nat, nat)>)
    requires HandlerMove(AtStage(deleted, from, interrupts), Handling(from), AtStage(deleted, to, sent).store, sent, Handling(to))
    ensures Step(AtStage(deleted, from, interrupts), AtStage(deleted, to, sent))
  {
    var s, t := AtStage(deleted, from, interrupts), AtStage(deleted, to, sent);
    assert t.handlers == s.handlers[0 := t.handlers[0]];
    assert HandlerStep(s, t, 0);
  }

  lemma FiresAllTheSame()
    ensures Step(AtStage(true, AwaitingLock, []), AtStage(true, Checking, []))
    ensures Step(AtStage(true, Checking, []), AtStage(true, ReadingState, []))
    ensures Step(AtStage(true, ReadingState, []), AtStage(true, Interrupting, []))
    ensures Step(AtStage(true, Interrupting, []), AtStage(true, Confirming, [(7, 0)]))
    ensures Attempts(AtStage(true, Interrupting, []), AtStage(true, Confirming, [(7, 0)]), 0)
  {
    var checking := AtStage(true, Checking, []);
    assert LockFree(AtStage(true, AwaitingLock, []), 0);
    NextStage(true, AwaitingLock, Checking, [], []);
    assert checking.store.AssociatedIn(0, 0) && checking.store.AssociatedIn(1, 0);
    NextStage(true, Checking, ReadingState, [], []);
    NextStage(true, ReadingState, Interrupting, [], []);
    NextStage(true, Interrupting, Confirming, [], [(7, 0)]);
    var s, t := AtStage(true, Interrupting, []), AtStage(true, Confirming, [(7, 0)]);
    assert t.handlers == s.handlers[0 := t.handlers[0]];
    assert HandlerStep(s, t, 0);
  }

  lemma GoesOn(run: seq<Sys>, t: Sys) returns (longer: seq<Sys>)
    requires IsRun(run) && Step(run[|run| - 1], t)
    ensures IsRun(longer) && |longer| > 1 && longer[|longer| - 1] == t && longer[|longer| - 2] == run[|run| - 1]
  {
    longer := run + [t];
    forall i | 0 <= i < |longer| - 1 ensures Step(longer[i], longer[i + 1]) {
      if i + 1 < |run| { assert longer[i] == run[i] && longer[i + 1] == run[i + 1]; }
    }
  }

  lemma ClaimedThenDeleted() returns (run: seq<Sys>)
    ensures IsRun(run) && run[|run| - 1] == AtStage(true, AwaitingLock, [])
  {
    run := ArmedIsReachable();
    var delivered := ClaimThenDelete();
    run := GoesOn(run, delivered);
    run := GoesOn(run, AtStage(false, AwaitingLock, []));
    run := GoesOn(run, AtStage(true, AwaitingLock, []));
  }

  /** The handler does not look at its rule again: an interrupt may be attempted for a rule deleted meanwhile. */
  lemma ADeletedRuleCanFire() returns (run: seq<Sys>)
    ensures IsRun(run)
    ensures var t := run[|run| - 1]; t.interrupts == [(7, 0)] && Deleted(t, 0)
    ensures |run| > 1 && Attempts(run[|run| - 2], run[|run| - 1], 0) && Deleted(run[|run| - 2], 0)
    ensures exists d: nat, a: nat :: DeliveredAndLocked(run, d, a, |run| - 2, 0) && DeletedWhileWaiting(run, d, a, 0)
  {
    hide IsRun, Step, Attempts, DeletedWhileWaiting, DeliveredAndLocked;
    run := ClaimedThenDeleted();
    FiresAllTheSame();
    run := GoesOn(run, AtStage(true, Checking, []));
    run := GoesOn(run, AtStage(true, ReadingState, []));
    run := GoesOn(run, AtStage(true, Interrupting, []));
    run := GoesOn(run, AtStage(true, Confirming, [(7, 0)]));
    DeletedRulesFireExactly(run, |run| - 2, 0);
  }
}
