/**
  The coordination store table by table: when each operation is accepted and exactly which rows it leaves, and what its
  unique indexes keep over every run.
 */
module CoordinationTables {
  import opened Wrappers
  import opened Coordination
  import opened CoordinationRuns

  /** Partitions that may be added together: new ids, sessions of no group, and neither twice. */
  ghost predicate Joinable(members: map<nat, Member>, added: seq<NewMember>) {
    && (forall i :: 0 <= i < |added| ==> added[i].id !in members)
    && (forall i, id :: 0 <= i < |added| && id in members && members[id].associated ==> members[id].session != added[i].session)
    && (forall i, j :: 0 <= i < j < |added| ==> added[i].id != added[j].id && added[i].session != added[j].session)
  }

  /** The table with the partitions added, all associated with the group, and nothing else changed. */
  ghost predicate Joined(before: map<nat, Member>, after: map<nat, Member>, group: nat, added: seq<NewMember>) {
    && (forall id :: id in after <==> id in before || exists i :: 0 <= i < |added| && added[i].id == id)
    && (forall id :: id in before ==> id in after && after[id] == before[id])
    && (forall i :: 0 <= i < |added| ==> added[i].id in after && after[added[i].id] == Member(group, added[i].session, true))
  }

  lemma JoinOne(before: map<nat, Member>, middle: map<nat, Member>, group: nat, added: seq<NewMember>)
    requires |added| > 0 && Joinable(before, added[..|added| - 1]) && Joined(before, middle, group, added[..|added| - 1])
    ensures var last := added[|added| - 1];
            Joinable(before, added) <==>
            last.id !in middle && forall id :: id in middle && middle[id].associated ==> middle[id].session != last.session
  {
    var init, last := added[..|added| - 1], added[|added| - 1];
    assert forall i :: 0 <= i < |init| ==> init[i] == added[i];
    if last.id !in middle && forall id :: id in middle && middle[id].associated ==> middle[id].session != last.session {
      forall i | 0 <= i < |init| ensures init[i].id != last.id && init[i].session != last.session {
        assert init[i].id in middle && middle[init[i].id].associated;
      }
    }
  }

  lemma JoinLast(before: map<nat, Member>, middle: map<nat, Member>, group: nat, added: seq<NewMember>)
    requires |added| > 0 && Joined(before, middle, group, added[..|added| - 1]) && added[|added| - 1].id !in middle
    ensures var last := added[|added| - 1];
            Joined(before, middle[last.id := Member(group, last.session, true)], group, added)
  {
    var init, last := added[..|added| - 1], added[|added| - 1];
    var after := middle[last.id := Member(group, last.session, true)];
    assert forall i :: 0 <= i < |init| ==> init[i] == added[i];
    forall id ensures id in after <==> id in before || exists i :: 0 <= i < |added| && added[i].id == id {
      if id in after && id !in before && id != last.id {
        var i :| 0 <= i < |init| && init[i].id == id;
        assert added[i].id == id;
      }
    }
  }

  lemma JoinNone(before: map<nat, Member>, group: nat)
    ensures Joinable(before, []) && Joined(before, before, group, [])
  {
  }

  lemma JoinableInit(before: map<nat, Member>, added: seq<NewMember>)
    requires |added| > 0 && Joinable(before, added)
    ensures Joinable(before, added[..|added| - 1])
  {
  }

  lemma {:induction false} AddedExactly(s: Store, group: nat, added: seq<NewMember>)
    ensures s.AddMembers(group, added).Some? <==> Joinable(s.members, added)
    ensures Joinable(s.members, added) ==>
              var t := s.AddMembers(group, added).value;
              t == s.(members := t.members) && Joined(s.members, t.members, group, added)
    decreases |added|
  {
    hide Joinable, Joined;
    if |added| > 0 {
      var init := added[..|added| - 1];
      AddedExactly(s, group, init);
      if Joinable(s.members, init) {
        var middle := s.AddMembers(group, init).value.members;
        JoinOne(s.members, middle, group, added);
        if added[|added| - 1].id !in middle { JoinLast(s.members, middle, group, added); }
      } else if Joinable(s.members, added) {
        JoinableInit(s.members, added);
      }
    } else {
      assert added == [];
      JoinNone(s.members, group);
    }
  }

  /**
    A group is created if and only if its id is new and its partitions may join: new, in no open association, and none
    twice. Then it is open with exactly those partitions, and nothing else has changed.
   */
  lemma CreatedExactly(s: Store, group: nat, added: seq<NewMember>)
    ensures s.Create(group, added).Some? <==> group !in s.groups && Joinable(s.members, added)
    ensures s.Create(group, added).Some? ==>
              var t := s.Create(group, added).value;
              && t.groups == s.groups[group := Group(false)] && t.rules == s.rules && t.events == s.events
              && Joined(s.members, t.members, group, added)
  {
    AddedExactly(s.(groups := s.groups[group := Group(false)]), group, added);
  }

  /** A rule is accepted if and only if its id is new and no active rule has its group, partitions and breakpoint. */
  lemma RuleCreatedExactly(s: Store, id: nat, rule: Rule)
    requires !rule.deleted
    ensures s.CreateRule(id, rule) ==
            if id in s.rules || exists r <- s.rules :: s.rules[r] == rule then None
            else Some(s.(rules := s.rules[id := rule]))
  {
  }

  /** Active rules differ in group, partitions or breakpoint. */
  ghost predicate ActiveRulesDiffer(rules: map<nat, Rule>) {
    forall a, b :: a in rules && b in rules && !rules[a].deleted && rules[a] == rules[b] ==> a == b
  }

  lemma RulesStayDifferent(s: Sys, t: Sys)
    requires Step(s, t) && Inv(s) && ActiveRulesDiffer(s.store.rules)
    ensures ActiveRulesDiffer(t.store.rules)
  {
    hide StoreOk, LockFree, Apart, HandlerOk, InterruptsOk;
    if group: nat :| GroupStep(s, t, group) {
      GroupStepStays(s, t, group);
    }
  }

  lemma GroupStepStays(s: Sys, t: Sys, group: nat)
    requires GroupStep(s, t, group) && ActiveRulesDiffer(s.store.rules)
    ensures ActiveRulesDiffer(t.store.rules)
  {
    hide LockFree;
    if added :| s.store.Create(group, added).Some? && t == s.(store := s.store.Create(group, added).value) {
      CreatedExactly(s.store, group, added);
    } else if id: nat, rule: Rule :| !rule.deleted && s.store.CreateRule(id, rule).Some? && t == s.(store := s.store.CreateRule(id, rule).value) {
      RuleCreatedExactly(s.store, id, rule);
    }
  }

  /** Over every run no two active rules are alike. */
  lemma {:induction false} NoTwoActiveRulesAlike(run: seq<Sys>, i: nat)
    requires IsRun(run) && i < |run|
    ensures ActiveRulesDiffer(run[i].store.rules)
  {
    if i > 0 {
      NoTwoActiveRulesAlike(run, i - 1);
      RunKeepsInv(run, i - 1);
      RulesStayDifferent(run[i - 1], run[i]);
    }
  }

  /** The rules an event at `breakpoint` of `session` triggers. */
  lemma TriggeredExactly(s: Store, session: nat, breakpoint: string, rule: nat)
    ensures rule in s.MatchingRules(session, breakpoint) <==>
              && rule in s.rules && !s.rules[rule].deleted && s.rules[rule].breakpoint == breakpoint
              && s.rules[rule].group in s.groups && !s.groups[s.rules[rule].group].closed
              && s.rules[rule].source in s.members
              && s.members[s.rules[rule].source] == Member(s.rules[rule].group, session, true)
  {
  }

  /** Deleting a rule, removing a partition, closing a group: when they are accepted, and the one table they change. */
  lemma RowsEndExactly(s: Store, group: nat, id: nat)
    ensures s.DeleteRule(group, id) ==
            if id in s.rules && s.rules[id].group == group && !s.rules[id].deleted
            then Some(s.(rules := s.rules[id := s.rules[id].(deleted := true)])) else None
    ensures s.RemoveMember(group, id) ==
            if group in s.groups && !s.groups[group].closed && id in s.members
               && s.members[id].group == group && s.members[id].associated
            then Some(s.(members := s.members[id := s.members[id].(associated := false)])) else None
  {
  }

  lemma ClosedExactly(s: Store, group: nat, id: nat)
    ensures s.CloseGroup(group).Some? <==> group in s.groups
    ensures group in s.groups ==>
              var t := s.CloseGroup(group).value;
              && t.groups == s.groups[group := Group(true)] && t.rules == s.rules && t.events == s.events
              && t.members.Keys == s.members.Keys
              && (id in s.members ==>
                    t.members[id] == if s.members[id].group == group then Member(group, s.members[id].session, false) else s.members[id])
  {
  }

  /** A claim wins if and only if its row is new and no row has its pair; the outcome is then recorded in that row. */
  lemma ClaimedExactly(s: Store, id: nat, sourceEvent: nat, rule: nat, outcome: EventOutcome, commandSent: bool, targetPaused: bool)
    ensures var (t, won) := s.ClaimEvent(id, sourceEvent, rule);
            && (won <==> id !in s.events
                         && forall e <- s.events :: s.events[e].sourceEvent != sourceEvent || s.events[e].rule != rule)
            && (!won ==> t == s)
            && (won ==> t == s.(events := s.events[id := EventRow(sourceEvent, rule, Processing, false, false)])
                        && t.FinalizeEvent(id, outcome, commandSent, targetPaused) ==
                           Some(s.(events := s.events[id := EventRow(sourceEvent, rule, outcome, commandSent, targetPaused)])))
    ensures id !in s.events ==> s.FinalizeEvent(id, outcome, commandSent, targetPaused) == None
  {
    var (t, won) := s.ClaimEvent(id, sourceEvent, rule);
    if won {
      var last := EventRow(sourceEvent, rule, outcome, commandSent, targetPaused);
      assert t.events[id := last] == s.events[id := last];
    }
  }
}
