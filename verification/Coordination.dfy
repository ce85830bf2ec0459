/**
  The coordination store: groups of debug sessions, breakpoint rules between their partitions, and the record of every
  rule that fired, with the unique indexes that make a claim or a membership exclusive.
 */
module Coordination {
  import opened Wrappers

  datatype Group = Group(closed: bool)

  datatype Member = Member(group: nat, session: nat, associated: bool)

  datatype Rule = Rule(group: nat, source: nat, breakpoint: string, target: nat, deleted: bool) {
    predicate SameActive(other: Rule) {
      && !deleted && !other.deleted
      && group == other.group && source == other.source && breakpoint == other.breakpoint && target == other.target
    }
  }

  datatype EventOutcome = Processing | Skipped | Failed | InterruptSent | InterruptConfirmed

  datatype EventRow = EventRow(sourceEvent: nat, rule: nat, outcome: EventOutcome, commandSent: bool, targetPaused: bool)

  /** A partition to add: its id and its debug session. */
  datatype NewMember = NewMember(id: nat, session: nat)

  datatype Store = Store(groups: map<nat, Group>, members: map<nat, Member>, rules: map<nat, Rule>, events: map<nat, EventRow>) {
    predicate InGroup(session: nat) {
      exists id :: id in members && members[id].associated && members[id].session == session
    }

    predicate Claimed(sourceEvent: nat, rule: nat) {
      exists id :: id in events && events[id].sourceEvent == sourceEvent && events[id].rule == rule
    }

    predicate HasActiveRule(rule: Rule) {
      exists id :: id in rules && rules[id].SameActive(rule)
    }

    predicate OpenGroup(group: nat) { group in groups && !groups[group].closed }

    predicate MemberOf(id: nat, group: nat) { id in members && members[id].group == group }

    predicate AssociatedIn(id: nat, group: nat) { MemberOf(id, group) && members[id].associated }

    /** None when a primary key or the active-session index refuses the row. */
    function AddMember(group: nat, member: NewMember): Option<Store> {
      if member.id in members || InGroup(member.session) then None
      else Some(this.(members := members[member.id := Member(group, member.session, true)]))
    }

    function AddMembers(group: nat, added: seq<NewMember>): Option<Store> {
      if |added| == 0 then Some(this)
      else
        match AddMembers(group, added[..|added| - 1])
        case None => None
        case Some(store) => store.AddMember(group, added[|added| - 1])
    }

    /** One transaction: the group and all of its members, or nothing. */
    function Create(group: nat, added: seq<NewMember>): Option<Store> {
      if group in groups then None else this.(groups := groups[group := Group(false)]).AddMembers(group, added)
    }

    function CreateRule(id: nat, rule: Rule): Option<Store> {
      if id in rules || HasActiveRule(rule) then None else Some(this.(rules := rules[id := rule]))
    }

    function DeleteRule(group: nat, id: nat): Option<Store> {
      if id in rules && rules[id].group == group && !rules[id].deleted
      then Some(this.(rules := rules[id := rules[id].(deleted := true)])) else None
    }

    function RemoveMember(group: nat, id: nat): Option<Store> {
      if OpenGroup(group) && AssociatedIn(id, group)
      then Some(this.(members := members[id := members[id].(associated := false)])) else None
    }

    function CloseGroup(group: nat): Option<Store> {
      if group !in groups then None
      else
        Some(this.(groups := groups[group := Group(true)],
                   members := map id | id in members ::
                     if members[id].group == group then members[id].(associated := false) else members[id]))
    }

    /** False when the pair of source event and rule is already recorded. */
    function ClaimEvent(id: nat, sourceEvent: nat, rule: nat): (Store, bool) {
      if id in events || Claimed(sourceEvent, rule) then (this, false)
      else (this.(events := events[id := EventRow(sourceEvent, rule, Processing, false, false)]), true)
    }

    function FinalizeEvent(id: nat, outcome: EventOutcome, commandSent: bool, targetPaused: bool): Option<Store> {
      if id in events
      then Some(this.(events := events[id := events[id].(outcome := outcome, commandSent := commandSent, targetPaused := targetPaused)]))
      else None
    }

    /** The active rules of open groups whose source partition is associated with the session. */
    function MatchingRules(session: nat, breakpoint: string): set<nat> {
      set id | id in rules && !rules[id].deleted && rules[id].breakpoint == breakpoint
               && OpenGroup(rules[id].group) && AssociatedIn(rules[id].source, rules[id].group)
               && members[rules[id].source].session == session
    }
  }

  class DebugCoordinationStore {
    var groups: map<nat, Group>
    var members: map<nat, Member>
    var rules: map<nat, Rule>
    var events: map<nat, EventRow>

    function View(): Store
      reads this
    {
      Store(groups, members, rules, events)
    }

    constructor ()
      ensures View() == Store(map[], map[], map[], map[])
    {
      groups, members, rules, events := map[], map[], map[], map[];
    }

    method Create(group: nat, added: seq<NewMember>) returns (created: bool)
      modifies this
      ensures created == old(View()).Create(group, added).Some?
      ensures View() == if created then old(View()).Create(group, added).value else old(View())
    {
      if group in groups {
        return false;
      }
      ghost var start := View().(groups := groups[group := Group(false)]);
      var inserted: map<nat, Member> := members;
      var n := 0;
      while n < |added|
        invariant 0 <= n <= |added| && View() == old(View())
        invariant start.AddMembers(group, added[..n]) == Some(start.(members := inserted))
      {
        assert added[..n + 1][..n] == added[..n];
        var member := added[n];
        if member.id in inserted ||
           exists id :: id in inserted && inserted[id].associated && inserted[id].session == member.session {
          AddMembersFails(start, group, added, n + 1);
          return false;
        }
        inserted := inserted[member.id := Member(group, member.session, true)];
        n := n + 1;
      }
      assert added[..|added|] == added;
      groups := groups[group := Group(false)];
      members := inserted;
      return true;
    }

    method CreateRule(id: nat, rule: Rule) returns (created: bool)
      modifies this`rules
      ensures created == old(View()).CreateRule(id, rule).Some?
      ensures View() == if created then old(View()).CreateRule(id, rule).value else old(View())
    {
      if id in rules || View().HasActiveRule(rule) {
        return false;
      }
      rules := rules[id := rule];
      return true;
    }

    method DeleteRule(group: nat, id: nat) returns (deleted: bool)
      modifies this`rules
      ensures deleted == old(View()).DeleteRule(group, id).Some?
      ensures View() == if deleted then old(View()).DeleteRule(group, id).value else old(View())
    {
      if id in rules && rules[id].group == group && !rules[id].deleted {
        rules := rules[id := rules[id].(deleted := true)];
        return true;
      }
      return false;
    }

    method RemoveMember(group: nat, id: nat) returns (removed: bool)
      modifies this`members
      ensures removed == old(View()).RemoveMember(group, id).Some?
      ensures View() == if removed then old(View()).RemoveMember(group, id).value else old(View())
    {
      if group in groups && !groups[group].closed && id in members && members[id].group == group && members[id].associated {
        members := members[id := members[id].(associated := false)];
        return true;
      }
      return false;
    }

    method CloseGroup(group: nat) returns (found: bool)
      modifies this
      ensures found == old(View()).CloseGroup(group).Some?
      ensures View() == if found then old(View()).CloseGroup(group).value else old(View())
    {
      if group !in groups {
        return false;
      }
      groups := groups[group := Group(true)];
      members := map id | id in members ::
        if members[id].group == group then members[id].(associated := false) else members[id];
      return true;
    }

    method ClaimEvent(id: nat, sourceEvent: nat, rule: nat) returns (claimed: bool)
      modifies this`events
      ensures (View(), claimed) == old(View()).ClaimEvent(id, sourceEvent, rule)
    {
      if id in events || View().Claimed(sourceEvent, rule) {
        return false;
      }
      events := events[id := EventRow(sourceEvent, rule, Processing, false, false)];
      return true;
    }

    method FinalizeEvent(id: nat, outcome: EventOutcome, commandSent: bool, targetPaused: bool) returns (found: bool)
      modifies this`events
      ensures found == old(View()).FinalizeEvent(id, outcome, commandSent, targetPaused).Some?
      ensures View() == if found then old(View()).FinalizeEvent(id, outcome, commandSent, targetPaused).value else old(View())
    {
      if id !in events {
        return false;
      }
      events := events[id := events[id].(outcome := outcome, commandSent := commandSent, targetPaused := targetPaused)];
      return true;
    }
  }

  lemma {:induction false} AddMembersFails(store: Store, group: nat, added: seq<NewMember>, n: nat)
    requires n <= |added| && store.AddMembers(group, added[..n]).None?
    ensures store.AddMembers(group, added).None?
    decreases |added|
  {
    if n == |added| {
      assert added[..n] == added;
    } else {
      var init := added[..|added| - 1];
      assert init[..n] == added[..n];
      AddMembersFails(store, group, init, n);
    }
  }
}
