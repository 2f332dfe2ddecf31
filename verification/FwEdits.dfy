/** Edits the API has no single call for: inserting or moving a rule, replacing a security group's
    rules. */
module FwEdits {
  import opened Prelude
  import opened PveFirewall

  // ----- inserting and moving rules -----

  /** Append the rule, then move it to the position asked for. */
  method CreateFwRule(c: Client, pos: int, rule: Rule) returns (ok: bool)
    modifies c
    ensures c.state == old(c.state).(rules := c.state.rules)
    ensures ok ==> c.state.rules == InsertAt(old(c.state.rules), Clamp(pos, |old(c.state.rules)|), rule)
    ensures !ok ==> c.state.rules in {old(c.state.rules), old(c.state.rules) + [rule],
                                      InsertAt(old(c.state.rules), Clamp(pos, |old(c.state.rules)|), rule)}
    ensures c.reliable ==> ok
  {
    ghost var was := c.state.rules;
    var created := c.Do(CreateRule(rule));
    if !created { return false; }
    var listing := c.ListRules();
    if listing.None? { return false; }
    var endPos := |listing.value| - 1;
    if pos == endPos {
      assert InsertAt(was, |was|, rule) == was + [rule];
      return true;
    }
    assert Without((was + [rule])[endPos := rule], endPos) == was;
    ok := c.Do(UpdateRule(endPos, rule, Some(pos)));
  }

  method MoveFwRule(c: Client, from: int, to: int) returns (ok: bool)
    modifies c
    ensures c.state == old(c.state).(rules := c.state.rules)
    ensures ok ==> 0 <= from < |old(c.state.rules)| && c.state.rules == Moved(old(c.state.rules), from, to)
    ensures !ok ==> c.state.rules == old(c.state.rules)
                    || (0 <= from < |old(c.state.rules)| && c.state.rules == Moved(old(c.state.rules), from, to))
    ensures c.reliable ==> (ok <==> 0 <= from < |old(c.state.rules)|)
  {
    var current := c.GetRule(from);
    if current.None? { return false; }
    assert c.state.rules[from := current.value] == c.state.rules;
    ok := c.Do(UpdateRule(from, current.value, Some(to)));
  }

  lemma MoveLands(rules: seq<Rule>, from: nat, to: int)
    requires from < |rules|
    ensures var dest := Clamp(to, |rules| - 1);
      && |Moved(rules, from, to)| == |rules|
      && Moved(rules, from, to)[dest] == rules[from]
      && Without(Moved(rules, from, to), dest) == Without(rules, from)
  {
    var rest, dest := Without(rules, from), Clamp(to, |rules| - 1);
    assert Without(InsertAt(rest, dest, rules[from]), dest) == rest;
  }

  /** A move puts the rule where it was asked to, keeps every other rule in its order, and loses
      and invents none. */
  lemma MoveKeepsTheOthers(rules: seq<Rule>, from: nat, to: int)
    requires from < |rules|
    ensures var dest := Clamp(to, |rules| - 1);
      && |Moved(rules, from, to)| == |rules|
      && Moved(rules, from, to)[dest] == rules[from]
      && Without(Moved(rules, from, to), dest) == Without(rules, from)
      && multiset(Moved(rules, from, to)) == multiset(rules)
  {
    MoveLands(rules, from, to);
    var rest, dest := Without(rules, from), Clamp(to, |rules| - 1);
    assert rules == rules[..from] + [rules[from]] + rules[from + 1..];
    assert rest == rest[..dest] + rest[dest..];
    assert multiset(Moved(rules, from, to)) == multiset(rest) + multiset{rules[from]} == multiset(rules);
  }

  /** Moving a rule back undoes the move. */
  lemma MoveBack(rules: seq<Rule>, from: nat, to: int)
    requires from < |rules|
    ensures |Moved(rules, from, to)| == |rules|
    ensures Moved(Moved(rules, from, to), Clamp(to, |rules| - 1), from) == rules
  {
    MoveLands(rules, from, to);
    PutBack(rules, from);
  }

  lemma PutBack(rules: seq<Rule>, pos: nat)
    requires pos < |rules|
    ensures InsertAt(Without(rules, pos), pos, rules[pos]) == rules
  {
  }

  /** Deleting the rule a creation inserted undoes the creation, at every position asked for. */
  lemma DeleteUndoesCreate(rules: seq<Rule>, pos: int, rule: Rule)
    ensures Without(InsertAt(rules, Clamp(pos, |rules|), rule), Clamp(pos, |rules|)) == rules
  {
  }

  // ----- security groups -----

  /** The content of a rule in a group operation: it has no interface and no log level. */
  datatype RuleSpec = RuleSpec(direction: string, action: string, proto: string, source: string, dest: string,
                               sport: string, dport: string, macro: string, comment: string, enabled: bool)

  /** The rule sent for a spec has its fields; it has no interface and no log level. */
  predicate Sends(r: RuleSpec, sent: Rule) {
    && sent.direction == r.direction && sent.action == r.action && sent.proto == r.proto
    && sent.source == r.source && sent.dest == r.dest && sent.sport == r.sport && sent.dport == r.dport
    && sent.macro == r.macro && sent.comment == r.comment && sent.enabled == r.enabled
    && sent.iface == "" && sent.log == ""
  }

  function FromSpec(r: RuleSpec): (sent: Rule)
    ensures Sends(r, sent)
  {
    Rule(r.direction, r.action, r.proto, r.source, r.dest, r.sport, r.dport, "", r.macro, "", r.comment, r.enabled)
  }

  function FromSpecs(rs: seq<RuleSpec>): (out: seq<Rule>)
    ensures |out| == |rs| && forall i :: 0 <= i < |rs| ==> out[i] == FromSpec(rs[i])
  {
    seq(|rs|, i requires 0 <= i < |rs| => FromSpec(rs[i]))
  }

  function WithRules(groups: seq<Group>, name: string, rules: seq<Rule>): seq<Group>
    requires HasName(groups, name)
  {
    Replace(groups, name, Lookup(groups, name).value.(items := rules))
  }

  /** A later content replaces an earlier one, so a replacement that is run again after a failure
      ends where it would have ended at first. */
  lemma LaterRulesWin(groups: seq<Group>, name: string, first: seq<Rule>, second: seq<Rule>)
    requires HasName(groups, name)
    ensures HasName(WithRules(groups, name, first), name)
    ensures Lookup(WithRules(groups, name, first), name) == Some(Lookup(groups, name).value.(items := first))
    ensures WithRules(WithRules(groups, name, first), name, second) == WithRules(groups, name, second)
  {
    var g := Lookup(groups, name).value;
    ReplaceKeepsOthers(groups, name, g.(items := first));
    ReplaceTwice(groups, name, g.(items := first), g.(items := second));
  }

  lemma DeleteRuleStep(kind: ScopeKind, s: State, name: string, rules: seq<Rule>, i: nat)
    requires HasName(s.groups, name) && i < |rules|
    ensures Apply(kind, s.(groups := WithRules(s.groups, name, rules[..i + 1])), DeleteGroupRule(name, i))
         == Some(s.(groups := WithRules(s.groups, name, rules[..i])))
  {
    LaterRulesWin(s.groups, name, rules[..i + 1], rules[..i]);
    assert Without(rules[..i + 1], i) == rules[..i];
  }

  lemma CreateRuleStep(kind: ScopeKind, s: State, name: string, rules: seq<Rule>, i: nat)
    requires HasName(s.groups, name) && i < |rules|
    ensures Apply(kind, s.(groups := WithRules(s.groups, name, rules[..i])), CreateGroupRule(name, rules[i]))
         == Some(s.(groups := WithRules(s.groups, name, rules[..i + 1])))
  {
    LaterRulesWin(s.groups, name, rules[..i], rules[..i + 1]);
    assert rules[..i + 1] == rules[..i] + [rules[i]];
  }

  lemma OwnRules(groups: seq<Group>, name: string)
    requires HasName(groups, name)
    ensures WithRules(groups, name, Lookup(groups, name).value.items) == groups
  {
    ReplaceByItself(groups, name);
  }

  /** A group part-way through a replacement holds a prefix of its old or of its new rules. */
  ghost predicate PartWay(was: State, now: State, name: string, goal: seq<Rule>)
    requires HasName(was.groups, name)
  {
    exists left: seq<Rule> ::
      && (left <= Lookup(was.groups, name).value.items || left <= goal)
      && now == was.(groups := WithRules(was.groups, name, left))
  }

  method ClearGroup(c: Client, name: string, ghost goal: seq<Rule>) returns (ok: bool)
    requires HasName(c.state.groups, name)
    modifies c
    ensures ok ==> c.state == old(c.state).(groups := WithRules(old(c.state.groups), name, []))
    ensures PartWay(old(c.state), c.state, name, goal)
    ensures c.reliable ==> ok
  {
    ghost var was := c.state;
    ghost var members := Lookup(was.groups, name).value.items;
    OwnRules(was.groups, name);
    var listing := c.ListGroupRules(name);
    if listing.None? { return false; }
    var current := listing.value;
    var i := |current|;
    assert members[..i] == members;
    while i > 0
      invariant 0 <= i <= |current|
      invariant c.state == was.(groups := WithRules(was.groups, name, members[..i]))
    {
      i := i - 1;
      DeleteRuleStep(c.kind, was, name, members, i);
      var done := c.Do(DeleteGroupRule(name, current[i].pos));
      assert members[..i] <= members && members[..i + 1] <= members;
      if !done { return false; }
    }
    assert members[..0] == [];
    ok := true;
  }

  /** Replace a group's rules: delete every member, highest position first, then append the new
      ones in order. */
  method UpdateFwGroup(c: Client, name: string, rules: Option<seq<RuleSpec>>) returns (ok: bool)
    modifies c
    ensures rules.None? ==> ok && c.state == old(c.state) && c.calls == old(c.calls)
    ensures rules.Some? && !HasName(old(c.state.groups), name) ==> !ok && c.state == old(c.state)
    ensures rules.Some? && HasName(old(c.state.groups), name) ==>
      && PartWay(old(c.state), c.state, name, FromSpecs(rules.value))
      && (ok ==> c.state == old(c.state).(groups := WithRules(old(c.state.groups), name, FromSpecs(rules.value))))
    ensures ok && rules.Some? ==>
      && HasName(c.state.groups, name)
      && var now := Lookup(c.state.groups, name).value.items;
         |now| == |rules.value| && forall i :: 0 <= i < |now| ==> Sends(rules.value[i], now[i])
    ensures c.reliable ==> (ok <==> rules.None? || HasName(old(c.state.groups), name))
  {
    if rules.None? { return true; }
    var specs := rules.value;
    ghost var was := c.state;
    ghost var goal := FromSpecs(specs);
    if Lookup(c.state.groups, name).None? {
      var listing := c.ListGroupRules(name);
      return false;
    }
    var cleared := ClearGroup(c, name, goal);
    if !cleared { return false; }
    assert goal[..0] == [];
    for k := 0 to |specs|
      invariant c.state == was.(groups := WithRules(was.groups, name, goal[..k]))
    {
      CreateRuleStep(c.kind, was, name, goal, k);
      var done := c.Do(CreateGroupRule(name, FromSpec(specs[k])));
      assert goal[..k] <= goal && goal[..k + 1] <= goal;
      if !done { return false; }
    }
    assert goal[..|specs|] == goal;
    LaterRulesWin(was.groups, name, goal, goal);
    ok := true;
  }

  /** Running a replacement again after one that stopped part-way ends where it would have ended. */
  lemma ReplacementResumes(was: State, partWay: State, name: string, goal: seq<Rule>)
    requires HasName(was.groups, name) && PartWay(was, partWay, name, goal)
    ensures HasName(partWay.groups, name)
    ensures partWay.(groups := WithRules(partWay.groups, name, goal)) ==
      was.(groups := WithRules(was.groups, name, goal))
  {
    var left: seq<Rule> :|
      && (left <= Lookup(was.groups, name).value.items || left <= goal)
      && partWay == was.(groups := WithRules(was.groups, name, left));
    LaterRulesWin(was.groups, name, left, goal);
  }
}
