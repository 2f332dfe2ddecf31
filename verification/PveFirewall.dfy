/** The firewall API as its clients see it: one ruleset scope, the calls the gateway issues, and
    what each call does to the scope. Rules are addressed by position; a create appends, a delete
    renumbers, and an object (alias, ipset, security group) is removed as a whole. */
module PveFirewall {
  import opened Prelude

  // ----- data -----

  /** A rule's content; its position is its index in the ruleset. */
  datatype Rule = Rule(direction: string, action: string, proto: string, source: string, dest: string,
                       sport: string, dport: string, iface: string, macro: string, log: string,
                       comment: string, enabled: bool)

  /** One line of a rule listing: the position the server reports, and the content. */
  datatype ListedRule = ListedRule(pos: int, rule: Rule)

  datatype FwOptions = FwOptions(enable: bool, policyIn: string, policyOut: string,
                                 policyForward: string, logLevelForward: string)

  /** A partial update: a field left at None is not sent. */
  datatype OptionsUpdate = OptionsUpdate(enable: Option<bool>, policyIn: Option<string>, policyOut: Option<string>,
                                         policyForward: Option<string>, logLevelForward: Option<string>)

  datatype Entry = Entry(cidr: string, comment: string, noMatch: bool)

  /** An object of a scope: aliases, ipsets and security groups are all addressed by name. */
  datatype Named<+T> = Named(name: string, body: T)
  datatype AliasBody = AliasBody(cidr: string, comment: string)
  datatype Members<+T> = Members(comment: string, items: seq<T>)

  type Alias = Named<AliasBody>
  type Ipset = Named<Members<Entry>>
  type Group = Named<Members<Rule>>

  datatype ScopeKind = ClusterKind | NodeKind | VnetKind | GuestKind

  /** One scope's content. Security groups are cluster-wide, whatever the scope is. */
  datatype State = State(rules: seq<Rule>, options: FwOptions, aliases: seq<Alias>,
                         ipsets: seq<Ipset>, groups: seq<Group>)

  // ----- named collections -----

  ghost predicate HasName<T>(xs: seq<Named<T>>, name: string) {
    exists i :: 0 <= i < |xs| && xs[i].name == name
  }

  ghost predicate Distinct<T>(xs: seq<Named<T>>) {
    forall i, j :: 0 <= i < j < |xs| ==> xs[i].name != xs[j].name
  }

  function Lookup<T>(xs: seq<Named<T>>, name: string): (r: Option<T>)
    ensures r.Some? <==> HasName(xs, name)
  {
    if xs == [] then None
    else if xs[0].name == name then
      assert HasName(xs, name);
      Some(xs[0].body)
    else
      var r := Lookup(xs[1..], name);
      assert HasName(xs[1..], name) ==> HasName(xs, name) by {
        if i :| 0 <= i < |xs[1..]| && xs[1..][i].name == name { assert xs[i + 1].name == name; }
      }
      assert HasName(xs, name) ==> HasName(xs[1..], name) by {
        if i :| 0 <= i < |xs| && xs[i].name == name { assert xs[1..][i - 1].name == name; }
      }
      r
  }

  function Remove<T>(xs: seq<Named<T>>, name: string): seq<Named<T>> {
    if xs == [] then []
    else if xs[0].name == name then Remove(xs[1..], name)
    else [xs[0]] + Remove(xs[1..], name)
  }

  function Replace<T>(xs: seq<Named<T>>, name: string, body: T): seq<Named<T>> {
    if xs == [] then []
    else if xs[0].name == name then [Named(name, body)] + xs[1..]
    else [xs[0]] + Replace(xs[1..], name, body)
  }

  lemma {:induction false} RemoveAbsent<T>(xs: seq<Named<T>>, name: string)
    requires !HasName(xs, name)
    ensures Remove(xs, name) == xs
  {
    if xs != [] {
      assert xs[0].name != name;
      forall i | 0 <= i < |xs[1..]| ensures xs[1..][i].name != name { assert xs[i + 1].name != name; }
      RemoveAbsent(xs[1..], name);
    }
  }

  lemma RemoveHead<T>(xs: seq<Named<T>>)
    requires xs != [] && Distinct(xs)
    ensures Remove(xs, xs[0].name) == xs[1..]
  {
    forall i | 0 <= i < |xs[1..]| ensures xs[1..][i].name != xs[0].name { assert xs[i + 1].name != xs[0].name; }
    RemoveAbsent(xs[1..], xs[0].name);
  }

  /** The object just appended is the one a call by its name reaches. */
  lemma {:induction false} ReachesLast<T>(xs: seq<Named<T>>, name: string, before: T, after: T)
    requires !HasName(xs, name)
    ensures Lookup(xs + [Named(name, before)], name) == Some(before)
    ensures Replace(xs + [Named(name, before)], name, after) == xs + [Named(name, after)]
  {
    var all := xs + [Named(name, before)];
    if xs != [] {
      assert xs[0].name != name;
      forall i | 0 <= i < |xs[1..]| ensures xs[1..][i].name != name { assert xs[i + 1].name != name; }
      assert all[1..] == xs[1..] + [Named(name, before)];
      ReachesLast(xs[1..], name, before, after);
    }
  }

  /** Replacing an object's content keeps every name in its place and every other object as it was. */
  lemma {:induction false} ReplaceKeepsOthers<T>(xs: seq<Named<T>>, name: string, body: T)
    ensures |Replace(xs, name, body)| == |xs|
    ensures forall i :: 0 <= i < |xs| ==> Replace(xs, name, body)[i].name == xs[i].name
    ensures forall i :: 0 <= i < |xs| && xs[i].name != name ==> Replace(xs, name, body)[i] == xs[i]
    ensures HasName(xs, name) ==> Lookup(Replace(xs, name, body), name) == Some(body)
    ensures Distinct(xs) ==> Distinct(Replace(xs, name, body))
  {
    if xs != [] && xs[0].name != name {
      ReplaceKeepsOthers(xs[1..], name, body);
      assert HasName(xs, name) ==> HasName(xs[1..], name) by {
        if i :| 0 <= i < |xs| && xs[i].name == name { assert xs[1..][i - 1].name == name; }
      }
      assert Replace(xs, name, body)[1..] == Replace(xs[1..], name, body);
      assert forall i :: 1 <= i < |xs| ==> xs[i] == xs[1..][i - 1];
    }
  }

  lemma {:induction false} ReplaceTwice<T>(xs: seq<Named<T>>, name: string, first: T, second: T)
    ensures Replace(Replace(xs, name, first), name, second) == Replace(xs, name, second)
  {
    if xs != [] && xs[0].name != name {
      ReplaceTwice(xs[1..], name, first, second);
      assert Replace(xs, name, first)[1..] == Replace(xs[1..], name, first);
    }
  }

  lemma {:induction false} ReplaceByItself<T>(xs: seq<Named<T>>, name: string)
    requires HasName(xs, name)
    ensures Replace(xs, name, Lookup(xs, name).value) == xs
  {
    if xs[0].name != name {
      var i :| 0 <= i < |xs| && xs[i].name == name;
      assert xs[1..][i - 1].name == name;
      ReplaceByItself(xs[1..], name);
    }
  }

  // ----- positions -----

  function Without(rules: seq<Rule>, pos: nat): seq<Rule>
    requires pos < |rules|
  {
    rules[..pos] + rules[pos + 1..]
  }

  function InsertAt(rules: seq<Rule>, pos: nat, rule: Rule): (more: seq<Rule>)
    requires pos <= |rules|
    ensures |more| == |rules| + 1 && more[pos] == rule
    ensures more[..pos] == rules[..pos] && more[pos + 1..] == rules[pos..]
  {
    rules[..pos] + [rule] + rules[pos..]
  }

  function Clamp(pos: int, top: nat): (r: nat)
    ensures r <= top
    ensures 0 <= pos <= top ==> r == pos
    ensures (pos < 0 ==> r == 0) && (pos > top ==> r == top)
  {
    if pos < 0 then 0 else if pos > top then top else pos
  }

  /** Relocate the rule at `from` to `to`, clamped into the rest of the ruleset. */
  function Moved(rules: seq<Rule>, from: nat, to: int): seq<Rule>
    requires from < |rules|
  {
    InsertAt(Without(rules, from), Clamp(to, |rules| - 1), rules[from])
  }

  /** A listing gives every rule with its position. */
  function Listed(rules: seq<Rule>): (listing: seq<ListedRule>)
    ensures |listing| == |rules| && forall i :: 0 <= i < |rules| ==> listing[i] == ListedRule(i, rules[i])
  {
    seq(|rules|, i requires 0 <= i < |rules| => ListedRule(i, rules[i]))
  }

  // ----- calls -----

  datatype Call =
    | CreateRule(rule: Rule)
    | UpdateRule(pos: int, rule: Rule, moveTo: Option<int>)
    | DeleteRule(pos: int)
    | PutOptions(update: OptionsUpdate)
    | CreateAlias(alias: Alias)
    | DeleteAlias(name: string)
    | CreateIpset(name: string, comment: string)
    | PutIpsetComment(name: string, comment: string)
    | DeleteIpset(name: string)
    | CreateEntry(name: string, entry: Entry)
    | DeleteEntry(name: string, cidr: string)
    | CreateGroup(name: string, comment: string)
    | DeleteGroup(name: string)
    | CreateGroupRule(name: string, rule: Rule)
    | DeleteGroupRule(name: string, pos: int)

  /** The alias and ipset endpoints exist at cluster and guest scope only. */
  predicate HasObjects(kind: ScopeKind) {
    kind.ClusterKind? || kind.GuestKind?
  }

  /** An empty policy is refused, and so is a policy_in or policy_out at vnet scope. */
  predicate AcceptsOptions(kind: ScopeKind, u: OptionsUpdate) {
    && u.policyIn != Some("") && u.policyOut != Some("")
    && (kind.VnetKind? ==> u.policyIn.None? && u.policyOut.None?)
  }

  function WithUpdate(o: FwOptions, u: OptionsUpdate): FwOptions {
    FwOptions(u.enable.GetOr(o.enable), u.policyIn.GetOr(o.policyIn), u.policyOut.GetOr(o.policyOut),
              u.policyForward.GetOr(o.policyForward), u.logLevelForward.GetOr(o.logLevelForward))
  }

  function DropCidr(es: seq<Entry>, cidr: string): seq<Entry> {
    if es == [] then []
    else if es[0].cidr == cidr then DropCidr(es[1..], cidr)
    else [es[0]] + DropCidr(es[1..], cidr)
  }

  predicate HasCidr(es: seq<Entry>, cidr: string) {
    exists i :: 0 <= i < |es| && es[i].cidr == cidr
  }

  function CreateNamed<T>(xs: seq<Named<T>>, x: Named<T>): Option<seq<Named<T>>> {
    if Lookup(xs, x.name).Some? then None else Some(xs + [x])
  }

  function RemoveNamed<T>(xs: seq<Named<T>>, name: string): Option<seq<Named<T>>> {
    if Lookup(xs, name).None? then None else Some(Remove(xs, name))
  }

  /** The server's answer to a call: the new state, or None when it refuses. */
  function Apply(kind: ScopeKind, s: State, call: Call): Option<State> {
    match call
    case CreateRule(rule) => Some(s.(rules := s.rules + [rule]))
    case UpdateRule(pos, rule, moveTo) =>
      if !(0 <= pos < |s.rules|) then None
      else
        var updated := s.rules[pos := rule];
        Some(s.(rules := if moveTo.Some? then Moved(updated, pos, moveTo.value) else updated))
    case DeleteRule(pos) =>
      if 0 <= pos < |s.rules| then Some(s.(rules := Without(s.rules, pos))) else None
    case PutOptions(update) =>
      if AcceptsOptions(kind, update) then Some(s.(options := WithUpdate(s.options, update))) else None
    case CreateGroup(name, comment) =>
      (match CreateNamed(s.groups, Named(name, Members(comment, [])))
       case None => None
       case Some(groups) => Some(s.(groups := groups)))
    case DeleteGroup(name) =>
      (match RemoveNamed(s.groups, name)
       case None => None
       case Some(groups) => Some(s.(groups := groups)))
    case CreateGroupRule(name, rule) =>
      (match Lookup(s.groups, name)
       case None => None
       case Some(g) => Some(s.(groups := Replace(s.groups, name, g.(items := g.items + [rule])))))
    case DeleteGroupRule(name, pos) =>
      (match Lookup(s.groups, name)
       case None => None
       case Some(g) =>
         if 0 <= pos < |g.items|
         then Some(s.(groups := Replace(s.groups, name, g.(items := Without(g.items, pos)))))
         else None)
    case _ => if HasObjects(kind) then ApplyToObjects(s, call) else None
  }

  function ApplyToObjects(s: State, call: Call): Option<State> {
    match call
    case CreateAlias(alias) =>
      (match CreateNamed(s.aliases, alias)
       case None => None
       case Some(aliases) => Some(s.(aliases := aliases)))
    case DeleteAlias(name) =>
      (match RemoveNamed(s.aliases, name)
       case None => None
       case Some(aliases) => Some(s.(aliases := aliases)))
    case CreateIpset(name, comment) =>
      (match CreateNamed(s.ipsets, Named(name, Members(comment, [])))
       case None => None
       case Some(ipsets) => Some(s.(ipsets := ipsets)))
    case DeleteIpset(name) =>
      (match RemoveNamed(s.ipsets, name)
       case None => None
       case Some(ipsets) => Some(s.(ipsets := ipsets)))
    case PutIpsetComment(name, comment) =>
      (match Lookup(s.ipsets, name)
       case None => None
       case Some(set_) => Some(s.(ipsets := Replace(s.ipsets, name, set_.(comment := comment)))))
    case CreateEntry(name, entry) =>
      (match Lookup(s.ipsets, name)
       case None => None
       case Some(set_) => Some(s.(ipsets := Replace(s.ipsets, name, set_.(items := set_.items + [entry])))))
    case DeleteEntry(name, cidr) =>
      (match Lookup(s.ipsets, name)
       case None => None
       case Some(set_) =>
         if HasCidr(set_.items, cidr)
         then Some(s.(ipsets := Replace(s.ipsets, name, set_.(items := DropCidr(set_.items, cidr)))))
         else None)
    case _ => None
  }

  /** What a caller may find after one call. A refused call changes nothing; a call that the
      transport reports as failed may nevertheless have landed. */
  ghost predicate Answered(kind: ScopeKind, reliable: bool, before: State, call: Call, after: State, ok: bool) {
    var next := Apply(kind, before, call);
    && (ok ==> next == Some(after))
    && (!ok ==> after == before || next == Some(after))
    && (reliable && next.Some? ==> ok)
  }

  /** The gateway's connection to one scope. An unreliable connection may fail at any call. */
  class Client {
    const kind: ScopeKind
    const reliable: bool
    var state: State
    var calls: seq<Call>

    constructor (kind: ScopeKind, reliable: bool, state: State)
      ensures this.kind == kind && this.reliable == reliable && this.state == state && calls == []
    {
      this.kind, this.reliable, this.state, calls := kind, reliable, state, [];
    }

    /** Issue one write. */
    method Do(call: Call) returns (ok: bool)
      modifies this
      ensures calls == old(calls) + [call]
      ensures Answered(kind, reliable, old(state), call, state, ok)
    {
      calls := calls + [call];
      var next := Apply(kind, state, call);
      var lost: bool, landed: bool := *, *;
      ok := next.Some? && (reliable || !lost);
      if next.Some? && (ok || landed) {
        state := next.value;
      }
    }

    method ListRules() returns (r: Option<seq<ListedRule>>)
      ensures r.Some? ==> r.value == Listed(state.rules)
      ensures reliable ==> r.Some?
    {
      var lost: bool := *;
      r := if !reliable && lost then None else Some(Listed(state.rules));
    }

    method GetRule(pos: int) returns (r: Option<Rule>)
      ensures r.Some? ==> 0 <= pos < |state.rules| && r.value == state.rules[pos]
      ensures reliable && 0 <= pos < |state.rules| ==> r.Some?
    {
      var lost: bool := *;
      r := if (!reliable && lost) || !(0 <= pos < |state.rules|) then None else Some(state.rules[pos]);
    }

    method GetOptions() returns (r: Option<FwOptions>)
      ensures r.Some? ==> r.value == state.options
      ensures reliable ==> r.Some?
    {
      var lost: bool := *;
      r := if !reliable && lost then None else Some(state.options);
    }

    method ListAliases() returns (r: Option<seq<Alias>>)
      ensures r.Some? ==> HasObjects(kind) && r.value == state.aliases
      ensures reliable && HasObjects(kind) ==> r.Some?
    {
      var lost: bool := *;
      r := if (!reliable && lost) || !HasObjects(kind) then None else Some(state.aliases);
    }

    /** The ipset listing carries names and comments only. */
    method ListIpsets() returns (r: Option<seq<Named<string>>>)
      ensures r.Some? ==> HasObjects(kind) && r.value == Summaries(state.ipsets)
      ensures reliable && HasObjects(kind) ==> r.Some?
    {
      var lost: bool := *;
      r := if (!reliable && lost) || !HasObjects(kind) then None else Some(Summaries(state.ipsets));
    }

    method ListEntries(name: string) returns (r: Option<seq<Entry>>)
      ensures r.Some? ==>
        HasObjects(kind) && HasName(state.ipsets, name) && r.value == Lookup(state.ipsets, name).value.items
      ensures reliable && HasObjects(kind) && HasName(state.ipsets, name) ==> r.Some?
    {
      var lost: bool := *;
      var found := Lookup(state.ipsets, name);
      r := if (!reliable && lost) || !HasObjects(kind) || found.None? then None else Some(found.value.items);
    }

    method ListGroups() returns (r: Option<seq<Named<string>>>)
      ensures r.Some? ==> r.value == Summaries(state.groups)
      ensures reliable ==> r.Some?
    {
      var lost: bool := *;
      r := if !reliable && lost then None else Some(Summaries(state.groups));
    }

    method ListGroupRules(name: string) returns (r: Option<seq<ListedRule>>)
      ensures r.Some? ==> HasName(state.groups, name) && r.value == Listed(Lookup(state.groups, name).value.items)
      ensures reliable && HasName(state.groups, name) ==> r.Some?
    {
      var lost: bool := *;
      var found := Lookup(state.groups, name);
      r := if (!reliable && lost) || found.None? then None else Some(Listed(found.value.items));
    }
  }

  function Summaries<T>(xs: seq<Named<Members<T>>>): (r: seq<Named<string>>)
    ensures |r| == |xs|
    ensures forall i :: 0 <= i < |xs| ==> r[i] == Named(xs[i].name, xs[i].body.comment)
  {
    seq(|xs|, i requires 0 <= i < |xs| => Named(xs[i].name, xs[i].body.comment))
  }

  /** Object names are unique within a scope: the API refuses a second object of the same name. */
  ghost predicate WellNamed(s: State) {
    Distinct(s.aliases) && Distinct(s.ipsets) && Distinct(s.groups)
  }

  /** Removing keeps the objects of other names, in their order. */
  lemma {:induction false} RemoveKeepsOthers<T>(xs: seq<Named<T>>, name: string)
    ensures !HasName(Remove(xs, name), name)
    ensures forall other :: other != name ==> (HasName(Remove(xs, name), other) <==> HasName(xs, other))
    ensures Distinct(xs) ==> Distinct(Remove(xs, name))
  {
    if xs != [] {
      var rest := xs[1..];
      RemoveKeepsOthers(rest, name);
      assert xs == [xs[0]] + rest;
      forall other ensures HasName(xs, other) <==> xs[0].name == other || HasName(rest, other) {
        NamesOfFirst(xs[0], rest, other);
      }
      if xs[0].name != name {
        forall other
          ensures HasName(Remove(xs, name), other) <==> xs[0].name == other || HasName(Remove(rest, name), other) {
          NamesOfFirst(xs[0], Remove(rest, name), other);
        }
        if Distinct(xs) { DistinctFirst(xs[0], rest, Remove(rest, name)); }
      }
    }
  }

  /** And keeps what each of them is. */
  lemma {:induction false} RemoveKeepsBodies<T>(xs: seq<Named<T>>, name: string, other: string)
    requires other != name
    ensures Lookup(Remove(xs, name), other) == Lookup(xs, other)
  {
    if xs != [] {
      RemoveKeepsBodies(xs[1..], name, other);
      if xs[0].name != name { assert Remove(xs, name)[1..] == Remove(xs[1..], name); }
    }
  }

  /** Of distinct objects, removing one takes out that one and nothing else. */
  lemma {:induction false} RemoveTakesOne<T>(xs: seq<Named<T>>, k: nat)
    requires Distinct(xs) && k < |xs|
    ensures Remove(xs, xs[k].name) == xs[..k] + xs[k + 1..]
  {
    if k == 0 {
      RemoveHead(xs);
    } else {
      var rest := xs[1..];
      assert forall i :: 0 <= i < |rest| ==> rest[i] == xs[i + 1];
      RemoveTakesOne(rest, k - 1);
      assert xs[..k] + xs[k + 1..] == [xs[0]] + (rest[..k - 1] + rest[k..]);
    }
  }

  lemma NamesOfFirst<T>(x: Named<T>, rest: seq<Named<T>>, other: string)
    ensures HasName([x] + rest, other) <==> x.name == other || HasName(rest, other)
  {
    if x.name == other { assert ([x] + rest)[0].name == other; }
    if i :| 0 <= i < |rest| && rest[i].name == other { assert ([x] + rest)[i + 1].name == other; }
  }

  lemma DistinctFirst<T>(x: Named<T>, rest: seq<Named<T>>, kept: seq<Named<T>>)
    requires Distinct([x] + rest) && Distinct(kept)
    requires HasName(kept, x.name) ==> HasName(rest, x.name)
    ensures Distinct([x] + kept)
  {
    assert !HasName(rest, x.name) by {
      forall i | 0 <= i < |rest| ensures rest[i].name != x.name {
        assert ([x] + rest)[0] == x && ([x] + rest)[i + 1] == rest[i];
      }
    }
  }

  lemma CreateKeepsNames<T>(xs: seq<Named<T>>, x: Named<T>)
    requires Distinct(xs)
    ensures CreateNamed(xs, x).Some? ==> Distinct(CreateNamed(xs, x).value)
  {
  }

  /** No call the server accepts ever gives a scope two objects of one name. */
  lemma ApplyKeepsNames(kind: ScopeKind, s: State, call: Call)
    requires WellNamed(s) && Apply(kind, s, call).Some?
    ensures WellNamed(Apply(kind, s, call).value)
  {
    match call
    case CreateGroup(name, comment) => CreateKeepsNames(s.groups, Named(name, Members(comment, [])));
    case DeleteGroup(name) => RemoveKeepsOthers(s.groups, name);
    case CreateGroupRule(name, rule) =>
      var g := Lookup(s.groups, name).value;
      ReplaceKeepsOthers(s.groups, name, g.(items := g.items + [rule]));
    case DeleteGroupRule(name, pos) =>
      var g := Lookup(s.groups, name).value;
      ReplaceKeepsOthers(s.groups, name, g.(items := Without(g.items, pos)));
    case CreateRule(_) =>
    case UpdateRule(_, _, _) =>
    case DeleteRule(_) =>
    case PutOptions(_) =>
    case _ => ObjectsKeepNames(s, call);
  }

  lemma ObjectsKeepNames(s: State, call: Call)
    requires WellNamed(s) && ApplyToObjects(s, call).Some?
    ensures WellNamed(ApplyToObjects(s, call).value)
  {
    match call
    case CreateAlias(alias) => CreateKeepsNames(s.aliases, alias);
    case DeleteAlias(name) => RemoveKeepsOthers(s.aliases, name);
    case CreateIpset(name, comment) => CreateKeepsNames(s.ipsets, Named(name, Members(comment, [])));
    case DeleteIpset(name) => RemoveKeepsOthers(s.ipsets, name);
    case PutIpsetComment(name, comment) =>
      ReplaceKeepsOthers(s.ipsets, name, Lookup(s.ipsets, name).value.(comment := comment));
    case CreateEntry(name, entry) =>
      var m := Lookup(s.ipsets, name).value;
      ReplaceKeepsOthers(s.ipsets, name, m.(items := m.items + [entry]));
    case DeleteEntry(name, cidr) =>
      var m := Lookup(s.ipsets, name).value;
      ReplaceKeepsOthers(s.ipsets, name, m.(items := DropCidr(m.items, cidr)));
    case _ =>
  }
}
