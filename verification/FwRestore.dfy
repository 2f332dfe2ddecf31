/** Capturing a firewall scope and restoring it: the whole scope is rebuilt out of single calls,
    any of which may fail. */
module FwRestore {
  import opened Prelude
  import opened PveFirewall

  // ----- gates and snapshots -----

  /** Which collections of a scope take part: security groups, aliases and ipsets, and the
      in/out policies. */
  datatype Gates = Gates(groups: bool, objects: bool, inOut: bool)

  function GatesOf(kind: ScopeKind): Gates {
    Gates(kind.ClusterKind?, HasObjects(kind), !kind.VnetKind?)
  }

  datatype Snapshot = Snapshot(options: FwOptions, rules: seq<ListedRule>, aliases: seq<Alias>,
                               ipsets: seq<Ipset>, groups: seq<Named<Members<ListedRule>>>)

  function Contents(rules: seq<ListedRule>): (r: seq<Rule>)
    ensures |r| == |rules| && forall i :: 0 <= i < |r| ==> r[i] == rules[i].rule
  {
    seq(|rules|, i requires 0 <= i < |rules| => rules[i].rule)
  }

  function GroupContents(groups: seq<Named<Members<ListedRule>>>): (r: seq<Group>)
    ensures |r| == |groups|
    ensures forall i :: 0 <= i < |r| ==>
      r[i] == Named(groups[i].name, Members(groups[i].body.comment, Contents(groups[i].body.items)))
  {
    seq(|groups|, i requires 0 <= i < |groups| =>
      Named(groups[i].name, Members(groups[i].body.comment, Contents(groups[i].body.items))))
  }

  function ListedGroups(groups: seq<Group>): (r: seq<Named<Members<ListedRule>>>)
    ensures |r| == |groups|
    ensures forall i :: 0 <= i < |r| ==>
      r[i] == Named(groups[i].name, Members(groups[i].body.comment, Listed(groups[i].body.items)))
  {
    seq(|groups|, i requires 0 <= i < |groups| =>
      Named(groups[i].name, Members(groups[i].body.comment, Listed(groups[i].body.items))))
  }

  function Captured(gates: Gates, s: State): Snapshot {
    Snapshot(s.options, Listed(s.rules),
             if gates.objects then s.aliases else [],
             if gates.objects then s.ipsets else [],
             if gates.groups then ListedGroups(s.groups) else [])
  }

  // ----- what a restore is for -----

  /** A captured non-empty policy wins; anything captured empty, or outside the gates, keeps its
      live value. */
  function Merged(gates: Gates, live: FwOptions, want: FwOptions): FwOptions {
    FwOptions(
      want.enable,
      if gates.inOut && want.policyIn != "" then want.policyIn else live.policyIn,
      if gates.inOut && want.policyOut != "" then want.policyOut else live.policyOut,
      if want.policyForward != "" then want.policyForward else live.policyForward,
      if want.logLevelForward != "" then want.logLevelForward else live.logLevelForward)
  }

  function Restored(gates: Gates, s: State, want: Snapshot): State {
    State(
      Contents(want.rules),
      Merged(gates, s.options, want.options),
      if gates.objects then want.aliases else s.aliases,
      if gates.objects then want.ipsets else s.ipsets,
      if gates.objects && gates.groups then GroupContents(want.groups) else s.groups)
  }

  /** What one attempt may leave behind: on success the restored scope, and in every outcome a
      scope from which a complete restore still ends where it would have ended before. */
  ghost predicate Attempt(gates: Gates, want: Snapshot, before: State, after: State, ok: bool) {
    && WellNamed(after)
    && (ok ==> after == Restored(gates, before, want))
    && Restored(gates, after, want) == Restored(gates, before, want)
  }

  ghost predicate SnapshotWellNamed(want: Snapshot) {
    Distinct(want.aliases) && Distinct(want.ipsets) && Distinct(want.groups)
  }

  // ----- capture -----

  method CaptureIpsets(c: Client) returns (r: Option<seq<Ipset>>)
    requires Distinct(c.state.ipsets)
    ensures r.Some? ==> r.value == c.state.ipsets
    ensures c.reliable && HasObjects(c.kind) ==> r.Some?
  {
    var listing := c.ListIpsets();
    if listing.None? { return None; }
    var sets := listing.value;
    var out: seq<Ipset> := [];
    for k := 0 to |sets|
      invariant out == c.state.ipsets[..k]
    {
      LookupAt(c.state.ipsets, k);
      var entries := c.ListEntries(sets[k].name);
      if entries.None? { return None; }
      out := out + [Named(sets[k].name, Members(sets[k].body, entries.value))];
    }
    r := Some(out);
  }

  method CaptureGroups(c: Client) returns (r: Option<seq<Named<Members<ListedRule>>>>)
    requires Distinct(c.state.groups)
    ensures r.Some? ==> r.value == ListedGroups(c.state.groups)
    ensures c.reliable ==> r.Some?
  {
    var listing := c.ListGroups();
    if listing.None? { return None; }
    var groups := listing.value;
    var out: seq<Named<Members<ListedRule>>> := [];
    for k := 0 to |groups|
      invariant out == ListedGroups(c.state.groups)[..k]
    {
      LookupAt(c.state.groups, k);
      var rules := c.ListGroupRules(groups[k].name);
      if rules.None? { return None; }
      out := out + [Named(groups[k].name, Members(groups[k].body, rules.value))];
    }
    r := Some(out);
  }

  lemma {:induction false} LookupAt<T>(xs: seq<Named<T>>, k: nat)
    requires k < |xs| && Distinct(xs)
    ensures HasName(xs, xs[k].name) && Lookup(xs, xs[k].name) == Some(xs[k].body)
  {
    if k > 0 {
      assert xs[0].name != xs[k].name;
      assert xs[1..][k - 1] == xs[k];
      LookupAt(xs[1..], k - 1);
    }
  }

  method Capture(c: Client, gates: Gates) returns (r: Option<Snapshot>)
    requires WellNamed(c.state)
    ensures r.Some? ==> r.value == Captured(gates, c.state)
    ensures c.reliable && (gates.objects ==> HasObjects(c.kind)) ==> r.Some?
  {
    var rules := c.ListRules();
    if rules.None? { return None; }
    var opts := c.GetOptions();
    if opts.None? { return None; }
    var snap := Snapshot(opts.value, rules.value, [], [], []);
    if gates.objects {
      var aliases := c.ListAliases();
      if aliases.None? { return None; }
      var ipsets := CaptureIpsets(c);
      if ipsets.None? { return None; }
      snap := snap.(aliases := aliases.value, ipsets := ipsets.value);
    }
    if gates.groups {
      var groups := CaptureGroups(c);
      if groups.None? { return None; }
      snap := snap.(groups := groups.value);
    }
    r := Some(snap);
  }

  // ----- restore, phase by phase -----

  /** Delete every live rule, highest position first, then append the wanted ones in order. */
  method RestoreRules(c: Client, want: seq<ListedRule>) returns (ok: bool)
    modifies c
    ensures c.state == old(c.state).(rules := c.state.rules)
    ensures ok ==> c.state.rules == Contents(want)
    ensures !ok ==> c.state.rules <= old(c.state.rules) || c.state.rules <= Contents(want)
    ensures c.reliable ==> ok
  {
    var listing := c.ListRules();
    if listing.None? { return false; }
    var live := listing.value;
    ghost var was := c.state.rules;
    var i := |live|;
    while i > 0
      invariant 0 <= i <= |live|
      invariant c.state == old(c.state).(rules := was[..i])
    {
      i := i - 1;
      var done := c.Do(DeleteRule(live[i].pos));
      if !done { return false; }
    }
    for k := 0 to |want|
      invariant c.state == old(c.state).(rules := Contents(want)[..k])
    {
      assert Contents(want)[..k + 1] == Contents(want)[..k] + [want[k].rule];
      var done := c.Do(CreateRule(want[k].rule));
      if !done { return false; }
    }
    ok := true;
  }

  method RestoreOptions(c: Client, gates: Gates, want: FwOptions) returns (ok: bool)
    modifies c
    ensures c.state == old(c.state).(options := c.state.options)
    ensures ok ==> c.state.options == Merged(gates, old(c.state).options, want)
    ensures !ok ==>
      c.state.options == old(c.state).options || c.state.options == Merged(gates, old(c.state).options, want)
    ensures c.reliable && gates == GatesOf(c.kind) ==> ok
  {
    var upd := OptionsUpdate(Some(want.enable), None, None, None, None);
    if gates.inOut {
      if want.policyIn != "" { upd := upd.(policyIn := Some(want.policyIn)); }
      if want.policyOut != "" { upd := upd.(policyOut := Some(want.policyOut)); }
    }
    if want.policyForward != "" { upd := upd.(policyForward := Some(want.policyForward)); }
    if want.logLevelForward != "" { upd := upd.(logLevelForward := Some(want.logLevelForward)); }
    ok := c.Do(PutOptions(upd));
  }

  // ----- objects: clear the live ones, then recreate the wanted ones -----

  lemma RemoveFront<T>(xs: seq<Named<T>>, k: nat)
    requires k < |xs| && Distinct(xs)
    ensures RemoveNamed(xs[k..], xs[k].name) == Some(xs[k + 1..])
  {
    var rest := xs[k..];
    assert rest[0] == xs[k];
    RemoveHead(rest);
    assert rest[1..] == xs[k + 1..];
    assert HasName(rest, xs[k].name);
  }

  lemma CreateNext<T>(xs: seq<Named<T>>, k: nat, body: T)
    requires k < |xs| && Distinct(xs)
    ensures CreateNamed(xs[..k], Named(xs[k].name, body)) == Some(xs[..k] + [Named(xs[k].name, body)])
    ensures Distinct(xs[..k] + [Named(xs[k].name, body)])
    ensures xs[..k] + [xs[k]] == xs[..k + 1]
  {
  }

  /** The last object of `xs[..k] + [...]` takes one more member. */
  lemma AppendMember<T>(xs: seq<Named<Members<T>>>, k: nat, items: seq<T>, m: nat)
    requires k < |xs| && Distinct(xs) && m < |items|
    ensures var before := Members(xs[k].body.comment, items[..m]);
      var after := Members(xs[k].body.comment, items[..m + 1]);
      && Lookup(xs[..k] + [Named(xs[k].name, before)], xs[k].name) == Some(before)
      && before.(items := before.items + [items[m]]) == after
      && Replace(xs[..k] + [Named(xs[k].name, before)], xs[k].name, after) == xs[..k] + [Named(xs[k].name, after)]
  {
    assert items[..m + 1] == items[..m] + [items[m]];
    assert !HasName(xs[..k], xs[k].name);
    ReachesLast(xs[..k], xs[k].name, Members(xs[k].body.comment, items[..m]),
                Members(xs[k].body.comment, items[..m + 1]));
  }

  method ClearAliases(c: Client) returns (ok: bool)
    requires Distinct(c.state.aliases)
    modifies c
    ensures c.state == old(c.state).(aliases := c.state.aliases) && Distinct(c.state.aliases)
    ensures ok ==> c.state.aliases == []
    ensures c.reliable && HasObjects(c.kind) ==> ok
  {
    var listing := c.ListAliases();
    if listing.None? { return false; }
    var live := listing.value;
    for k := 0 to |live|
      invariant c.state == old(c.state).(aliases := live[k..])
    {
      RemoveFront(live, k);
      var done := c.Do(DeleteAlias(live[k].name));
      if !done { return false; }
    }
    ok := true;
  }

  method RestoreAliases(c: Client, want: seq<Alias>) returns (ok: bool)
    requires Distinct(c.state.aliases) && Distinct(want)
    modifies c
    ensures c.state == old(c.state).(aliases := c.state.aliases) && Distinct(c.state.aliases)
    ensures ok ==> c.state.aliases == want
    ensures c.reliable && HasObjects(c.kind) ==> ok
  {
    var cleared := ClearAliases(c);
    if !cleared { return false; }
    for k := 0 to |want|
      invariant c.state == old(c.state).(aliases := want[..k])
    {
      CreateNext(want, k, want[k].body);
      var done := c.Do(CreateAlias(want[k]));
      if !done { return false; }
    }
    ok := true;
  }

  lemma DeleteIpsetStep(kind: ScopeKind, s: State, was: seq<Ipset>, k: nat)
    requires HasObjects(kind) && Distinct(was) && k < |was| && s.ipsets == was[k..]
    ensures Apply(kind, s, DeleteIpset(was[k].name)) == Some(s.(ipsets := was[k + 1..]))
    ensures Distinct(was[k..]) && Distinct(was[k + 1..])
  {
    RemoveFront(was, k);
  }

  lemma DeleteGroupStep(kind: ScopeKind, s: State, was: seq<Group>, k: nat)
    requires Distinct(was) && k < |was| && s.groups == was[k..]
    ensures Apply(kind, s, DeleteGroup(was[k].name)) == Some(s.(groups := was[k + 1..]))
    ensures Distinct(was[k..]) && Distinct(was[k + 1..])
  {
    RemoveFront(was, k);
  }

  method ClearIpsets(c: Client) returns (ok: bool)
    requires Distinct(c.state.ipsets)
    modifies c
    ensures c.state == old(c.state).(ipsets := c.state.ipsets) && Distinct(c.state.ipsets)
    ensures ok ==> c.state.ipsets == []
    ensures c.reliable && HasObjects(c.kind) ==> ok
  {
    var listing := c.ListIpsets();
    if listing.None? { return false; }
    var live := listing.value;
    ghost var was := c.state.ipsets;
    for k := 0 to |live|
      invariant c.state == old(c.state).(ipsets := was[k..])
    {
      DeleteIpsetStep(c.kind, c.state, was, k);
      var done := c.Do(DeleteIpset(live[k].name));
      if !done { return false; }
    }
    ok := true;
  }

  /** Create ipset `k` of the wanted ones and give it its entries, in order. */
  method RestoreIpset(c: Client, want: seq<Ipset>, k: nat) returns (ok: bool)
    requires Distinct(want) && k < |want| && c.state.ipsets == want[..k]
    modifies c
    ensures c.state == old(c.state).(ipsets := c.state.ipsets) && Distinct(c.state.ipsets)
    ensures ok ==> c.state.ipsets == want[..k + 1]
    ensures c.reliable && HasObjects(c.kind) ==> ok
  {
    var s := want[k];
    CreateNext(want, k, Members(s.body.comment, []));
    ok := c.Do(CreateIpset(s.name, s.body.comment));
    if !ok { return; }
    var entries := s.body.items;
    for m := 0 to |entries|
      invariant c.state == old(c.state).(ipsets := want[..k] + [Named(s.name, Members(s.body.comment, entries[..m]))])
    {
      AppendMember(want, k, entries, m);
      CreateNext(want, k, Members(s.body.comment, entries[..m]));
      CreateNext(want, k, Members(s.body.comment, entries[..m + 1]));
      ok := c.Do(CreateEntry(s.name, entries[m]));
      if !ok { return; }
    }
    assert entries[..|entries|] == entries;
    CreateNext(want, k, s.body);
    ok := true;
  }

  method RestoreIpsets(c: Client, want: seq<Ipset>) returns (ok: bool)
    requires Distinct(c.state.ipsets) && Distinct(want)
    modifies c
    ensures c.state == old(c.state).(ipsets := c.state.ipsets) && Distinct(c.state.ipsets)
    ensures ok ==> c.state.ipsets == want
    ensures c.reliable && HasObjects(c.kind) ==> ok
  {
    ok := ClearIpsets(c);
    if !ok { return; }
    for k := 0 to |want|
      invariant c.state == old(c.state).(ipsets := want[..k])
    {
      ok := RestoreIpset(c, want, k);
      if !ok { return; }
    }
    ok := true;
  }

  method ClearGroups(c: Client) returns (ok: bool)
    requires Distinct(c.state.groups)
    modifies c
    ensures c.state == old(c.state).(groups := c.state.groups) && Distinct(c.state.groups)
    ensures ok ==> c.state.groups == []
    ensures c.reliable ==> ok
  {
    var listing := c.ListGroups();
    if listing.None? { return false; }
    var live := listing.value;
    ghost var was := c.state.groups;
    for k := 0 to |live|
      invariant c.state == old(c.state).(groups := was[k..])
    {
      DeleteGroupStep(c.kind, c.state, was, k);
      var done := c.Do(DeleteGroup(live[k].name));
      if !done { return false; }
    }
    ok := true;
  }

  /** Create group `k` of the wanted ones and give it its rules, in order. */
  method RestoreGroup(c: Client, g: Named<Members<ListedRule>>, ghost goal: seq<Group>, ghost k: nat) returns (ok: bool)
    requires Distinct(goal) && k < |goal| && c.state.groups == goal[..k]
    requires goal[k] == Named(g.name, Members(g.body.comment, Contents(g.body.items)))
    modifies c
    ensures c.state == old(c.state).(groups := c.state.groups) && Distinct(c.state.groups)
    ensures ok ==> c.state.groups == goal[..k + 1]
    ensures c.reliable ==> ok
  {
    CreateNext(goal, k, Members(g.body.comment, []));
    ok := c.Do(CreateGroup(g.name, g.body.comment));
    if !ok { return; }
    ghost var rules := Contents(g.body.items);
    for m := 0 to |g.body.items|
      invariant c.state == old(c.state).(groups := goal[..k] + [Named(g.name, Members(g.body.comment, rules[..m]))])
    {
      AppendMember(goal, k, rules, m);
      CreateNext(goal, k, Members(g.body.comment, rules[..m]));
      CreateNext(goal, k, Members(g.body.comment, rules[..m + 1]));
      ok := c.Do(CreateGroupRule(g.name, g.body.items[m].rule));
      if !ok { return; }
    }
    assert rules[..|g.body.items|] == rules;
    CreateNext(goal, k, goal[k].body);
    ok := true;
  }

  method RestoreGroups(c: Client, want: seq<Named<Members<ListedRule>>>) returns (ok: bool)
    requires Distinct(c.state.groups) && Distinct(want)
    modifies c
    ensures c.state == old(c.state).(groups := c.state.groups) && Distinct(c.state.groups)
    ensures ok ==> c.state.groups == GroupContents(want)
    ensures c.reliable ==> ok
  {
    ok := ClearGroups(c);
    if !ok { return; }
    ghost var goal := GroupContents(want);
    for k := 0 to |want|
      invariant c.state == old(c.state).(groups := goal[..k])
    {
      ok := RestoreGroup(c, want[k], goal, k);
      if !ok { return; }
    }
    ok := true;
  }

  /** Rebuild the whole scope from a snapshot. */
  method Reconcile(c: Client, gates: Gates, want: Snapshot) returns (ok: bool)
    requires WellNamed(c.state) && SnapshotWellNamed(want)
    modifies c
    ensures Attempt(gates, want, old(c.state), c.state, ok)
    ensures c.reliable && gates == GatesOf(c.kind) ==> ok
  {
    ok := RestoreRules(c, want.rules);
    if !ok { return; }
    ok := RestoreOptions(c, gates, want.options);
    if !ok || !gates.objects { return; }
    ok := RestoreAliases(c, want.aliases);
    if !ok { return; }
    ok := RestoreIpsets(c, want.ipsets);
    if !ok || !gates.groups { return; }
    ok := RestoreGroups(c, want.groups);
  }

  // ----- theorems -----

  ghost predicate Attempts(gates: Gates, want: Snapshot, scopes: seq<State>, oks: seq<bool>) {
    && |scopes| == |oks| + 1
    && forall k :: 0 <= k < |oks| ==> Attempt(gates, want, scopes[k], scopes[k + 1], oks[k])
  }

  lemma {:induction false} GoalIsFixed(gates: Gates, want: Snapshot, scopes: seq<State>, oks: seq<bool>, k: nat)
    requires Attempts(gates, want, scopes, oks) && k <= |oks|
    ensures Restored(gates, scopes[k], want) == Restored(gates, scopes[0], want)
  {
    if k > 0 {
      GoalIsFixed(gates, want, scopes, oks, k - 1);
      assert Attempt(gates, want, scopes[k - 1], scopes[k], oks[k - 1]);
    }
  }

  /** Any number of attempts, each failing at any call or not: one that completes, wherever it
      comes, leaves exactly what one uninterrupted restore of the original scope leaves. */
  lemma RetriesConverge(gates: Gates, want: Snapshot, scopes: seq<State>, oks: seq<bool>, k: nat)
    requires Attempts(gates, want, scopes, oks) && k < |oks| && oks[k]
    ensures scopes[k + 1] == Restored(gates, scopes[0], want)
  {
    GoalIsFixed(gates, want, scopes, oks, k);
    assert Attempt(gates, want, scopes[k], scopes[k + 1], oks[k]);
  }

  /** The live values a restore leaves alone. */
  ghost predicate SameKept(gates: Gates, want: Snapshot, s: State, t: State) {
    && (!(gates.inOut && want.options.policyIn != "") ==> s.options.policyIn == t.options.policyIn)
    && (!(gates.inOut && want.options.policyOut != "") ==> s.options.policyOut == t.options.policyOut)
    && (want.options.policyForward == "" ==> s.options.policyForward == t.options.policyForward)
    && (want.options.logLevelForward == "" ==> s.options.logLevelForward == t.options.logLevelForward)
    && (!gates.objects ==> s.aliases == t.aliases && s.ipsets == t.ipsets)
    && (!(gates.objects && gates.groups) ==> s.groups == t.groups)
  }

  /** The outcome depends on the live scope in the kept values, and in nothing else. */
  lemma DependsOnlyOnKept(gates: Gates, want: Snapshot, s: State, t: State)
    ensures Restored(gates, s, want) == Restored(gates, t, want) <==> SameKept(gates, want, s, t)
  {
  }

  lemma ListedContents(rules: seq<Rule>)
    ensures Contents(Listed(rules)) == rules
  {
  }

  lemma GroupsSurviveListing(groups: seq<Group>)
    ensures GroupContents(ListedGroups(groups)) == groups
  {
    forall i | 0 <= i < |groups| ensures GroupContents(ListedGroups(groups))[i] == groups[i] {
      ListedContents(groups[i].body.items);
    }
  }

  /** A policy or log level comes back: a captured non-empty value is there again, and where nothing
      was captured, or the scope has no such option, the live value is. */
  predicate ComesBack(has: bool, captured: string, live: string, back: string) {
    && (has && captured != "" ==> back == captured)
    && (!has || captured == "" ==> back == live)
  }

  /** What a restore brings back at each kind of scope: rules and switch everywhere, the forward options
      everywhere, the in/out policies everywhere but at a vnet, aliases and ipsets at cluster and guest
      scope, groups at cluster scope. Everything else keeps its live value. */
  ghost predicate ScopeRestored(kind: ScopeKind, live: State, want: Snapshot, back: State) {
    && |back.rules| == |want.rules| && (forall i :: 0 <= i < |back.rules| ==> back.rules[i] == want.rules[i].rule)
    && back.options.enable == want.options.enable
    && ComesBack(kind != VnetKind, want.options.policyIn, live.options.policyIn, back.options.policyIn)
    && ComesBack(kind != VnetKind, want.options.policyOut, live.options.policyOut, back.options.policyOut)
    && ComesBack(true, want.options.policyForward, live.options.policyForward, back.options.policyForward)
    && ComesBack(true, want.options.logLevelForward, live.options.logLevelForward, back.options.logLevelForward)
    && (kind in {ClusterKind, GuestKind} ==> back.aliases == want.aliases && back.ipsets == want.ipsets)
    && (kind in {NodeKind, VnetKind} ==> back.aliases == live.aliases && back.ipsets == live.ipsets)
    && (kind == ClusterKind ==> back.groups == GroupContents(want.groups))
    && (kind != ClusterKind ==> back.groups == live.groups)
  }

  lemma RestoredMeans(kind: ScopeKind, live: State, want: Snapshot)
    ensures ScopeRestored(kind, live, want, Restored(GatesOf(kind), live, want))
  {
  }

  /** And what a capture takes of it. */
  ghost predicate ScopeCaptured(kind: ScopeKind, s: State, r: Snapshot) {
    && r.options == s.options && r.rules == Listed(s.rules)
    && (kind in {ClusterKind, GuestKind} ==> r.aliases == s.aliases && r.ipsets == s.ipsets)
    && (kind in {NodeKind, VnetKind} ==> r.aliases == [] && r.ipsets == [])
    && (if kind == ClusterKind then GroupContents(r.groups) == s.groups else r.groups == [])
  }

  lemma CapturedMeans(kind: ScopeKind, s: State)
    ensures ScopeCaptured(kind, s, Captured(GatesOf(kind), s))
  {
    GroupsSurviveListing(s.groups);
  }

  /** The values of a scope that restoring it as captured leaves alone are what they were. */
  ghost predicate KeptAgree(kind: ScopeKind, captured: State, live: State) {
    var was, now := captured.options, live.options;
    && (kind == VnetKind || was.policyIn == "" ==> now.policyIn == was.policyIn)
    && (kind == VnetKind || was.policyOut == "" ==> now.policyOut == was.policyOut)
    && (was.policyForward == "" ==> now.policyForward == "")
    && (was.logLevelForward == "" ==> now.logLevelForward == "")
    && (kind in {NodeKind, VnetKind} ==> live.aliases == captured.aliases && live.ipsets == captured.ipsets)
    && (kind != ClusterKind ==> live.groups == captured.groups)
  }

  /** Capture a scope, let anything happen to it, restore it: rules, options and objects are back as the
      kind of scope says, and the result is the captured scope exactly when every value the restore
      leaves alone still is, or again is, what it was. */
  lemma CaptureThenRestore(kind: ScopeKind, captured: State, live: State)
    ensures var back := Restored(GatesOf(kind), live, Captured(GatesOf(kind), captured));
      && back.rules == captured.rules
      && back.options.enable == captured.options.enable
      && (captured.options.policyIn != "" && kind != VnetKind ==> back.options.policyIn == captured.options.policyIn)
      && (captured.options.policyOut != "" && kind != VnetKind ==> back.options.policyOut == captured.options.policyOut)
      && (captured.options.policyForward != "" ==> back.options.policyForward == captured.options.policyForward)
      && (captured.options.logLevelForward != "" ==> back.options.logLevelForward == captured.options.logLevelForward)
      && (kind == VnetKind ==>
            back.options.policyIn == live.options.policyIn && back.options.policyOut == live.options.policyOut)
      && (kind in {ClusterKind, GuestKind} ==> back.aliases == captured.aliases && back.ipsets == captured.ipsets)
      && (kind == ClusterKind ==> back.groups == captured.groups)
      && (back == captured <==> KeptAgree(kind, captured, live))
  {
    ListedContents(captured.rules);
    GroupsSurviveListing(captured.groups);
    RestoredMeans(kind, live, Captured(GatesOf(kind), captured));
  }

  /** A policy that was never set when the scope was captured is not cleared by the restore. */
  lemma UnsetPolicyIsNotRestored(captured: State, live: State)
    requires captured.options.policyIn == "" && live.options.policyIn == "DROP"
    ensures Restored(GatesOf(ClusterKind), live, Captured(GatesOf(ClusterKind), captured)).options.policyIn == "DROP"
    ensures Restored(GatesOf(ClusterKind), live, Captured(GatesOf(ClusterKind), captured)) != captured
  {
  }
}
