/** Setting an ipset's membership: the entries no longer wanted go, the missing ones come, one call
    each, and whatever call fails the update can be run again. */
module FwIpsets {
  import opened Prelude
  import opened PveFirewall

  // ----- ipset membership -----

  function SetOf(xs: seq<string>): set<string> {
    set x | x in xs
  }

  function Cidrs(es: seq<Entry>): set<string> {
    set e | e in es :: e.cidr
  }

  /** The entries whose CIDR is not in `gone`, in their order. */
  function Keep(es: seq<Entry>, gone: set<string>): seq<Entry> {
    if es == [] then []
    else if es[0].cidr in gone then Keep(es[1..], gone)
    else [es[0]] + Keep(es[1..], gone)
  }

  function Added(cidrs: seq<string>): (es: seq<Entry>)
    ensures |es| == |cidrs| && forall i :: 0 <= i < |es| ==> es[i] == Entry(cidrs[i], "", false)
  {
    seq(|cidrs|, i requires 0 <= i < |cidrs| => Entry(cidrs[i], "", false))
  }

  ghost predicate NoRepeats(xs: seq<string>) {
    forall i, j :: 0 <= i < j < |xs| ==> xs[i] != xs[j]
  }

  function Deletes(name: string, cidrs: seq<string>): seq<Call> {
    seq(|cidrs|, i requires 0 <= i < |cidrs| => DeleteEntry(name, cidrs[i]))
  }

  function Creates(name: string, cidrs: seq<string>): seq<Call> {
    seq(|cidrs|, i requires 0 <= i < |cidrs| => CreateEntry(name, Entry(cidrs[i], "", false)))
  }

  lemma {:induction false} KeepNone(es: seq<Entry>)
    ensures Keep(es, {}) == es
  {
    if es != [] { KeepNone(es[1..]); }
  }

  lemma {:induction false} KeepDropsOne(es: seq<Entry>, gone: set<string>, cidr: string)
    ensures DropCidr(Keep(es, gone), cidr) == Keep(es, gone + {cidr})
  {
    if es != [] {
      KeepDropsOne(es[1..], gone, cidr);
      if es[0].cidr !in gone { assert Keep(es, gone)[1..] == Keep(es[1..], gone); }
    }
  }

  /** What is kept: the entries outside `gone`, each as it was. */
  lemma {:induction false} KeepMembers(es: seq<Entry>, gone: set<string>)
    ensures forall e :: e in Keep(es, gone) <==> e in es && e.cidr !in gone
    ensures Cidrs(Keep(es, gone)) == Cidrs(es) - gone
  {
    if es != [] {
      KeepMembers(es[1..], gone);
      assert forall e :: e in es <==> e == es[0] || e in es[1..];
    }
    forall cidr | cidr in Cidrs(es) - gone ensures cidr in Cidrs(Keep(es, gone)) {
      var e :| e in es && e.cidr == cidr;
      assert e in Keep(es, gone);
    }
  }

  lemma AddedCidrs(cidrs: seq<string>)
    ensures Cidrs(Added(cidrs)) == SetOf(cidrs)
  {
    forall x | x in cidrs ensures x in Cidrs(Added(cidrs)) {
      var i :| 0 <= i < |cidrs| && cidrs[i] == x;
      assert Added(cidrs)[i] in Added(cidrs) && Added(cidrs)[i].cidr == x;
    }
  }

  lemma CidrPresent(es: seq<Entry>, cidr: string)
    requires cidr in Cidrs(es)
    ensures HasCidr(es, cidr)
  {
    var e :| e in es && e.cidr == cidr;
    var i :| 0 <= i < |es| && es[i] == e;
  }

  lemma {:induction false} RepeatFreeSize(xs: seq<string>, s: set<string>)
    requires NoRepeats(xs) && s == SetOf(xs)
    ensures |xs| == |s|
  {
    if xs != [] {
      var last := xs[|xs| - 1];
      var front := xs[..|xs| - 1];
      assert xs == front + [last];
      RepeatFreeSize(front, s - {last});
    }
  }

  function WithMembers(s: State, name: string, updated: Members<Entry>): State {
    s.(ipsets := Replace(s.ipsets, name, updated))
  }

  lemma LaterMembersWin(s: State, name: string, first: Members<Entry>, second: Members<Entry>)
    requires HasName(s.ipsets, name)
    ensures HasName(WithMembers(s, name, first).ipsets, name)
    ensures Lookup(WithMembers(s, name, first).ipsets, name) == Some(first)
    ensures WithMembers(WithMembers(s, name, first), name, second) == WithMembers(s, name, second)
  {
    ReplaceKeepsOthers(s.ipsets, name, first);
    ReplaceTwice(s.ipsets, name, first, second);
  }

  lemma StillThere(es: seq<Entry>, gone: set<string>, cidr: string)
    requires cidr in Cidrs(es) - gone
    ensures HasCidr(Keep(es, gone), cidr)
  {
    KeepMembers(es, gone);
    CidrPresent(Keep(es, gone), cidr);
  }

  lemma DeleteEntryStep(kind: ScopeKind, s: State, name: string, was: Members<Entry>, gone: set<string>, cidr: string)
    requires HasObjects(kind) && HasName(s.ipsets, name) && HasCidr(Keep(was.items, gone), cidr)
    ensures Apply(kind, WithMembers(s, name, was.(items := Keep(was.items, gone))), DeleteEntry(name, cidr))
         == Some(WithMembers(s, name, was.(items := Keep(was.items, gone + {cidr}))))
  {
    KeepDropsOne(was.items, gone, cidr);
    LaterMembersWin(s, name, was.(items := Keep(was.items, gone)), was.(items := Keep(was.items, gone + {cidr})));
  }

  lemma CreateEntryStep(kind: ScopeKind, s: State, name: string, kept: Members<Entry>, added: seq<string>, cidr: string)
    requires HasObjects(kind) && HasName(s.ipsets, name)
    ensures Apply(kind, WithMembers(s, name, kept.(items := kept.items + Added(added))),
                  CreateEntry(name, Entry(cidr, "", false)))
         == Some(WithMembers(s, name, kept.(items := kept.items + Added(added + [cidr]))))
  {
    LaterMembersWin(s, name, kept.(items := kept.items + Added(added)),
                    kept.(items := kept.items + Added(added + [cidr])));
    assert kept.items + Added(added) + [Entry(cidr, "", false)] == kept.items + Added(added + [cidr]);
  }

  /** The entries a call issued, each of them once and each of them due. */
  ghost predicate Due(issued: seq<string>, due: set<string>, all: bool) {
    && NoRepeats(issued)
    && SetOf(issued) <= due
    && (all ==> SetOf(issued) == due)
  }

  lemma DueNext(issued: seq<string>, due: set<string>, x: string)
    requires Due(issued, due, true) && x !in due
    ensures Due(issued + [x], due + {x}, true)
  {
    assert forall y :: y in issued + [x] <==> y in issued || y == x;
    assert forall i :: 0 <= i < |issued| ==> issued[i] in issued;
  }

  lemma DueFront(issued: seq<string>, due: set<string>, all: bool, front: seq<string>)
    requires Due(issued, due, all) && front <= issued
    ensures Due(front, due, false)
  {
    assert forall y :: y in front ==> y in issued;
  }

  // ----- part-way -----

  /** A membership part-way: some entries that are not wanted are gone, some missing ones are there. */
  ghost predicate PartOf(was: seq<Entry>, now: seq<Entry>, want: set<string>, gone: set<string>, added: seq<string>) {
    && gone <= Cidrs(was) - want && Due(added, want - Cidrs(was), false)
    && now == Keep(was, gone) + Added(added)
  }

  ghost predicate SetPartWay(was: seq<Entry>, now: seq<Entry>, want: set<string>) {
    exists gone, added :: PartOf(was, now, want, gone, added)
  }

  ghost predicate MembersPartWay(was: Members<Entry>, now: Members<Entry>, comment: Option<string>,
                                 cidrs: Option<seq<string>>) {
    && (now.comment == was.comment || comment == Some(now.comment))
    && if cidrs.None? then now.items == was.items
       else SetPartWay(was.items, now.items, SetOf(cidrs.value))
  }

  /** What an update may leave, whatever call failed: the set is part-way, and nothing else of the
      scope changed. */
  ghost predicate UpdatePartWay(was: State, now: State, name: string, comment: Option<string>,
                                cidrs: Option<seq<string>>) {
    HasName(was.ipsets, name) && exists updated ::
      now == WithMembers(was, name, updated) && MembersPartWay(Lookup(was.ipsets, name).value, updated, comment, cidrs)
  }

  lemma NotStarted(es: seq<Entry>, want: set<string>)
    ensures SetPartWay(es, es, want)
  {
    KeepNone(es);
    assert Keep(es, {}) + Added([]) == es;
    assert PartOf(es, es, want, {}, []);
  }

  lemma {:induction false} KeepOfJoin(a: seq<Entry>, b: seq<Entry>, gone: set<string>)
    ensures Keep(a + b, gone) == Keep(a, gone) + Keep(b, gone)
  {
    if a == [] {
      assert a + b == b;
    } else {
      assert (a + b)[1..] == a[1..] + b;
      KeepOfJoin(a[1..], b, gone);
    }
  }

  lemma {:induction false} KeepOfKeep(es: seq<Entry>, first: set<string>, second: set<string>)
    ensures Keep(Keep(es, first), second) == Keep(es, first + second)
  {
    if es != [] {
      KeepOfKeep(es[1..], first, second);
      if es[0].cidr !in first { assert Keep(es, first)[1..] == Keep(es[1..], first); }
    }
  }

  lemma {:induction false} KeepAll(es: seq<Entry>, gone: set<string>)
    requires Cidrs(es) !! gone
    ensures Keep(es, gone) == es
  {
    if es != [] {
      assert es[0].cidr in Cidrs(es) && Cidrs(es[1..]) <= Cidrs(es);
      KeepAll(es[1..], gone);
    }
  }

  lemma PartCidrs(was: seq<Entry>, now: seq<Entry>, want: set<string>, gone: set<string>, added: seq<string>)
    requires PartOf(was, now, want, gone, added)
    ensures Cidrs(now) == Cidrs(was) - gone + SetOf(added)
  {
    KeepMembers(was, gone);
    AddedCidrs(added);
    CidrsOfJoin(Keep(was, gone), Added(added));
  }

  lemma DueTogether(first: seq<string>, second: seq<string>, due: set<string>)
    requires Due(first, due, false) && Due(second, due, false)
    requires SetOf(first) !! SetOf(second)
    ensures Due(first + second, due, false)
  {
    var all := first + second;
    assert forall x :: x in all <==> x in first || x in second;
    forall i, j | 0 <= i < j < |all| ensures all[i] != all[j] {
      if i < |first| <= j {
        assert all[i] in first && all[j] in second;
        assert all[i] in SetOf(first) && all[j] in SetOf(second);
      }
    }
  }

  /** What may still go was there from the start, and what may still come was missing from the start. */
  lemma RestIsDue(have: set<string>, mid: set<string>, want: set<string>, gone: set<string>, added: set<string>)
    requires gone <= have - want && added <= want - have && mid == have - gone + added
    ensures mid - want == have - want - gone
    ensures want - mid == want - have - added
  {
  }

  lemma AddedStays(added: seq<string>, gone: set<string>)
    requires SetOf(added) !! gone
    ensures Keep(Added(added), gone) == Added(added)
  {
    AddedCidrs(added);
    KeepAll(Added(added), gone);
  }

  lemma AddedTogether(es: seq<Entry>, first: seq<string>, second: seq<string>)
    ensures es + Added(first) + Added(second) == es + Added(first + second)
  {
  }

  lemma KeepThenAdd(was: seq<Entry>, gone: set<string>, added: seq<string>, moreGone: set<string>,
                    moreAdded: seq<string>)
    requires SetOf(added) !! moreGone
    ensures Keep(Keep(was, gone) + Added(added), moreGone) + Added(moreAdded)
         == Keep(was, gone + moreGone) + Added(added + moreAdded)
  {
    KeepOfJoin(Keep(was, gone), Added(added), moreGone);
    KeepOfKeep(was, gone, moreGone);
    AddedStays(added, moreGone);
    AddedTogether(Keep(was, gone + moreGone), added, moreAdded);
  }

  /** Part of the way, and then part of the rest of it. */
  lemma PartsJoin(was: seq<Entry>, mid: seq<Entry>, now: seq<Entry>, want: set<string>, gone: set<string>,
                  added: seq<string>, moreGone: set<string>, moreAdded: seq<string>)
    requires PartOf(was, mid, want, gone, added) && PartOf(mid, now, want, moreGone, moreAdded)
    ensures PartOf(was, now, want, gone + moreGone, added + moreAdded)
  {
    PartCidrs(was, mid, want, gone, added);
    RestIsDue(Cidrs(was), Cidrs(mid), want, gone, SetOf(added));
    DueTogether(added, moreAdded, want - Cidrs(was));
    KeepThenAdd(was, gone, added, moreGone, moreAdded);
  }

  lemma SetPartsJoin(was: seq<Entry>, mid: seq<Entry>, now: seq<Entry>, want: set<string>)
    requires SetPartWay(was, mid, want) && SetPartWay(mid, now, want)
    ensures SetPartWay(was, now, want)
  {
    var gone, added :| PartOf(was, mid, want, gone, added);
    var moreGone, moreAdded :| PartOf(mid, now, want, moreGone, moreAdded);
    PartsJoin(was, mid, now, want, gone, added, moreGone, moreAdded);
  }

  lemma UpdatePartsJoin(was: State, mid: State, now: State, name: string, comment: Option<string>,
                        cidrs: Option<seq<string>>)
    requires UpdatePartWay(was, mid, name, comment, cidrs) && UpdatePartWay(mid, now, name, comment, cidrs)
    ensures UpdatePartWay(was, now, name, comment, cidrs)
  {
    var w := Lookup(was.ipsets, name).value;
    var m :| mid == WithMembers(was, name, m) && MembersPartWay(w, m, comment, cidrs);
    ReplaceKeepsOthers(was.ipsets, name, m);
    var n :| now == WithMembers(mid, name, n) && MembersPartWay(m, n, comment, cidrs);
    LaterMembersWin(was, name, m, n);
    if cidrs.Some? { SetPartsJoin(w.items, m.items, n.items, SetOf(cidrs.value)); }
  }

  /** An update of the comment alone or of the membership alone is part of an update of both. */
  lemma PartOfBoth(was: State, now: State, name: string, comment: Option<string>, cidrs: Option<seq<string>>)
    requires UpdatePartWay(was, now, name, comment, None) || UpdatePartWay(was, now, name, None, cidrs)
    ensures UpdatePartWay(was, now, name, comment, cidrs)
  {
    var w := Lookup(was.ipsets, name).value;
    if UpdatePartWay(was, now, name, comment, None) {
      var m :| now == WithMembers(was, name, m) && MembersPartWay(w, m, comment, None);
      if cidrs.Some? { NotStarted(w.items, SetOf(cidrs.value)); }
      assert MembersPartWay(w, m, comment, cidrs);
    } else {
      var m :| now == WithMembers(was, name, m) && MembersPartWay(w, m, None, cidrs);
      assert MembersPartWay(w, m, comment, cidrs);
    }
  }

  lemma NothingWritten(s: State, name: string, comment: Option<string>, cidrs: Option<seq<string>>)
    requires HasName(s.ipsets, name)
    ensures UpdatePartWay(s, s, name, comment, cidrs)
  {
    var w := Lookup(s.ipsets, name).value;
    ReplaceByItself(s.ipsets, name);
    if cidrs.Some? { NotStarted(w.items, SetOf(cidrs.value)); }
    assert s == WithMembers(s, name, w) && MembersPartWay(w, w, comment, cidrs);
  }

  /** Some entries gone, some added: the state is part-way. */
  lemma SomeWritten(start: State, name: string, gone: set<string>, added: seq<string>, cidrs: seq<string>)
    requires HasName(start.ipsets, name)
    requires var have, want := Cidrs(Lookup(start.ipsets, name).value.items), SetOf(cidrs);
      gone <= have - want && Due(added, want - have, false)
    ensures var was := Lookup(start.ipsets, name).value;
      UpdatePartWay(start, WithMembers(start, name, was.(items := Keep(was.items, gone) + Added(added))), name, None,
                    Some(cidrs))
  {
    var was := Lookup(start.ipsets, name).value;
    var now := was.(items := Keep(was.items, gone) + Added(added));
    assert PartOf(was.items, now.items, SetOf(cidrs), gone, added);
    assert MembersPartWay(was, now, None, Some(cidrs));
  }

  // ----- the calls -----

  lemma OneMoreDelete(name: string, removed: seq<string>, cidr: string)
    ensures Deletes(name, removed) + [DeleteEntry(name, cidr)] == Deletes(name, removed + [cidr])
  {
  }

  lemma OneMoreCreate(name: string, added: seq<string>, cidr: string)
    ensures Creates(name, added) + [CreateEntry(name, Entry(cidr, "", false))] == Creates(name, added + [cidr])
  {
  }

  /** Remove one more entry, recording it: the entries `taken` are gone. */
  method RemoveEntry(c: Client, name: string, cidr: string, ghost start: State, ghost was: Members<Entry>,
                     ghost gone: set<string>, ghost before: seq<Call>, ghost removed: seq<string>)
    returns (ok: bool, ghost taken: set<string>)
    requires HasObjects(c.kind) && HasName(start.ipsets, name) && cidr in Cidrs(was.items) - gone
    requires c.state == WithMembers(start, name, was.(items := Keep(was.items, gone)))
    requires c.calls == before + Deletes(name, removed) && Due(removed, gone, true)
    modifies c
    ensures c.calls == before + Deletes(name, removed + [cidr])
    ensures Due(removed + [cidr], gone + {cidr}, true)
    ensures taken == gone + {cidr} || (!ok && taken == gone)
    ensures c.state == WithMembers(start, name, was.(items := Keep(was.items, taken)))
    ensures c.reliable ==> ok
  {
    StillThere(was.items, gone, cidr);
    DeleteEntryStep(c.kind, start, name, was, gone, cidr);
    OneMoreDelete(name, removed, cidr);
    DueNext(removed, gone, cidr);
    ghost var found := c.state;
    ok := c.Do(DeleteEntry(name, cidr));
    taken := if ok || c.state != found then gone + {cidr} else gone;
  }

  method RemoveUnwanted(c: Client, name: string, have: set<string>, want: set<string>)
    returns (ok: bool, ghost removed: seq<string>, ghost gone: set<string>)
    requires HasObjects(c.kind) && HasName(c.state.ipsets, name)
    requires have == Cidrs(Lookup(c.state.ipsets, name).value.items)
    modifies c
    ensures c.calls == old(c.calls) + Deletes(name, removed)
    ensures Due(removed, have - want, ok)
    ensures gone <= have - want && (ok ==> gone == have - want)
    ensures var was := Lookup(old(c.state.ipsets), name).value;
      c.state == WithMembers(old(c.state), name, was.(items := Keep(was.items, gone)))
    ensures c.reliable ==> ok
  {
    removed, gone := [], {};
    ghost var start, was, before := c.state, Lookup(c.state.ipsets, name).value, c.calls;
    ReplaceByItself(start.ipsets, name);
    KeepNone(was.items);
    var left := have;
    while left != {}
      invariant left <= have && gone == have - want - left
      invariant Due(removed, gone, true)
      invariant c.calls == before + Deletes(name, removed)
      invariant c.state == WithMembers(start, name, was.(items := Keep(was.items, gone)))
      decreases left
    {
      var cidr :| cidr in left;
      left := left - {cidr};
      if cidr in want { continue; }
      ghost var taken;
      ok, taken := RemoveEntry(c, name, cidr, start, was, gone, before, removed);
      removed, gone := removed + [cidr], taken;
      if !ok { return; }
    }
    assert gone == have - want;
    ok := true;
  }

  /** Add one more entry, recording it: `there` are the entries added that landed. */
  method AddEntry(c: Client, name: string, cidr: string, ghost start: State, ghost was: Members<Entry>,
                  ghost before: seq<Call>, ghost added: seq<string>)
    returns (ok: bool, ghost there: seq<string>)
    requires HasObjects(c.kind) && HasName(start.ipsets, name)
    requires c.state == WithMembers(start, name, was.(items := was.items + Added(added)))
    requires c.calls == before + Creates(name, added)
    modifies c
    ensures c.calls == before + Creates(name, added + [cidr])
    ensures there == added + [cidr] || (!ok && there == added)
    ensures c.state == WithMembers(start, name, was.(items := was.items + Added(there)))
    ensures c.reliable ==> ok
  {
    CreateEntryStep(c.kind, start, name, was, added, cidr);
    OneMoreCreate(name, added, cidr);
    ghost var found := c.state;
    ok := c.Do(CreateEntry(name, Entry(cidr, "", false)));
    there := if ok || c.state != found then added + [cidr] else added;
  }

  /** `there` are the entries added that landed: on failure the last one may be missing. */
  method AddMissing(c: Client, name: string, have: set<string>, want: set<string>)
    returns (ok: bool, ghost added: seq<string>, ghost there: seq<string>)
    requires HasObjects(c.kind) && HasName(c.state.ipsets, name)
    modifies c
    ensures c.calls == old(c.calls) + Creates(name, added)
    ensures Due(added, want - have, ok)
    ensures there <= added && (ok ==> there == added)
    ensures var was := Lookup(old(c.state.ipsets), name).value;
      c.state == WithMembers(old(c.state), name, was.(items := was.items + Added(there)))
    ensures c.reliable ==> ok
  {
    added := [];
    ghost var start, was, before := c.state, Lookup(c.state.ipsets, name).value, c.calls;
    ReplaceByItself(start.ipsets, name);
    assert was.items + Added([]) == was.items;
    var left := want;
    ghost var done: set<string> := {};
    while left != {}
      invariant left <= want && done == want - have - left
      invariant Due(added, done, true)
      invariant c.calls == before + Creates(name, added)
      invariant c.state == WithMembers(start, name, was.(items := was.items + Added(added)))
      decreases left
    {
      var cidr :| cidr in left;
      left := left - {cidr};
      if cidr in have { continue; }
      DueNext(added, done, cidr);
      ok, there := AddEntry(c, name, cidr, start, was, before, added);
      added, done := added + [cidr], done + {cidr};
      if !ok { return; }
    }
    assert done == want - have;
    ok, there := true, added;
  }

  /** Remove the entries no longer wanted and add the missing ones, in whatever order the two sets
      are iterated; `removed` and `added` record that order. Whatever the outcome, only entries of
      the symmetric difference are written, each at most once; on success each exactly once. */
  method SetMembership(c: Client, name: string, cidrs: seq<string>)
    returns (ok: bool, ghost removed: seq<string>, ghost added: seq<string>)
    requires HasObjects(c.kind) && HasName(c.state.ipsets, name)
    modifies c
    ensures c.calls == old(c.calls) + Deletes(name, removed) + Creates(name, added)
    ensures var was := Lookup(old(c.state.ipsets), name).value; var want := SetOf(cidrs);
      && Due(removed, Cidrs(was.items) - want, ok)
      && Due(added, want - Cidrs(was.items), ok)
      && (ok ==> c.state == WithMembers(old(c.state), name,
                   was.(items := Keep(was.items, Cidrs(was.items) - want) + Added(added))))
    ensures UpdatePartWay(old(c.state), c.state, name, None, Some(cidrs))
    ensures c.reliable ==> ok
  {
    removed, added := [], [];
    ghost var start, was := c.state, Lookup(c.state.ipsets, name).value;
    NothingWritten(start, name, None, Some(cidrs));
    var listing := c.ListEntries(name);
    if listing.None? { return false, removed, added; }
    var have := Cidrs(listing.value);
    var want := SetOf(cidrs);
    ghost var gone;
    ok, removed, gone := RemoveUnwanted(c, name, have, want);
    ghost var kept := was.(items := Keep(was.items, gone));
    LaterMembersWin(start, name, kept, kept);
    if !ok {
      assert kept.items + Added([]) == kept.items;
      SomeWritten(start, name, gone, [], cidrs);
      return;
    }
    ghost var there;
    ok, added, there := AddMissing(c, name, have, want);
    LaterMembersWin(start, name, kept, kept.(items := kept.items + Added(there)));
    DueFront(added, want - have, ok, there);
    SomeWritten(start, name, gone, there, cidrs);
  }

  /** Exactly the wanted CIDRs; the entries wanted before are the entries that were there. */
  ghost predicate ExactlyWanted(was: seq<Entry>, now: seq<Entry>, want: set<string>) {
    && Cidrs(now) == want
    && (forall e :: e in was && e.cidr in want ==> e in now)
    && (forall e :: e in now && e.cidr in Cidrs(was) ==> e in was)
  }

  /** Whatever order the members are added in, the set ends with exactly the wanted CIDRs, and
      every entry that was wanted already is the entry that was there. */
  lemma MembershipIsExact(was: seq<Entry>, want: set<string>, added: seq<string>)
    requires SetOf(added) == want - Cidrs(was)
    ensures ExactlyWanted(was, Keep(was, Cidrs(was) - want) + Added(added), want)
  {
    var gone := Cidrs(was) - want;
    var kept := Keep(was, gone);
    KeepMembers(was, gone);
    AddedCidrs(added);
    CidrsOfJoin(kept, Added(added));
    var now := kept + Added(added);
    assert Cidrs(now) == Cidrs(was) - gone + (want - Cidrs(was));
    forall e | e in was && e.cidr in want ensures e in now { assert e in kept; }
  }

  /** Exactly one write per CIDR the two sets differ in. */
  lemma OneWritePerDifference(have: set<string>, want: set<string>, removed: seq<string>, added: seq<string>)
    requires Due(removed, have - want, true) && Due(added, want - have, true)
    ensures |removed| + |added| == |(have - want) + (want - have)|
  {
    RepeatFreeSize(removed, have - want);
    RepeatFreeSize(added, want - have);
  }

  lemma CidrsOfJoin(a: seq<Entry>, b: seq<Entry>)
    ensures Cidrs(a + b) == Cidrs(a) + Cidrs(b)
    ensures forall e :: e in b ==> e.cidr in Cidrs(b)
  {
    assert forall e :: e in a + b <==> e in a || e in b;
  }

  /** What an update that completes leaves: the missing entries added in some order, each once. */
  ghost predicate Updated(was: State, now: State, name: string, comment: Option<string>, cidrs: Option<seq<string>>) {
    HasName(was.ipsets, name) && exists added ::
      && AllAdded(Lookup(was.ipsets, name).value, cidrs, added)
      && now == WithMembers(was, name, Rewritten(Lookup(was.ipsets, name).value, comment, cidrs, added))
  }

  ghost predicate AllAdded(was: Members<Entry>, cidrs: Option<seq<string>>, added: seq<string>) {
    cidrs.Some? ==> Due(added, SetOf(cidrs.value) - Cidrs(was.items), true)
  }

  /** Rename the comment when one is given, then set the membership when one is given. A missing set,
      or a scope without sets, is refused by the first call there is to make. In every outcome the
      calls issued are the comment's and one per entry of the symmetric difference reached. */
  method UpdateFwIpset(c: Client, name: string, comment: Option<string>, cidrs: Option<seq<string>>)
    returns (ok: bool, ghost removed: seq<string>, ghost added: seq<string>)
    modifies c
    ensures c.calls == old(c.calls) + CommentCalls(name, comment) + Deletes(name, removed) + Creates(name, added)
    ensures !(HasObjects(c.kind) && HasName(old(c.state.ipsets), name)) ==>
      && c.state == old(c.state) && removed == [] && added == []
      && (ok <==> comment.None? && cidrs.None?)
    ensures HasObjects(c.kind) && HasName(old(c.state.ipsets), name) ==>
      MembershipWritten(Lookup(old(c.state.ipsets), name).value, cidrs, removed, added, ok)
    ensures ok && HasObjects(c.kind) && HasName(old(c.state.ipsets), name) ==>
      c.state == WithMembers(old(c.state), name,
        Rewritten(Lookup(old(c.state.ipsets), name).value, comment, cidrs, added))
    ensures HasObjects(c.kind) && HasName(old(c.state.ipsets), name) ==>
      && UpdatePartWay(old(c.state), c.state, name, comment, cidrs)
      && (ok ==> Updated(old(c.state), c.state, name, comment, cidrs))
    ensures c.reliable && HasObjects(c.kind) && HasName(old(c.state.ipsets), name) ==> ok
  {
    removed, added := [], [];
    assert CommentCalls(name, None) + Deletes(name, []) + Creates(name, []) == [];
    ghost var start := c.state;
    ok := SetComment(c, name, comment);
    ghost var mid, there := c.state, HasObjects(c.kind) && HasName(start.ipsets, name);
    if there { PartOfBoth(start, mid, name, comment, cidrs); }
    if !ok { return; }
    if cidrs.None? { return; }
    if there { MembersAfterComment(start, mid, name, comment); }
    ok, removed, added := TryMembership(c, name, cidrs.value);
    if there {
      PartOfBoth(mid, c.state, name, comment, cidrs);
      UpdatePartsJoin(start, mid, c.state, name, comment, cidrs);
      LaterMembersWin(start, name, Rewritten(Lookup(start.ipsets, name).value, comment, None, []),
                      Rewritten(Lookup(start.ipsets, name).value, comment, cidrs, added));
    }
  }

  /** Setting the comment leaves the set in place, with its entries. */
  lemma MembersAfterComment(start: State, now: State, name: string, comment: Option<string>)
    requires HasName(start.ipsets, name)
    requires now == WithMembers(start, name, Rewritten(Lookup(start.ipsets, name).value, comment, None, []))
    ensures Lookup(now.ipsets, name) == Some(Rewritten(Lookup(start.ipsets, name).value, comment, None, []))
  {
    ReplaceKeepsOthers(start.ipsets, name, Rewritten(Lookup(start.ipsets, name).value, comment, None, []));
  }

  /** Set the membership of a set that may not be there. */
  method TryMembership(c: Client, name: string, cidrs: seq<string>)
    returns (ok: bool, ghost removed: seq<string>, ghost added: seq<string>)
    modifies c
    ensures c.calls == old(c.calls) + Deletes(name, removed) + Creates(name, added)
    ensures !(HasObjects(c.kind) && HasName(old(c.state.ipsets), name)) ==>
      !ok && c.state == old(c.state) && removed == [] && added == []
    ensures HasObjects(c.kind) && HasName(old(c.state.ipsets), name) ==>
      var was := Lookup(old(c.state.ipsets), name).value;
      && MembershipWritten(was, Some(cidrs), removed, added, ok)
      && UpdatePartWay(old(c.state), c.state, name, None, Some(cidrs))
      && (ok ==> c.state == WithMembers(old(c.state), name, Rewritten(was, None, Some(cidrs), added)))
      && (c.reliable ==> ok)
  {
    removed, added := [], [];
    if !HasObjects(c.kind) || Lookup(c.state.ipsets, name).None? {
      var listing := c.ListEntries(name);
      return false, removed, added;
    }
    ok, removed, added := SetMembership(c, name, cidrs);
  }

  function CommentCalls(name: string, comment: Option<string>): seq<Call> {
    if comment.Some? then [PutIpsetComment(name, comment.value)] else []
  }

  /** The entries written are those of the symmetric difference: each at most once, all of them when
      the update completes, and none when no membership is given. */
  ghost predicate MembershipWritten(was: Members<Entry>, cidrs: Option<seq<string>>, removed: seq<string>,
                                    added: seq<string>, all: bool)
  {
    if cidrs.None? then removed == [] && added == []
    else
      var want := SetOf(cidrs.value);
      Due(removed, Cidrs(was.items) - want, all) && Due(added, want - Cidrs(was.items), all)
  }

  /** The set after the update, the missing entries added in the given order. */
  ghost function Rewritten(was: Members<Entry>, comment: Option<string>, cidrs: Option<seq<string>>, added: seq<string>)
    : Members<Entry>
  {
    Members(comment.GetOr(was.comment),
            if cidrs.None? then was.items
            else Keep(was.items, Cidrs(was.items) - SetOf(cidrs.value)) + Added(added))
  }

  /** Set the comment when one is given. */
  method SetComment(c: Client, name: string, comment: Option<string>) returns (ok: bool)
    modifies c
    ensures c.calls == old(c.calls) + CommentCalls(name, comment)
    ensures comment.None? ==> ok && c.state == old(c.state)
    ensures !(HasObjects(c.kind) && HasName(old(c.state.ipsets), name)) ==>
      c.state == old(c.state) && (ok <==> comment.None?)
    ensures ok && HasObjects(c.kind) && HasName(old(c.state.ipsets), name) ==>
      c.state == WithMembers(old(c.state), name, Rewritten(Lookup(old(c.state.ipsets), name).value, comment, None, []))
    ensures HasObjects(c.kind) && HasName(old(c.state.ipsets), name) ==>
      UpdatePartWay(old(c.state), c.state, name, comment, None)
    ensures c.reliable && HasObjects(c.kind) && HasName(old(c.state.ipsets), name) ==> ok
  {
    ghost var start := c.state;
    if HasName(start.ipsets, name) {
      ReplaceByItself(start.ipsets, name);
      NothingWritten(start, name, comment, None);
    }
    if comment.None? { return true; }
    ok := c.Do(PutIpsetComment(name, comment.value));
    if HasObjects(c.kind) && HasName(start.ipsets, name) { CommentWritten(start, name, comment.value); }
  }

  lemma CommentWritten(start: State, name: string, comment: string)
    requires HasName(start.ipsets, name)
    ensures var was := Lookup(start.ipsets, name).value;
      UpdatePartWay(start, WithMembers(start, name, was.(comment := comment)), name, Some(comment), None)
  {
    var was := Lookup(start.ipsets, name).value;
    assert MembersPartWay(was, was.(comment := comment), Some(comment), None);
  }

  // ----- updates run again -----

  /** Updates one after the other, each failing at any call or complete. */
  ghost predicate UpdateRun(states: seq<State>, oks: seq<bool>, name: string, comment: Option<string>,
                            cidrs: Option<seq<string>>) {
    && |states| == |oks| + 1
    && forall i :: 0 <= i < |oks| ==>
      && UpdatePartWay(states[i], states[i + 1], name, comment, cidrs)
      && (oks[i] ==> Updated(states[i], states[i + 1], name, comment, cidrs))
  }

  /** Whoever completes the rest of a part-way membership has completed the whole of it. */
  lemma RestCompletes(was: seq<Entry>, mid: seq<Entry>, want: set<string>, more: seq<string>)
    returns (added: seq<string>)
    requires SetPartWay(was, mid, want) && Due(more, want - Cidrs(mid), true)
    ensures Due(added, want - Cidrs(was), true)
    ensures Keep(mid, Cidrs(mid) - want) + Added(more) == Keep(was, Cidrs(was) - want) + Added(added)
  {
    var gone, some :| PartOf(was, mid, want, gone, some);
    var now := Keep(mid, Cidrs(mid) - want) + Added(more);
    PartCidrs(was, mid, want, gone, some);
    PartsJoin(was, mid, now, want, gone, some, Cidrs(mid) - want, more);
    added := some + more;
    assert forall x :: x in added <==> x in some || x in more;
    assert SetOf(added) == SetOf(some) + SetOf(more);
    assert SetOf(added) == want - Cidrs(was);
    assert gone + (Cidrs(mid) - want) == Cidrs(was) - want;
  }

  lemma CompletesAfter(was: State, mid: State, now: State, name: string, comment: Option<string>,
                       cidrs: Option<seq<string>>)
    requires UpdatePartWay(was, mid, name, comment, cidrs) && Updated(mid, now, name, comment, cidrs)
    ensures Updated(was, now, name, comment, cidrs)
  {
    var w := Lookup(was.ipsets, name).value;
    var m :| mid == WithMembers(was, name, m) && MembersPartWay(w, m, comment, cidrs);
    ReplaceKeepsOthers(was.ipsets, name, m);
    var more :| AllAdded(m, cidrs, more) && now == WithMembers(mid, name, Rewritten(m, comment, cidrs, more));
    var added := more;
    if cidrs.Some? { added := RestCompletes(w.items, m.items, SetOf(cidrs.value), more); }
    assert Rewritten(m, comment, cidrs, more) == Rewritten(w, comment, cidrs, added);
    LaterMembersWin(was, name, m, Rewritten(w, comment, cidrs, added));
    assert AllAdded(w, cidrs, added);
  }

  lemma {:induction false} RunIsPartWay(states: seq<State>, oks: seq<bool>, name: string, comment: Option<string>,
                                       cidrs: Option<seq<string>>, n: nat)
    requires UpdateRun(states, oks, name, comment, cidrs) && n <= |oks| && HasName(states[0].ipsets, name)
    ensures UpdatePartWay(states[0], states[n], name, comment, cidrs)
  {
    if n == 0 {
      NothingWritten(states[0], name, comment, cidrs);
    } else {
      RunIsPartWay(states, oks, name, comment, cidrs, n - 1);
      assert UpdatePartWay(states[n - 1], states[n - 1 + 1], name, comment, cidrs);
      UpdatePartsJoin(states[0], states[n - 1], states[n], name, comment, cidrs);
    }
  }

  /** After any number of updates that failed at any call, one that completes leaves what a single
      uninterrupted update leaves: the given comment, exactly the wanted CIDRs, the entries wanted
      before as they were, and nothing else of the scope changed. */
  lemma UpdatesConverge(states: seq<State>, oks: seq<bool>, name: string, comment: Option<string>,
                        cidrs: Option<seq<string>>)
    requires UpdateRun(states, oks, name, comment, cidrs) && oks != [] && oks[|oks| - 1]
    ensures Updated(states[0], states[|oks|], name, comment, cidrs)
    ensures HasName(states[0].ipsets, name) && HasName(states[|oks|].ipsets, name)
    ensures var was, now := Lookup(states[0].ipsets, name).value, Lookup(states[|oks|].ipsets, name).value;
      && states[|oks|] == WithMembers(states[0], name, now)
      && now.comment == comment.GetOr(was.comment)
      && if cidrs.None? then now.items == was.items else ExactlyWanted(was.items, now.items, SetOf(cidrs.value))
  {
    var n := |oks| - 1;
    assert UpdatePartWay(states[0], states[0 + 1], name, comment, cidrs);
    RunIsPartWay(states, oks, name, comment, cidrs, n);
    assert Updated(states[n], states[n + 1], name, comment, cidrs);
    CompletesAfter(states[0], states[n], states[n + 1], name, comment, cidrs);
    UpdatedMeans(states[0], states[n + 1], name, comment, cidrs);
  }

  lemma UpdatedMeans(start: State, end: State, name: string, comment: Option<string>, cidrs: Option<seq<string>>)
    requires Updated(start, end, name, comment, cidrs)
    ensures HasName(end.ipsets, name)
    ensures var was, now := Lookup(start.ipsets, name).value, Lookup(end.ipsets, name).value;
      && end == WithMembers(start, name, now)
      && now.comment == comment.GetOr(was.comment)
      && if cidrs.None? then now.items == was.items else ExactlyWanted(was.items, now.items, SetOf(cidrs.value))
  {
    var was := Lookup(start.ipsets, name).value;
    var added :| AllAdded(was, cidrs, added) && end == WithMembers(start, name, Rewritten(was, comment, cidrs, added));
    LaterMembersWin(start, name, Rewritten(was, comment, cidrs, added), Rewritten(was, comment, cidrs, added));
    if cidrs.Some? { MembershipIsExact(was.items, SetOf(cidrs.value), added); }
  }
}
