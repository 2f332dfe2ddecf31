/** From a ruleset reference to the scope its API calls address, and the snapshot and restore
    entry points that work on a reference. */
module FwScope {
  import opened Prelude
  import opened PveFirewall
  import opened FwRestore

  /** The part of an inventory reference a ruleset is named by. */
  datatype Target = Target(node: string, id: string)

  /** The path prefix of the API calls. */
  datatype ApiScope =
    | ClusterScope
    | NodeScope(node: string)
    | VnetScope(vnet: string)
    | GuestScope(node: string, guestKind: string, vmid: int)

  function KindOf(scope: ApiScope): ScopeKind {
    match scope
    case ClusterScope => ClusterKind
    case NodeScope(_) => NodeKind
    case VnetScope(_) => VnetKind
    case GuestScope(_, _, _) => GuestKind
  }

  // ----- splitting -----

  /** The index of the first `sep`, or the length when there is none. */
  function FirstIndex(s: string, sep: char): (i: nat)
    ensures i <= |s|
    ensures sep !in s[..i]
    ensures i < |s| ==> s[i] == sep
  {
    if s == [] || s[0] == sep then 0
    else
      var rest := FirstIndex(s[1..], sep);
      assert s[..rest + 1] == [s[0]] + s[1..][..rest];
      rest + 1
  }

  /** strings.SplitN(s, sep, 3) */
  function SplitThree(s: string, sep: char): (parts: seq<string>)
    ensures 1 <= |parts| <= 3
  {
    var i := FirstIndex(s, sep);
    if i == |s| then [s]
    else
      var rest := s[i + 1..];
      var j := FirstIndex(rest, sep);
      if j == |rest| then [s[..i], rest] else [s[..i], rest[..j], rest[j + 1..]]
  }

  lemma {:induction false} FirstIndexAfter(a: string, sep: char, b: string)
    requires sep !in a
    ensures FirstIndex(a + [sep] + b, sep) == |a|
  {
    var s := a + [sep] + b;
    var i := FirstIndex(s, sep);
    assert forall k :: 0 <= k < |a| ==> s[k] == a[k] && a[k] != sep;
    assert s[|a|] == sep;
  }

  lemma SplitJoined(a: string, b: string, c: string, sep: char)
    requires sep !in a && sep !in b
    ensures SplitThree(a + [sep] + b + [sep] + c, sep) == [a, b, c]
  {
    var s := a + [sep] + b + [sep] + c;
    var rest := b + [sep] + c;
    assert s == a + [sep] + rest;
    FirstIndexAfter(a, sep, rest);
    assert s[..|a|] == a && s[|a| + 1..] == rest;
    FirstIndexAfter(b, sep, c);
    assert rest[..|b|] == b && rest[|b| + 1..] == c;
  }

  // ----- decimal numbers -----

  const MAX_INT := 0x7fff_ffff_ffff_ffff

  predicate IsDigit(c: char) {
    '0' <= c <= '9'
  }

  /** The value of a string of digits. */
  function DigitsValue(s: string): (v: nat)
    requires forall c :: c in s ==> IsDigit(c)
  {
    if s == [] then 0
    else
      assert IsDigit(s[|s| - 1]);
      DigitsValue(s[..|s| - 1]) * 10 + (s[|s| - 1] as int - '0' as int)
  }

  /** strconv.Atoi: an optional sign, then digits, within 64 bits. */
  function Atoi(s: string): Option<int> {
    var negative := s != [] && s[0] == '-';
    var digits := if s != [] && (s[0] == '-' || s[0] == '+') then s[1..] else s;
    if digits == [] || exists c :: c in digits && !IsDigit(c) then None
    else
      var v: int := DigitsValue(digits);
      if negative then (if v <= MAX_INT + 1 then Some(-v) else None)
      else if v <= MAX_INT then Some(v) else None
  }

  function Decimal(n: nat): (s: string)
    ensures s != [] && forall c :: c in s ==> IsDigit(c)
  {
    var digit := ['0' + (n % 10) as char];
    if n < 10 then digit else Decimal(n / 10) + digit
  }

  lemma {:induction false} DecimalValue(n: nat)
    ensures DigitsValue(Decimal(n)) == n
  {
    if n >= 10 {
      DecimalValue(n / 10);
      assert Decimal(n)[..|Decimal(n)| - 1] == Decimal(n / 10);
    }
  }

  lemma AtoiOfDecimal(n: nat)
    requires n <= MAX_INT
    ensures Atoi(Decimal(n)) == Some(n)
  {
    DecimalValue(n);
    assert Decimal(n)[0] in Decimal(n);
  }

  /** A sign is taken off, and a number outside 64 bits refused. */
  lemma AtoiOfSigned(n: int)
    requires n >= 0
    ensures Atoi(['+'] + Decimal(n)) == if n <= MAX_INT then Some(n) else None
    ensures Atoi(['-'] + Decimal(n)) == if n <= MAX_INT + 1 then Some(-n) else None
  {
    DecimalValue(n);
    assert (['+'] + Decimal(n))[1..] == Decimal(n) && (['-'] + Decimal(n))[1..] == Decimal(n);
  }

  /** What is no number: nothing, a sign alone, or any other character where a digit should be. */
  lemma AtoiRefuses(s: string)
    requires
      || s in {"", "+", "-"}
      || (s[0] !in {'+', '-'} && !IsDigit(s[0]))
      || exists i :: 1 <= i < |s| && !IsDigit(s[i])
    ensures Atoi(s).None?
  {
    if s !in {"", "+", "-"} {
      var digits := if s[0] == '-' || s[0] == '+' then s[1..] else s;
      if s[0] in {'+', '-'} || IsDigit(s[0]) {
        var i :| 1 <= i < |s| && !IsDigit(s[i]);
        assert s[i] == digits[if digits == s then i else i - 1];
      } else {
        assert s[0] == digits[0];
      }
    }
  }

  // ----- references -----

  function FwScopeOf(target: Target): Option<ApiScope> {
    if target.id == "cluster" then Some(ClusterScope)
    else if target.id == "node" then Some(NodeScope(target.node))
    else if "vnet/" <= target.id then
      var parts := SplitThree(target.id, '/');
      if |parts| != 3 then None else Some(VnetScope(parts[2]))
    else
      var parts := SplitThree(target.id, '/');
      if |parts| != 3 || parts[0] != "guest" then None
      else
        match Atoi(parts[2])
        case None => None
        case Some(vmid) => Some(GuestScope(target.node, parts[1], vmid))
  }

  function LogicalKind(target: Target): ScopeKind {
    if target.id == "cluster" then ClusterKind
    else if target.id == "node" then NodeKind
    else if "vnet/" <= target.id then VnetKind
    else GuestKind
  }

  /** The two resolvers agree: whatever the reference, the gates a snapshot or restore uses are those of
      the scope its calls go to. Groups take part at the cluster, aliases and ipsets at the cluster and
      at a guest, in/out policies everywhere but at a vnet. */
  lemma GatesMatchTheScope(target: Target)
    requires FwScopeOf(target).Some?
    ensures var scope, gates := FwScopeOf(target).value, GatesOf(LogicalKind(target));
      && (gates.groups <==> scope.ClusterScope?)
      && (gates.objects <==> scope.ClusterScope? || scope.GuestScope?)
      && (gates.inOut <==> !scope.VnetScope?)
    ensures LogicalKind(target) == KindOf(FwScopeOf(target).value)
  {
  }

  /** The two plain references. */
  lemma PlainReferences(node: string)
    ensures FwScopeOf(Target(node, "cluster")) == Some(ClusterScope)
    ensures FwScopeOf(Target(node, "node")) == Some(NodeScope(node))
  {
    assert "cluster"[0] == 'c' && "node"[0] == 'n';
  }

  lemma CutAt(s: string, i: nat, sep: char)
    requires i < |s| && s[i] == sep
    ensures s == s[..i] + [sep] + s[i + 1..]
  {
  }

  lemma Regroup(a: string, b: string, c: string, d: string, e: string)
    ensures a + b + (c + d + e) == a + b + c + d + e
  {
  }

  lemma SplitRejoins(s: string, sep: char)
    requires |SplitThree(s, sep)| == 3
    ensures var parts := SplitThree(s, sep);
      && sep !in parts[0] && sep !in parts[1]
      && s == parts[0] + [sep] + parts[1] + [sep] + parts[2]
  {
    var i := FirstIndex(s, sep);
    var rest := s[i + 1..];
    var j := FirstIndex(rest, sep);
    CutAt(s, i, sep);
    CutAt(rest, j, sep);
    Regroup(s[..i], [sep], rest[..j], [sep], rest[j + 1..]);
  }

  ghost predicate NamesVnet(id: string, zone: string, vnet: string) {
    '/' !in zone && id == "vnet" + ['/'] + zone + ['/'] + vnet
  }

  ghost predicate NamesGuest(id: string, guestKind: string, number: string) {
    '/' !in guestKind && id == "guest" + ['/'] + guestKind + ['/'] + number
  }

  /** The references that resolve: the two plain ones, a vnet with its zone, and a guest with its kind
      and a number; every other one is refused. */
  lemma AcceptedReferences(target: Target)
    ensures FwScopeOf(target).Some? <==>
      || target.id == "cluster" || target.id == "node"
      || (exists zone, vnet :: NamesVnet(target.id, zone, vnet))
      || (exists guestKind, number :: NamesGuest(target.id, guestKind, number) && Atoi(number).Some?)
  {
    var id := target.id;
    if FwScopeOf(target).Some? && id != "cluster" && id != "node" { AcceptedIsNamed(target); }
    if zone, vnet :| NamesVnet(id, zone, vnet) { VnetReference(target.node, zone, vnet); }
    if guestKind, number :| NamesGuest(id, guestKind, number) && Atoi(number).Some? {
      GuestNumber(target.node, guestKind, number);
    }
  }

  lemma VnetPrefix(id: string)
    requires "vnet/" <= id
    ensures SplitThree(id, '/')[0] == "vnet"
  {
    assert id == "vnet" + ['/'] + id[5..];
    FirstIndexAfter("vnet", '/', id[5..]);
  }

  lemma AcceptedIsNamed(target: Target)
    requires FwScopeOf(target).Some? && target.id != "cluster" && target.id != "node"
    ensures (exists zone, vnet :: NamesVnet(target.id, zone, vnet))
      || exists guestKind, number :: NamesGuest(target.id, guestKind, number) && Atoi(number).Some?
  {
    var parts := SplitThree(target.id, '/');
    SplitRejoins(target.id, '/');
    if "vnet/" <= target.id {
      VnetPrefix(target.id);
      assert NamesVnet(target.id, parts[1], parts[2]);
    } else {
      assert NamesGuest(target.id, parts[1], parts[2]);
    }
  }

  lemma GuestNumber(node: string, guestKind: string, number: string)
    requires '/' !in guestKind && Atoi(number).Some?
    ensures FwScopeOf(Target(node, "guest" + ['/'] + guestKind + ['/'] + number)) ==
      Some(GuestScope(node, guestKind, Atoi(number).value))
  {
    var id := "guest" + ['/'] + guestKind + ['/'] + number;
    assert "cluster"[0] == 'c' && "node"[0] == 'n' && "vnet/"[0] == 'v' && id[0] == 'g';
    SplitJoined("guest", guestKind, number, '/');
  }

  lemma VnetReference(node: string, zone: string, vnet: string)
    requires '/' !in zone
    ensures FwScopeOf(Target(node, "vnet" + ['/'] + zone + ['/'] + vnet)) == Some(VnetScope(vnet))
  {
    var id := "vnet" + ['/'] + zone + ['/'] + vnet;
    assert id[..5] == "vnet/";
    assert "cluster"[0] == 'c' && "node"[0] == 'n' && id[0] == 'v';
    SplitJoined("vnet", zone, vnet, '/');
  }

  lemma GuestReference(node: string, guestKind: string, vmid: nat)
    requires '/' !in guestKind && vmid <= MAX_INT
    ensures FwScopeOf(Target(node, "guest" + ['/'] + guestKind + ['/'] + Decimal(vmid))) ==
      Some(GuestScope(node, guestKind, vmid))
  {
    AtoiOfDecimal(vmid);
    GuestNumber(node, guestKind, Decimal(vmid));
  }

  // ----- entry points -----

  /** Capture the ruleset a reference names; `c` is the connection to the scope it resolves to. */
  method SnapshotFirewallScope(target: Target, c: Client) returns (r: Option<Snapshot>)
    requires FwScopeOf(target).Some? ==> c.kind == KindOf(FwScopeOf(target).value)
    requires WellNamed(c.state)
    ensures r.Some? ==> FwScopeOf(target).Some? && r.value == Captured(GatesOf(c.kind), c.state)
    ensures r.Some? ==> ScopeCaptured(c.kind, c.state, r.value)
    ensures c.reliable ==> (r.Some? <==> FwScopeOf(target).Some?)
  {
    var scope := FwScopeOf(target);
    if scope.None? { return None; }
    GatesMatchTheScope(target);
    CapturedMeans(c.kind, c.state);
    var logical := LogicalKind(target);
    r := Capture(c, Gates(logical.ClusterKind?, HasObjects(logical), true));
  }

  /** Restore the ruleset a reference names. */
  method RestoreFirewallScope(target: Target, c: Client, want: Snapshot) returns (ok: bool)
    requires FwScopeOf(target).Some? ==> c.kind == KindOf(FwScopeOf(target).value)
    requires WellNamed(c.state) && SnapshotWellNamed(want)
    modifies c
    ensures FwScopeOf(target).None? ==> !ok && c.state == old(c.state) && c.calls == old(c.calls)
    ensures Attempt(GatesOf(c.kind), want, old(c.state), c.state, ok)
    ensures ok ==> ScopeRestored(c.kind, old(c.state), want, c.state)
    ensures c.reliable ==> (ok <==> FwScopeOf(target).Some?)
  {
    var scope := FwScopeOf(target);
    if scope.None? { return false; }
    GatesMatchTheScope(target);
    RestoredMeans(c.kind, c.state, want);
    ok := Reconcile(c, GatesOf(LogicalKind(target)), want);
  }
}
