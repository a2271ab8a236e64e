/** Interfaces of the host and their ranking as attachment points (ethernet.py). */
module Ethernet {
  import opened Wrappers

  type Octet = n: int | 0 <= n < 256

  /** An address as `ipaddress.IPv4Address` reads it, or text it rejects. */
  datatype IPv4Address = Dotted(a: Octet, b: Octet, c: Octet, d: Octet) | Malformed(text: string) {
    predicate IsLinkLocal() {
      Dotted? && a == 169 && b == 254
    }

    function AsNumber(): int
      requires Dotted?
    {
      ((a * 256 + b) * 256 + c) * 256 + d
    }
  }

  /** Link-local is exactly 169.254/16 (section 2.1 of RFC 3927): the addresses sharing the top sixteen bits. */
  lemma LinkLocalIsThePrefix(address: IPv4Address)
    ensures address.IsLinkLocal() <==> address.Dotted? && 0xA9FE0000 <= address.AsNumber() <= 0xA9FEFFFF
  {
  }

  const VIRTUAL_PREFIXES := [
    "lo", "gif", "stf", "utun", "awdl", "llw", "bridge", "ap", "anpi", "vmenet", "vmnet", "utap", "ipsec", "pflog",
    "XHC"]
  const WIRELESS_PORT_HINTS := ["wi-fi", "wifi", "airport", "wwan", "bluetooth", "iphone"]
  const ETHERNET_PORT_HINTS := ["ethernet", "lan", "rj45", "rj-45"]

  function LowerChar(c: char): char {
    if 'A' <= c <= 'Z' then c - 'A' + 'a' else c
  }

  function Lower(s: string): string {
    seq(|s|, i requires 0 <= i < |s| => LowerChar(s[i]))
  }

  predicate Contains(s: string, part: string) {
    part <= s || (s != "" && Contains(s[1..], part))
  }

  predicate ContainsAny(s: string, parts: seq<string>) {
    exists part <- parts :: Contains(s, part)
  }

  datatype NetworkInterface = NetworkInterface(
    name: string,
    flags: seq<string>,
    mac: Option<string>,
    ipv4: seq<IPv4Address>,
    status: Option<string>,
    hardwarePort: Option<string>)
  {
    predicate IsUp() { "UP" in flags }

    predicate HasLink() {
      if status.Some? then status.value == "active" else "RUNNING" in flags
    }

    function Port(): string {
      if hardwarePort.Some? then Lower(hardwarePort.value) else ""
    }

    predicate IsVirtual() {
      exists prefix <- VIRTUAL_PREFIXES :: prefix <= name
    }

    predicate IsEthernetLike() {
      && "LOOPBACK" !in flags && !IsVirtual() && !ContainsAny(Port(), WIRELESS_PORT_HINTS)
      && mac.Some?
      && (ContainsAny(Port(), ETHERNET_PORT_HINTS) || (hardwarePort.None? && "en" <= name))
    }

    predicate IsExternal() {
      Contains(Port(), "usb") || Contains(Port(), "thunderbolt")
    }

    predicate HasLinkLocal() {
      exists address <- ipv4 :: address.IsLinkLocal()
    }
  }

  datatype Reason = LinkActive | ExternalAdapter | SelfAssigned
  datatype Warning = NoLink | Routable | NoAddress

  datatype Candidate = Candidate(interface: NetworkInterface, score: int, reasons: seq<Reason>, warnings: seq<Warning>)

  function Rate(i: NetworkInterface): Candidate {
    Candidate(
      i,
      (if i.HasLink() then 40 else 0) + (if i.IsExternal() then 20 else 0)
      + (if i.HasLinkLocal() then 25 else if i.ipv4 != [] then 5 else 0) + (if i.IsUp() then 5 else 0),
      (if i.HasLink() then [LinkActive] else []) + (if i.IsExternal() then [ExternalAdapter] else [])
      + (if i.HasLinkLocal() then [SelfAssigned] else []),
      (if i.HasLink() then [] else [NoLink])
      + (if i.HasLinkLocal() then [] else if i.ipv4 != [] then [Routable] else [NoAddress]))
  }

  function Rating(i: NetworkInterface): Option<Candidate> {
    if i.IsEthernetLike() then Some(Rate(i)) else None
  }

  /** `[f(x) for x in s if f(x) is not None]` */
  function FilterMap<A, B>(f: A -> Option<B>, s: seq<A>): seq<B> {
    if s == [] then [] else (match f(s[0]) case Some(b) => [b] case None => []) + FilterMap(f, s[1..])
  }

  function Candidates(interfaces: seq<NetworkInterface>): seq<Candidate> {
    FilterMap(Rating, interfaces)
  }

  // ------------------------------------------------------------------- ordering

  /** Python's order on strings: by the first differing character, a prefix first. */
  predicate StringLess(a: string, b: string) {
    if b == "" then false
    else if a == "" then true
    else a[0] < b[0] || (a[0] == b[0] && StringLess(a[1..], b[1..]))
  }

  lemma {:induction false} StringLessTotal(a: string, b: string)
    ensures a == b || StringLess(a, b) || StringLess(b, a)
    ensures !(StringLess(a, b) && StringLess(b, a))
    ensures !StringLess(a, a)
  {
    if a != "" {
      StringLessTotal(a[1..], a[1..]);
      if b != "" {
        StringLessTotal(a[1..], b[1..]);
        assert a == [a[0]] + a[1..] && b == [b[0]] + b[1..];
      }
    }
  }

  lemma {:induction false} StringLessTransitive(a: string, b: string, c: string)
    requires StringLess(a, b) && StringLess(b, c)
    ensures StringLess(a, c)
  {
    if a != "" && a[0] == b[0] == c[0] {
      StringLessTransitive(a[1..], b[1..], c[1..]);
    }
  }

  /** The sort key of the ranking: descending score, then name. */
  predicate Before(x: Candidate, y: Candidate) {
    x.score > y.score || (x.score == y.score && StringLess(x.interface.name, y.interface.name))
  }

  ghost predicate Sorted(s: seq<Candidate>) {
    forall i, j :: 0 <= i < j < |s| ==> !Before(s[j], s[i])
  }

  /** Inserts behind every candidate of equal key, so that sorting by insertion is stable. */
  function Insert(s: seq<Candidate>, c: Candidate): seq<Candidate> {
    if s == [] || Before(c, s[0]) then [c] + s else [s[0]] + Insert(s[1..], c)
  }

  function Sort(s: seq<Candidate>): seq<Candidate> {
    if s == [] then [] else Insert(Sort(s[..|s| - 1]), s[|s| - 1])
  }

  lemma BeforeTransitive(x: Candidate, y: Candidate, z: Candidate)
    requires !Before(y, x) && !Before(z, y)
    ensures !Before(z, x)
  {
    StringLessTotal(x.interface.name, y.interface.name);
    StringLessTotal(y.interface.name, z.interface.name);
    StringLessTotal(x.interface.name, z.interface.name);
    if Before(z, x) && x.score == y.score == z.score {
      if x.interface.name != y.interface.name {
        StringLessTransitive(z.interface.name, x.interface.name, y.interface.name);
      }
    }
  }

  lemma {:induction false} InsertSorts(s: seq<Candidate>, c: Candidate)
    requires Sorted(s)
    ensures Sorted(Insert(s, c))
    ensures multiset(Insert(s, c)) == multiset(s) + multiset{c}
  {
    hide StringLess;
    if s != [] {
      assert s == [s[0]] + s[1..];
      if Before(c, s[0]) {
        StringLessTotal(c.interface.name, s[0].interface.name);
        forall i | 0 <= i < |s| ensures !Before(s[i], c) {
          if i > 0 {
            BeforeTransitive(c, s[0], s[i]);
          }
        }
      } else {
        InsertSorts(s[1..], c);
        var tail := Insert(s[1..], c);
        forall x | x in tail ensures !Before(x, s[0]) {
          assert x in multiset(tail);
          assert x in multiset(s[1..]) || x == c;
        }
      }
    }
  }

  lemma EmptyIsSorted()
    ensures Sorted([])
  {
  }

  lemma {:induction false} SortSorts(s: seq<Candidate>)
    ensures Sorted(Sort(s))
    ensures multiset(Sort(s)) == multiset(s)
  {
    hide Insert, Sorted;
    assert Sorted([]) by { EmptyIsSorted(); }
    if s != [] {
      SortSorts(s[..|s| - 1]);
      InsertSorts(Sort(s[..|s| - 1]), s[|s| - 1]);
      assert s == s[..|s| - 1] + [s[|s| - 1]];
    }
  }

  function Ranked(interfaces: seq<NetworkInterface>): seq<Candidate> {
    Sort(Candidates(interfaces))
  }

  /** The body of the scoring loop. */
  method Score(i: NetworkInterface) returns (candidate: Candidate)
    ensures candidate == Rate(i)
  {
    hide NetworkInterface.HasLink, NetworkInterface.IsExternal, NetworkInterface.HasLinkLocal, NetworkInterface.IsUp;
    var score, reasons, warnings := 0, [], [];
    if i.HasLink() {
      score, reasons := score + 40, reasons + [LinkActive];
    } else {
      warnings := warnings + [NoLink];
    }
    if i.IsExternal() {
      score, reasons := score + 20, reasons + [ExternalAdapter];
    }
    if i.HasLinkLocal() {
      score, reasons := score + 25, reasons + [SelfAssigned];
    } else if i.ipv4 != [] {
      score, warnings := score + 5, warnings + [Routable];
    } else {
      warnings := warnings + [NoAddress];
    }
    if i.IsUp() {
      score := score + 5;
    }
    candidate := Candidate(i, score, reasons, warnings);
  }

  method RankCandidates(interfaces: seq<NetworkInterface>) returns (candidates: seq<Candidate>)
    ensures candidates == Ranked(interfaces)
  {
    candidates := [];
    for n := 0 to |interfaces|
      invariant candidates == Candidates(interfaces[..n])
    {
      CandidatesSnoc(interfaces[..n], interfaces[n]);
      assert interfaces[..n + 1] == interfaces[..n] + [interfaces[n]];
      if interfaces[n].IsEthernetLike() {
        var candidate := Score(interfaces[n]);
        candidates := candidates + [candidate];
      }
    }
    assert interfaces[..|interfaces|] == interfaces;
    candidates := SortInPlace(candidates);
  }

  method SortInPlace(candidates: seq<Candidate>) returns (sorted: seq<Candidate>)
    ensures sorted == Sort(candidates)
  {
    sorted := [];
    for n := 0 to |candidates|
      invariant sorted == Sort(candidates[..n])
    {
      assert candidates[..n + 1][..n] == candidates[..n];
      sorted := Insert(sorted, candidates[n]);
    }
    assert candidates[..|candidates|] == candidates;
  }

  lemma {:induction false} FilterMapConcat<A, B>(f: A -> Option<B>, a: seq<A>, b: seq<A>)
    ensures FilterMap(f, a + b) == FilterMap(f, a) + FilterMap(f, b)
  {
    if a == [] {
      assert a + b == b;
    } else {
      assert (a + b)[1..] == a[1..] + b;
      FilterMapConcat(f, a[1..], b);
    }
  }

  lemma CandidatesSnoc(a: seq<NetworkInterface>, i: NetworkInterface)
    ensures Candidates(a + [i]) == Candidates(a) + if i.IsEthernetLike() then [Rate(i)] else []
  {
    FilterMapConcat(Rating, a, [i]);
    assert [i][1..] == [];
  }

  // ----------------------------------------- the ranking is a function of the set

  ghost predicate DistinctNames(interfaces: seq<NetworkInterface>) {
    forall i, j :: 0 <= i < j < |interfaces| ==> interfaces[i].name != interfaces[j].name
  }

  ghost function IndexIn<A>(s: seq<A>, x: A): (j: nat)
    requires x in s
    ensures j < |s| && s[j] == x
  {
    if s[0] == x then 0 else 1 + IndexIn(s[1..], x)
  }

  lemma MultisetOfThree<B>(p: seq<B>, x: seq<B>, q: seq<B>)
    ensures multiset(p + x + q) == multiset(p + q) + multiset(x)
  {
  }

  lemma FilterMapMiddle<A, B>(f: A -> Option<B>, p: seq<A>, x: A, q: seq<A>)
    ensures multiset(FilterMap(f, p + [x] + q)) == multiset(FilterMap(f, p + q)) + multiset(FilterMap(f, [x]))
  {
    FilterMapConcat(f, p + [x], q);
    FilterMapConcat(f, p, [x]);
    FilterMapConcat(f, p, q);
    MultisetOfThree(FilterMap(f, p), FilterMap(f, [x]), FilterMap(f, q));
  }

  lemma SplitAt<A>(s: seq<A>, x: A) returns (p: seq<A>, q: seq<A>)
    requires x in multiset(s)
    ensures s == p + [x] + q
    ensures multiset(p + q) == multiset(s) - multiset{x}
  {
    var j := IndexIn(s, x);
    p, q := s[..j], s[j + 1..];
    MultisetOfThree(p, [x], q);
  }

  lemma {:induction false} FilterMapIgnoresOrder<A, B>(f: A -> Option<B>, a: seq<A>, b: seq<A>)
    requires multiset(a) == multiset(b)
    ensures multiset(FilterMap(f, a)) == multiset(FilterMap(f, b))
    decreases |a|
  {
    if |a| == 0 {
      assert |multiset(b)| == 0;
    } else {
      var x := a[0];
      var p, q := SplitAt(a, x);
      var p', q' := SplitAt(b, x);
      FilterMapIgnoresOrder(f, p + q, p' + q');
      FilterMapMiddle(f, p, x, q);
      FilterMapMiddle(f, p', x, q');
    }
  }

  /** Candidates with the same name are the same candidate. */
  ghost predicate NamesDecide(s: seq<Candidate>) {
    forall x, y :: x in s && y in s && x.interface.name == y.interface.name ==> x == y
  }

  lemma SortedHeads(x: seq<Candidate>, y: seq<Candidate>)
    requires x != [] && y != [] && Sorted(x) && Sorted(y) && NamesDecide(x)
    requires x[0] in y && y[0] in x
    ensures x[0] == y[0]
  {
    var i :| 0 <= i < |x| && x[i] == y[0];
    var j :| 0 <= j < |y| && y[j] == x[0];
    StringLessTotal(x[0].interface.name, y[0].interface.name);
  }

  lemma {:induction false} SortedIsUnique(x: seq<Candidate>, y: seq<Candidate>)
    requires Sorted(x) && Sorted(y) && multiset(x) == multiset(y) && NamesDecide(x)
    ensures x == y
    decreases x
  {
    hide Before;
    if x == [] {
      assert |multiset(y)| == 0;
    } else {
      assert |multiset(y)| == |x|;
      assert x[0] in multiset(y) && y[0] in multiset(x);
      SortedHeads(x, y);
      assert x == [x[0]] + x[1..] && y == [x[0]] + y[1..];
      assert multiset(x[1..]) == multiset(x) - multiset{x[0]};
      assert multiset(y[1..]) == multiset(y) - multiset{x[0]};
      SortedIsUnique(x[1..], y[1..]);
    }
  }

  lemma {:induction false} FilterMapMembers<A, B>(f: A -> Option<B>, s: seq<A>, y: B)
    ensures y in FilterMap(f, s) <==> exists x <- s :: f(x) == Some(y)
  {
    if s != [] {
      FilterMapMembers(f, s[1..], y);
      assert s == [s[0]] + s[1..];
    }
  }

  lemma CandidatesAreRated(interfaces: seq<NetworkInterface>)
    ensures forall c :: c in Candidates(interfaces) <==> c.interface in interfaces && Rating(c.interface) == Some(c)
  {
    forall c ensures c in Candidates(interfaces) <==> c.interface in interfaces && Rating(c.interface) == Some(c) {
      FilterMapMembers(Rating, interfaces, c);
    }
  }

  lemma ScoresAreBounded()
    ensures forall i: NetworkInterface :: 0 <= Rate(i).score <= 90 && Rate(i).interface == i
  {
    forall i: NetworkInterface ensures 0 <= Rate(i).score <= 90 && Rate(i).interface == i {
    }
  }

  /** The ranking holds exactly the Ethernet-like interfaces, by descending score then name, scored 0 to 90. */
  lemma RankingIsComplete(interfaces: seq<NetworkInterface>)
    ensures Sorted(Ranked(interfaces))
    ensures var ranked := Ranked(interfaces);
            forall j, k :: 0 <= j < k < |ranked| ==>
              && ranked[j].score >= ranked[k].score
              && (ranked[j].score == ranked[k].score ==>
                  !StringLess(ranked[k].interface.name, ranked[j].interface.name))
    ensures multiset(Ranked(interfaces)) == multiset(Candidates(interfaces))
    ensures forall i: NetworkInterface :: i in interfaces && i.IsEthernetLike() <==> Rate(i) in Ranked(interfaces)
    ensures forall c :: c in Ranked(interfaces) ==> c == Rate(c.interface) && 0 <= c.score <= 90
  {
    var candidates := Candidates(interfaces);
    ScoresAreBounded();
    hide Sort, FilterMap, Rate;
    SortSorts(candidates);
    CandidatesAreRated(interfaces);
    var ranked := Ranked(interfaces);
    assert forall j, k :: 0 <= j < k < |ranked| ==> !Before(ranked[k], ranked[j]);
    assert forall c :: c in Ranked(interfaces) <==> c in multiset(candidates);
    assert forall c :: c in candidates <==> c in multiset(candidates);
  }

  /** Enumerating distinctly named interfaces in another order changes nothing. */
  lemma RankingIgnoresOrder(a: seq<NetworkInterface>, b: seq<NetworkInterface>)
    requires multiset(a) == multiset(b) && DistinctNames(a)
    ensures Ranked(a) == Ranked(b)
  {
    FilterMapIgnoresOrder(Rating, a, b);
    SortSorts(Candidates(a));
    SortSorts(Candidates(b));
    CandidatesAreRated(a);
    assert NamesDecide(Ranked(a)) by {
      forall x, y | x in Ranked(a) && y in Ranked(a) && x.interface.name == y.interface.name ensures x == y {
        assert x in multiset(Candidates(a)) && y in multiset(Candidates(a));
        var i :| 0 <= i < |a| && a[i] == x.interface;
        var j :| 0 <= j < |a| && a[j] == y.interface;
        assert i == j;
      }
    }
    SortedIsUnique(Ranked(a), Ranked(b));
  }

  // ------------------------------------------------------------------- selection

  datatype SelectError = NoSuchInterface

  function FindByName(interfaces: seq<NetworkInterface>, name: string): Result<NetworkInterface, SelectError> {
    if interfaces == [] then Failure(NoSuchInterface)
    else if interfaces[0].name == name then Success(interfaces[0])
    else FindByName(interfaces[1..], name)
  }

  function SelectInterface(preferred: Option<string>, interfaces: seq<NetworkInterface>)
      : Result<NetworkInterface, SelectError>
  {
    if preferred.Some? && preferred.value != "" then FindByName(interfaces, preferred.value)
    else if Ranked(interfaces) == [] then Failure(NoSuchInterface)
    else Success(Ranked(interfaces)[0].interface)
  }

  lemma {:induction false} FindByNameFinds(interfaces: seq<NetworkInterface>, name: string)
    ensures var r := FindByName(interfaces, name);
            && (r.Failure? <==> forall i <- interfaces :: i.name != name)
            && (r.Failure? ==> r == Failure(NoSuchInterface))
            && (r.Success? ==> r.value in interfaces && r.value.name == name)
  {
    if interfaces != [] {
      FindByNameFinds(interfaces[1..], name);
    }
  }

  lemma FindByNameIgnoresOrder(a: seq<NetworkInterface>, b: seq<NetworkInterface>, name: string)
    requires multiset(a) == multiset(b) && DistinctNames(a)
    ensures FindByName(a, name) == FindByName(b, name)
  {
    FindByNameFinds(a, name);
    FindByNameFinds(b, name);
    assert forall i :: i in a <==> i in multiset(b);
    var x, y := FindByName(a, name), FindByName(b, name);
    assert x.Success? ==> x.value in b;
    assert y.Success? ==> y.value in a;
    if x.Success? && y.Success? {
      var i, j := IndexIn(a, x.value), IndexIn(a, y.value);
      assert a[i].name == a[j].name;
    }
  }

  /** Selection, by name or automatic, does not depend on the order in which the host lists its interfaces. */
  lemma SelectionIgnoresOrder(preferred: Option<string>, a: seq<NetworkInterface>, b: seq<NetworkInterface>)
    requires multiset(a) == multiset(b) && DistinctNames(a)
    ensures SelectInterface(preferred, a) == SelectInterface(preferred, b)
  {
    RankingIgnoresOrder(a, b);
    if preferred.Some? {
      FindByNameIgnoresOrder(a, b, preferred.value);
    }
  }

  function Points(reasons: seq<Reason>): int {
    if reasons == [] then 0
    else
      var points := match reasons[0] case LinkActive => 40 case ExternalAdapter => 20 case SelfAssigned => 25;
      points + Points(reasons[1..])
  }

  /**
   * The reasons account for the whole score exactly when the interface is not up, and has a link-local address or
   * no address at all.
   */
  lemma ReasonsExplainTheScore(i: NetworkInterface)
    ensures Points(Rate(i).reasons) == Rate(i).score <==> !i.IsUp() && (i.HasLinkLocal() || i.ipv4 == [])
  {
    var link := if i.HasLink() then [LinkActive] else [];
    var external := if i.IsExternal() then [ExternalAdapter] else [];
    var local := if i.HasLinkLocal() then [SelfAssigned] else [];
    PointsConcat(link + external, local);
    PointsConcat(link, external);
  }

  /** A candidate that is merely up is ranked with points and without a reason. */
  lemma UpIsNotExplained()
    ensures var i := NetworkInterface("en0", ["UP"], Some("00:11:22:33:44:55"), [], Some("inactive"), None);
            Ranked([i]) == [Candidate(i, 5, [], [NoLink, NoAddress])]
  {
    var i := NetworkInterface("en0", ["UP"], Some("00:11:22:33:44:55"), [], Some("inactive"), None);
    var port := i.Port();
    assert port == "";
    assert !ContainsAny(port, WIRELESS_PORT_HINTS) && !i.IsExternal();
    assert forall prefix <- VIRTUAL_PREFIXES :: prefix[0] != 'e';
    assert i.IsEthernetLike() && !i.HasLink() && !i.HasLinkLocal();
    assert [i][1..] == [];
    assert FilterMap(Rating, [i]) == [Rate(i)] + FilterMap(Rating, []);
    var candidates := Candidates([i]);
    assert candidates == [Rate(i)] && candidates[..0] == [];
    assert Sort(candidates) == Insert(Sort([]), Rate(i)) == [Rate(i)];
    assert Rate(i).reasons == [] && Rate(i).warnings == [NoLink, NoAddress];
  }

  lemma {:induction false} PointsConcat(a: seq<Reason>, b: seq<Reason>)
    ensures Points(a + b) == Points(a) + Points(b)
  {
    if a == [] {
      assert a + b == b;
    } else {
      assert (a + b)[1..] == a[1..] + b;
      PointsConcat(a[1..], b);
    }
  }

  // ------------------------------------------------------------------- predicates

  const CAPITALS := "ABCDEFGHIJKLMNOPQRSTUVWXYZ"
  const SMALL := "abcdefghijklmnopqrstuvwxyz"

  /** Lower case: letter by letter, and nothing else changes. */
  lemma LowerExactly(s: string, i: nat, k: nat)
    requires i < |s| && k < 26
    ensures |Lower(s)| == |s|
    ensures s[i] == CAPITALS[k] ==> Lower(s)[i] == SMALL[k]
    ensures !('A' <= s[i] <= 'Z') ==> Lower(s)[i] == s[i]
  {
    assert CAPITALS[k] == 'A' + k as char && SMALL[k] == 'a' + k as char;
  }

  ghost predicate OccursAt(s: string, part: string, k: nat) {
    k + |part| <= |s| && s[k..k + |part|] == part
  }

  /** `part in s`: at some position. */
  lemma {:induction false} ContainsExactly(s: string, part: string)
    ensures Contains(s, part) <==> exists k: nat :: OccursAt(s, part, k)
  {
    assert part <= s <==> OccursAt(s, part, 0) by { assert |part| <= |s| ==> s[0..0 + |part|] == s[..|part|]; }
    if s != "" {
      ContainsExactly(s[1..], part);
      forall k: nat | k + |part| < |s| ensures OccursAt(s[1..], part, k) <==> OccursAt(s, part, k + 1) {
        assert s[1..][k..k + |part|] == s[k + 1..k + 1 + |part|];
      }
      if k: nat :| OccursAt(s, part, k) {
        assert k > 0 ==> OccursAt(s[1..], part, k - 1);
      }
      if k: nat :| OccursAt(s[1..], part, k) {
        assert OccursAt(s, part, k + 1);
      }
    }
  }

  /** Whether the port's name, in lower case, mentions one of the hints. */
  ghost predicate Mentions(i: NetworkInterface, hints: seq<string>) {
    i.hardwarePort.Some? && exists hint, k: nat :: hint in hints && OccursAt(Lower(i.hardwarePort.value), hint, k)
  }

  lemma MentionsExactly(i: NetworkInterface, hints: seq<string>)
    requires forall hint <- hints :: hint != ""
    ensures ContainsAny(i.Port(), hints) <==> Mentions(i, hints)
  {
    hide Contains, Lower;
    forall hint | hint in hints ensures Contains(i.Port(), hint) <==> exists k: nat :: OccursAt(i.Port(), hint, k) {
      ContainsExactly(i.Port(), hint);
    }
    assert i.hardwarePort == None ==> forall hint, k: nat :: hint in hints ==> !OccursAt(i.Port(), hint, k);
  }

  /** The interfaces that are ranked, by what the host reports of them. */
  lemma EthernetLikeExactly(i: NetworkInterface)
    ensures i.IsEthernetLike()
       <==> && "LOOPBACK" !in i.flags && i.mac.Some?
            && (forall prefix <- ["lo", "gif", "stf", "utun", "awdl", "llw", "bridge", "ap", "anpi", "vmenet", "vmnet",
                                  "utap", "ipsec", "pflog", "XHC"] :: !(prefix <= i.name))
            && !Mentions(i, ["wi-fi", "wifi", "airport", "wwan", "bluetooth", "iphone"])
            && (Mentions(i, ["ethernet", "lan", "rj45", "rj-45"]) || (i.hardwarePort == None && "en" <= i.name))
    ensures i.IsExternal() <==> Mentions(i, ["usb", "thunderbolt"])
  {
    MentionsExactly(i, WIRELESS_PORT_HINTS);
    MentionsExactly(i, ETHERNET_PORT_HINTS);
    MentionsExactly(i, ["usb", "thunderbolt"]);
  }

  /** A reported status decides about the link; only without one do the flags. */
  lemma LinkExactly(i: NetworkInterface)
    ensures i.status == Some("active") ==> i.HasLink()
    ensures i.HasLink() && i.status.Some? ==> i.status == Some("active")
    ensures i.status == None ==> (i.HasLink() <==> "RUNNING" in i.flags)
  {
  }

  /**
   * The score: what the reasons name, plus five points each for an address that is not link-local where there is no
   * link-local one, and for being up. Reasons and warnings between them say each of three things.
   */
  lemma ScoreExactly(i: NetworkInterface)
    ensures var c := Rate(i);
            var local := exists address <- i.ipv4 :: address.IsLinkLocal();
            var routable := i.ipv4 != [] && !local;
            && c.score == Points(c.reasons) + (if routable then 5 else 0) + (if "UP" in i.flags then 5 else 0)
            && (LinkActive in c.reasons <==> i.HasLink()) && (NoLink in c.warnings <==> !i.HasLink())
            && (ExternalAdapter in c.reasons <==> i.IsExternal())
            && (SelfAssigned in c.reasons <==> local)
            && (Routable in c.warnings <==> routable) && (NoAddress in c.warnings <==> i.ipv4 == [])
  {
    hide NetworkInterface.HasLink, NetworkInterface.IsExternal, NetworkInterface.HasLinkLocal, NetworkInterface.IsUp;
    AddressesAndFlags(i);
    var link := if i.HasLink() then [LinkActive] else [];
    var external := if i.IsExternal() then [ExternalAdapter] else [];
    var local := if i.HasLinkLocal() then [SelfAssigned] else [];
    PointsConcat(link + external, local);
    PointsConcat(link, external);
  }

  lemma AddressesAndFlags(i: NetworkInterface)
    ensures i.HasLinkLocal() <==> exists address <- i.ipv4 :: address.IsLinkLocal()
    ensures i.HasLinkLocal() ==> i.ipv4 != []
    ensures i.IsUp() <==> "UP" in i.flags
  {
  }

  /** Names are compared at the first difference; a name comes before its extensions. */
  lemma {:induction false} StringLessExactly(a: string, b: string)
    ensures StringLess(a, b)
       <==> exists k :: 0 <= k <= |a| && k < |b| && a[..k] == b[..k] && (k == |a| || a[k] < b[k])
  {
    if a != "" && b != "" {
      StringLessExactly(a[1..], b[1..]);
      if a[0] == b[0] {
        forall k | 0 <= k <= |a| - 1 && k < |b| - 1
          ensures a[1..][..k] == b[1..][..k] <==> a[..k + 1] == b[..k + 1]
        {
          assert a[..k + 1] == [a[0]] + a[1..][..k] && b[..k + 1] == [b[0]] + b[1..][..k];
        }
        if k :| 0 <= k <= |a| && k < |b| && a[..k] == b[..k] && (k == |a| || a[k] < b[k]) {
          assert k > 0;
          assert a[1..][..k - 1] == b[1..][..k - 1];
        }
        if k :| 0 <= k <= |a| - 1 && k < |b| - 1 && a[1..][..k] == b[1..][..k]
                && (k == |a| - 1 || a[1..][k] < b[1..][k]) {
          assert a[..k + 1] == b[..k + 1];
        }
      } else {
        assert a[..0] == b[..0];
        if k :| 0 <= k <= |a| && k < |b| && a[..k] == b[..k] && (k == |a| || a[k] < b[k]) {
          if k > 0 {
            assert a[0] == a[..k][0] == b[..k][0] == b[0];
          }
        }
      }
    } else {
      assert a[..0] == b[..0];
    }
  }

  // --------------------------------------------------------- ties and the first of the list

  /** The candidates whose sort key is that of `c`, in order. */
  function WithKeyOf(s: seq<Candidate>, c: Candidate): seq<Candidate> {
    if s == [] then []
    else
      var same := s[0].score == c.score && s[0].interface.name == c.interface.name;
      (if same then [s[0]] else []) + WithKeyOf(s[1..], c)
  }

  lemma {:induction false} WithKeyOfConcat(a: seq<Candidate>, b: seq<Candidate>, c: Candidate)
    ensures WithKeyOf(a + b, c) == WithKeyOf(a, c) + WithKeyOf(b, c)
  {
    if a == [] {
      assert a + b == b;
    } else {
      assert (a + b)[1..] == a[1..] + b;
      WithKeyOfConcat(a[1..], b, c);
    }
  }

  lemma {:induction false} NoKeyBehind(s: seq<Candidate>, c: Candidate)
    requires Sorted(s) && s != [] && Before(c, s[0])
    ensures WithKeyOf(s, c) == []
  {
    StringLessTotal(c.interface.name, s[0].interface.name);
    if |s| > 1 {
      assert !Before(s[1], s[0]);
      NextIsBehind(c, s[0], s[1]);
      NoKeyBehind(s[1..], c);
    }
  }

  lemma NextIsBehind(c: Candidate, x: Candidate, y: Candidate)
    requires Before(c, x) && !Before(y, x)
    ensures Before(c, y)
  {
    StringLessTotal(x.interface.name, y.interface.name);
    if c.score == x.score == y.score && x.interface.name != y.interface.name {
      StringLessTransitive(c.interface.name, x.interface.name, y.interface.name);
    }
  }

  lemma {:induction false} InsertIsStable(s: seq<Candidate>, c: Candidate, key: Candidate)
    requires Sorted(s)
    ensures WithKeyOf(Insert(s, c), key) == WithKeyOf(s + [c], key)
  {
    WithKeyOfConcat(s, [c], key);
    WithKeyOfConcat([c], s, key);
    assert [c][1..] == [];
    if s != [] && Before(c, s[0]) {
      NoKeyBehind(s, c);
      SameKeySame(s, c, key);
    } else if s != [] {
      InsertIsStable(s[1..], c, key);
      WithKeyOfConcat(s[1..], [c], key);
      assert Insert(s, c)[1..] == Insert(s[1..], c);
    } else {
      assert [c] + s == s + [c];
    }
  }

  lemma {:induction false} SameKeySame(s: seq<Candidate>, c: Candidate, key: Candidate)
    ensures c.score == key.score && c.interface.name == key.interface.name ==> WithKeyOf(s, c) == WithKeyOf(s, key)
  {
    if s != [] {
      SameKeySame(s[1..], c, key);
    }
  }

  /** Candidates of equal score and name keep the order in which the host listed them. */
  lemma {:induction false} SortIsStable(s: seq<Candidate>, key: Candidate)
    ensures WithKeyOf(Sort(s), key) == WithKeyOf(s, key)
  {
    hide Insert, Sorted;
    if s != [] {
      var n := |s| - 1;
      SortIsStable(s[..n], key);
      SortSorts(s[..n]);
      InsertIsStable(Sort(s[..n]), s[n], key);
      WithKeyOfConcat(Sort(s[..n]), [s[n]], key);
      WithKeyOfConcat(s[..n], [s[n]], key);
      assert s == s[..n] + [s[n]];
    }
  }

  /**
   * Without a name, the interface selected is an Ethernet-like one that no other Ethernet-like one comes before, and
   * there is none only if no interface is Ethernet-like. With a name, it is the first interface of that name.
   */
  lemma {:induction false} SelectionIsTheBest(preferred: Option<string>, interfaces: seq<NetworkInterface>)
    ensures var r := SelectInterface(preferred, interfaces);
            if preferred == None || preferred == Some("") then
              && (r.Failure? <==> forall i <- interfaces :: !i.IsEthernetLike())
              && (r.Success? ==>
                  && r.value in interfaces && r.value.IsEthernetLike()
                  && forall i <- interfaces :: i.IsEthernetLike() ==> !Before(Rate(i), Rate(r.value)))
            else
              && (r.Failure? <==> forall i <- interfaces :: i.name != preferred.value)
              && (r.Success? ==>
                  exists k :: 0 <= k < |interfaces| && interfaces[k] == r.value && r.value.name == preferred.value
                              && forall j :: 0 <= j < k ==> interfaces[j].name != preferred.value)
  {
    hide Sort, Rate, Before, NetworkInterface.IsEthernetLike;
    var ranked := Ranked(interfaces);
    RankingIsComplete(interfaces);
    RankedAreListed(interfaces);
    if preferred == None || preferred == Some("") {
      if ranked != [] {
        var best := ranked[0];
        forall i | i in interfaces && i.IsEthernetLike() ensures !Before(Rate(i), Rate(best.interface)) {
          FirstIsFirst(ranked, Rate(i));
        }
      }
    } else {
      FirstOfName(interfaces, preferred.value);
    }
  }

  lemma RankedAreListed(interfaces: seq<NetworkInterface>)
    ensures forall c <- Ranked(interfaces) :: c.interface in interfaces && c.interface.IsEthernetLike()
  {
    hide Rate;
    SortSorts(Candidates(interfaces));
    CandidatesAreRated(interfaces);
    forall c | c in Ranked(interfaces) ensures c.interface in interfaces && c.interface.IsEthernetLike() {
      assert c in multiset(Candidates(interfaces));
    }
  }

  lemma FirstIsFirst(s: seq<Candidate>, c: Candidate)
    requires Sorted(s) && c in s
    ensures !Before(c, s[0])
  {
    StringLessTotal(c.interface.name, c.interface.name);
  }

  lemma {:induction false} FirstOfName(interfaces: seq<NetworkInterface>, name: string)
    ensures var r := FindByName(interfaces, name);
            && (r.Failure? <==> forall i <- interfaces :: i.name != name)
            && (r.Success? ==>
                exists k :: 0 <= k < |interfaces| && interfaces[k] == r.value && r.value.name == name
                            && forall j :: 0 <= j < k ==> interfaces[j].name != name)
  {
    FindByNameFinds(interfaces, name);
    if interfaces != [] && interfaces[0].name != name {
      FirstOfName(interfaces[1..], name);
      if FindByName(interfaces, name).Success? {
        var rest := interfaces[1..];
        var k :| 0 <= k < |rest| && rest[k] == FindByName(rest, name).value
                 && forall j :: 0 <= j < k ==> rest[j].name != name;
        assert interfaces[k + 1] == rest[k];
        assert forall j :: 0 < j < k + 1 ==> interfaces[j] == rest[j - 1];
      }
    }
  }
}
