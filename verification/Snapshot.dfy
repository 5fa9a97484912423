/** The per-IP list of a statistics snapshot: collected in whatever order the table
    iterates, ranked, and cut to a fixed length. */
module Snapshot {
  import opened Wire

  const TOP_LIST_LEN: nat := 20

  datatype IpCount = IpCount(ip: IpAddr, count: nat)

  // ----- the ranking

  /** Lexicographic order of byte strings. */
  predicate Less(a: seq<byte>, b: seq<byte>) {
    b != [] && (a == [] || a[0] < b[0] || (a[0] == b[0] && Less(a[1..], b[1..])))
  }

  /** Every IPv4 address comes before every IPv6 one. */
  predicate IpLess(a: IpAddr, b: IpAddr) {
    if a.Ipv4? == b.Ipv4? then Less(a.octets, b.octets) else a.Ipv4?
  }

  /** More connections first, and among equals the smaller address. */
  predicate Outranks(a: IpCount, b: IpCount) {
    a.count > b.count || (a.count == b.count && IpLess(a.ip, b.ip))
  }

  lemma {:induction false} LessIsStrictTotal(a: seq<byte>, b: seq<byte>, c: seq<byte>)
    ensures !Less(a, a)
    ensures Less(a, b) && Less(b, c) ==> Less(a, c)
    ensures a != b ==> Less(a, b) || Less(b, a)
    ensures !(Less(a, b) && Less(b, a))
    decreases |a| + |b| + |c|
  {
    var a', b', c' := Rest(a), Rest(b), Rest(c);
    if a != [] || b != [] || c != [] {
      LessIsStrictTotal(a', b', c');
      if a != [] && b != [] && a[0] == b[0] && a' == b' {
        assert a == [a[0]] + a' && b == [b[0]] + b';
      }
    }
  }

  function Rest(s: seq<byte>): seq<byte> {
    if s == [] then [] else s[1..]
  }

  lemma OutranksIsStrictTotal(a: IpCount, b: IpCount, c: IpCount)
    ensures !Outranks(a, a)
    ensures Outranks(a, b) && Outranks(b, c) ==> Outranks(a, c)
    ensures a != b ==> Outranks(a, b) || Outranks(b, a)
    ensures !(Outranks(a, b) && Outranks(b, a))
  {
    LessIsStrictTotal(a.ip.octets, b.ip.octets, c.ip.octets);
  }

  // ----- the list

  predicate Ranked(list: seq<IpCount>) {
    forall i, j | 0 <= i < j < |list| :: Outranks(list[i], list[j])
  }

  predicate EntryOf(perIp: map<IpAddr, nat>, x: IpCount) {
    x.ip in perIp && perIp[x.ip] == x.count
  }

  function Min(a: nat, b: nat): nat {
    if a < b then a else b
  }

  /** `list` is what the snapshot should show for this table. */
  ghost predicate TopOf(perIp: map<IpAddr, nat>, list: seq<IpCount>) {
    && |list| == Min(|perIp|, TOP_LIST_LEN)
    && Ranked(list)
    && (forall x <- list :: EntryOf(perIp, x))
    && (forall y | EntryOf(perIp, y) && y !in list :: forall x <- list :: Outranks(x, y))
  }

  /** At most one list is: the iteration order cannot show. */
  lemma TopIsUnique(perIp: map<IpAddr, nat>, a: seq<IpCount>, b: seq<IpCount>)
    requires TopOf(perIp, a) && TopOf(perIp, b)
    ensures a == b
  {
    TopPrefix(perIp, a, b, |a|);
    assert a[..|a|] == a && b[..|a|] == b;
  }

  lemma {:induction false} TopPrefix(perIp: map<IpAddr, nat>, a: seq<IpCount>, b: seq<IpCount>, k: nat)
    requires TopOf(perIp, a) && TopOf(perIp, b) && k <= |a|
    ensures a[..k] == b[..k]
  {
    if k > 0 {
      TopPrefix(perIp, a, b, k - 1);
      var x, y := a[k - 1], b[k - 1];
      assert a[..k] == a[..k - 1] + [x] && b[..k] == b[..k - 1] + [y];
      NotOutrankedByNext(perIp, a, b, k - 1);
      NotOutrankedByNext(perIp, b, a, k - 1);
      OutranksIsStrictTotal(x, y, x);
    }
  }

  /** After equal beginnings, neither list's next entry outranks the other's. */
  lemma NotOutrankedByNext(perIp: map<IpAddr, nat>, a: seq<IpCount>, b: seq<IpCount>, k: nat)
    requires TopOf(perIp, a) && TopOf(perIp, b) && k < |a| && a[..k] == b[..k]
    ensures !Outranks(a[k], b[k])
  {
    var x := a[k];
    OutranksIsStrictTotal(x, b[k], x);
    OutranksIsStrictTotal(x, x, x);
    if x in b {
      var j :| 0 <= j < |b| && b[j] == x;
      assert j > k ==> Outranks(b[k], b[j]);
    } else {
      assert b[k] in b && EntryOf(perIp, x);
    }
  }

  /** Put one more entry in its place, as a sort by the ranking would. */
  method InsertRanked(list: seq<IpCount>, x: IpCount) returns (longer: seq<IpCount>)
    requires Ranked(list) && x !in list
    ensures Ranked(longer) && |longer| == |list| + 1
    ensures forall y :: y in longer <==> y in list || y == x
  {
    var i := 0;
    while i < |list| && Outranks(list[i], x)
      invariant i <= |list|
      invariant forall j | 0 <= j < i :: Outranks(list[j], x)
    {
      i := i + 1;
    }
    longer := list[..i] + [x] + list[i..];
    if i < |list| {
      OutranksIsStrictTotal(x, list[i], x);
      forall j | i < j < |list| ensures Outranks(x, list[j]) {
        OutranksIsStrictTotal(x, list[i], list[j]);
      }
    }
  }

  /** `a` is the smaller address: IPv4 before IPv6, and within a family the one with the
      smaller byte where they first differ. */
  ghost predicate Smaller(a: IpAddr, b: IpAddr) {
    if a.Ipv4? == b.Ipv4?
    then exists k :: 0 <= k < |a.octets| && a.octets[..k] == b.octets[..k] && a.octets[k] < b.octets[k]
    else a.Ipv4?
  }

  lemma {:induction false} LessAtFirstDifference(a: seq<byte>, b: seq<byte>) returns (k: nat)
    requires |a| == |b| && Less(a, b)
    ensures k < |a| && a[..k] == b[..k] && a[k] < b[k]
  {
    if a[0] < b[0] {
      k := 0;
    } else {
      k := LessAtFirstDifference(a[1..], b[1..]);
      k := k + 1;
      assert a[..k] == [a[0]] + a[1..][..k - 1] && b[..k] == [b[0]] + b[1..][..k - 1];
    }
  }

  lemma LessIsSmaller(a: IpAddr, b: IpAddr)
    requires IpLess(a, b)
    ensures Smaller(a, b)
  {
    if a.Ipv4? == b.Ipv4? {
      var k := LessAtFirstDifference(a.octets, b.octets);
    }
  }

  /** Counts never rise along a list, equal ones go by smaller address, and what was
      left out comes behind. */
  lemma ListInOrder(perIp: map<IpAddr, nat>, list: seq<IpCount>)
    requires TopOf(perIp, list)
    ensures |list| == if |perIp| < 20 then |perIp| else 20
    ensures forall i, j | 0 <= i < j < |list| ::
              list[i].count >= list[j].count && (list[i].count == list[j].count ==> Smaller(list[i].ip, list[j].ip))
    ensures forall x, ip | x in list && ip in perIp && IpCount(ip, perIp[ip]) !in list ::
              x.count >= perIp[ip] && (x.count == perIp[ip] ==> Smaller(x.ip, ip))
  {
    forall i, j | 0 <= i < j < |list| && list[i].count == list[j].count ensures Smaller(list[i].ip, list[j].ip) {
      assert Outranks(list[i], list[j]);
      LessIsSmaller(list[i].ip, list[j].ip);
    }
    forall x, ip | x in list && ip in perIp && IpCount(ip, perIp[ip]) !in list
      ensures x.count >= perIp[ip] && (x.count == perIp[ip] ==> Smaller(x.ip, ip))
    {
      assert EntryOf(perIp, IpCount(ip, perIp[ip]));
      assert Outranks(x, IpCount(ip, perIp[ip]));
      if x.count == perIp[ip] {
        LessIsSmaller(x.ip, ip);
      }
    }
  }

  /** Collect, rank, truncate. */
  method TopList(perIp: map<IpAddr, nat>) returns (list: seq<IpCount>)
    ensures TopOf(perIp, list)
    ensures forall i, j | 0 <= i < j < |list| ::
              list[i].count >= list[j].count && (list[i].count == list[j].count ==> Smaller(list[i].ip, list[j].ip))
  {
    list := [];
    var todo := perIp.Keys;
    while todo != {}
      invariant todo <= perIp.Keys && Ranked(list) && |list| == |perIp| - |todo|
      invariant forall x :: x in list <==> EntryOf(perIp, x) && x.ip !in todo
    {
      var ip :| ip in todo;
      todo := todo - {ip};
      list := InsertRanked(list, IpCount(ip, perIp[ip]));
    }
    var all := list;
    if |list| > TOP_LIST_LEN {
      list := list[..TOP_LIST_LEN];
    }
    forall x, y | x in list && EntryOf(perIp, y) && y !in list ensures Outranks(x, y) {
      var i :| 0 <= i < |list| && list[i] == x;
      var j :| 0 <= j < |all| && all[j] == y;
      assert i < j;
      assert Outranks(all[i], all[j]);
    }
    ListInOrder(perIp, list);
  }
}
