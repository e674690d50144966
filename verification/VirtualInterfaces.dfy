/**
 Addresses of virtual interfaces (container/vif.go): base-255 arithmetic on the number of
 interfaces registered so far, for a subnet with a 16-bit prefix.
 */
module VirtualInterfaces {
  import opened Results
  import opened Decimals

  datatype VifError = TooManyInterfaces | CreateFailed | BadProtocol

  const P1 := 255
  const P2 := 255 * 255
  const P3 := 255 * 255 * 255

  /** Go's division rounds towards zero, but every dividend here is non-negative. */
  function Octets(n: nat): (int, int, int, int) {
    var o1 := n / P3;
    var o2 := n / P2 - o1 * P3;
    var o3 := n / P1 - o2 * P2 - o1 * P3;
    var o4 := n - o3 * P1 - o2 * P2 - o1 * P3;
    (o1, o2, o3, o4)
  }

  /** An allocated address: the two octets of the subnet, as text, and the two that were computed. */
  datatype Address = Address(subnet: string, o3: int, o4: int) {
    predicate Proper() { IsOctet(o3) && IsOctet(o4) }

    function Text(): string {
      subnet + "." + Itoa(o3) + "." + Itoa(o4)
    }
  }

  /** `nextIP` for a subnet of which the first two octets are given. */
  function NextIP(subnet: string, vifs: nat): Result<Address, VifError> {
    var n := vifs + 2;
    if n > P2 then Err(TooManyInterfaces)
    else
      var (_, _, o3, o4) := Octets(n);
      Ok(Address(subnet, o3, o4))
  }

  predicate IsOctet(o: int) { 0 <= o <= 254 }

  /** Interfaces that get a proper address. */
  const CAPACITY := 65023

  lemma {:induction false} OctetsBelowBound(n: nat)
    requires n < P2
    ensures Octets(n) == (0, 0, n / 255, n % 255) && IsOctet(n / 255)
  {
    assert n / P3 == 0 && n / P2 == 0;
  }

  /**
   The address is a proper one exactly for the first 65023 interfaces; the bound that the code
   checks lets one more through.
   */
  lemma {:induction false} ProperAddressIff(subnet: string, vifs: nat)
    ensures NextIP(subnet, vifs).Ok? && NextIP(subnet, vifs).value.Proper() <==> vifs < CAPACITY
    ensures NextIP(subnet, vifs).Ok? <==> vifs <= CAPACITY
  {
    var n := vifs + 2;
    if n < P2 {
      OctetsBelowBound(n);
    } else if n == P2 {
      assert n / P3 == 0 && n / P2 == 1 && n / P1 == 255;
    }
  }

  /** Within the bound the address is that of the subnet, and its octets are the digits of the count to the base 255. */
  lemma {:induction false} NextIPDigits(subnet: string, vifs: nat)
    requires vifs < CAPACITY
    ensures NextIP(subnet, vifs) == Ok(Address(subnet, (vifs + 2) / 255, (vifs + 2) % 255))
  {
    OctetsBelowBound(vifs + 2);
  }

  /** Different counts give different addresses. */
  lemma {:induction false} NextIPInjective(subnet: string, m: nat, n: nat)
    requires m < CAPACITY && n < CAPACITY && NextIP(subnet, m) == NextIP(subnet, n)
    ensures m == n
  {
    OctetsBelowBound(m + 2);
    OctetsBelowBound(n + 2);
  }

  // ---------------------------------------------------------------- addresses as text

  /** Text before and after a period is determined when the text before it has none. */
  lemma {:induction false} SplitAtPeriod(a: string, b: string, c: string, d: string)
    requires AllDigits(a) && AllDigits(c) && a + "." + b == c + "." + d
    ensures a == c && b == d
  {
    var s := a + "." + b;
    assert s[|a|] == '.' && s[|c|] == '.';
    assert s[..|a|] == a && s[..|c|] == c && s[|a| + 1..] == b && s[|c| + 1..] == d;
  }

  /** Two proper addresses of one subnet that read the same are the same. */
  lemma {:induction false} TextInjective(x: Address, y: Address)
    requires x.subnet == y.subnet && IsOctet(x.o3) && IsOctet(x.o4) && IsOctet(y.o3) && IsOctet(y.o4)
    requires x.Text() == y.Text()
    ensures x == y
  {
    var a, b, c, d := Itoa(x.o3), Itoa(x.o4), Itoa(y.o3), Itoa(y.o4);
    ItoaDigits(x.o3);
    ItoaDigits(y.o3);
    CancelPrefix(x.subnet + ".", a + "." + b, c + "." + d);
    assert x.Text() == x.subnet + "." + (a + "." + b) && y.Text() == x.subnet + "." + (c + "." + d);
    SplitAtPeriod(a, b, c, d);
    ItoaInjective(x.o3, y.o3);
    ItoaInjective(x.o4, y.o4);
  }

  lemma {:induction false} CancelPrefix(p: string, a: string, b: string)
    ensures p + a == p + b ==> a == b
  {
    assert (p + a)[|p|..] == a && (p + b)[|p|..] == b;
  }

  // ---------------------------------------------------------------- the registry

  datatype Protocol = Tcp | Udp | Other

  datatype Vif = Vif(ip: Address, tcpPorts: map<string, string>, udpPorts: map<string, string>) {
    predicate HasPort(protocol: Protocol, toport: string) {
      (protocol.Tcp? && toport in tcpPorts) || (protocol.Udp? && toport in udpPorts)
    }

    /** What the port is redirected to, if it is. */
    function PortFor(protocol: Protocol, toport: string): Option<string> {
      if protocol.Tcp? && toport in tcpPorts then Some(tcpPorts[toport])
      else if protocol.Udp? && toport in udpPorts then Some(udpPorts[toport])
      else None
    }

    function WithPort(protocol: Protocol, toport: string, port: string): (v: Vif)
      requires !protocol.Other?
      ensures v.ip == ip && v.PortFor(protocol, toport) == Some(port)
      ensures forall pr, t | pr != protocol || t != toport :: v.PortFor(pr, t) == PortFor(pr, t)
    {
      if protocol.Tcp? then this.(tcpPorts := tcpPorts[toport := port]) else this.(udpPorts := udpPorts[toport := port])
    }
  }

  /** The addresses are those that `nextIP` gives one after the other. */
  ghost predicate InOrder(subnet: string, issued: seq<Address>) {
    issued == [] ||
    (var n := |issued| - 1; NextIP(subnet, n) == Ok(issued[n]) && InOrder(subnet, issued[..n]))
  }

  lemma {:induction false} InOrderAt(subnet: string, issued: seq<Address>, i: nat)
    requires InOrder(subnet, issued) && i < |issued|
    ensures NextIP(subnet, i) == Ok(issued[i])
    decreases |issued|
  {
    if i < |issued| - 1 {
      InOrderAt(subnet, issued[..|issued| - 1], i);
    }
  }

  /** At most one host's interface was added or changed, and no address changed. */
  ghost predicate Extends(before: map<string, Vif>, after: map<string, Vif>, host: string, vif: Vif) {
    after == before[host := vif] && (host in before ==> before[host].ip == vif.ip)
  }

  /** Each interface has the address of the moment it was registered at, and no two share a moment. */
  ghost predicate Allocated(subnet: string, vifs: map<string, Vif>, issued: seq<Address>, order: map<string, nat>) {
    && order.Keys == vifs.Keys && |issued| == |vifs| && InOrder(subnet, issued)
    && (forall h | h in vifs :: order[h] < |issued| && issued[order[h]] == vifs[h].ip)
    && (forall h, g | h in vifs && g in vifs && order[h] == order[g] :: h == g)
  }

  lemma {:induction false} InOrderAdd(subnet: string, issued: seq<Address>, ip: Address)
    requires InOrder(subnet, issued) && NextIP(subnet, |issued|) == Ok(ip)
    ensures InOrder(subnet, issued + [ip])
  {
    assert (issued + [ip])[..|issued|] == issued;
  }

  /** The new interface gets the next moment, and the others keep theirs. */
  lemma {:induction false} OrderAdd(vifs: map<string, Vif>, order: map<string, nat>, host: string, vif: Vif)
    requires order.Keys == vifs.Keys && host !in vifs && (forall h | h in vifs :: order[h] < |vifs|)
    requires forall h, g | h in vifs && g in vifs && order[h] == order[g] :: h == g
    ensures var vs, os := vifs[host := vif], order[host := |vifs|];
            && os.Keys == vs.Keys && |vs| == |vifs| + 1
            && (forall h, g | h in vs && g in vs && os[h] == os[g] :: h == g)
  {
    assert vifs[host := vif].Keys == vifs.Keys + {host};
    assert order[host := |vifs|].Keys == order.Keys + {host};
  }

  lemma {:induction false} AllocatedAdd(
    subnet: string, vifs: map<string, Vif>, issued: seq<Address>, order: map<string, nat>, host: string, vif: Vif)
    requires Allocated(subnet, vifs, issued, order) && host !in vifs && InOrder(subnet, issued + [vif.ip])
    ensures Allocated(subnet, vifs[host := vif], issued + [vif.ip], order[host := |vifs|])
  {
    OrderAdd(vifs, order, host, vif);
    var vs, ips, os := vifs[host := vif], issued + [vif.ip], order[host := |vifs|];
    forall h | h in vs ensures os[h] < |ips| && ips[os[h]] == vs[h].ip {
      if h != host {
        assert h in vifs && os[h] == order[h];
      }
    }
  }

  lemma {:induction false} AllocatedUpdate(
    subnet: string, vifs: map<string, Vif>, issued: seq<Address>, order: map<string, nat>, host: string, vif: Vif)
    requires Allocated(subnet, vifs, issued, order) && host in vifs && vifs[host].ip == vif.ip
    ensures Allocated(subnet, vifs[host := vif], issued, order)
  {
    assert vifs[host := vif].Keys == vifs.Keys;
  }

  class VIFRegistry {
    const subnet: string
    var vifs: map<string, Vif>
    ghost var issued: seq<Address>
    ghost var order: map<string, nat>

    constructor (subnet: string)
      ensures this.subnet == subnet && vifs == map[] && Valid()
    {
      this.subnet, vifs, issued, order := subnet, map[], [], map[];
    }

    ghost predicate Valid()
      reads this
    {
      Allocated(subnet, vifs, issued, order)
    }

    /** As long as there are no more than 65023 interfaces, their addresses are proper and no two read the same. */
    lemma {:induction false} DistinctAddresses(h: string, g: string)
      requires Valid() && |vifs| <= CAPACITY && h in vifs && g in vifs
      ensures IsOctet(vifs[h].ip.o3) && IsOctet(vifs[h].ip.o4) && vifs[h].ip.subnet == subnet
      ensures vifs[h].ip.Text() == vifs[g].ip.Text() ==> h == g
    {
      InOrderAt(subnet, issued, order[h]);
      InOrderAt(subnet, issued, order[g]);
      ProperAddressIff(subnet, order[h]);
      ProperAddressIff(subnet, order[g]);
      if vifs[h].ip.Text() == vifs[g].ip.Text() {
        TextInjective(vifs[h].ip, vifs[g].ip);
        NextIPInjective(subnet, order[h], order[g]);
      }
    }

    /** Files a new interface under the address that comes next. */
    method Add(host: string, ip: Address) returns (vif: Vif)
      requires Valid() && host !in vifs && NextIP(subnet, |vifs|) == Ok(ip)
      modifies this
      ensures Valid() && vif == Vif(ip, map[], map[]) && vifs == old(vifs)[host := vif]
    {
      vif := Vif(ip, map[], map[]);
      InOrderAdd(subnet, issued, ip);
      AllocatedAdd(subnet, vifs, issued, order, host, vif);
      order, issued := order[host := |vifs|], issued + [ip];
      vifs := vifs[host := vif];
    }

    /** Replaces an interface by one with the same address. */
    method Update(host: string, vif: Vif)
      requires Valid() && host in vifs && vifs[host].ip == vif.ip
      modifies this`vifs
      ensures Valid() && Extends(old(vifs), vifs, host, vif)
    {
      AllocatedUpdate(subnet, vifs, issued, order, host, vif);
      vifs := vifs[host := vif];
    }

    /** The interface of a host, created with the next address if there is none. */
    method FindOrCreate(host: string, createOk: bool) returns (r: Result<Vif, VifError>)
      requires Valid()
      modifies this
      ensures Valid()
      ensures r.Ok? <==> Obtainable(old(vifs), host, createOk)
      ensures r.Err? ==> vifs == old(vifs)
      ensures r.Ok? ==> vifs == old(vifs)[host := r.value]
      ensures r.Ok? && host in old(vifs) ==> r.value == old(vifs)[host]
      ensures r.Ok? && host !in old(vifs) ==> FirstOf(subnet, |old(vifs)|, r.value)
    {
      ProperAddressIff(subnet, |vifs|);
      if host in vifs {
        return Ok(vifs[host]);
      }
      var ip :- NextIP(subnet, |vifs|);
      if !createOk {
        return Err(CreateFailed);
      }
      var vif := Add(host, ip);
      r := Ok(vif);
    }

    /** Redirects a port of a known host, unless it is redirected already. */
    method MapPort(host: string, port: string, toport: string, protocol: Protocol, redirectOk: bool)
      returns (r: Result<(), VifError>)
      requires Valid() && host in vifs
      modifies this
      ensures Valid()
      ensures var found := old(vifs)[host];
              && (r.Ok? <==> !protocol.Other? && (found.HasPort(protocol, toport) || redirectOk))
              && vifs == old(vifs)[host := Mapped(found, r.Ok?, protocol, toport, port)]
    {
      var vif := vifs[host];
      if protocol.Other? {
        return Err(BadProtocol);
      }
      if !vif.HasPort(protocol, toport) {
        if !redirectOk {
          return Err(CreateFailed);
        }
        Update(host, vif.WithPort(protocol, toport, port));
      }
      r := Ok(());
    }

    /**
     `RegisterVirtualAddress`; creating the interface and redirecting to it may fail. A port that
     is redirected already stays redirected where it was, and that counts as success.
     */
    method RegisterVirtualAddress(
      host: string, port: string, toport: string, protocol: Protocol, createOk: bool, redirectOk: bool)
      returns (r: Result<(), VifError>)
      requires Valid()
      modifies this
      ensures Valid()
      ensures Registered(old(vifs), vifs, host, port, toport, protocol, createOk, redirectOk, r.Ok?)
    {
      var vif :- FindOrCreate(host, createOk);
      ghost var mid := vifs;
      r := MapPort(host, port, toport, protocol, redirectOk);
      RegisterDone(old(vifs), mid, vifs, host, vif, port, toport, protocol, createOk, redirectOk, r.Ok?);
    }
  }

  /** When registering succeeds, and what it does to the interfaces. */
  ghost predicate Registered(
    before: map<string, Vif>, after: map<string, Vif>, host: string, port: string, toport: string,
    protocol: Protocol, createOk: bool, redirectOk: bool, ok: bool) {
    && (Obtainable(before, host, createOk) ==> host in after && Extends(before, after, host, after[host]))
    && (!Obtainable(before, host, createOk) ==> after == before)
    && (ok <==> && Obtainable(before, host, createOk) && !protocol.Other?
                && (Redirected(before, host, protocol, toport).Some? || redirectOk))
    && RedirectsOnly(before, after, host, ok, protocol, toport, port)
  }

  lemma {:induction false} RegisterDone(
    before: map<string, Vif>, mid: map<string, Vif>, after: map<string, Vif>, host: string, vif: Vif,
    port: string, toport: string, protocol: Protocol, createOk: bool, redirectOk: bool, ok: bool)
    requires Obtainable(before, host, createOk) && mid == before[host := vif]
    requires host in before ==> vif == before[host]
    requires host !in before ==> vif.tcpPorts == map[] && vif.udpPorts == map[]
    requires ok <==> !protocol.Other? && (vif.HasPort(protocol, toport) || redirectOk)
    requires after == mid[host := Mapped(vif, ok, protocol, toport, port)]
    ensures Registered(before, after, host, port, toport, protocol, createOk, redirectOk, ok)
  {
    MappedRedirects(before, mid, host, vif, ok, protocol, toport, port);
    var mapped := Mapped(vif, ok, protocol, toport, port);
    assert before[host := vif][host := mapped] == before[host := mapped];
  }

  /** An interface after a port was redirected, or not. */
  function Mapped(vif: Vif, ok: bool, protocol: Protocol, toport: string, port: string): Vif
    requires ok ==> !protocol.Other?
  {
    if ok && !vif.HasPort(protocol, toport) then vif.WithPort(protocol, toport, port) else vif
  }

  /** On success the port is redirected, where it was already or else as requested; no other port changes. */
  ghost predicate RedirectsOnly(
    before: map<string, Vif>, after: map<string, Vif>, host: string, ok: bool,
    protocol: Protocol, toport: string, port: string) {
    && (ok ==> Redirected(after, host, protocol, toport) ==
               (if Redirected(before, host, protocol, toport).Some? then Redirected(before, host, protocol, toport)
                else Some(port)))
    && forall pr, t | !ok || pr != protocol || t != toport ::
         Redirected(after, host, pr, t) == Redirected(before, host, pr, t)
  }

  lemma {:induction false} MappedRedirects(
    before: map<string, Vif>, mid: map<string, Vif>, host: string, vif: Vif, ok: bool,
    protocol: Protocol, toport: string, port: string)
    requires (ok ==> !protocol.Other?) && mid == before[host := vif]
    requires host in before ==> vif == before[host]
    requires host !in before ==> vif.tcpPorts == map[] && vif.udpPorts == map[]
    ensures var after := mid[host := Mapped(vif, ok, protocol, toport, port)];
            RedirectsOnly(before, after, host, ok, protocol, toport, port)
  {}

  /** There is an interface for the host, or one can be made. */
  predicate Obtainable(vifs: map<string, Vif>, host: string, createOk: bool) {
    host in vifs || (createOk && |vifs| <= CAPACITY)
  }

  /** A new interface: the next address, and no ports. */
  predicate FirstOf(subnet: string, vifs: nat, vif: Vif) {
    NextIP(subnet, vifs) == Ok(vif.ip) && vif.tcpPorts == map[] && vif.udpPorts == map[]
  }

  function Redirected(vifs: map<string, Vif>, host: string, protocol: Protocol, toport: string): Option<string> {
    if host in vifs then vifs[host].PortFor(protocol, toport) else None
  }
}
