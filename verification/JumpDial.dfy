/** Dialing through a chain of jump hosts: who closes what when a hop fails. */
module JumpDial {
  import opened Optional

  /** A connected client: the one that carries its traffic, and where it is logged in. */
  datatype Client = Client(via: Option<nat>, host: string)

  /** What is open on the network: raw tunnels not taken over by a client yet, with
      where they lead, and clients. `failed` records whether anything that was tried
      has not worked. */
  class Network {
    var tunnels: map<nat, string>
    var clients: map<nat, Client>
    var used: set<nat>
    ghost var failed: bool

    ghost predicate Valid()
      reads this
    {
      tunnels.Keys + clients.Keys <= used
    }

    constructor ()
      ensures Valid() && tunnels == map[] && clients == map[] && !failed
    {
      tunnels, clients, used := map[], map[], {};
      failed := false;
    }

    method FreshId() returns (id: nat)
      requires Valid()
      ensures id !in used
    {
      id := 0;
      var todo := used;
      while todo != {}
        invariant todo <= used
        invariant forall x | x in used && x !in todo :: x < id
        modifies {}
      {
        var x :| x in todo;
        id, todo := if x < id then id else x + 1, todo - {x};
      }
    }

    /** Preparing a login: host key policy and authentication methods. */
    method Configure(host: string) returns (ok: bool)
      modifies this`failed
      ensures failed <==> old(failed) || !ok
    {
      ok := *;
      failed := failed || !ok;
    }

    /** A direct TCP connection and handshake to the outermost host. */
    method Dial(host: string) returns (client: Option<nat>)
      requires Valid()
      modifies this
      ensures Valid() && tunnels == old(tunnels) && old(used) <= used
      ensures failed <==> old(failed) || client.None?
      ensures client.None? ==> clients == old(clients)
      ensures client.Some? ==>
        && client.value !in old(used) && client.value in used
        && clients == old(clients)[client.value := Client(None, host)]
    {
      var ok: bool := *;
      failed := failed || !ok;
      if !ok {
        return None;
      }
      var id := FreshId();
      used := used + {id};
      clients := clients[id := Client(None, host)];
      return Some(id);
    }

    method OpenTunnel(via: nat, host: string) returns (tunnel: Option<nat>)
      requires Valid() && via in clients
      modifies this
      ensures Valid() && clients == old(clients) && old(used) <= used
      ensures failed <==> old(failed) || tunnel.None?
      ensures tunnel.None? ==> tunnels == old(tunnels)
      ensures tunnel.Some? ==> tunnel.value !in old(used) && tunnels == old(tunnels)[tunnel.value := host]
    {
      var ok: bool := *;
      failed := failed || !ok;
      if !ok {
        return None;
      }
      var id := FreshId();
      used := used + {id};
      tunnels := tunnels[id := host];
      return Some(id);
    }

    /** On success the new client owns the tunnel. */
    method Handshake(tunnel: nat, via: nat) returns (client: Option<nat>)
      requires Valid() && tunnel in tunnels && via in clients
      modifies this
      ensures Valid() && old(used) <= used
      ensures failed <==> old(failed) || client.None?
      ensures client.None? ==> tunnels == old(tunnels) && clients == old(clients)
      ensures client.Some? ==>
        && client.value !in old(used) && tunnels == old(tunnels) - {tunnel}
        && clients == old(clients)[client.value := Client(Some(via), old(tunnels)[tunnel])]
    {
      var ok: bool := *;
      failed := failed || !ok;
      if !ok {
        return None;
      }
      var id := FreshId();
      used := used + {id};
      clients := clients[id := Client(Some(via), tunnels[tunnel])];
      tunnels := tunnels - {tunnel};
      return Some(id);
    }

    method CloseTunnel(tunnel: nat)
      requires Valid() && tunnel in tunnels
      modifies this`tunnels
      ensures Valid() && tunnels == old(tunnels) - {tunnel}
    {
      tunnels := tunnels - {tunnel};
    }

  /** Callers must close a client before the one that carries it. */
    method CloseClient(client: nat)
      requires Valid() && client in clients
      requires forall x | x in clients :: clients[x].via != Some(client)
      modifies this`clients
      ensures Valid() && clients == old(clients) - {client}
    {
      clients := clients - {client};
    }
  }

  /** `hops` are open clients in opening order, each carrying the next, and none
      but the last may carry anything else. */
  ghost predicate Ladder(clients: map<nat, Client>, hops: seq<nat>) {
    && (forall i | 0 <= i < |hops| :: hops[i] in clients)
    && (forall i, j | 0 <= i < j < |hops| :: hops[i] != hops[j])
    && (forall i | 0 < i < |hops| :: clients[hops[i]].via == Some(hops[i - 1]))
    && (forall x, i | x in clients && 0 <= i < |hops| && clients[x].via == Some(hops[i]) ::
          i + 1 < |hops| && x == hops[i + 1])
  }

  function Without(clients: map<nat, Client>, hops: seq<nat>): map<nat, Client> {
    map x | x in clients && x !in hops :: clients[x]
  }

  lemma StepDown(clients: map<nat, Client>, hops: seq<nat>)
    requires Ladder(clients, hops) && hops != []
    ensures var top := hops[|hops| - 1];
      && (forall x | x in clients :: clients[x].via != Some(top))
      && Ladder(clients - {top}, hops[..|hops| - 1])
  {}

  lemma WithoutTwice(clients: map<nat, Client>, hops: seq<nat>, i: nat)
    requires i < |hops|
    ensures Without(clients, hops[i + 1..]) - {hops[i]} == Without(clients, hops[i..])
  {
    assert hops[i..] == [hops[i]] + hops[i + 1..];
  }

  /** The innermost of the hops that are left can go. */
  lemma CloseOne(before: map<nat, Client>, clients: map<nat, Client>, hops: seq<nat>, i: nat)
    requires i < |hops| && Ladder(clients, hops[..i + 1]) && clients == Without(before, hops[i + 1..])
    ensures hops[i] in clients && forall x | x in clients :: clients[x].via != Some(hops[i])
    ensures Ladder(clients - {hops[i]}, hops[..i]) && clients - {hops[i]} == Without(before, hops[i..])
  {
    assert hops[..i + 1][i] == hops[i] && hops[..i + 1][..i] == hops[..i];
    StepDown(clients, hops[..i + 1]);
    WithoutTwice(before, hops, i);
  }

  /** Closes the hops from the innermost back to the outermost. */
  method CloseHops(net: Network, hops: seq<nat>)
    requires net.Valid() && Ladder(net.clients, hops)
    modifies net`clients
    ensures net.Valid() && net.clients == Without(old(net.clients), hops)
  {
    ghost var before := net.clients;
    var i := |hops|;
    assert hops[..i] == hops;
    while i > 0
      invariant 0 <= i <= |hops|
      invariant net.Valid() && Ladder(net.clients, hops[..i]) && net.clients == Without(before, hops[i..])
    {
      i := i - 1;
      CloseOne(before, net.clients, hops, i);
      net.CloseClient(hops[i]);
    }
    assert hops[0..] == hops;
  }

  datatype Session = Session(client: nat, hops: seq<nat>)

  /** The session owns its target client and every hop below it. */
  ghost predicate Owns(clients: map<nat, Client>, s: Session) {
    Ladder(clients, s.hops + [s.client])
  }

  method CloseSession(net: Network, s: Session)
    requires net.Valid() && Owns(net.clients, s)
    modifies net`clients
    ensures net.Valid() && net.clients == Without(old(net.clients), s.hops + [s.client])
  {
    var all := s.hops + [s.client];
    assert all[|s.hops|] == s.client;
    net.CloseClient(s.client);
    assert forall i | 0 <= i < |s.hops| :: all[i] == s.hops[i];
    CloseHops(net, s.hops);
  }

  /** A fresh client on top of the ladder keeps it a ladder. */
  lemma Climb(clients: map<nat, Client>, hops: seq<nat>, c: nat, host: string)
    requires Ladder(clients, hops) && hops != [] && c !in clients
    requires forall x | x in clients :: clients[x].via != Some(c)
    ensures Ladder(clients[c := Client(Some(hops[|hops| - 1]), host)], hops + [c])
  {}

  /** Nobody refers to a client that is not open. */
  ghost predicate Grounded(clients: map<nat, Client>, used: set<nat>) {
    forall x | x in clients && clients[x].via.Some? :: clients[x].via.value in used
  }

  /** The hops are logged in along the chain, whose last element is the outermost. */
  ghost predicate Along(clients: map<nat, Client>, hops: seq<nat>, chain: seq<string>) {
    && |hops| <= |chain|
    && forall i | 0 <= i < |hops| :: hops[i] in clients && clients[hops[i]].host == chain[|chain| - 1 - i]
  }

  /** One tunnel and the handshake over it; a tunnel without client is closed. */
  method TunnelTo(net: Network, via: nat, host: string) returns (client: Option<nat>)
    requires net.Valid() && via in net.clients
    modifies net
    ensures net.Valid() && net.tunnels == old(net.tunnels) && old(net.used) <= net.used
    ensures net.failed <==> old(net.failed) || client.None?
    ensures client.None? ==> net.clients == old(net.clients)
    ensures client.Some? ==>
      && client.value !in old(net.used) && client.value in net.used
      && net.clients == old(net.clients)[client.value := Client(Some(via), host)]
  {
    var tunnel := net.OpenTunnel(via, host);
    if tunnel.None? {
      return None;
    }
    client := net.Handshake(tunnel.value, via);
    if client.None? {
      net.CloseTunnel(tunnel.value);
    }
  }

  /** The last leg: on failure only its own tunnel has to go. */
  method DialViaProxy(net: Network, hops: seq<nat>, target: string) returns (s: Option<Session>)
    requires net.Valid() && hops != [] && Ladder(net.clients, hops) && Grounded(net.clients, net.used)
    modifies net
    ensures net.Valid() && net.tunnels == old(net.tunnels)
    ensures net.failed <==> old(net.failed) || s.None?
    ensures s.None? ==> net.clients == old(net.clients)
    ensures s.Some? ==>
      && s.value.hops == hops && s.value.client !in old(net.clients)
      && net.clients == old(net.clients)[s.value.client := Client(Some(hops[|hops| - 1]), target)]
      && Owns(net.clients, s.value)
  {
    var proxy := hops[|hops| - 1];
    var configured := net.Configure(target);
    if !configured {
      return None;
    }
    var client := TunnelTo(net, proxy, target);
    if client.None? {
      return None;
    }
    Climb(old(net.clients), hops, client.value, target);
    return Some(Session(client.value, hops));
  }

  /** Dials the outermost proxy of the chain, tunnels through the others, and then to
      the target. It succeeds unless something has failed. On every failure path all
      that was opened is closed; on success the session owns every client that was
      opened, in opening order, each logged in where the chain says. */
  method DialViaProxyChain(net: Network, chain: seq<string>, target: string) returns (s: Option<Session>)
    requires chain != [] && net.Valid() && Grounded(net.clients, net.used)
    modifies net
    ensures net.Valid() && net.tunnels == old(net.tunnels)
    ensures net.failed <==> old(net.failed) || s.None?
    ensures s.None? ==> net.clients == old(net.clients)
    ensures s.Some? ==>
      && Owns(net.clients, s.value) && |s.value.hops| == |chain|
      && Along(net.clients, s.value.hops, chain) && s.value.client in net.clients && net.clients[s.value.client].host == target
      && (forall x | x in s.value.hops + [s.value.client] :: x !in old(net.clients))
      && Without(net.clients, s.value.hops + [s.value.client]) == old(net.clients)
  {
    ghost var before, calm := net.clients, net.failed;
    var outer := net.Dial(chain[|chain| - 1]);
    if outer.None? {
      return None;
    }
    var hops := [outer.value];
    FirstHop(before, old(net.used), net.used, outer.value, chain);
    var i := |chain| - 1;
    while i > 0
      invariant 0 <= i < |chain| && |hops| == |chain| - i
      invariant net.Valid() && net.tunnels == old(net.tunnels) && net.failed == calm
      invariant Climbing(before, net.clients, net.used, hops, chain)
    {
      ghost var clients, used := net.clients, net.used;
      var client := TunnelTo(net, hops[|hops| - 1], chain[i - 1]);
      if client.None? {
        CloseHops(net, hops);
        return None;
      }
      OneMoreHop(before, clients, used, net.used, hops, client.value, chain);
      hops := hops + [client.value];
      i := i - 1;
    }
    ghost var clients := net.clients;
    s := DialViaProxy(net, hops, target);
    if s.None? {
      CloseHops(net, hops);
    } else {
      LastHop(before, clients, net.used, hops, s.value.client, chain, target);
    }
  }

  /** The dial has got to the last of `hops`, and nothing else has been opened. */
  ghost predicate Climbing(before: map<nat, Client>, clients: map<nat, Client>, used: set<nat>,
                           hops: seq<nat>, chain: seq<string>)
  {
    && hops != [] && Ladder(clients, hops) && Grounded(clients, used) && Along(clients, hops, chain)
    && clients.Keys <= used && (forall x | x in hops :: x !in before) && Without(clients, hops) == before
  }

  lemma FirstHop(before: map<nat, Client>, used: set<nat>, used': set<nat>, c: nat, chain: seq<string>)
    requires chain != [] && Grounded(before, used) && before.Keys <= used && c !in used
    requires used <= used' && c in used'
    ensures Climbing(before, before[c := Client(None, chain[|chain| - 1])], used', [c], chain)
  {}

  lemma LastHop(before: map<nat, Client>, clients: map<nat, Client>, used: set<nat>,
                hops: seq<nat>, c: nat, chain: seq<string>, target: string)
    requires hops != [] && c !in clients && Along(clients, hops, chain)
    requires (forall x | x in hops :: x !in before) && Without(clients, hops) == before
    ensures var more := clients[c := Client(Some(hops[|hops| - 1]), target)];
      && Along(more, hops, chain) && Without(more, hops + [c]) == before
      && forall x | x in hops + [c] :: x !in before
  {
    WithoutOneMore(clients, hops, c, target);
    assert before.Keys <= clients.Keys;
  }

  lemma OneMoreHop(before: map<nat, Client>, clients: map<nat, Client>, used: set<nat>, used': set<nat>,
                   hops: seq<nat>, c: nat, chain: seq<string>)
    requires |hops| < |chain| && Climbing(before, clients, used, hops, chain) && c !in used
    requires used <= used' && c in used'
    ensures var more := clients[c := Client(Some(hops[|hops| - 1]), chain[|chain| - 1 - |hops|])];
      Climbing(before, more, used', hops + [c], chain)
  {
    Climb(clients, hops, c, chain[|chain| - 1 - |hops|]);
    WithoutOneMore(clients, hops, c, chain[|chain| - 1 - |hops|]);
    assert before.Keys <= clients.Keys;
  }

  lemma WithoutOneMore(clients: map<nat, Client>, hops: seq<nat>, c: nat, host: string)
    requires hops != [] && c !in clients
    ensures Without(clients[c := Client(Some(hops[|hops| - 1]), host)], hops + [c]) == Without(clients, hops)
  {}

  /** Dialing and then closing leaves the network as it was. */
  method DialAndClose(net: Network, chain: seq<string>, target: string)
    requires chain != [] && net.Valid() && Grounded(net.clients, net.used)
    modifies net
    ensures net.tunnels == old(net.tunnels) && net.clients == old(net.clients)
  {
    var s := DialViaProxyChain(net, chain, target);
    if s.Some? {
      CloseSession(net, s.value);
    }
  }
}
