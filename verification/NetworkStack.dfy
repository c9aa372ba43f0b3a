/**
 * The connection table of the stack: string keys `lport:rip:rport`, the cyclic
 * allocator of ephemeral ports, and the choice of what a segment is for.
 */
module NetworkStack {
  import opened Words
  import opened Numerals

  const FIRST_PORT := 49152
  const PORTS := 16384

  type EphemeralPort = p: int | FIRST_PORT <= p < FIRST_PORT + PORTS witness FIRST_PORT

  // ---------- keys ----------

  function Decimal(n: nat): (s: string)
    ensures ':' !in s
  {
    Numeral(n, 10)
  }

  /** A connection, by its local port and remote address and port. */
  datatype Endpoint = Endpoint(lPort: nat, rIp: string, rPort: nat)

  function Key(e: Endpoint): string {
    Decimal(e.lPort) + ":" + e.rIp + ":" + Decimal(e.rPort)
  }

  /** `startsWith` */
  predicate StartsWith(s: string, prefix: string) {
    prefix <= s
  }

  /** Different connections have different keys, whatever the address text. */
  lemma KeyInjective(e: Endpoint, f: Endpoint)
    ensures Key(e) == Key(f) <==> e == f
  {
    if Key(e) == Key(f) {
      var x, y := e.rIp + ":" + Decimal(e.rPort), f.rIp + ":" + Decimal(f.rPort);
      assert Key(e) == Decimal(e.lPort) + ":" + x && Key(f) == Decimal(f.lPort) + ":" + y;
      FirstColon(Decimal(e.lPort), x, Decimal(f.lPort), y);
      LastColon(e.rIp, Decimal(e.rPort), f.rIp, Decimal(f.rPort));
      NumeralInjective(e.lPort, f.lPort, 10);
      NumeralInjective(e.rPort, f.rPort, 10);
    }
  }

  /** The text test of the allocator finds exactly the connections on the port. */
  lemma PrefixIsPort(e: Endpoint, p: nat)
    ensures StartsWith(Key(e), Decimal(p) + ":") <==> e.lPort == p
  {
    var prefix := Decimal(p) + ":";
    if StartsWith(Key(e), prefix) {
      var x, y := e.rIp + ":" + Decimal(e.rPort), Key(e)[|prefix|..];
      assert Key(e) == Decimal(e.lPort) + ":" + x;
      assert Key(e) == Decimal(p) + ":" + y;
      FirstColon(Decimal(e.lPort), x, Decimal(p), y);
      NumeralInjective(e.lPort, p, 10);
    }
  }

  // ---------- the cycle of ports ----------

  function NextPort(p: EphemeralPort): EphemeralPort {
    if p + 1 > 65535 then FIRST_PORT else p + 1
  }

  /** The port `i` steps on from `start`. */
  function Cycle(start: EphemeralPort, i: nat): EphemeralPort {
    FIRST_PORT + (start - FIRST_PORT + i) % PORTS
  }

  lemma CycleStep(start: EphemeralPort, i: nat)
    ensures Cycle(start, i + 1) == NextPort(Cycle(start, i))
    ensures Cycle(start, 0) == start
  {
  }

  /** One turn visits every port, and each once. */
  lemma CycleVisits(start: EphemeralPort, p: EphemeralPort)
    ensures exists i :: 0 <= i < 16384 && Cycle(start, i) == p
    ensures forall i, j :: 0 <= i < 16384 && 0 <= j < 16384 && Cycle(start, i) == p == Cycle(start, j) ==> i == j
  {
    var i := if p >= start then p - start else p - start + PORTS;
    assert Cycle(start, i) == p;
  }

  lemma FullTurn(start: EphemeralPort)
    ensures Cycle(start, PORTS) == start
  {
  }

  // ---------- the stack ----------

  datatype Dispatch = ToConn(e: Endpoint) | Accept(e: Endpoint) | Reset | Ignored

  class NetworkStack {
    var listeners: set<nat>
    var conns: map<string, Endpoint>
    var nextPort: EphemeralPort

    /** Every connection is filed under its own key. */
    ghost predicate Valid()
      reads this`conns
    {
      forall k :: k in conns ==> k == Key(conns[k])
    }

    /** A listener or a connection has the port. */
    ghost predicate InUse(p: nat)
      reads this`listeners, this`conns
    {
      p in listeners || exists k :: k in conns && conns[k].lPort == p
    }

    constructor ()
      ensures Valid() && conns == map[] && listeners == {} && nextPort == FIRST_PORT
    {
      listeners, conns, nextPort := {}, map[], FIRST_PORT;
    }

    /** Is there a connection whose key starts with the port? */
    method PortHasConn(p: nat) returns (used: bool)
      requires Valid()
      ensures used <==> exists k :: k in conns && conns[k].lPort == p
    {
      var todo := conns.Keys;
      used := false;
      while todo != {}
        invariant todo <= conns.Keys
        invariant forall k :: k in conns && k !in todo ==> conns[k].lPort != p
        decreases |todo|
      {
        var k :| k in todo;
        PrefixIsPort(conns[k], p);
        if StartsWith(k, Decimal(p) + ":") {
          return true;
        }
        todo := todo - {k};
      }
    }

    /**
     * The first free port in cyclic order from the last one given; none exactly
     * when every ephemeral port is in use.
     */
    method AllocPort() returns (r: Option<EphemeralPort>)
      requires Valid()
      modifies this`nextPort
      ensures r.None? <==> forall p: EphemeralPort :: InUse(p)
      ensures r.None? ==> nextPort == old(nextPort)
      ensures r.Some? ==> !InUse(r.value) && nextPort == NextPort(r.value)
      ensures r.Some? ==> 49152 <= r.value <= 65535
      ensures r.Some? ==> exists i: nat :: i < 16384 && r.value == Cycle(old(nextPort), i) &&
                            forall j :: 0 <= j < i ==> InUse(Cycle(old(nextPort), j))
    {
      ghost var start := nextPort;
      CycleStep(start, 0);
      for i := 0 to PORTS
        invariant nextPort == Cycle(start, i)
        invariant forall j :: 0 <= j < i ==> InUse(Cycle(start, j))
      {
        hide Cycle, NextPort;
        var p := nextPort;
        CycleStep(start, i);
        nextPort := NextPort(p);
        if p in listeners {
          continue;
        }
        var used := PortHasConn(p);
        if !used {
          assert !InUse(p);
          return Some(p);
        }
      }
      FullTurn(start);
      forall p: EphemeralPort ensures InUse(p) {
        CycleVisits(start, p);
      }
      r := None;
    }

    /** A connection is opened from a fresh port, so it never replaces another one. */
    method Connect(rIp: string, rPort: nat) returns (r: Option<Endpoint>)
      requires Valid()
      modifies this
      ensures Valid() && listeners == old(listeners)
      ensures r.None? ==> conns == old(conns) && forall p: EphemeralPort :: InUse(p)
      ensures r.Some? ==>
                && r.value.rIp == rIp && r.value.rPort == rPort && !old(InUse(r.value.lPort))
                && Key(r.value) !in old(conns) && conns == old(conns)[Key(r.value) := r.value]
    {
      var p := AllocPort();
      match p
      case None => r := None;
      case Some(port) =>
        var e := Endpoint(port, rIp, rPort);
        r := Some(e);
        if Key(e) in conns {
          KeyInjective(e, conns[Key(e)]);
        }
        conns := conns[Key(e) := e];
    }

    method Listen(port: nat)
      requires Valid()
      modifies this`listeners
      ensures listeners == old(listeners) + {port}
    {
      listeners := listeners + {port};
    }

    /** The end of a connection frees its key and, if nothing else has it, its port. */
    method Remove(e: Endpoint)
      requires Valid()
      modifies this`conns
      ensures Valid() && conns == old(conns) - {Key(e)}
      ensures forall f :: f in conns.Values <==> f in old(conns).Values && f != e
    {
      conns := conns - {Key(e)};
      forall f ensures f in conns.Values <==> f in old(conns).Values && f != e {
        KeyInjective(e, f);
        if f in old(conns).Values && f != e {
          assert Key(f) in conns && conns[Key(f)] == f;
        }
      }
    }

    /**
     * What a segment is for: the connection with exactly its addresses and
     * ports; else, for a SYN to a listener, a new one; else a reset, but never
     * in answer to a reset.
     */
    method HandleTcp(srcIp: string, sPort: nat, dPort: nat, syn: bool, ack: bool, rst: bool) returns (d: Dispatch)
      requires Valid()
      modifies this`conns
      ensures Valid()
      ensures var e := Endpoint(dPort, srcIp, sPort);
              && (d == ToConn(e) <==> e in old(conns).Values)
              && (d == Accept(e) <==> e !in old(conns).Values && syn && !ack && dPort in listeners)
              && (d == Reset <==> e !in old(conns).Values && !(syn && !ack && dPort in listeners) && !rst)
              && conns == if d == Accept(e) then old(conns)[Key(e) := e] else old(conns)
      ensures d in {ToConn(Endpoint(dPort, srcIp, sPort)), Accept(Endpoint(dPort, srcIp, sPort)), Reset, Ignored}
    {
      var e := Endpoint(dPort, srcIp, sPort);
      var key := Key(e);
      assert key in conns <==> e in conns.Values by {
        if key in conns {
          KeyInjective(e, conns[key]);
        }
      }
      if key in conns {
        KeyInjective(e, conns[key]);
        return ToConn(conns[key]);
      }
      if syn && !ack && dPort in listeners {
        conns := conns[key := e];
        return Accept(e);
      }
      d := if rst then Ignored else Reset;
    }
  }
}
