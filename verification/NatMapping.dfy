/** The UDP mapping of a shadowsocks server (server/shadowsocks/udp_conn.go): client address to the socket that serves
  * it, or to a promise of one. */
module NatMapping {
  import opened Options

  type Addr = nat
  type Socket = nat

  /** An entry whose channel is open is being established; one with a socket has its channel closed from the start. */
  class UDPConn {
    const packetConn: Option<Socket>
    var establishing: bool

    constructor (conn: Option<Socket>)
      ensures packetConn == conn && establishing == conn.None?
    {
      packetConn := conn;
      establishing := conn.None?;
    }
  }

  class UDPConnMapping {
    var nm: map<Addr, UDPConn>
    /** The sockets that were closed through the mapping, in order. */
    var closed: seq<Socket>

    /** No entry is mapped twice, and an entry has no socket exactly while it is being established. */
    ghost predicate Valid()
      reads this, nm.Values
    {
      && (forall a, b :: a in nm && b in nm && nm[a] == nm[b] ==> a == b)
      && (forall a :: a in nm ==> (nm[a].packetConn.None? <==> nm[a].establishing))
    }

    constructor ()
      ensures Valid() && nm == map[] && closed == []
    {
      nm, closed := map[], [];
    }

    method Get(key: Addr) returns (conn: Option<UDPConn>)
      ensures conn == if key in nm then Some(nm[key]) else None
    {
      if key in nm {
        return Some(nm[key]);
      }
      return None;
    }

    method Insert(key: Addr, val: Option<Socket>) returns (c: UDPConn)
      requires Valid()
      modifies this`nm
      ensures fresh(c) && c.packetConn == val && c.establishing == val.None?
      ensures Valid() && nm == old(nm)[key := c]
    {
      c := new UDPConn(val);
      nm := nm[key := c];
    }

    /** Ends an establishment, or closes the socket of one that is over. */
    method Remove(key: Addr)
      requires Valid()
      modifies this, nm.Values
      ensures Valid() && nm == old(nm) - {key}
      ensures key !in old(nm) ==> closed == old(closed)
      ensures key in old(nm) ==> !old(nm)[key].establishing
      ensures key in old(nm) ==>
        closed == old(closed) + (match old(nm)[key].packetConn case Some(s) => [s] case None => [])
      ensures forall c :: c in old(nm).Values && (key in old(nm) ==> c != old(nm)[key]) ==>
        c.establishing == old(c.establishing)
    {
      if key !in nm {
        assert nm - {key} == nm;
        return;
      }
      var v := nm[key];
      if !v.establishing {
        closed := closed + [v.packetConn.value];
      } else {
        v.establishing := false;
      }
      nm := nm - {key};
    }
  }
}
