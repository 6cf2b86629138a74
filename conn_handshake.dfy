/** The handshakeServer of conn.go, a second declaration of the server role that
    differs from the one in handshake.go in one respect: DONE is written only
    after the client's VERSION and CPID have been accepted. */
module ConnHandshake {
  import opened Types
  import opened Strings
  import opened Conn
  import opened Handshake

  /** handshakeServer of conn.go. The process id and the 16 cookie bytes are inputs. */
  method HandshakeServer(c: Connection, cuid: string, mechs: map<string, Mechanism>, pid: nat, cookieBytes: Bytes)
    returns (r: Result<ConnInfo>, ghost order: seq<string>)
    requires |cookieBytes| == 16
    modifies c
    ensures Enumerates(order, mechs.Keys)
    ensures var hello := ExpectClientGreeting(old(c.input), c.readErr);
      && c.input == old(c.input)[hello.consumed..]
      && r == (match hello.result
               case Success(cpid) => Success(ConnInfo(cpid, Itoa(pid), cuid, Hex(cookieBytes), mechs))
               case Failure(e) => Failure(e))
    ensures r.Failure? ==> c.out == old(c.out) + Frames(ServerGreeting(Itoa(pid), cuid, Hex(cookieBytes)) + MechLines(order, mechs))
    ensures r.Success? ==>
      c.out == old(c.out) + Frames(ServerGreeting(Itoa(pid), cuid, Hex(cookieBytes)) + MechLines(order, mechs) + [Line("DONE", [])])
  {
    var info := ConnInfo("", Itoa(pid), cuid, Hex(cookieBytes), mechs);
    order := WriteAdvertisement(c, info.spid, info.cuid, info.cookie, info.mechs);
    ghost var advertised := ServerGreeting(info.spid, info.cuid, info.cookie) + MechLines(order, mechs);
    var cpid := ReadClientGreeting(c);
    if cpid.Failure? {
      return Failure(cpid.error), order;
    }
    info := info.(cpid := cpid.value);
    c.Writeln("DONE", []);
    FramesSnoc(advertised, Line("DONE", []));
    return Success(info), order;
  }
}
