/**
 * The client that keeps one connection and retries once (crates/http-ingest/src/lib.rs).
 */
module HttpClient {
  import opened Wrappers
  import opened Bytes
  import opened HttpResponse
  import opened HttpConnection

  /**
   * One attempt made by `Client.Send`: what the peer was going to deliver, whether any of
   * it was still to be read, whether the network failed, and what came of it.
   */
  datatype Try = Try(
    conn: Connection, reused: bool, stream: seq<byte>, toRead: bool, faulty: bool, attempt: Attempt)

  /** What a call gives: an answer, or a panic that unwinds through it. */
  datatype Reply = Answered(answer: Result<seq<byte>, Error>) | Panicked

  /** An attempt the network did not spoil ended as its stream says. */
  ghost predicate Truthful(t: Try, limits: Limits) {
    !t.faulty ==> t.attempt == Exchange(t.stream, limits, t.toRead).attempt
  }

  class Client {
    var conn: Connection?
    const limits: Limits

    constructor (limits: Limits)
      ensures this.limits == limits && conn == null
    {
      this.limits := limits;
      conn := null;
    }

    /** A connection is kept only while it may carry another request. */
    ghost predicate Valid()
      reads this, conn
    {
      conn != null ==> conn.reusable
    }

    /** Opens a connection, or fails; what the peer will deliver on it is unknown. */
    method Connect() returns (c: Option<Connection>)
      ensures c.Some? ==> fresh(c.value) && c.value.reusable && c.value.requests == 0
    {
      var fails: bool := *;
      if fails {
        return None;
      }
      var peerBytes: seq<byte> := *;
      var made := new Connection(peerBytes);
      c := Some(made);
    }

    method MakeAttempt() returns (a: Attempt)
      requires conn != null && Valid()
      modifies this`conn, conn
      ensures Valid()
      ensures old(conn).requests <= old(conn.requests) + 1
      ensures conn == if old(conn).reusable then old(conn) else null
      ensures a == Overflowed ==> conn == old(conn)
      ensures old(conn).faults != old(conn.faults) ==> !a.Success? && a != Overflowed && conn == null
      ensures old(conn).faults == old(conn.faults) ==>
                var meant := Exchange(old(conn.Stream()), limits, old(conn.unread) != []);
                && a == meant.attempt
                && (a != Overflowed ==> (conn != null <==> meant.reusable))
                && old(conn).Stream() == meant.rest
      ensures a == ClosedEmpty ==> old(conn).unread == old(conn.unread)
    {
      var c := conn;
      a := c.RoundTrip(limits);
      if a.Overflowed? {
        return;
      }
      if !c.reusable {
        conn := null;
      }
    }

    /**
     * Sends one request. `tried` lists the attempts made, oldest first: there is a second
     * one only after a reused connection closed without anything being read from it, it
     * uses a connection opened for it, and the last attempt alone decides the result.
     */
    method Send() returns (r: Reply, ghost tried: seq<Try>)
      requires Valid()
      modifies this`conn, conn
      ensures Valid()
      ensures conn != null ==> conn == old(conn) || fresh(conn)
      ensures old(conn) == null ==> |tried| <= 1
      ensures old(conn) != null ==>
                && 1 <= |tried| <= 2 && tried[0].conn == old(conn)
                && tried[0].stream == old(if conn != null then conn.Stream() else [])
                && tried[0].toRead == old(conn != null && conn.unread != [])
      ensures forall i :: 0 <= i < |tried| ==>
                && (tried[i].reused <==> i == 0 && old(conn) != null)
                && (!tried[i].reused ==> fresh(tried[i].conn) && tried[i].conn.requests <= 1)
                && Truthful(tried[i], limits)
                && (tried[i].faulty ==> !tried[i].attempt.Success?)
      ensures |tried| == 2 ==>
                && tried[0].attempt == ClosedEmpty
                && tried[0].conn.unread == old(if conn != null then conn.unread else [])
      ensures |tried| == 1 && tried[0].reused && tried[0].attempt == ClosedEmpty ==> r == Answered(Err(ConnectFailed))
      ensures tried == [] ==> r == Answered(Err(ConnectFailed))
      ensures tried != [] && !(|tried| == 1 && tried[0].reused && tried[0].attempt == ClosedEmpty) ==>
                r == match tried[|tried| - 1].attempt
                     case Success(body) => Answered(Ok(body))
                     case Failed(e) => Answered(Err(e))
                     case ClosedEmpty => Answered(Err(ClosedByPeer))
                     case Overflowed => Panicked
      ensures r.Answered? && r.answer.Ok? ==> |r.answer.value| <= limits.maxBodyBytes
      ensures old(conn) != null ==> old(conn).requests <= old(if conn != null then conn.requests else 0) + 1
      ensures conn != null && conn == old(conn) && conn.faults == old(if conn != null then conn.faults else 0) ==>
                conn.Stream() == old(if conn != null then Exchange(conn.Stream(), limits, conn.unread != []).rest
                                     else [])
    {
      hide Exchange;
      tried := [];
      var reused := conn != null;
      if conn == null {
        var c := Connect();
        if c.None? {
          return Answered(Err(ConnectFailed)), tried;
        }
        conn := c.value;
      }
      ghost var first, stream, toRead, faults := conn, conn.Stream(), conn.unread != [], conn.faults;
      var a := MakeAttempt();
      tried := [Try(first, reused, stream, toRead, first.faults != faults, a)];
      match a {
        case Success(bytes) => r := Answered(Ok(bytes));
        case Failed(e) => r := Answered(Err(e));
        case Overflowed => r := Panicked;
        case ClosedEmpty =>
          if !reused {
            return Answered(Err(ClosedByPeer)), tried;
          }
          var c := Connect();
          if c.None? {
            return Answered(Err(ConnectFailed)), tried;
          }
          conn := c.value;
          stream, toRead, faults := conn.Stream(), conn.unread != [], conn.faults;
          var again := MakeAttempt();
          tried := tried + [Try(c.value, false, stream, toRead, c.value.faults != faults, again)];
          r := match again
            case Success(bytes) => Answered(Ok(bytes))
            case Failed(e) => Answered(Err(e))
            case ClosedEmpty => Answered(Err(ClosedByPeer))
            case Overflowed => Panicked;
      }
    }
  }
}
