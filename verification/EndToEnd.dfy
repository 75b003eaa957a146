/**
 A client and the server's connection to it, joined by the two byte streams between them: each
 side has read a prefix of what the kernel took from the other.
 */
module EndToEnd {
  import opened Framing
  import opened TcpConns
  import opened TcpClients

  /** A receiver of a prefix of a stream has delivered a prefix of its messages. */
  lemma PrefixDelivered(side: Side, sent: seq<Message>, arrived: seq<byte>)
    requires arrived <= Stream(sent) && forall m <- sent :: Encodable(m)
    ensures Parse(side, arrived).0 <= sent
  {
    hide Parse, Stream;
    var later := Stream(sent)[|arrived|..];
    assert arrived + later == Stream(sent);
    ParseInTwo(side, arrived, later);
    ParsePrefix(side, sent);
    assert Parse(side, arrived).0 <= Parse(side, Stream(sent)).0;
  }

  /** From the client to the server's router, whether or not either side is still connected.  Once every
      byte has arrived, everything has been delivered exactly when the server takes each message and the
      last one is not empty. */
  lemma ServerDelivers(client: TcpClient, conn: TcpConn)
    requires client.Valid() && conn.Valid() && conn.arrived <= client.wire
    ensures conn.delivered <= client.sent
    ensures conn.arrived == client.wire && client.obuf.Contents() == [] ==>
      (conn.delivered == client.sent <==>
         (forall m <- client.sent :: Readable(Server, m)) && !LastIsEmpty(client.sent))
  {
    hide TcpConn.Buffered, TcpConn.Armed, TcpConn.InOrder, Parse, Stream;
    assert client.wire <= Stream(client.sent);
    PrefixDelivered(Server, client.sent, conn.arrived);
    if conn.arrived == client.wire && client.obuf.Contents() == [] {
      assert conn.arrived == Stream(client.sent);
      ParseAll(Server, client.sent);
    }
  }

  /** From the server to the client's router, whether or not either side is still connected, as long as no
      failed send has broken the stream.  Once every byte has arrived, everything has been delivered. */
  lemma ClientDelivers(conn: TcpConn, client: TcpClient)
    requires conn.Valid() && conn.intact && client.Valid() && client.arrived <= conn.wire
    ensures client.delivered <= conn.sent
    ensures conn.IsOpen() && client.arrived == conn.wire && conn.Waiting() == [] ==> client.delivered == conn.sent
  {
    hide TcpConn.Buffered, TcpConn.Armed, TcpConn.InStep, Parse, Stream;
    assert conn.wire <= Stream(conn.sent);
    PrefixDelivered(Client, conn.sent, client.arrived);
    if conn.IsOpen() && client.arrived == conn.wire && conn.Waiting() == [] {
      assert client.arrived == Stream(conn.sent);
      ParseAll(Client, conn.sent);
    }
  }
}
