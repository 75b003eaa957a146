/**
 The message codec: an eight-byte head (message id and body length, 32-bit little-endian
 integers) followed by the body, cut out of a byte stream that arrives in arbitrary pieces.
 */
module Framing {
  import opened Keys

  newtype byte = x: int | 0 <= x < 256

  const HEAD_LEN := 8
  const LENGTH_LIMIT := 65535 - HEAD_LEN
  const CLIENT_LIMIT := HALF - 1 - HEAD_LEN

  datatype Message = Message(id: int32, body: seq<byte>)

  function EncodeInt(x: int): (s: seq<byte>)
    ensures |s| == 4
  {
    var w0 := x % WORD;
    var w1 := w0 / 256;
    var w2 := w1 / 256;
    [(w0 % 256) as byte, (w1 % 256) as byte, (w2 % 256) as byte, (w2 / 256) as byte]
  }

  function DecodeInt(s: seq<byte>): (x: int)
    requires |s| == 4
    ensures Int32(x)
  {
    AsInt32(Value(s))
  }

  /** The number the four bytes stand for. */
  function Value(s: seq<byte>): nat
    requires |s| == 4
  {
    s[0] as int + 256 * s[1] as int + 65536 * s[2] as int + 16777216 * s[3] as int
  }

  lemma EncodedValue(x: int)
    ensures Value(EncodeInt(x)) == x % WORD
  {
    var w0 := x % WORD;
    var w1 := w0 / 256;
    var w2 := w1 / 256;
    assert w0 == 256 * w1 + w0 % 256 && w1 == 256 * w2 + w1 % 256 && w2 == 256 * (w2 / 256) + w2 % 256;
  }

  lemma IntRoundTrip(x: int)
    requires Int32(x)
    ensures DecodeInt(EncodeInt(x)) == x
  {
    hide EncodeInt, Value;
    EncodedValue(x);
  }

  /** Every four bytes are the encoding of the number they decode to. */
  lemma BytesRoundTrip(s: seq<byte>)
    requires |s| == 4
    ensures EncodeInt(DecodeInt(s)) == s
  {
    var v := Value(s);
    assert DecodeInt(s) % WORD == v;
    assert v / 256 == s[1] as int + 256 * s[2] as int + 65536 * s[3] as int && v % 256 == s[0] as int;
    assert v / 256 / 256 == s[2] as int + 256 * s[3] as int && v / 256 % 256 == s[1] as int;
  }

  function Head(id: int, len: int): (s: seq<byte>)
    ensures |s| == HEAD_LEN
  {
    EncodeInt(id) + EncodeInt(len)
  }

  function Frame(m: Message): seq<byte> {
    Head(m.id, |m.body|) + m.body
  }

  function Stream(ms: seq<Message>): seq<byte> {
    if ms == [] then [] else Frame(ms[0]) + Stream(ms[1..])
  }

  lemma {:induction false} StreamAppend(ms: seq<Message>, m: Message)
    ensures Stream(ms + [m]) == Stream(ms) + Frame(m)
  {
    if ms == [] {
      assert (ms + [m])[1..] == [];
    } else {
      assert (ms + [m])[1..] == ms[1..] + [m];
      StreamAppend(ms[1..], m);
    }
  }

  /** The server asks for more than a head before it looks at one and closes on a length out
      of range; the client is content with a head and checks no length. */
  datatype Side = Server | Client

  predicate HeadReady(side: Side, buf: seq<byte>) {
    match side
    case Server => |buf| > HEAD_LEN
    case Client => |buf| >= HEAD_LEN
  }

  function IdIn(buf: seq<byte>): int
    requires |buf| >= HEAD_LEN
  {
    DecodeInt(buf[..4])
  }

  function LenIn(buf: seq<byte>): int
    requires |buf| >= HEAD_LEN
  {
    DecodeInt(buf[4..8])
  }

  predicate BadLength(side: Side, len: int) {
    len < 0 || len > (if side == Server then LENGTH_LIMIT else CLIENT_LIMIT)
  }

  /** A message this side can be sent. */
  predicate Readable(side: Side, m: Message) {
    !BadLength(side, |m.body|)
  }

  /** The client's only test, `length + 8 > available`, in 32-bit arithmetic, and what it hands to the
      callback, `length` as an unsigned number.  The test lets a message through that is longer than
      the bytes available, so that the callback is given memory outside the buffer, exactly for the
      lengths that are bad for the client. */
  lemma ClientTest(len: int, available: int)
    requires Int32(len) && HEAD_LEN <= available < HALF
    ensures BadLength(Client, len) <==>
      !(AsInt32((len + HEAD_LEN) % WORD) > available) && len % WORD + HEAD_LEN > available
  {
    if len < 0 {
      assert len % WORD == len + WORD;
    }
  }

  /** What is left of a connection after its input has been cut into messages. */
  datatype Input = Open(buf: seq<byte>) | Failed

  /** The framing loop on everything read so far. */
  function Parse(side: Side, buf: seq<byte>): (seq<Message>, Input)
    decreases |buf|
  {
    if !HeadReady(side, buf) then ([], Open(buf))
    else if BadLength(side, LenIn(buf)) then ([], Failed)
    else if |buf| < HEAD_LEN + LenIn(buf) then ([], Open(buf))
    else
      var end := HEAD_LEN + LenIn(buf);
      var rest := Parse(side, buf[end..]);
      ([Message(IdIn(buf), buf[HEAD_LEN..end])] + rest.0, rest.1)
  }

  /** One read event. */
  function Feed(side: Side, input: Input, chunk: seq<byte>): (seq<Message>, Input) {
    if input.Failed? then ([], Failed) else Parse(side, input.buf + chunk)
  }

  /** A sequence of read events. */
  function FeedAll(side: Side, input: Input, chunks: seq<seq<byte>>): (seq<Message>, Input)
    decreases |chunks|
  {
    if chunks == [] then ([], input)
    else
      var first := Feed(side, input, chunks[0]);
      var rest := FeedAll(side, first.1, chunks[1..]);
      (first.0 + rest.0, rest.1)
  }

  function Concat(chunks: seq<seq<byte>>): seq<byte> {
    if chunks == [] then [] else chunks[0] + Concat(chunks[1..])
  }

  /** Cutting what has arrived and going on with the remainder is cutting the whole. */
  lemma {:induction false} ParseInTwo(side: Side, a: seq<byte>, b: seq<byte>)
    ensures var (ms, input) := Parse(side, a);
      Parse(side, a + b) == (ms + Feed(side, input, b).0, Feed(side, input, b).1)
    decreases |a|
  {
    hide DecodeInt;
    var (ms, input) := Parse(side, a);
    var tail := Feed(side, input, b);
    assert [] + tail.0 == tail.0 && ms + [] == ms;
    if HeadReady(side, a) {
      assert (a + b)[..4] == a[..4] && (a + b)[4..8] == a[4..8];
      if !BadLength(side, LenIn(a)) && |a| >= HEAD_LEN + LenIn(a) {
        var end := HEAD_LEN + LenIn(a);
        assert (a + b)[end..] == a[end..] + b;
        assert (a + b)[HEAD_LEN..end] == a[HEAD_LEN..end];
        ParseInTwo(side, a[end..], b);
        assert ms + tail.0 == ms[..1] + (ms[1..] + tail.0);
      }
    }
  }

  lemma ParseShort(side: Side, buf: seq<byte>)
    requires !HeadReady(side, buf)
    ensures Parse(side, buf) == ([], Open(buf))
  {
  }

  /** One turn of the loop: after messages `ms`, the one at the front of `buf` is next. */
  lemma ParseNext(side: Side, ms: seq<Message>, buf: seq<byte>)
    requires HeadReady(side, buf) && !BadLength(side, LenIn(buf)) && |buf| >= HEAD_LEN + LenIn(buf)
    ensures var end := HEAD_LEN + LenIn(buf);
      var m, rest := Message(IdIn(buf), buf[HEAD_LEN..end]), buf[end..];
      (ms + Parse(side, buf).0, Parse(side, buf).1) == (ms + [m] + Parse(side, rest).0, Parse(side, rest).1)
  {
    hide DecodeInt;
    var end := HEAD_LEN + LenIn(buf);
    var m, rest := Message(IdIn(buf), buf[HEAD_LEN..end]), buf[end..];
    assert ms + ([m] + Parse(side, rest).0) == ms + [m] + Parse(side, rest).0;
  }

  /** The loop ends where it is stuck. */
  lemma ParseEnds(side: Side, ms: seq<Message>, buf: seq<byte>)
    requires !HeadReady(side, buf) || BadLength(side, LenIn(buf)) || |buf| < HEAD_LEN + LenIn(buf)
    ensures (ms + Parse(side, buf).0, Parse(side, buf).1) ==
      (ms, if HeadReady(side, buf) && BadLength(side, LenIn(buf)) then Failed else Open(buf))
  {
    hide DecodeInt;
    assert ms + [] == ms;
  }

  /** Fragmentation is invisible: any split of any byte stream, good or bad, gives the messages
      and the remainder of the stream read at once. */
  lemma {:induction false} AnySplit(side: Side, seen: seq<byte>, chunks: seq<seq<byte>>)
    ensures var (ms, input) := Parse(side, seen);
      Parse(side, seen + Concat(chunks)) ==
        (ms + FeedAll(side, input, chunks).0, FeedAll(side, input, chunks).1)
    decreases |chunks|
  {
    hide Parse;
    if chunks == [] {
      assert seen + Concat(chunks) == seen && Parse(side, seen).0 + [] == Parse(side, seen).0;
    } else {
      ParseInTwo(side, seen, chunks[0]);
      AnySplit(side, seen + chunks[0], chunks[1..]);
      var (ms, input) := Parse(side, seen);
      var first := Feed(side, input, chunks[0]);
      var rest := FeedAll(side, first.1, chunks[1..]);
      assert ms + first.0 + rest.0 == ms + (first.0 + rest.0);
      assert seen + chunks[0] + Concat(chunks[1..]) == seen + Concat(chunks);
    }
  }

  lemma ParseFrame(side: Side, m: Message, rest: seq<byte>)
    requires Readable(side, m) && HeadReady(side, Frame(m) + rest)
    ensures Parse(side, Frame(m) + rest) == ([m] + Parse(side, rest).0, Parse(side, rest).1)
  {
    hide EncodeInt, DecodeInt;
    var buf := Frame(m) + rest;
    assert buf[..4] == EncodeInt(m.id) && buf[4..8] == EncodeInt(|m.body|);
    IntRoundTrip(m.id);
    IntRoundTrip(|m.body|);
    assert buf[HEAD_LEN..HEAD_LEN + |m.body|] == m.body;
    assert buf[HEAD_LEN + |m.body|..] == rest;
  }

  // ----- What the loop computes, for every byte string -----

  predicate BadHead(side: Side, rest: seq<byte>) {
    HeadReady(side, rest) && BadLength(side, LenIn(rest))
  }

  /** Bytes the loop can do nothing with: no head yet, a bad head, or a head without all of its body. */
  predicate Stuck(side: Side, rest: seq<byte>) {
    HeadReady(side, rest) && !BadLength(side, LenIn(rest)) ==> |rest| < HEAD_LEN + LenIn(rest)
  }

  predicate LastIsEmpty(ms: seq<Message>) {
    ms != [] && ms[|ms| - 1].body == []
  }

  /** `buf` consists of the frames of `ms` and of bytes the loop is stuck at.  The server, which wants
      more than a head, also needs something behind a last message with an empty body. */
  ghost predicate Splits(side: Side, buf: seq<byte>, ms: seq<Message>, rest: seq<byte>) {
    && buf == Stream(ms) + rest && Stuck(side, rest)
    && (forall m <- ms :: Readable(side, m))
    && (side == Server && LastIsEmpty(ms) ==> rest != [])
  }

  lemma SplitMore(side: Side, m: Message, ms: seq<Message>, tail: seq<byte>, rest: seq<byte>)
    requires Splits(side, tail, ms, rest) && Readable(side, m) && HeadReady(side, Frame(m) + tail)
    ensures Splits(side, Frame(m) + tail, [m] + ms, rest)
  {
    hide EncodeInt, DecodeInt;
    assert ([m] + ms)[1..] == ms;
    assert Frame(m) + (Stream(ms) + rest) == Stream([m] + ms) + rest;
    assert ms == [] ==> tail == rest;
  }

  lemma NothingToCut(side: Side, buf: seq<byte>)
    requires Stuck(side, buf)
    ensures Splits(side, buf, [], buf)
    ensures Parse(side, buf) == ([], if BadHead(side, buf) then Failed else Open(buf))
  {
    hide EncodeInt, DecodeInt;
    assert Stream([]) + buf == buf;
  }

  /** The message at the front, and what follows it. */
  lemma CutOne(side: Side, buf: seq<byte>) returns (m: Message, tail: seq<byte>)
    requires !Stuck(side, buf)
    ensures buf == Frame(m) + tail && Readable(side, m) && HeadReady(side, buf) && |tail| < |buf|
    ensures Parse(side, buf) == ([m] + Parse(side, tail).0, Parse(side, tail).1)
  {
    hide EncodeInt, DecodeInt;
    var end := HEAD_LEN + LenIn(buf);
    m, tail := Message(IdIn(buf), buf[HEAD_LEN..end]), buf[end..];
    FrameInFront(buf);
  }

  /** Whatever the bytes, the loop finds such a split, and fails exactly when it is stuck at a bad head. */
  lemma {:induction false} ParseSplits(side: Side, buf: seq<byte>) returns (rest: seq<byte>)
    ensures Splits(side, buf, Parse(side, buf).0, rest)
    ensures Parse(side, buf).1 == if BadHead(side, rest) then Failed else Open(rest)
    decreases |buf|
  {
    hide Parse, Splits, Frame, BadHead, HeadReady, Readable;
    if Stuck(side, buf) {
      rest := buf;
      NothingToCut(side, buf);
    } else {
      var m, tail := CutOne(side, buf);
      rest := ParseSplits(side, tail);
      SplitMore(side, m, Parse(side, tail).0, tail, rest);
    }
  }

  lemma FrameInFront(buf: seq<byte>)
    requires |buf| >= HEAD_LEN && LenIn(buf) >= 0 && |buf| >= HEAD_LEN + LenIn(buf)
    ensures var end := HEAD_LEN + LenIn(buf);
      Frame(Message(IdIn(buf), buf[HEAD_LEN..end])) == buf[..end]
  {
    hide DecodeInt, EncodeInt;
    BytesRoundTrip(buf[..4]);
    BytesRoundTrip(buf[4..8]);
    var end := HEAD_LEN + LenIn(buf);
    assert buf[..4] + buf[4..8] == buf[..HEAD_LEN];
    assert buf[..HEAD_LEN] + buf[HEAD_LEN..end] == buf[..end];
  }

  /** There is only one such split, and the loop finds it: it delivers the messages and keeps the rest,
      or fails at a bad head. */
  lemma {:induction false} OnlySplit(side: Side, ms: seq<Message>, rest: seq<byte>)
    requires Splits(side, Stream(ms) + rest, ms, rest)
    ensures Parse(side, Stream(ms) + rest) == (ms, if BadHead(side, rest) then Failed else Open(rest))
  {
    hide EncodeInt, DecodeInt;
    if ms == [] {
      assert Stream(ms) + rest == rest;
    } else {
      var later := ms[1..];
      assert ms == [ms[0]] + later;
      assert Stream(ms) + rest == Frame(ms[0]) + (Stream(later) + rest);
      OnlySplit(side, later, rest);
      ParseFrame(side, ms[0], Stream(later) + rest);
    }
  }

  /** A stream of frames is cut into its messages; only the server keeps a final message with
      an empty body waiting, because its loop wants more than a head. */
  lemma ParseStream(side: Side, ms: seq<Message>)
    requires forall m <- ms :: Readable(side, m)
    ensures Parse(side, Stream(ms)) ==
      if side == Server && LastIsEmpty(ms)
      then (ms[..|ms| - 1], Open(Frame(ms[|ms| - 1])))
      else (ms, Open([]))
  {
    hide EncodeInt, DecodeInt, Parse;
    if side == Server && LastIsEmpty(ms) {
      var init, last := ms[..|ms| - 1], ms[|ms| - 1];
      assert ms == init + [last];
      StreamAppend(init, last);
      OnlySplit(side, init, Frame(last));
    } else {
      assert Stream(ms) + [] == Stream(ms);
      OnlySplit(side, ms, []);
    }
  }

  /** A message whose length a head can carry. */
  predicate Encodable(m: Message) {
    |m.body| < HALF
  }

  /** Of any messages, also ones the receiver refuses, it delivers a prefix. */
  lemma {:induction false} ParsePrefix(side: Side, ms: seq<Message>)
    requires forall m <- ms :: Encodable(m)
    ensures Parse(side, Stream(ms)).0 <= ms
  {
    hide EncodeInt, DecodeInt;
    if ms != [] && HeadReady(side, Stream(ms)) {
      assert ms == [ms[0]] + ms[1..];
      if Readable(side, ms[0]) {
        ParsePrefix(side, ms[1..]);
        ParseFrame(side, ms[0], Stream(ms[1..]));
      } else {
        LengthInFront(ms[0], Stream(ms[1..]));
      }
    }
  }

  lemma LengthInFront(m: Message, rest: seq<byte>)
    requires Encodable(m)
    ensures LenIn(Frame(m) + rest) == |m.body|
  {
    hide EncodeInt, DecodeInt;
    IntRoundTrip(|m.body|);
    assert (Frame(m) + rest)[4..8] == EncodeInt(|m.body|);
  }

  /** It delivers all of them exactly when it can read each one, and the server is not left with a last
      empty one. */
  lemma ParseAll(side: Side, ms: seq<Message>)
    ensures Parse(side, Stream(ms)).0 == ms <==>
      (forall m <- ms :: Readable(side, m)) && !(side == Server && LastIsEmpty(ms))
  {
    hide EncodeInt, DecodeInt, Parse;
    if Parse(side, Stream(ms)).0 == ms {
      var rest := ParseSplits(side, Stream(ms));
      assert |Stream(ms)| == |Stream(ms)| + |rest|;
    } else if forall m <- ms :: Readable(side, m) {
      ParseStream(side, ms);
    }
  }

  /** A bad head behind any messages: they are delivered, and then the loop fails. */
  lemma BadHeadFails(side: Side, ms: seq<Message>, id: int, len: int, tail: seq<byte>)
    requires forall m <- ms :: Readable(side, m)
    requires Int32(id) && Int32(len) && BadLength(side, len) && (side == Server ==> tail != [])
    ensures Parse(side, Stream(ms) + (Head(id, len) + tail)) == (ms, Failed)
  {
    hide EncodeInt, DecodeInt, Parse;
    var rest := Head(id, len) + tail;
    assert rest[4..8] == EncodeInt(len);
    IntRoundTrip(len);
    OnlySplit(side, ms, rest);
  }

  /** One such input: eight bytes that announce a body of length -1 break the client. */
  lemma NegativeLengthFails(id: int)
    requires Int32(id)
    ensures Parse(Client, Head(id, -1)) == ([], Failed)
  {
    hide Parse, Head;
    assert Stream([]) + (Head(id, -1) + []) == Head(id, -1);
    BadHeadFails(Client, [], id, -1, []);
  }

  /** The round trip: whatever way the sent bytes are split into reads, the receiver delivers
      exactly the messages sent, in order. */
  lemma FramingRoundTrip(side: Side, ms: seq<Message>, chunks: seq<seq<byte>>)
    requires forall m <- ms :: Readable(side, m)
    requires Concat(chunks) == Stream(ms)
    ensures FeedAll(side, Open([]), chunks) ==
      if side == Server && LastIsEmpty(ms)
      then (ms[..|ms| - 1], Open(Frame(ms[|ms| - 1])))
      else (ms, Open([]))
  {
    hide Parse, FeedAll, Stream, Frame;
    ParseShort(side, []);
    AnySplit(side, [], chunks);
    assert [] + FeedAll(side, Open([]), chunks).0 == FeedAll(side, Open([]), chunks).0;
    assert [] + Concat(chunks) == Concat(chunks);
    ParseStream(side, ms);
  }

  /** While a stream is still arriving, what has been delivered is a prefix of what was sent. */
  lemma DeliveredIsPrefix(side: Side, ms: seq<Message>, chunks: seq<seq<byte>>, later: seq<byte>)
    requires forall m <- ms :: Readable(side, m)
    requires Concat(chunks) + later == Stream(ms)
    ensures FeedAll(side, Open([]), chunks).0 <= ms
  {
    hide Parse, FeedAll, Stream, Frame;
    ParseShort(side, []);
    AnySplit(side, [], chunks);
    assert [] + FeedAll(side, Open([]), chunks).0 == FeedAll(side, Open([]), chunks).0;
    assert [] + Concat(chunks) == Concat(chunks);
    ParseInTwo(side, Concat(chunks), later);
    ParseStream(side, ms);
    assert FeedAll(side, Open([]), chunks).0 <= Parse(side, Stream(ms)).0 <= ms;
  }

  /** What the server keeps between reads is shorter than the largest frame. */
  lemma RemainderBounded(buf: seq<byte>)
    ensures Parse(Server, buf).1.Open? ==> |Parse(Server, buf).1.buf| < HEAD_LEN + LENGTH_LIMIT
    decreases |buf|
  {
  }
}
