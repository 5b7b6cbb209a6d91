/** Length-prefixed messages over a byte stream (switch/framing.py) and the loop that receives them. */
module Framing {
  import opened Wrappers
  import opened Bytes
  import opened FieldCatalogue
  import opened Codec
  import Bitmap
  import Text

  // ----- frames as values

  /** The length header, then the message; None is the OverflowError of a message too long for it. */
  function Frame(message: seq<byte>, prefixBytes: nat): Option<seq<byte>> {
    var header :- ToBytes(|message|, prefixBytes);
    Some(header + message)
  }

  /** The next message of a stream and what follows it; None when the stream ends first. */
  function ReadFrame(stream: seq<byte>, prefixBytes: nat): (r: (Option<seq<byte>>, seq<byte>))
    ensures r.0.Some? ==> |stream| == prefixBytes + |r.0.value| + |r.1|
  {
    if |stream| < prefixBytes then (None, [])
    else
      var length := FromBytes(stream[..prefixBytes]);
      if |stream| - prefixBytes < length then (None, [])
      else (Some(stream[prefixBytes..prefixBytes + length]), stream[prefixBytes + length..])
  }

  lemma ReadFrameOfFrame(message: seq<byte>, prefixBytes: nat, rest: seq<byte>)
    ensures Frame(message, prefixBytes).Some? <==> |message| < Text.Pow(256, prefixBytes)
    ensures Frame(message, prefixBytes).Some? ==>
              ReadFrame(Frame(message, prefixBytes).value + rest, prefixBytes) == (Some(message), rest)
  {
    if Frame(message, prefixBytes).Some? {
      FromToBytes(|message|, prefixBytes);
      var header := BigEndian(|message|, prefixBytes);
      var stream := header + message + rest;
      assert stream[..prefixBytes] == header;
      assert stream[prefixBytes..prefixBytes + |message|] == message;
      assert stream[prefixBytes + |message|..] == rest;
    }
  }

  /** A two-byte header holds the length, high byte first. */
  lemma HeaderExact(message: seq<byte>)
    requires |message| < 65536
    ensures Frame(message, 2) == Some([|message| / 256, |message| % 256] + message)
  {
    assert Text.Pow(256, 2) == 65536;
    assert BigEndian(|message| / 256, 1) == BigEndian(0, 0) + [|message| / 256];
    assert BigEndian(|message|, 2) == [|message| / 256, |message| % 256];
  }

  /** Nothing can be parsed from an empty frame. */
  lemma EmptyFrame(table: Catalogue)
    ensures Parse(table, [], 0).None?
  {
  }

  /** The messages a receiver hands on before the stream ends or a message makes the parser raise. */
  function Deliver(table: Catalogue, stream: seq<byte>, prefixBytes: nat): seq<Message>
    decreases |stream|
  {
    var (frame, rest) := ReadFrame(stream, prefixBytes);
    if frame.None? then []
    else
      EmptyFrame(table);
      var parsed := Parse(table, frame.value, 0);
      if parsed.None? then [] else [parsed.value.0] + Deliver(table, rest, prefixBytes)
  }

  /** A message to send: its MTI and elements. */
  type Outgoing = Message

  function FrameAll(table: Catalogue, messages: seq<Outgoing>, prefixBytes: nat): Option<seq<byte>> {
    if messages == [] then Some([])
    else
      var built :- Build(table, messages[0].mti, messages[0].fields);
      var first :- Frame(built, prefixBytes);
      var rest :- FrameAll(table, messages[1..], prefixBytes);
      Some(first + rest)
  }

  predicate AllCarried(table: Catalogue, messages: seq<Outgoing>) {
    forall m | m in messages :: Carries(table, m)
  }

  function CanonicalMessages(table: Catalogue, messages: seq<Outgoing>): seq<Message>
    requires AllCarried(table, messages)
  {
    if messages == [] then [] else [CanonicalMessage(table, messages[0])] + CanonicalMessages(table, messages[1..])
  }

  /** What is handed on of a list of messages: each as it is parsed, up to the first that makes the parser raise. */
  function HandedOn(table: Catalogue, messages: seq<Outgoing>): seq<Message> {
    if messages == [] || Through(table, messages[0]).None? then []
    else [Through(table, messages[0]).value] + HandedOn(table, messages[1..])
  }

  /**
    Whatever is framed onto one stream is delivered message by message, each as the parser makes it out alone. The
    stream may go on with anything that is not a complete frame, such as a message cut off by a lost connection.
   */
  lemma {:induction false} StreamDelivers(
      table: Catalogue, messages: seq<Outgoing>, prefixBytes: nat, cutOff: seq<byte>)
    requires FrameAll(table, messages, prefixBytes).Some?
    requires ReadFrame(cutOff, prefixBytes).0.None?
    ensures Deliver(table, FrameAll(table, messages, prefixBytes).value + cutOff, prefixBytes) ==
            HandedOn(table, messages)
    decreases |messages|
  {
    hide Build, Parse, ReadFrame, Frame;
    var stream := FrameAll(table, messages, prefixBytes).value + cutOff;
    if messages == [] {
      assert stream == cutOff;
    } else {
      var m := messages[0];
      var built := Build(table, m.mti, m.fields).value;
      var first := Frame(built, prefixBytes).value;
      var rest := FrameAll(table, messages[1..], prefixBytes).value;
      StreamDelivers(table, messages[1..], prefixBytes, cutOff);
      assert stream == first + (rest + cutOff);
      ReadFrameOfFrame(built, prefixBytes, rest + cutOff);
    }
  }

  /** Messages that the catalogue carries are delivered in order and in canonical form. */
  lemma {:induction false} StreamRoundTrip(
      table: Catalogue, messages: seq<Outgoing>, prefixBytes: nat, cutOff: seq<byte>)
    requires AllCarried(table, messages)
    requires FrameAll(table, messages, prefixBytes).Some?
    requires ReadFrame(cutOff, prefixBytes).0.None?
    ensures Deliver(table, FrameAll(table, messages, prefixBytes).value + cutOff, prefixBytes) ==
            CanonicalMessages(table, messages)
  {
    hide FrameAll, Deliver, ReadFrame;
    StreamDelivers(table, messages, prefixBytes, cutOff);
    HandedOnCarried(table, messages);
  }

  lemma {:induction false} HandedOnCarried(table: Catalogue, messages: seq<Outgoing>)
    requires AllCarried(table, messages)
    ensures HandedOn(table, messages) == CanonicalMessages(table, messages)
  {
    hide Through, WellFormed, CanonicalMessage;
    if messages != [] {
      assert Carries(table, messages[0]);
      CarriedThrough(table, messages[0]);
      HandedOnCarried(table, messages[1..]);
    }
  }

  /** Less than a whole frame is not a frame. */
  lemma CutOff(message: seq<byte>, prefixBytes: nat, part: seq<byte>)
    requires Frame(message, prefixBytes).Some? && part <= Frame(message, prefixBytes).value
    requires |part| < |Frame(message, prefixBytes).value|
    ensures ReadFrame(part, prefixBytes).0.None?
  {
    var frame := Frame(message, prefixBytes).value;
    ReadFrameOfFrame(message, prefixBytes, []);
    assert frame + [] == frame;
    if |part| >= prefixBytes {
      assert part[..prefixBytes] == frame[..prefixBytes];
    }
  }

  /** A message can be framed exactly when its length fits the header. */
  predicate Fits(table: Catalogue, m: Outgoing, prefixBytes: nat)
    requires Carries(table, m)
  {
    MessageLength(table, m.fields) < Text.Pow(256, prefixBytes)
  }

  /** A list of messages can be framed exactly when each of them is short enough for the header. */
  lemma {:induction false} FrameAllExact(table: Catalogue, messages: seq<Outgoing>, prefixBytes: nat)
    requires AllCarried(table, messages)
    ensures FrameAll(table, messages, prefixBytes).Some? <==> forall m | m in messages :: Fits(table, m, prefixBytes)
    decreases |messages|
  {
    hide Build, WellFormed, Frame, MessageLength;
    if messages != [] {
      var m := messages[0];
      assert Carries(table, m);
      MessageLengthExact(table, m);
      ReadFrameOfFrame(Build(table, m.mti, m.fields).value, prefixBytes, []);
      FrameAllExact(table, messages[1..], prefixBytes);
      assert messages == [m] + messages[1..];
    }
  }

  function Elements(des: seq<Bitmap.Element>): (elements: set<Bitmap.Element>)
    ensures forall de :: de in elements <==> de in des
  {
    if des == [] then {} else {des[0]} + Elements(des[1..])
  }

  lemma {:induction false} DistinctCount(des: seq<Bitmap.Element>)
    ensures |Elements(des)| <= |des|
    decreases |des|
  {
    if des != [] {
      DistinctCount(des[1..]);
    }
  }

  /** Private elements, as many as there are from 105 up to but not including limit. */
  function PrivateElements(limit: nat): (elements: set<Bitmap.Element>)
    requires 105 <= limit <= 112
    ensures |elements| == limit - 105 && forall de | de in elements :: 105 <= de < limit
  {
    if limit == 105 then {} else PrivateElements(limit - 1) + {limit - 1}
  }

  lemma AtLeastSeven(des: seq<Bitmap.Element>)
    requires forall de :: de in des <==> de in PrivateElements(112)
    ensures |des| >= 7
  {
    hide PrivateElements;
    assert Elements(des) == PrivateElements(112);
    DistinctCount(des);
  }

  /** Every value as long as an LLLVAR prefix of four digits can say. */
  ghost predicate AllLongest(table: Catalogue, des: seq<Bitmap.Element>, fields: map<Bitmap.Element, string>)
    requires forall de | de in des :: de in fields && de in table
  {
    forall de | de in des :: table[de].lengthType == LLLVAR && !table[de].numeric && |fields[de]| == 9999
  }

  lemma {:induction false} LongestBody(
      table: Catalogue, des: seq<Bitmap.Element>, fields: map<Bitmap.Element, string>)
    requires forall de | de in des :: de in fields && de in table
    requires AllLongest(table, des, fields)
    ensures BodyLength(table, des, fields) == 10001 * |des|
    decreases |des|
  {
    if des != [] {
      LongestBody(table, des[1..], fields);
    }
  }

  lemma LongElements()
    ensures forall de | 105 <= de <= 111 ::
              de in FIELD_SPECS && FIELD_SPECS[de].lengthType == LLLVAR && !FIELD_SPECS[de].numeric
  {
    forall de | 105 <= de <= 111
      ensures de in FIELD_SPECS && FIELD_SPECS[de] == LllChars(999)
    {
      assert SpecOf(de) == Some(LllChars(999));
    }
  }

  /** All seven with 9,999 characters: a message that is built, and too long for the 2-byte header. */
  lemma HeaderOverflows() returns (m: Outgoing)
    ensures Carries(FIELD_SPECS, m) && FrameAll(FIELD_SPECS, [m], 2).None?
  {
    hide FIELD_SPECS, Build, Frame, FrameAll, Carries, Fits, Text.Repeat, PrivateElements;
    m := Message("0200", map de | de in PrivateElements(112) :: Text.Repeat('x', 9999));
    LongIsCarried(m);
    LongIsTooLong(m);
    FrameAllExact(FIELD_SPECS, [m], 2);
    assert m in [m];
  }

  ghost predicate IsLong(m: Outgoing) {
    && m.mti == "0200" && m.fields.Keys == PrivateElements(112)
    && forall de | de in m.fields :: m.fields[de] == Text.Repeat('x', 9999)
  }

  lemma LongIsCarried(m: Outgoing)
    requires IsLong(m)
    ensures Carries(FIELD_SPECS, m)
  {
    hide FIELD_SPECS, PrivateElements;
    LongElements();
  }

  lemma LongIsTooLong(m: Outgoing)
    requires IsLong(m) && Carries(FIELD_SPECS, m)
    ensures !Fits(FIELD_SPECS, m, 2)
  {
    hide FIELD_SPECS, BodyLength, Bitmap.Ascending, Encodable, Text.Repeat, PrivateElements;
    LongElements();
    var des := Bitmap.Ascending(m.fields.Keys, 128);
    AtLeastSeven(des);
    LongestBody(FIELD_SPECS, des, m.fields);
    assert Text.Pow(256, 2) == 65536;
  }

  /** In particular, values within the catalogue's maximum lengths never overflow the 2-byte header. */
  lemma {:induction false} TwoByteHeaderSuffices(table: Catalogue, messages: seq<Outgoing>)
    requires StandardLengths(table) && AllCarried(table, messages)
    requires forall m | m in messages :: WithinLengths(table, m.fields)
    ensures FrameAll(table, messages, 2).Some?
    decreases |messages|
  {
    hide Build, WellFormed, WithinLengths, StandardLengths;
    if messages != [] {
      var m := messages[0];
      assert Carries(table, m);
      MessageSize(table, m.mti, m.fields);
      ReadFrameOfFrame(Build(table, m.mti, m.fields).value, 2, []);
      assert Text.Pow(256, 2) == 65536;
      TwoByteHeaderSuffices(table, messages[1..]);
    }
  }

  // ----- sockets

  /** A connection: what the peer sends before it closes, and what we have sent. */
  class Socket {
    const reliable: bool
    var inbound: seq<byte>
    var outbound: seq<byte>
    var broken: bool

    /** reliable: no send on it fails. */
    constructor (fromPeer: seq<byte>, reliable: bool)
      ensures inbound == fromPeer && outbound == [] && !broken && this.reliable == reliable
    {
      this.reliable := reliable;
      inbound, outbound, broken := fromPeer, [], false;
    }

    /** recv: at most n bytes, at least one unless the peer has closed; how many is up to the network. */
    method Recv(n: nat) returns (chunk: seq<byte>)
      modifies this`inbound
      ensures |chunk| <= n && old(inbound) == chunk + inbound
      ensures chunk == [] <==> n == 0 || old(inbound) == []
    {
      var most := if n <= |inbound| then n else |inbound|;
      if most == 0 {
        return [];
      }
      var k :| 1 <= k <= most;
      chunk, inbound := inbound[..k], inbound[k..];
    }

    /** sendall: all of data, or it raises after some of it; then the connection is broken, and takes nothing more. */
    method SendAll(data: seq<byte>) returns (ok: bool, ghost taken: nat)
      modifies this`outbound, this`broken
      ensures taken <= |data| && outbound == old(outbound) + data[..taken]
      ensures ok <==> !broken
      ensures ok ==> !old(broken) && taken == |data|
      ensures !ok ==> taken < |data| || data == []
      ensures old(broken) ==> taken == 0
      ensures reliable ==> broken == old(broken)
    {
      if broken {
        return false, 0;
      }
      var k: nat := |data|;
      broken := *;
      broken := broken && !reliable;
      if broken && data != [] {
        k :| 0 <= k < |data|;
      }
      outbound := outbound + data[..k];
      ok, taken := !broken, k;
    }
  }

  /** read_exact: exactly the next numBytes however the reads are split, or None once the peer closes early. */
  method ReadExact(sock: Socket, numBytes: nat) returns (r: Option<seq<byte>>)
    modifies sock`inbound
    ensures numBytes <= |old(sock.inbound)| ==>
              r == Some(old(sock.inbound)[..numBytes]) && sock.inbound == old(sock.inbound)[numBytes..]
    ensures numBytes > |old(sock.inbound)| ==> r == None && sock.inbound == []
  {
    ghost var stream := sock.inbound;
    var chunks: seq<byte> := [];
    while |chunks| < numBytes
      invariant |chunks| <= numBytes
      invariant stream == chunks + sock.inbound
    {
      var chunk := sock.Recv(numBytes - |chunks|);
      if chunk == [] {
        return None;
      }
      chunks := chunks + chunk;
    }
    r := Some(chunks);
  }

  method ReadFramedMessage(sock: Socket, prefixBytes: nat) returns (r: Option<seq<byte>>)
    modifies sock`inbound
    ensures (r, sock.inbound) == ReadFrame(old(sock.inbound), prefixBytes)
  {
    ghost var stream := sock.inbound;
    var header := ReadExact(sock, prefixBytes);
    if header.None? {
      return None;
    }
    r := ReadExact(sock, FromBytes(header.value));
    if r.Some? {
      assert stream[prefixBytes..][..|r.value|] == stream[prefixBytes..prefixBytes + |r.value|];
    }
  }

  /**
    write_framed_message: nothing is sent when the length does not fit the header; otherwise the whole frame, or less
    than that when the socket fails.
   */
  method WriteFramedMessage(sock: Socket, message: seq<byte>, prefixBytes: nat) returns (ok: bool, ghost taken: nat)
    modifies sock`outbound, sock`broken
    ensures Frame(message, prefixBytes).None? ==>
              !ok && sock.outbound == old(sock.outbound) && sock.broken == old(sock.broken)
    ensures Frame(message, prefixBytes).Some? ==>
              var frame := Frame(message, prefixBytes).value;
              && taken <= |frame| && sock.outbound == old(sock.outbound) + frame[..taken]
              && (ok <==> !sock.broken) && (ok ==> !old(sock.broken) && taken == |frame|)
              && (!ok ==> taken < |frame| || frame == []) && (old(sock.broken) ==> taken == 0)
    ensures sock.reliable ==> sock.broken == old(sock.broken)
  {
    var header := ToBytes(|message|, prefixBytes);
    ok, taken := false, 0;
    if header.Some? {
      ok, taken := sock.SendAll(header.value + message);
    }
  }

  /** The receive loop of the client and of the switch: every message handed on before the loop dies. */
  method ReceiveLoop(table: Catalogue, sock: Socket, prefixBytes: nat) returns (delivered: seq<Message>)
    modifies sock`inbound
    ensures delivered == Deliver(table, old(sock.inbound), prefixBytes)
  {
    hide Parse, ReadFrame;
    ghost var stream := sock.inbound;
    delivered := [];
    while true
      invariant Deliver(table, stream, prefixBytes) == delivered + Deliver(table, sock.inbound, prefixBytes)
      decreases |sock.inbound|
    {
      ghost var before := sock.inbound;
      var raw := ReadFramedMessage(sock, prefixBytes);
      if raw.None? {
        return;
      }
      EmptyFrame(table);
      var parsed := ParseMessage(table, raw.value, 0);
      if parsed.None? {
        return;
      }
      delivered := delivered + [parsed.value.0];
    }
  }
}
