/** The client's state (switch/client.py): the STAN counter, the connected flag and the socket in use. */
module Client {
  import opened Wrappers
  import opened Text
  import opened Bytes
  import opened FieldCatalogue
  import opened Codec
  import opened Framing
  import Bitmap
  import Correlation
  import HostSwitch

  lemma {:induction false} FrameOneMore(messages: seq<Outgoing>, m: Outgoing, prefixBytes: nat)
    requires FrameAll(FIELD_SPECS, messages, prefixBytes).Some?
    requires Build(FIELD_SPECS, m.mti, m.fields).Some?
    requires Frame(Build(FIELD_SPECS, m.mti, m.fields).value, prefixBytes).Some?
    ensures FrameAll(FIELD_SPECS, messages + [m], prefixBytes) ==
            Some(FrameAll(FIELD_SPECS, messages, prefixBytes).value +
                 Frame(Build(FIELD_SPECS, m.mti, m.fields).value, prefixBytes).value)
    decreases |messages|
  {
    hide Build, Frame, FIELD_SPECS;
    var all := messages + [m];
    if messages == [] {
      var last := Frame(Build(FIELD_SPECS, m.mti, m.fields).value, prefixBytes).value;
      assert all[1..] == [] && last + [] == [] + last;
    } else {
      FrameOneMore(messages[1..], m, prefixBytes);
      assert all[1..] == messages[1..] + [m] && all[0] == messages[0];
      var first := Frame(Build(FIELD_SPECS, messages[0].mti, messages[0].fields).value, prefixBytes).value;
      var last := Frame(Build(FIELD_SPECS, m.mti, m.fields).value, prefixBytes).value;
      var rest := FrameAll(FIELD_SPECS, messages[1..], prefixBytes).value;
      assert first + (rest + last) == (first + rest) + last;
    }
  }

  /** Something another thread does with the client. */
  datatype Doing = DrawsStan | Sends(m: Outgoing)

  function Draws(doings: seq<Doing>): nat {
    if doings == [] then 0
    else Draws(doings[..|doings| - 1]) + if doings[|doings| - 1].DrawsStan? then 1 else 0
  }

  function Messages(doings: seq<Doing>): seq<Outgoing> {
    if doings == [] then []
    else Messages(doings[..|doings| - 1]) + if doings[|doings| - 1].Sends? then [doings[|doings| - 1].m] else []
  }

  /** Some of the messages, in order: the others were not sent. */
  predicate IsPart(part: seq<Outgoing>, messages: seq<Outgoing>) {
    if messages == [] then part == []
    else
      var rest, last := messages[..|messages| - 1], messages[|messages| - 1];
      IsPart(part, rest) || (part != [] && part[|part| - 1] == last && IsPart(part[..|part| - 1], rest))
  }

  lemma NoDoings()
    ensures Draws([]) == 0 && Messages([]) == [] && IsPart([], [])
  {
  }

  lemma OneMoreDoing(doings: seq<Doing>, i: nat)
    requires i < |doings|
    ensures Draws(doings[..i + 1]) == Draws(doings[..i]) + if doings[i].DrawsStan? then 1 else 0
    ensures Messages(doings[..i + 1]) ==
            if doings[i].Sends? then Messages(doings[..i]) + [doings[i].m] else Messages(doings[..i])
  {
    assert doings[..i + 1][..i] == doings[..i];
  }

  lemma PartGrows(part: seq<Outgoing>, messages: seq<Outgoing>, m: Outgoing)
    requires IsPart(part, messages)
    ensures IsPart(part, messages + [m]) && IsPart(part + [m], messages + [m])
  {
    assert (messages + [m])[..|messages|] == messages && (part + [m])[..|part|] == part;
  }

  /** A sign-on can always be built, and fits any header there is. */
  lemma SignOnFits(stan: string, prefixBytes: nat)
    requires |stan| == 6 && AllDigits(stan)
    ensures Build(FIELD_SPECS, "0800", map[11 := stan, 70 := "001"]).Some?
    ensures Frame(Build(FIELD_SPECS, "0800", map[11 := stan, 70 := "001"]).value, prefixBytes).Some? <==>
            0 < prefixBytes
  {
    hide FIELD_SPECS, Build, Frame, BodyLength;
    HostSwitch.PathElements();
    var m := Message("0800", map[11 := stan, 70 := "001"]);
    assert Carries(FIELD_SPECS, m);
    MessageLengthExact(FIELD_SPECS, m);
    SignOnBody(stan);
    ReadFrameOfFrame(Build(FIELD_SPECS, m.mti, m.fields).value, prefixBytes, []);
    PowerBound(prefixBytes);
  }

  lemma PowerBound(k: nat)
    ensures k == 0 ==> Pow(256, k) == 1
    ensures k > 0 ==> Pow(256, k) >= 256
    decreases k
  {
    if k > 1 {
      PowerBound(k - 1);
    }
  }

  lemma SignOnBody(stan: string)
    requires |stan| == 6 && HostSwitch.IsEntry(11, Digits(6)) && HostSwitch.IsEntry(70, Digits(3))
    ensures var fields: map<HostSwitch.Element, string> := map[11 := stan, 70 := "001"];
            BodyLength(FIELD_SPECS, Bitmap.Ascending(fields.Keys, 128), fields) == 5
  {
    hide FIELD_SPECS;
    var fields: map<HostSwitch.Element, string> := map[11 := stan, 70 := "001"];
    ElevenAndSeventy(fields.Keys);
    BodyOfTwo(FIELD_SPECS, 11, 70, fields);
  }

  lemma BodyOfTwo(
      catalogue: Catalogue, a: HostSwitch.Element, b: HostSwitch.Element, fields: map<HostSwitch.Element, string>)
    requires a in fields && b in fields && a in catalogue && b in catalogue
    ensures BodyLength(catalogue, [a, b], fields) ==
            FieldLength(catalogue[a], fields[a]) + FieldLength(catalogue[b], fields[b])
  {
    hide FieldLength;
    assert [a, b][1..] == [b] && [b][1..] == [];
    assert BodyLength(catalogue, [b], fields) == FieldLength(catalogue[b], fields[b]) + BodyLength(catalogue, [], fields);
  }

  lemma ElevenAndSeventy(elements: set<HostSwitch.Element>)
    requires elements == {11, 70}
    ensures Bitmap.Ascending(elements, 128) == [11, 70]
  {
    Bitmap.AscendingBeyond(elements, 70, 128);
    Bitmap.AscendingBeyond(elements, 11, 69);
    Bitmap.AscendingBeyond(elements, 1, 10);
  }

  class ISO8583Client {
    const prefixBytes: nat
    const fileLogged: bool
    var stanCounter: nat
    var connected: bool
    var sock: Socket?
    ghost var draws: nat
    ghost var sent: seq<Outgoing>
    ghost var fragment: seq<byte>

    /**
      The counter is the number of draws modulo its range. What is on the wire is what was sent, framed, in order, and
      after it at most the part of a frame that was cut off when the socket failed.
     */
    ghost predicate Valid()
      reads this, sock
    {
      && stanCounter == draws % Correlation.STAN_MODULUS
      && (connected ==> sock != null)
      && (sock != null ==>
            && FrameAll(FIELD_SPECS, sent, prefixBytes).Some?
            && sock.outbound == FrameAll(FIELD_SPECS, sent, prefixBytes).value + fragment
            && (!sock.broken ==> fragment == [])
            && (fragment != [] ==> ReadFrame(fragment, prefixBytes).0.None?))
    }

    /** fileLogged: the audit logger writes to a file. */
    constructor (prefixBytes: nat, fileLogged: bool)
      ensures Valid() && !connected && draws == 0 && sock == null
      ensures this.prefixBytes == prefixBytes && this.fileLogged == fileLogged
    {
      this.prefixBytes, this.fileLogged := prefixBytes, fileLogged;
      stanCounter, connected, sock, draws, sent, fragment := 0, false, null, 0, [], [];
    }

    /** log_outbound: only opening or writing the file can raise. */
    method LogOutbound() returns (ok: bool)
      ensures !fileLogged ==> ok
    {
      ok := true;
      if fileLogged {
        ok := *;
      }
    }

    /** The n-th STAN is n modulo 1,000,000 in six digits. */
    method NextStan() returns (stan: string)
      requires Valid()
      modifies `stanCounter, `draws
      ensures Valid() && draws == old(draws) + 1 && stan == Correlation.Stan(draws)
    {
      stanCounter := (stanCounter + 1) % 1_000_000;
      draws := draws + 1;
      stan := Padded(stanCounter, Decimal, 6);
    }

    /**
      Writes a whole frame exactly when connected, buildable, short enough for the header, and not let down by the
      socket. When it raises after writing, it was the audit logger.
     */
    method SendMessage(mti: string, fields: map<HostSwitch.Element, string>) returns (ok: bool, written: bool)
      requires Valid()
      modifies `sent, `fragment, if sock == null then {} else {sock}
      ensures Valid()
      ensures written <==> connected && Build(FIELD_SPECS, mti, fields).Some?
                           && Frame(Build(FIELD_SPECS, mti, fields).value, prefixBytes).Some? && !sock.broken
      ensures sent == if written then old(sent) + [Message(mti, fields)] else old(sent)
      ensures ok ==> written
      ensures !fileLogged && written ==> ok
      ensures sock != null ==> sock.inbound == old(sock.inbound)
      ensures sock != null && sock.reliable ==> sock.broken == old(sock.broken)
      ensures sock != null && !written && !sock.broken ==> sock.outbound == old(sock.outbound)
      ensures sock != null && old(sock.broken) ==> sock.broken && sock.outbound == old(sock.outbound)
    {
      hide Build, Frame, FrameAll, FIELD_SPECS, ReadFrame;
      if !connected {
        return false, false;
      }
      var raw := BuildMessage(FIELD_SPECS, mti, fields);
      if raw.None? {
        return false, false;
      }
      ghost var taken, wasBroken := 0, sock.broken;
      written, taken := WriteFramedMessage(sock, raw.value, prefixBytes);
      ok := false;
      if written {
        FrameOneMore(sent, Message(mti, fields), prefixBytes);
        sent := sent + [Message(mti, fields)];
        ok := LogOutbound();
      } else if Frame(raw.value, prefixBytes).Some? && !wasBroken {
        ghost var frame := Frame(raw.value, prefixBytes).value;
        fragment := frame[..taken];
        if fragment != [] {
          CutOff(raw.value, prefixBytes, fragment);
        }
      }
    }

    method SignOn() returns (ok: bool)
      requires Valid()
      modifies `stanCounter, `draws, `sent, `fragment, if sock == null then {} else {sock}
      ensures Valid() && draws == old(draws) + 1
      ensures sent == old(sent) ||
              sent == old(sent) + [Message("0800", map[11 := Correlation.Stan(draws), 70 := "001"])]
      ensures ok ==> sent != old(sent)
      ensures !fileLogged && sent != old(sent) ==> ok
      ensures sent != old(sent) <==> connected && 0 < prefixBytes && !sock.broken
      ensures sock != null ==> sock.inbound == old(sock.inbound)
      ensures sock != null && sock.reliable ==> sock.broken == old(sock.broken)
    {
      var stan := NextStan();
      Correlation.StanText(draws);
      SignOnFits(stan, prefixBytes);
      var written;
      ok, written := SendMessage("0800", map[11 := stan, 70 := "001"]);
      assert written ==> |sent| == |old(sent)| + 1;
    }

    /** What other threads do with the client meanwhile: send_and_wait calls and heartbeats draw STANs, and send. */
    method Others(doings: seq<Doing>) returns (ghost part: seq<Outgoing>)
      requires Valid()
      modifies `stanCounter, `draws, `sent, `fragment, if sock == null then {} else {sock}
      ensures Valid() && draws == old(draws) + Draws(doings)
      ensures sent == old(sent) + part && IsPart(part, Messages(doings))
      ensures sock != null ==> sock.inbound == old(sock.inbound)
      ensures sock != null && sock.reliable ==> sock.broken == old(sock.broken)
    {
      hide Build, Frame, FrameAll, FIELD_SPECS, ReadFrame, IsPart, Messages, Draws, Correlation.Stan;
      part := [];
      NoDoings();
      for i := 0 to |doings|
        invariant Valid() && draws == old(draws) + Draws(doings[..i])
        invariant sent == old(sent) + part && IsPart(part, Messages(doings[..i]))
        invariant sock != null ==> sock.inbound == old(sock.inbound)
        invariant sock != null && sock.reliable ==> sock.broken == old(sock.broken)
      {
        OneMoreDoing(doings, i);
        match doings[i]
        case DrawsStan =>
          var stan := NextStan();
        case Sends(m) =>
          PartGrows(part, Messages(doings[..i]), m);
          var ok, written := SendMessage(m.mti, m.fields);
          if written {
            part := part + [m];
          }
      }
      assert doings[..|doings|] == doings;
    }

    /**
      One round of _connection_loop on a connection over which the peer sends fromPeer before closing it, while other
      threads use the client, before the sign-on and after it. Logging an incoming message may raise as well, and ends
      the round before that message is handed on.
     */
    method RunConnection(fromPeer: seq<byte>, reliable: bool, early: seq<Doing>, late: seq<Doing>)
      returns (delivered: seq<Message>, ghost before: seq<Outgoing>, ghost own: seq<Outgoing>, ghost after: seq<Outgoing>)
      requires Valid()
      modifies this
      ensures Valid() && !connected && sock != null && fresh(sock)
      ensures draws == old(draws) + Draws(early) + 1 + Draws(late)
      ensures sent == before + own + after && IsPart(before, Messages(early)) && IsPart(after, Messages(late))
      ensures own == [] ||
              own == [Message("0800", map[11 := Correlation.Stan(old(draws) + Draws(early) + 1), 70 := "001"])]
      ensures own == [] ==> delivered == []
      ensures delivered <= Deliver(FIELD_SPECS, fromPeer, prefixBytes)
      ensures own != [] && !fileLogged ==> delivered == Deliver(FIELD_SPECS, fromPeer, prefixBytes)
      ensures reliable && 0 < prefixBytes ==> own != []
    {
      hide Deliver, FIELD_SPECS, FrameAll, ReadFrame, Messages, IsPart, Draws, Build, Frame, Correlation.Stan;
      delivered, own := [], [];
      sock := new Socket(fromPeer, reliable);
      sent, fragment := [], [];
      NothingSent(prefixBytes);
      connected := true;
      before := Others(early);
      ghost var soFar := sent;
      var signedOn := SignOn();
      own := sent[|soFar|..];
      after := Others(late);
      if signedOn {
        var received := ReceiveLoop(FIELD_SPECS, sock, prefixBytes);
        var logged: nat := |received|;
        if fileLogged {
          logged :| 0 <= logged <= |received|;
        }
        delivered := received[..logged];
      }
      connected := false;
    }
  }

  lemma NothingSent(prefixBytes: nat)
    ensures FrameAll(FIELD_SPECS, [], prefixBytes) == Some([])
  {
  }

  /** The peer is handed exactly the messages sent on the connection, in order, as its parser makes them out. */
  lemma PeerReceives(client: ISO8583Client)
    requires client.Valid() && client.sock != null && client.prefixBytes > 0
    ensures Deliver(FIELD_SPECS, client.sock.outbound, client.prefixBytes) == HandedOn(FIELD_SPECS, client.sent)
    ensures AllCarried(FIELD_SPECS, client.sent) ==>
              HandedOn(FIELD_SPECS, client.sent) == CanonicalMessages(FIELD_SPECS, client.sent)
  {
    hide Deliver, FIELD_SPECS, FrameAll;
    StreamDelivers(FIELD_SPECS, client.sent, client.prefixBytes, client.fragment);
    if AllCarried(FIELD_SPECS, client.sent) {
      HandedOnCarried(FIELD_SPECS, client.sent);
    }
  }
}
