/** Messages in a file (iso8583/parser.py:477-515). */
module MessageFile {
  import opened Wrappers
  import opened Bytes
  import opened FieldCatalogue
  import opened Codec
  import opened Framing
  import Bitmap

  /** What the reader yields from pos on, and whether it came to the end without raising. */
  function ReadFrom(table: Catalogue, data: seq<byte>, pos: nat, prefixBytes: nat): (seq<Message>, bool)
    decreases |data| - pos
  {
    if pos >= |data| then ([], true)
    else
      var length := FromBytes(Slice(data, pos, pos + prefixBytes));
      var next := pos + prefixBytes + length;
      EmptyFrame(table);
      var parsed := Parse(table, Slice(data, pos + prefixBytes, next), 0);
      if parsed.None? then ([], false)
      else
        var (rest, ok) := ReadFrom(table, data, next, prefixBytes);
        ([parsed.value.0] + rest, ok)
  }

  lemma ReadOne(table: Catalogue, data: seq<byte>, pos: nat, prefixBytes: nat, m: Outgoing, frame: seq<byte>)
    requires Build(table, m.mti, m.fields).Some?
    requires Frame(Build(table, m.mti, m.fields).value, prefixBytes) == Some(frame)
    requires Holds(data, pos, frame)
    ensures Through(table, m).None? ==> ReadFrom(table, data, pos, prefixBytes) == ([], false)
    ensures Through(table, m).Some? ==>
              ReadFrom(table, data, pos, prefixBytes) ==
              var (rest, ok) := ReadFrom(table, data, pos + |frame|, prefixBytes);
              ([Through(table, m).value] + rest, ok)
  {
    hide Build, Parse, BigEndian, FromBytes;
    var built := Build(table, m.mti, m.fields).value;
    var header := BigEndian(|built|, prefixBytes);
    FromToBytes(|built|, prefixBytes);
    HoldsSplit(data, pos, header, built);
    EmptyFrame(table);
    BuiltIsLong(table, m);
    assert Slice(data, pos, pos + prefixBytes) == header;
    assert Slice(data, pos + prefixBytes, pos + prefixBytes + |built|) == built;
  }

  /** A built message is not empty: it has a bitmap. */
  lemma BuiltIsLong(table: Catalogue, m: Outgoing)
    requires Build(table, m.mti, m.fields).Some?
    ensures |Build(table, m.mti, m.fields).value| > 0
  {
    hide EncodeFields;
    Bitmap.BuildIsBitmap(m.fields.Keys);
  }

  lemma {:induction false} ReadAll(
      table: Catalogue, messages: seq<Outgoing>, prefixBytes: nat, data: seq<byte>, pos: nat)
    requires FrameAll(table, messages, prefixBytes).Some?
    requires pos <= |data| && data[pos..] == FrameAll(table, messages, prefixBytes).value
    ensures ReadFrom(table, data, pos, prefixBytes) ==
            (HandedOn(table, messages), |HandedOn(table, messages)| == |messages|)
    decreases |messages|
  {
    hide Build, Through, Frame, ReadFrom;
    if messages == [] {
      assert pos == |data|;
      ReadNothing(table, data, pos, prefixBytes);
    } else {
      var m := messages[0];
      var frame := Frame(Build(table, m.mti, m.fields).value, prefixBytes).value;
      var rest := FrameAll(table, messages[1..], prefixBytes).value;
      assert data[pos..][..|frame|] == frame && data[pos..][|frame|..] == rest;
      ReadOne(table, data, pos, prefixBytes, m, frame);
      ReadAll(table, messages[1..], prefixBytes, data, pos + |frame|);
    }
  }

  lemma ReadNothing(table: Catalogue, data: seq<byte>, pos: nat, prefixBytes: nat)
    requires pos >= |data|
    ensures ReadFrom(table, data, pos, prefixBytes) == ([], true)
  {
  }

  /**
    Whatever is written with length prefixes is read back message by message, up to the first that cannot be parsed
    alone; reading comes to the end exactly when there is none.
   */
  lemma FileReads(table: Catalogue, messages: seq<Outgoing>, prefixBytes: nat)
    requires FrameAll(table, messages, prefixBytes).Some?
    ensures ReadFrom(table, FrameAll(table, messages, prefixBytes).value, 0, prefixBytes) ==
            (HandedOn(table, messages), forall m | m in messages :: Through(table, m).Some?)
  {
    hide Through, FrameAll;
    var data := FrameAll(table, messages, prefixBytes).value;
    assert data[0..] == data;
    ReadAll(table, messages, prefixBytes, data, 0);
    AllHandedOn(table, messages);
  }

  lemma {:induction false} AllHandedOn(table: Catalogue, messages: seq<Outgoing>)
    ensures |HandedOn(table, messages)| <= |messages|
    ensures |HandedOn(table, messages)| == |messages| <==> forall m | m in messages :: Through(table, m).Some?
  {
    hide Through;
    if messages != [] {
      AllHandedOn(table, messages[1..]);
      assert messages == [messages[0]] + messages[1..];
    }
  }

  /** Messages that the catalogue carries are read back in order, in canonical form. */
  lemma FileRoundTrip(table: Catalogue, messages: seq<Outgoing>, prefixBytes: nat)
    requires AllCarried(table, messages)
    requires FrameAll(table, messages, prefixBytes).Some?
    ensures ReadFrom(table, FrameAll(table, messages, prefixBytes).value, 0, prefixBytes) ==
            (CanonicalMessages(table, messages), true)
  {
    hide FrameAll, ReadFrom, Through, CanonicalMessage;
    FileReads(table, messages, prefixBytes);
    HandedOnCarried(table, messages);
    forall m | m in messages
      ensures Through(table, m).Some?
    {
      assert Carries(table, m);
      CarriedThrough(table, m);
    }
  }

  /** Without length prefixes only the first message comes back, whatever was written after it. */
  lemma UnframedFile(table: Catalogue, first: Outgoing, after: seq<byte>)
    requires Carries(table, first)
    ensures Build(table, first.mti, first.fields).Some?
    ensures var parsed := Parse(table, Build(table, first.mti, first.fields).value + after, 0);
            parsed.Some? && parsed.value.0 == CanonicalMessage(table, first)
  {
    hide Build, Parse, WellFormed;
    RoundTrip(table, first.mti, first.fields, [], after);
    var built := Build(table, first.mti, first.fields).value;
    assert [] + built + after == built + after;
  }

  /** iter_messages_from_file, run to its end; ok is false when the iteration stops with an exception. */
  method IterMessages(table: Catalogue, data: seq<byte>, lengthPrefixed: bool, prefixBytes: nat)
    returns (yielded: seq<Message>, ok: bool)
    ensures lengthPrefixed ==> (yielded, ok) == ReadFrom(table, data, 0, prefixBytes)
    ensures !lengthPrefixed ==> ok == Parse(table, data, 0).Some?
    ensures !lengthPrefixed && ok ==> yielded == [Parse(table, data, 0).value.0]
  {
    hide Parse, Slice, FromBytes;
    yielded, ok := [], true;
    if !lengthPrefixed {
      var parsed := ParseMessage(table, data, 0);
      if parsed.None? {
        return [], false;
      }
      return [parsed.value.0], true;
    }
    var pos := 0;
    ghost var whole := ReadFrom(table, data, 0, prefixBytes);
    assert [] + whole.0 == whole.0;
    while pos < |data|
      invariant whole.0 == yielded + ReadFrom(table, data, pos, prefixBytes).0
      invariant whole.1 == ReadFrom(table, data, pos, prefixBytes).1
      decreases |data| - pos
    {
      var msgLen := FromBytes(Slice(data, pos, pos + prefixBytes));
      pos := pos + prefixBytes;
      var msgBytes := Slice(data, pos, pos + msgLen);
      EmptyFrame(table);
      var parsed := ParseMessage(table, msgBytes, 0);
      if parsed.None? {
        assert yielded + [] == yielded;
        return yielded, false;
      }
      ghost var rest := ReadFrom(table, data, pos + msgLen, prefixBytes).0;
      assert yielded + ([parsed.value.0] + rest) == (yielded + [parsed.value.0]) + rest;
      yielded := yielded + [parsed.value.0];
      pos := pos + msgLen;
    }
  }

  // ----- writing

  /** What the writer puts down for one message. */
  function Record(table: Catalogue, m: Outgoing, lengthPrefixed: bool, prefixBytes: nat): Option<seq<byte>> {
    var raw :- Build(table, m.mti, m.fields);
    if lengthPrefixed then Frame(raw, prefixBytes) else Some(raw)
  }

  /** What is in the file when the writer ends, and whether it came to the end without raising. */
  function Written(table: Catalogue, messages: seq<Outgoing>, lengthPrefixed: bool, prefixBytes: nat): (seq<byte>, bool) {
    if messages == [] then ([], true)
    else
      var record := Record(table, messages[0], lengthPrefixed, prefixBytes);
      if record.None? then ([], false)
      else
        var (rest, ok) := Written(table, messages[1..], lengthPrefixed, prefixBytes);
        (record.value + rest, ok)
  }

  /** With length prefixes the file is the framed list, or the writer raises when the list cannot be framed. */
  lemma {:induction false} WrittenIsFramed(table: Catalogue, messages: seq<Outgoing>, prefixBytes: nat)
    ensures Written(table, messages, true, prefixBytes).1 <==> FrameAll(table, messages, prefixBytes).Some?
    ensures FrameAll(table, messages, prefixBytes).Some? ==>
              Written(table, messages, true, prefixBytes).0 == FrameAll(table, messages, prefixBytes).value
    decreases |messages|
  {
    hide Build, Frame;
    if messages != [] {
      WrittenIsFramed(table, messages[1..], prefixBytes);
    }
  }

  /** Whatever is written without prefixes, reading it back gives the first message alone. */
  lemma UnframedRoundTrip(table: Catalogue, messages: seq<Outgoing>, prefixBytes: nat)
    requires AllCarried(table, messages) && messages != []
    ensures Written(table, messages, false, prefixBytes).1
    ensures var parsed := Parse(table, Written(table, messages, false, prefixBytes).0, 0);
            parsed.Some? && parsed.value.0 == CanonicalMessage(table, messages[0])
  {
    hide Build, Parse, WellFormed;
    assert Carries(table, messages[0]);
    UnframedWrites(table, messages, prefixBytes);
    UnframedFile(table, messages[0], Written(table, messages[1..], false, prefixBytes).0);
  }

  lemma {:induction false} UnframedWrites(table: Catalogue, messages: seq<Outgoing>, prefixBytes: nat)
    requires AllCarried(table, messages)
    ensures Written(table, messages, false, prefixBytes).1
    decreases |messages|
  {
    hide Build, WellFormed;
    if messages != [] {
      assert Carries(table, messages[0]);
      CarriedBuilds(table, messages[0].mti, messages[0].fields);
      UnframedWrites(table, messages[1..], prefixBytes);
    }
  }

  /** write_messages_to_file; ok is false when it raises, and content is what is in the file then. */
  method WriteMessages(table: Catalogue, messages: seq<Outgoing>, lengthPrefixed: bool, prefixBytes: nat)
    returns (content: seq<byte>, ok: bool)
    ensures (content, ok) == Written(table, messages, lengthPrefixed, prefixBytes)
  {
    hide Build, Frame;
    content, ok := [], true;
    ghost var whole := Written(table, messages, lengthPrefixed, prefixBytes);
    assert messages[0..] == messages && [] + whole.0 == whole.0;
    for i := 0 to |messages|
      invariant whole.0 == content + Written(table, messages[i..], lengthPrefixed, prefixBytes).0
      invariant whole.1 == Written(table, messages[i..], lengthPrefixed, prefixBytes).1
    {
      var m := messages[i];
      assert messages[i..][1..] == messages[i + 1..];
      assert content + [] == content;
      var raw := BuildMessage(table, m.mti, m.fields);
      if raw.None? {
        return content, false;
      }
      if lengthPrefixed {
        var frame := Frame(raw.value, prefixBytes);
        if frame.None? {
          return content, false;
        }
        ghost var rest := Written(table, messages[i + 1..], lengthPrefixed, prefixBytes).0;
        assert content + (frame.value + rest) == (content + frame.value) + rest;
        content := content + frame.value;
      } else {
        ghost var rest := Written(table, messages[i + 1..], lengthPrefixed, prefixBytes).0;
        assert content + (raw.value + rest) == (content + raw.value) + rest;
        content := content + raw.value;
      }
    }
    assert content + [] == content;
  }
}
