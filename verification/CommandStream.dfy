/** What a command connection dispatches, as a function of the received bytes alone. */
module CommandStream {
  import opened Bytes
  import opened Packet

  const CMD_OTA_DATA: u16 := 0x0132
  const PAYLOAD_BUFFER_SIZE := 2048

  datatype Frame = Frame(header: Header, payload: seq<byte>)

  /** Why the connection is closed: input ran out, a refused header that is answered with a NACK for its message type,
      or a command that closes its connection. */
  datatype Ending =
    | OutOfInput
    | InvalidMagicNack(msgType: u16)
    | InvalidPayloadNack(msgType: u16)
    | Served

  datatype Dispatch = Dispatch(frames: seq<Frame>, ending: Ending)

  datatype Arrival = Stop(ending: Ending) | Next(frame: Frame)

  /** The packet at the front of the stream. */
  function Front(flat: seq<byte>): Arrival {
    if |flat| < HEADER_SIZE then Stop(OutOfInput)
    else
      var h := Decode(flat[..HEADER_SIZE]);
      if h.magic != PE_MAGIC then Stop(InvalidMagicNack(h.msgType))
      else if h.payloadLen > PAYLOAD_BUFFER_SIZE then Stop(InvalidPayloadNack(h.msgType))
      else if |flat| < HEADER_SIZE + h.payloadLen then Stop(OutOfInput)
      else Next(Frame(h, flat[HEADER_SIZE..HEADER_SIZE + h.payloadLen]))
  }

  /** The framing of a flat byte stream: packet after packet, until input runs out, a header is refused, or a packet
      other than OTA data has been served. */
  function Parse(flat: seq<byte>): Dispatch
    decreases |flat|
  {
    match Front(flat)
    case Stop(ending) => Dispatch([], ending)
    case Next(f) =>
      if f.header.msgType != CMD_OTA_DATA then Dispatch([f], Served)
      else Then([f], Parse(flat[HEADER_SIZE + |f.payload|..]))
  }

  function Then(first: seq<Frame>, rest: Dispatch): Dispatch {
    Dispatch(first + rest.frames, rest.ending)
  }

  // ---------- sending and receiving ----------

  /** A packet the receiver takes. */
  predicate Sendable(f: Frame) {
    f.header.magic == PE_MAGIC && f.header.payloadLen == |f.payload| <= PAYLOAD_BUFFER_SIZE
  }

  function Sent(f: Frame): seq<byte> {
    Encode(f.header) + f.payload
  }

  function SentAll(fs: seq<Frame>): seq<byte>
    decreases |fs|
  {
    if fs == [] then [] else Sent(fs[0]) + SentAll(fs[1..])
  }

  lemma FirstFrame(f: Frame, rest: seq<byte>)
    requires Sendable(f)
    ensures Parse(Sent(f) + rest)
         == if f.header.msgType != CMD_OTA_DATA then Dispatch([f], Served) else Then([f], Parse(rest))
  {
    hide Encode, Decode;
    HeaderRoundTrip(f.header);
    var flat := Sent(f) + rest;
    assert flat[..HEADER_SIZE] == Encode(f.header);
    assert flat[HEADER_SIZE..HEADER_SIZE + |f.payload|] == f.payload;
    assert flat[HEADER_SIZE + |f.payload|..] == rest;
  }

  predicate AllData(fs: seq<Frame>) {
    forall i :: 0 <= i < |fs| ==> Sendable(fs[i]) && fs[i].header.msgType == CMD_OTA_DATA
  }

  /** A train of OTA data packets arrives as sent and leaves the connection open for what follows. */
  lemma {:induction false} DataTrainArrives(fs: seq<Frame>, rest: seq<byte>)
    requires AllData(fs)
    ensures Parse(SentAll(fs) + rest) == Then(fs, Parse(rest))
    decreases |fs|
  {
    hide Parse, Sent, Sendable;
    if fs == [] {
      assert SentAll(fs) + rest == rest;
      assert Then(fs, Parse(rest)).frames == Parse(rest).frames;
    } else {
      DataTrainArrives(fs[1..], rest);
      FirstFrame(fs[0], SentAll(fs[1..]) + rest);
      assert SentAll(fs) + rest == Sent(fs[0]) + (SentAll(fs[1..]) + rest);
      assert [fs[0]] + (fs[1..] + Parse(rest).frames) == fs + Parse(rest).frames;
    }
  }

  /** Any other command is served after the train and closes the connection: nothing behind it is dispatched. */
  lemma CommandEndsConversation(fs: seq<Frame>, last: Frame, rest: seq<byte>)
    requires AllData(fs) && Sendable(last) && last.header.msgType != CMD_OTA_DATA
    ensures Parse(SentAll(fs) + (Sent(last) + rest)) == Dispatch(fs + [last], Served)
  {
    hide Parse, Sent, Sendable;
    DataTrainArrives(fs, Sent(last) + rest);
    FirstFrame(last, rest);
  }

  /** On one connection a packet is dispatched exactly when every packet in front of it is OTA data. */
  lemma {:induction false} DispatchedExactly(fs: seq<Frame>)
    requires forall i :: 0 <= i < |fs| ==> Sendable(fs[i])
    ensures Parse(SentAll(fs)).frames <= fs
    ensures forall k :: 0 <= k < |fs| ==> (k < |Parse(SentAll(fs)).frames| <==> OnlyDataBefore(fs, k))
    decreases |fs|
  {
    hide Parse, Sent, Sendable;
    var d := Parse(SentAll(fs)).frames;
    if fs == [] {
      NothingReceived();
    } else {
      FirstFrame(fs[0], SentAll(fs[1..]));
      if fs[0].header.msgType != CMD_OTA_DATA {
        assert d == [fs[0]];
      } else {
        DispatchedExactly(fs[1..]);
        var rest := Parse(SentAll(fs[1..])).frames;
        assert d == [fs[0]] + rest;
        forall k | 0 <= k < |fs|
          ensures k < |d| <==> OnlyDataBefore(fs, k)
        {
          OnlyDataTail(fs, k);
        }
      }
    }
  }

  predicate OnlyDataBefore(fs: seq<Frame>, k: nat)
    requires k <= |fs|
  {
    forall j :: 0 <= j < k ==> fs[j].header.msgType == CMD_OTA_DATA
  }

  lemma OnlyDataTail(fs: seq<Frame>, k: nat)
    requires fs != [] && k < |fs| && fs[0].header.msgType == CMD_OTA_DATA
    ensures k > 0 ==> (OnlyDataBefore(fs, k) <==> OnlyDataBefore(fs[1..], k - 1))
  {
    if k > 0 {
      assert forall j :: 1 <= j < k ==> fs[j] == fs[1..][j - 1];
      assert forall j :: 0 <= j < k - 1 ==> fs[1..][j] == fs[j + 1];
    }
  }

  lemma NothingReceived()
    ensures Parse([]) == Dispatch([], OutOfInput)
  {}

  /** The other direction: whatever was dispatched, sent again, is the beginning of the received bytes. Nothing is
      invented, dropped, repeated or reordered. */
  lemma {:induction false} DispatchedWasReceived(flat: seq<byte>)
    ensures SentAll(Parse(flat).frames) <= flat
    ensures forall i :: 0 <= i < |Parse(flat).frames| ==> Sendable(Parse(flat).frames[i])
    decreases |flat|
  {
    hide Encode, Decode;
    var fs := Parse(flat).frames;
    if fs != [] {
      var h := Decode(flat[..HEADER_SIZE]);
      var n := HEADER_SIZE + h.payloadLen;
      HeaderRestored(flat[..HEADER_SIZE]);
      assert fs[0] == Frame(h, flat[HEADER_SIZE..n]);
      assert Sent(fs[0]) == flat[..n];
      if h.msgType != CMD_OTA_DATA {
        assert fs[1..] == [] && SentAll(fs) == flat[..n];
      } else {
        var rest := flat[n..];
        DispatchedWasReceived(rest);
        assert fs[1..] == Parse(rest).frames;
        PrefixAfter(flat, n, SentAll(fs[1..]));
      }
    }
  }

  lemma PrefixAfter<T>(s: seq<T>, n: nat, t: seq<T>)
    requires n <= |s| && t <= s[n..]
    ensures s[..n] + t <= s
  {
    assert s[..n + |t|] == s[..n] + s[n..][..|t|];
  }

  /** A connection cut short anywhere has dispatched a beginning of what the full stream dispatches, and ran out of
      input or ended as the full one does. */
  lemma {:induction false} CutShort(flat: seq<byte>, more: seq<byte>)
    ensures Parse(flat).frames <= Parse(flat + more).frames
    ensures Parse(flat).ending == OutOfInput || Parse(flat + more) == Parse(flat)
    decreases |flat|
  {
    hide Front;
    FrontOfLonger(flat, more);
    if Front(flat).Next? && Front(flat).frame.header.msgType == CMD_OTA_DATA {
      var f := Front(flat).frame;
      var n := HEADER_SIZE + |f.payload|;
      assert (flat + more)[n..] == flat[n..] + more;
      CutShort(flat[n..], more);
      PrefixCons(f, Parse(flat[n..]).frames, Parse(flat[n..] + more).frames);
    }
  }

  /** More input does not change a packet that is complete, nor a refused header. */
  lemma FrontOfLonger(flat: seq<byte>, more: seq<byte>)
    ensures Front(flat) != Stop(OutOfInput) ==> Front(flat + more) == Front(flat)
    ensures Front(flat).Next? ==> HEADER_SIZE + |Front(flat).frame.payload| <= |flat|
  {
    hide Decode;
    if |flat| >= HEADER_SIZE {
      assert (flat + more)[..HEADER_SIZE] == flat[..HEADER_SIZE];
      var n := HEADER_SIZE + Decode(flat[..HEADER_SIZE]).payloadLen;
      if n <= |flat| {
        assert (flat + more)[HEADER_SIZE..n] == flat[HEADER_SIZE..n];
      }
    }
  }

  lemma PrefixCons<T>(x: T, a: seq<T>, b: seq<T>)
    requires a <= b
    ensures [x] + a <= [x] + b
  {}
}
