/** The command server's reader and framing loop over a connection that hands out network buffers. */
module CommandService {
  import opened Bytes
  import opened Packet
  import opened CommandStream

  datatype NetBuf = Null | Buf(index: nat)

  /** The network stack's side: it hands out one buffer per received chunk, empty ones included, and then an error;
      every buffer handed out has to be given back. */
  class Connection {
    const chunks: seq<seq<byte>>
    var received: nat
    var deletions: seq<nat>

    constructor (cs: seq<seq<byte>>)
      ensures chunks == cs && received == 0 && deletions == seq(|cs|, _ => 0)
    {
      chunks := cs;
      received := 0;
      deletions := seq(|cs|, _ => 0);
    }

    /** All buffers received before `open` have been deleted once, no other one has. */
    ghost predicate DeletedUpTo(open: nat)
      reads this
    {
      && open <= received <= |chunks| == |deletions|
      && forall i :: 0 <= i < |deletions| ==> deletions[i] == if i < open then 1 else 0
    }

    ghost function Coming(): seq<byte>
      reads this
      requires received <= |chunks|
    {
      Flatten(chunks[received..])
    }

    method Recv() returns (buffer: NetBuf)
      requires received <= |chunks|
      modifies this`received
      ensures if old(received) == |chunks| then buffer == Null && received == old(received)
              else buffer == Buf(old(received)) && received == old(received) + 1
    {
      if received == |chunks| {
        return Null;
      }
      buffer := Buf(received);
      received := received + 1;
    }

    method Delete(index: nat)
      requires index < received <= |chunks| == |deletions|
      modifies this`deletions
      ensures deletions == old(deletions)[index := old(deletions)[index] + 1]
    {
      deletions := deletions[index := deletions[index] + 1];
    }
  }

  class Reader {
    const conn: Connection
    var current: NetBuf
    var offset: nat
    var length: nat

    /** The buffer at hand is the latest one received and not yet deleted; all earlier ones are gone. */
    ghost predicate Valid()
      reads this, conn
    {
      match current
      case Null => conn.DeletedUpTo(conn.received)
      case Buf(i) => i + 1 == conn.received && conn.DeletedUpTo(i) && length == |conn.chunks[i]| && offset <= length
    }

    /** The flat stream still to be read. */
    ghost function Rest(): seq<byte>
      requires Valid()
      reads this, conn
    {
      (if current.Null? then [] else conn.chunks[current.index][offset..]) + conn.Coming()
    }

    constructor (c: Connection)
      requires c.DeletedUpTo(c.received)
      ensures conn == c && Valid() && current == Null && Rest() == c.Coming()
    {
      conn := c;
      current, offset, length := Null, 0, 0;
    }

    /** Move on to the next buffer. */
    method Refill() returns (ok: bool)
      requires Valid() && (current.Null? || offset >= length)
      modifies this, conn
      ensures Valid() && conn.received >= old(conn.received)
      ensures Rest() == old(Rest())
      ensures !ok ==> Rest() == []
      ensures ok ==> current.Buf? && conn.received == old(conn.received) + 1
    {
      if current.Buf? {
        conn.Delete(current.index);
        current := Null;
      }
      current := conn.Recv();
      if current.Null? {
        return false;
      }
      length, offset := |conn.chunks[current.index]|, 0;
      ok := true;
    }

    lemma ReceivedBound()
      requires Valid()
      ensures conn.received <= |conn.chunks|
    {}

    /** What the reader sees after n bytes of the buffer at hand are used. */
    lemma Consumed(source: seq<byte>, from: nat, n: nat, coming: seq<byte>)
      requires from + n <= |source|
      ensures (source[from..] + coming)[..n] == source[from..from + n]
      ensures (source[from..] + coming)[n..] == source[from + n..] + coming
    {}

    /** Copy from the buffer at hand. */
    method Take(dest: array<byte>, at: nat, needed: nat) returns (n: nat)
      requires Valid() && current.Buf? && offset < length && at < needed <= dest.Length
      modifies this`offset, dest
      ensures Valid() && 0 < n <= needed - at
      ensures n <= |old(Rest())| && Rest() == old(Rest())[n..]
      ensures dest[..] == Overwrite(old(dest[..]), at, old(Rest())[..n])
    {
      hide Flatten, Overwrite;
      var available := length - offset;
      n := if needed - at < available then needed - at else available;
      var source := conn.chunks[current.index];
      Consumed(source, offset, n, conn.Coming());
      Memcpy(dest, at, source[offset..offset + n]);
      offset := offset + n;
    }

    /** Exactly `needed` bytes of the flat stream, however it was cut into buffers; or everything is used up. */
    method ReadExact(dest: array<byte>, needed: nat) returns (ok: bool)
      requires Valid() && needed <= dest.Length
      modifies this, conn, dest
      ensures Valid() && ok == (needed <= |old(Rest())|)
      ensures ok ==> dest[..needed] == old(Rest())[..needed] && dest[needed..] == old(dest[needed..])
                     && Rest() == old(Rest())[needed..]
      ensures !ok ==> Rest() == []
    {
      hide Valid, Rest, Overwrite;
      ghost var flat := Rest();
      ghost var before := dest[..];
      OverwriteNothing(before);
      ReceivedBound();
      assert flat[0..] == flat;
      var copied := 0;
      while copied < needed
        invariant Valid() && conn.received <= |conn.chunks| && copied <= needed && copied <= |flat|
        invariant dest[..] == Overwrite(before, 0, flat[..copied])
        invariant Rest() == flat[copied..]
        decreases needed - copied + (|conn.chunks| - conn.received)
      {
        if current.Null? || offset >= length {
          var more := Refill();
          ReceivedBound();
          if !more {
            return false;
          }
        }
        if offset < length {
          var n := Take(dest, copied, needed);
          Advance(before, flat, copied, n);
          copied := copied + n;
        }
      }
      Overwritten(before, flat[..needed]);
      ok := true;
    }

    /** The destructor. */
    method Close()
      requires Valid()
      modifies this, conn
      ensures conn.DeletedUpTo(conn.received) && conn.received == old(conn.received)
    {
      if current.Buf? {
        conn.Delete(current.index);
      }
    }
  }

  lemma OverwriteNothing(before: seq<byte>)
    ensures Overwrite(before, 0, []) == before
  {}

  lemma Overwritten(before: seq<byte>, data: seq<byte>)
    requires |data| <= |before|
    ensures Overwrite(before, 0, data)[..|data|] == data
    ensures Overwrite(before, 0, data)[|data|..] == before[|data|..]
  {}

  lemma Advance(before: seq<byte>, flat: seq<byte>, copied: nat, n: nat)
    requires copied + n <= |flat| && copied + n <= |before|
    ensures Overwrite(Overwrite(before, 0, flat[..copied]), copied, flat[copied..][..n])
         == Overwrite(before, 0, flat[..copied + n])
    ensures flat[copied..][n..] == flat[copied + n..]
  {
    OverwriteNext(before, 0, flat[..copied], flat[copied..][..n]);
    assert flat[..copied] + flat[copied..][..n] == flat[..copied + n];
  }

  /** One round of the framing loop. */
  method NextFrame(reader: Reader, header: array<byte>, payload: array<byte>) returns (step: Arrival)
    requires reader.Valid() && header != payload
    requires header.Length == HEADER_SIZE && payload.Length == PAYLOAD_BUFFER_SIZE
    modifies reader, reader.conn, header, payload
    ensures reader.Valid() && step == Front(old(reader.Rest()))
    ensures step.Next? ==> reader.Rest() == old(reader.Rest())[HEADER_SIZE + |step.frame.payload|..]
  {
    hide Reader.Valid, Reader.Rest, Decode;
    ghost var flat := reader.Rest();
    var ok := reader.ReadExact(header, HEADER_SIZE);
    if !ok {
      return Stop(OutOfInput);
    }
    assert header[..] == flat[..HEADER_SIZE];
    var h := Decode(header[..]);
    if h.magic != PE_MAGIC {
      return Stop(InvalidMagicNack(h.msgType));
    }
    if h.payloadLen > PAYLOAD_BUFFER_SIZE {
      return Stop(InvalidPayloadNack(h.msgType));
    }
    if h.payloadLen > 0 {
      ok := reader.ReadExact(payload, h.payloadLen);
      if !ok {
        return Stop(OutOfInput);
      }
    }
    ghost var n := HEADER_SIZE + h.payloadLen;
    assert flat[HEADER_SIZE..][..h.payloadLen] == flat[HEADER_SIZE..n];
    assert flat[HEADER_SIZE..][h.payloadLen..] == flat[n..];
    step := Next(Frame(h, payload[..h.payloadLen]));
  }

  /** One connection served: the framing loop reads packets through the reader and dispatches them. What is dispatched
      is the parse of the concatenated bytes, and every buffer received is deleted exactly once. */
  method HandleClient(conn: Connection) returns (served: Dispatch)
    requires conn.received == 0 && conn.DeletedUpTo(0)
    modifies conn
    ensures served == Parse(Flatten(conn.chunks))
    ensures conn.DeletedUpTo(conn.received)
  {
    hide Flatten, Reader.Rest, Front, Parse, Then, Reader.Valid;
    var reader := new Reader(conn);
    ghost var flat := reader.Rest();
    var header := new byte[HEADER_SIZE];
    var payload := new byte[PAYLOAD_BUFFER_SIZE];
    var frames: seq<Frame> := [];
    var ending := OutOfInput;
    ThenNone(Parse(flat));
    while true
      invariant reader.conn == conn && reader.Valid() && fresh(reader)
      invariant Parse(flat) == Then(frames, Parse(reader.Rest()))
      decreases |reader.Rest()|
    {
      ghost var rest := reader.Rest();
      var step := NextFrame(reader, header, payload);
      ParseFront(frames, rest);
      if step.Stop? {
        ending := step.ending;
        break;
      }
      frames := frames + [step.frame];
      if step.frame.header.msgType != CMD_OTA_DATA {
        ending := Served;
        break;
      }
    }
    reader.Close();
    served := Dispatch(frames, ending);
  }

  lemma ThenNone(d: Dispatch)
    ensures Then([], d) == d
  {}

  lemma ParseFront(frames: seq<Frame>, flat: seq<byte>)
    ensures match Front(flat)
            case Stop(ending) => Then(frames, Parse(flat)) == Dispatch(frames, ending)
            case Next(f) =>
              && HEADER_SIZE + |f.payload| <= |flat|
              && Then(frames, Parse(flat))
                 == if f.header.msgType != CMD_OTA_DATA then Dispatch(frames + [f], Served)
                    else Then(frames + [f], Parse(flat[HEADER_SIZE + |f.payload|..]))
  {
    hide Decode;
    if Front(flat).Next? {
      var f := Front(flat).frame;
      var rest := Parse(flat[HEADER_SIZE + |f.payload|..]).frames;
      assert frames + ([f] + rest) == frames + [f] + rest;
    }
  }

  // ---------- independence of the fragmentation ----------

  /** A connection with these chunks: what is dispatched depends on their concatenation only, and each buffer that was
      received, and no other, has been deleted once. */
  method Serve(chunks: seq<seq<byte>>) returns (served: Dispatch, received: nat, deletions: seq<nat>)
    ensures served == Parse(Flatten(chunks))
    ensures received <= |chunks| == |deletions|
    ensures forall i :: 0 <= i < |deletions| ==> deletions[i] == if i < received then 1 else 0
  {
    hide Flatten, Parse;
    var conn := new Connection(chunks);
    served := HandleClient(conn);
    received, deletions := conn.received, conn.deletions;
  }

  /** The same bytes with the i-th chunk cut in two at k; either piece may be empty. */
  function Recut(chunks: seq<seq<byte>>, i: nat, k: nat): seq<seq<byte>>
    requires i < |chunks| && k <= |chunks[i]|
  {
    chunks[..i] + [chunks[i][..k], chunks[i][k..]] + chunks[i + 1..]
  }

  /** Re-cutting a chunk anywhere leaves the stream, and with it everything dispatched, as it was. */
  lemma RecutKeepsDispatch(chunks: seq<seq<byte>>, i: nat, k: nat)
    requires i < |chunks| && k <= |chunks[i]|
    ensures Flatten(Recut(chunks, i, k)) == Flatten(chunks)
    ensures Parse(Flatten(Recut(chunks, i, k))) == Parse(Flatten(chunks))
  {
    hide Parse, Flatten;
    var pieces := [chunks[i][..k], chunks[i][k..]];
    FlattenConcat(chunks[..i] + pieces, chunks[i + 1..]);
    FlattenConcat(chunks[..i], pieces);
    PiecesJoin(chunks[i], k);
    assert chunks == chunks[..i] + [chunks[i]] + chunks[i + 1..];
    FlattenConcat(chunks[..i] + [chunks[i]], chunks[i + 1..]);
    FlattenConcat(chunks[..i], [chunks[i]]);
  }

  lemma PiecesJoin(whole: seq<byte>, k: nat)
    requires k <= |whole|
    ensures Flatten([whole[..k], whole[k..]]) == whole == Flatten([whole])
  {
    var pieces := [whole[..k], whole[k..]];
    assert pieces[1..] == [whole[k..]] && [whole[k..]][1..] == [] && [whole][1..] == [];
    assert Flatten([whole[k..]]) == whole[k..] + Flatten([]);
    assert Flatten([whole]) == whole + Flatten([]);
  }
}
