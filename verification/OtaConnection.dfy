/** The OTA service behind the command server: connections served by the reader and the handlers, and the update from
    the host's bytes to the flash. */
module OtaConnection {
  import opened Bytes
  import CommandService
  import opened CommandStream
  import opened OtaTypes
  import opened OtaSession
  import opened OtaTransfer
  import opened OtaService
  import opened OtaWire
  import opened NorFlash
  import opened ExternalFlash
  import opened Bootloader
  import OtaUpdater

  /** processCommand, as far as it concerns the OTA service. */
  method ProcessCommand(svc: Service, ctrl: Controller, buffer: PayloadBuffer, f: Frame) returns (reply: StatusCode)
    requires svc.Valid() && ServeFrame(svc.View(), svc.ram.stagingAddress, ctrl, buffer, f).Exchange?
    modifies svc, svc.ram`controlBlock, svc.ram.staging
    ensures svc.Valid()
    ensures Exchange(svc.View(), [reply]) == ServeFrame(old(svc.View()), svc.ram.stagingAddress, ctrl, buffer, f)
  {
    hide Consistent, CommandOf, AfterBegin, AfterData, AfterEnd, AfterAbort, Service.View, Overruns;
    match CommandOf(f, buffer, ctrl) {
      case Handler(Begin(c, req)) =>
        var status, _, _ := svc.HandleBegin(c, req);
        reply := status;
      case Handler(Data(c, req)) => reply := svc.HandleData(c, req);
      case Handler(End(autoReboot)) => reply := svc.HandleEnd(autoReboot);
      case Handler(Abort) => reply := svc.HandleAbort();
      case TooShort => reply := ERR_INVALID_PAYLOAD;
      case Overlong(offset, length) => reply := svc.RefuseOverlong(offset, length);
      case NotOta => reply := OK;
      case Unknown => reply := ERR_UNKNOWN_CMD;
    }
  }

  ghost function Continued(replies: seq<StatusCode>, x: Exchange): Exchange {
    if x.Undefined? then Undefined else Exchange(x.session, replies + x.replies)
  }

  lemma ServeNext(s: Session, address: u32, ctrl: Controller, buffer: PayloadBuffer, frames: seq<Frame>, i: nat,
                  replies: seq<StatusCode>)
    requires Consistent(s, address) && i < |frames|
    ensures var first := ServeFrame(s, address, ctrl, buffer, frames[i]);
            && Sane(first, address)
            && Continued(replies, ServeFrames(s, address, ctrl, buffer, frames[i..]))
               == (if first.Undefined? then Undefined
                   else Continued(replies + first.replies,
                                  ServeFrames(first.session, address, ctrl, Loaded(buffer, frames[i].payload),
                                              frames[i + 1..])))
  {
    hide Consistent, ServeFrame;
    assert frames[i..][0] == frames[i] && frames[i..][1..] == frames[i + 1..];
    var first := ServeFrame(s, address, ctrl, buffer, frames[i]);
    if first.Exchange? {
      var rest := ServeFrames(first.session, address, ctrl, Loaded(buffer, frames[i].payload), frames[i + 1..]);
      if rest.Exchange? {
        assert replies + (first.replies + rest.replies) == replies + first.replies + rest.replies;
      }
    }
  }

  lemma ServeNone(s: Session, address: u32, ctrl: Controller, buffer: PayloadBuffer, frames: seq<Frame>,
                  replies: seq<StatusCode>)
    requires Consistent(s, address)
    ensures Continued(replies, ServeFrames(s, address, ctrl, buffer, frames[|frames|..])) == Exchange(s, replies)
    ensures Continued([], ServeFrames(s, address, ctrl, buffer, frames[0..]))
         == ServeFrames(s, address, ctrl, buffer, frames)
  {
    hide Consistent, ServeFrame;
    assert frames[|frames|..] == [] && frames[0..] == frames;
    var x := ServeFrames(s, address, ctrl, buffer, frames);
    if x.Exchange? {
      assert [] + x.replies == x.replies;
    }
  }

  /** One connection, from the chunks the network delivers to the service's fields. */
  method ServeConnection(svc: Service, ctrl: Controller, residue: PayloadBuffer, chunks: seq<seq<byte>>)
      returns (replies: seq<StatusCode>)
    requires svc.Valid() && Connect(svc.View(), svc.ram.stagingAddress, ctrl, residue, chunks).Exchange?
    modifies svc, svc.ram`controlBlock, svc.ram.staging
    ensures svc.Valid()
    ensures Exchange(svc.View(), replies) == Connect(old(svc.View()), svc.ram.stagingAddress, ctrl, residue, chunks)
  {
    hide Consistent, ServeFrame, ServeFrames, Parse, Flatten, Service.View;
    var dispatch, _, _ := CommandService.Serve(chunks);
    var frames, buffer := dispatch.frames, residue;
    ghost var all := ServeFrames(svc.View(), svc.ram.stagingAddress, ctrl, buffer, frames);
    replies := [];
    ServeNone(svc.View(), svc.ram.stagingAddress, ctrl, buffer, frames, []);
    for i := 0 to |frames|
      invariant svc.Valid()
      invariant Continued(replies, ServeFrames(svc.View(), svc.ram.stagingAddress, ctrl, buffer, frames[i..])) == all
    {
      ServeNext(svc.View(), svc.ram.stagingAddress, ctrl, buffer, frames, i, replies);
      var reply := ProcessCommand(svc, ctrl, buffer, frames[i]);
      buffer := Loaded(buffer, frames[i].payload);
      replies := replies + [reply];
    }
    ServeNone(svc.View(), svc.ram.stagingAddress, ctrl, buffer, frames, replies);
  }

  /** End to end from the bytes on the wire: with a connection for each phase and any network that keeps the order of
      bytes, the update and the following boot install exactly the images that fit and pass the header gate. */
  lemma EndToEndOverWire(s: Session, address: u32, ctrl: Controller, image: seq<byte>, version: u32, autoReboot: bool,
                         seqNum: u32, network: seq<byte> -> seq<seq<byte>>, residue: nat -> PayloadBuffer,
                         cells: seq<byte>, script: seq<CallResult>)
    requires Consistent(s, address) && |image| < TWO32 && Delivers(network)
    requires OtaUpdater.MatchesBootloader(ctrl) && ctrl.otaEnabled && NoFaults(script)
    requires 0x2000_0000 <= address < 0x3000_0000 && RoundUpSector(|image|) <= |cells|
    ensures var x := OverWire(s, address, ctrl, image, version, autoReboot, seqNum, network, residue);
            && x.Exchange?
            && (LastReply(x.replies) == OK <==> 0 < |image| <= MAX_IMAGE_SIZE && HeaderInstallable(image))
            && (LastReply(x.replies) == OK ==>
                  && |x.session.staging| == MAX_IMAGE_SIZE
                  && CanBoot(x.session.block, MAX_IMAGE_SIZE, address, |cells|)
                  && Boot(x.session.block, x.session.staging, address, cells, script)
                     == BootRun(Installed(cells, image), CLEARED_BLOCK, OTA_UPDATE))
  {
    hide Consistent, Conversation, OverWire, Delivers, Boot, CanBoot, Installed, HeaderInstallable, LastReply, NoFaults,
         RoundUpSector, OtaUpdater.MatchesBootloader;
    ConsistentStaging(s, address);
    OverWireIsConversation(s, address, ctrl, image, version, autoReboot, seqNum, network, residue);
    OtaUpdater.EndToEnd(s, address, ctrl, image, version, autoReboot, cells, script);
  }
}
