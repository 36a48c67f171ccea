/** The external flash behind the vendor's memory manager: every call may succeed, report a failure,
    or report success although the chip did something else. */
module ExternalFlash {
  import opened Bytes
  import opened NorFlash

  /** How one call turns out. A call that does not do its work leaves an arbitrary residue in the bytes it was
      meant to change (or, for a read, delivers it). */
  datatype CallResult = Done | Failed(residue: seq<byte>) | Silent(residue: seq<byte>)

  /** Results are taken from a script, in call order; after its end every call is done. */
  function NextResult(script: seq<CallResult>): CallResult {
    if script == [] then Done else script[0]
  }

  function RestOf(script: seq<CallResult>): seq<CallResult> {
    if script == [] then [] else script[1..]
  }

  predicate NoFaults(script: seq<CallResult>) {
    forall i :: 0 <= i < |script| ==> script[i].Done?
  }

  predicate NoSilentFaults(script: seq<CallResult>) {
    forall i :: 0 <= i < |script| ==> !script[i].Silent?
  }

  function Disturbed(cells: seq<byte>, start: nat, size: nat, residue: seq<byte>): (r: seq<byte>)
    requires start + size <= |cells|
    ensures |r| == |cells|
  {
    Overwrite(cells, start, if |residue| <= size then residue else residue[..size])
  }

  function AfterCall(cells: seq<byte>, op: Op, result: CallResult): (r: seq<byte>)
    requires op.Fits(|cells|)
    ensures |r| == |cells|
  {
    if result.Done? then Apply(cells, op) else Disturbed(cells, op.Start(), op.Size(), result.residue)
  }

  datatype FlashRun = FlashRun(cells: seq<byte>, ok: bool, script: seq<CallResult>)

  /** Issuing operations until one reports a failure. */
  function RunOps(cells: seq<byte>, ops: seq<Op>, script: seq<CallResult>): (r: FlashRun)
    requires AllFit(ops, |cells|)
    ensures |r.cells| == |cells|
    decreases |ops|
  {
    if ops == [] then FlashRun(cells, true, script)
    else
      var next := AfterCall(cells, ops[0], NextResult(script));
      if NextResult(script).Failed? then FlashRun(next, false, RestOf(script))
      else RunOps(next, ops[1..], RestOf(script))
  }

  function ReadBack(cells: seq<byte>, offset: nat, size: nat, result: CallResult): (r: seq<byte>)
    requires offset + size <= |cells|
    ensures |r| == size
  {
    if result.Done? then cells[offset..offset + size]
    else Disturbed(cells[offset..offset + size], 0, size, result.residue)
  }

  // ---------- what runs guarantee ----------

  lemma {:induction false} FaultlessRun(cells: seq<byte>, ops: seq<Op>, script: seq<CallResult>)
    requires AllFit(ops, |cells|) && NoFaults(script)
    ensures var r := RunOps(cells, ops, script);
            r.ok && r.cells == Exec(cells, ops) && NoFaults(r.script)
    decreases |ops|
  {
    hide Apply;
    if ops != [] {
      FaultlessRun(Apply(cells, ops[0]), ops[1..], RestOf(script));
    }
  }

  /** Without silent faults, a run that reports no failure did everything it was asked. */
  lemma {:induction false} HonestRun(cells: seq<byte>, ops: seq<Op>, script: seq<CallResult>)
    requires AllFit(ops, |cells|) && NoSilentFaults(script)
    ensures var r := RunOps(cells, ops, script);
            (r.ok ==> r.cells == Exec(cells, ops)) && NoSilentFaults(r.script)
    decreases |ops|
  {
    hide Apply;
    if ops != [] && !NextResult(script).Failed? {
      HonestRun(Apply(cells, ops[0]), ops[1..], RestOf(script));
    }
  }

  lemma CallKeepsTail(cells: seq<byte>, op: Op, result: CallResult, limit: nat)
    requires op.Fits(limit) && limit <= |cells|
    ensures AfterCall(cells, op, result)[limit..] == cells[limit..]
  {
    hide Apply;
    ApplyKeepsTail(cells, op, limit);
  }

  /** Whatever goes wrong, nothing beyond the operations' own range changes. */
  lemma {:induction false} RunKeepsTail(cells: seq<byte>, ops: seq<Op>, script: seq<CallResult>, limit: nat)
    requires AllFit(ops, |cells|) && AllFit(ops, limit) && limit <= |cells|
    ensures RunOps(cells, ops, script).cells[limit..] == cells[limit..]
    decreases |ops|
  {
    hide AfterCall;
    if ops != [] {
      var next := AfterCall(cells, ops[0], NextResult(script));
      CallKeepsTail(cells, ops[0], NextResult(script), limit);
      if !NextResult(script).Failed? {
        RunKeepsTail(next, ops[1..], RestOf(script), limit);
      }
    }
  }

  lemma {:induction false} RunConcat(cells: seq<byte>, a: seq<Op>, b: seq<Op>, script: seq<CallResult>)
    requires AllFit(a, |cells|) && AllFit(b, |cells|)
    ensures var r := RunOps(cells, a, script);
            RunOps(cells, a + b, script) == if r.ok then RunOps(r.cells, b, r.script) else r
    decreases |a|
  {
    hide AfterCall;
    if a == [] {
      assert a + b == b;
    } else {
      assert (a + b)[1..] == a[1..] + b;
      if !NextResult(script).Failed? {
        RunConcat(AfterCall(cells, a[0], NextResult(script)), a[1..], b, RestOf(script));
      }
    }
  }

  // ---------- the device ----------

  class ExtMem {
    const cells: array<byte>
    var script: seq<CallResult>

    constructor (cells: array<byte>, script: seq<CallResult>)
      ensures this.cells == cells && this.script == script
    {
      this.cells := cells;
      this.script := script;
    }

    /** EXTMEM_EraseSector(0, address, 4096) */
    method EraseSector(address: nat) returns (ok: bool)
      requires address + SECTOR_SIZE <= cells.Length
      modifies this, cells
      ensures ok == !NextResult(old(script)).Failed? && script == RestOf(old(script))
      ensures cells[..] == AfterCall(old(cells[..]), Erase(address), NextResult(old(script)))
    {
      var result := NextResult(script);
      script := RestOf(script);
      ok := !result.Failed?;
      if result.Done? {
        forall i | address <= i < address + SECTOR_SIZE {
          cells[i] := ERASED;
        }
      } else {
        Disturb(address, SECTOR_SIZE, result.residue);
      }
    }

    /** EXTMEM_Write(0, offset, data, |data|) */
    method Write(offset: nat, data: seq<byte>) returns (ok: bool)
      requires offset + |data| <= cells.Length
      modifies this, cells
      ensures ok == !NextResult(old(script)).Failed? && script == RestOf(old(script))
      ensures cells[..] == AfterCall(old(cells[..]), Program(offset, data), NextResult(old(script)))
    {
      hide And;
      var result := NextResult(script);
      script := RestOf(script);
      ok := !result.Failed?;
      if result.Done? {
        forall i | offset <= i < offset + |data| {
          cells[i] := And(cells[i], data[i - offset]);
        }
        assert cells[..] == Programmed(old(cells[..]), offset, data);
      } else {
        Disturb(offset, |data|, result.residue);
      }
    }

    /** EXTMEM_Read(0, offset, buffer, size) */
    method Read(offset: nat, size: nat) returns (ok: bool, buffer: seq<byte>)
      requires offset + size <= cells.Length
      modifies this`script
      ensures ok == !NextResult(old(script)).Failed? && script == RestOf(old(script))
      ensures buffer == ReadBack(cells[..], offset, size, NextResult(old(script)))
    {
      var result := NextResult(script);
      script := RestOf(script);
      ok := !result.Failed?;
      buffer := ReadBack(cells[..], offset, size, result);
    }

    method Disturb(start: nat, size: nat, residue: seq<byte>)
      requires start + size <= cells.Length
      modifies cells
      ensures cells[..] == Disturbed(old(cells[..]), start, size, residue)
    {
      forall i | start <= i < start + size && i - start < |residue| {
        cells[i] := residue[i - start];
      }
    }
  }
}
