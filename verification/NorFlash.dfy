/** NOR flash on values: erasing sets a sector to 0xFF, programming can only clear bits. The
    operations of an install, and what executing them does from any earlier content. */
module NorFlash {
  import opened Bytes

  const SECTOR_SIZE := 4096
  const ERASED: byte := 0xFF

  function And(a: byte, b: byte): byte { a & b }

  function Erased(cells: seq<byte>, address: nat): (r: seq<byte>)
    requires address + SECTOR_SIZE <= |cells|
    ensures |r| == |cells|
  {
    Overwrite(cells, address, Fill(ERASED, SECTOR_SIZE))
  }

  function Programmed(cells: seq<byte>, offset: nat, data: seq<byte>): (r: seq<byte>)
    requires offset + |data| <= |cells|
    ensures |r| == |cells|
  {
    Overwrite(cells, offset, seq(|data|, i requires 0 <= i < |data| => And(cells[offset + i], data[i])))
  }

  datatype Op = Erase(address: nat) | Program(offset: nat, data: seq<byte>)
  {
    function Start(): nat { if Erase? then address else offset }
    function Size(): nat { if Erase? then SECTOR_SIZE else |data| }
    predicate Fits(size: nat) { Start() + Size() <= size }
  }

  predicate AllFit(ops: seq<Op>, size: nat) {
    forall op :: op in ops ==> op.Fits(size)
  }

  function Apply(cells: seq<byte>, op: Op): (r: seq<byte>)
    requires op.Fits(|cells|)
    ensures |r| == |cells|
  {
    match op
    case Erase(address) => Erased(cells, address)
    case Program(offset, data) => Programmed(cells, offset, data)
  }

  function Exec(cells: seq<byte>, ops: seq<Op>): (r: seq<byte>)
    requires AllFit(ops, |cells|)
    ensures |r| == |cells|
    decreases |ops|
  {
    if ops == [] then cells else Exec(Apply(cells, ops[0]), ops[1..])
  }

  // ---------- the operations of one install ----------

  const COPY_SIZE := 1024

  function RoundUpSector(n: nat): nat {
    (n + (SECTOR_SIZE - 1)) / SECTOR_SIZE * SECTOR_SIZE
  }

  /** Erasing from sector address cur up to end. */
  function EraseOps(cur: nat, end: nat): seq<Op>
    decreases end - cur
  {
    if cur >= end then [] else [Erase(cur)] + EraseOps(cur + SECTOR_SIZE, end)
  }

  function CopyEnd(size: nat, offset: nat): nat {
    if size - offset > COPY_SIZE then offset + COPY_SIZE else size
  }

  /** Programming the image from offset on, in pieces of at most 1024 bytes. */
  function ProgramOps(image: seq<byte>, offset: nat): seq<Op>
    requires offset <= |image|
    decreases |image| - offset
  {
    if offset == |image| then []
    else
      var e := CopyEnd(|image|, offset);
      [Program(offset, image[offset..e])] + ProgramOps(image, e)
  }

  function InstallOps(image: seq<byte>): seq<Op> {
    EraseOps(0, RoundUpSector(|image|)) + ProgramOps(image, 0)
  }

  lemma {:induction false} EraseAt(first: nat, count: nat, k: nat)
    requires k < count
    ensures var ops := EraseOps(4096 * first, 4096 * (first + count));
            |ops| == count && ops[k] == Erase(4096 * (first + k))
    decreases count
  {
    if count > 1 {
      EraseAt(first + 1, count - 1, if k > 0 then k - 1 else 0);
    } else {
      assert EraseOps(4096 * (first + 1), 4096 * (first + 1)) == [];
    }
  }

  lemma {:induction false} ProgramAt(image: seq<byte>, first: nat, k: nat)
    requires 1024 * (first + k) < |image|
    ensures var ops := ProgramOps(image, 1024 * first);
            var lo := 1024 * (first + k);
            && |ops| == (|image| + 1023) / 1024 - first && k < |ops|
            && ops[k] == Program(lo, image[lo..if lo + 1024 < |image| then lo + 1024 else |image|])
    decreases |image| - 1024 * first
  {
    if 1024 * (first + 1) < |image| {
      ProgramAt(image, first + 1, if k > 0 then k - 1 else 0);
    } else {
      assert ProgramOps(image, |image|) == [];
    }
  }

  /** The operations of an install one by one: every 4096-byte sector the image reaches into is erased, in order, then
      the image is programmed in pieces of 1024 bytes and what is left. */
  lemma OperationsOfInstall(image: seq<byte>, k: nat)
    requires image != []
    ensures var ops, sectors := InstallOps(image), (|image| + 4095) / 4096;
            && |ops| == sectors + (|image| + 1023) / 1024
            && (k < sectors ==> ops[k] == Erase(4096 * k))
            && (sectors <= k < |ops| ==>
                  var lo := 1024 * (k - sectors);
                  && lo < |image|
                  && ops[k] == Program(lo, image[lo..if lo + 1024 < |image| then lo + 1024 else |image|]))
  {
    hide EraseOps, ProgramOps;
    var sectors, pieces := (|image| + 4095) / 4096, (|image| + 1023) / 1024;
    EraseAt(0, sectors, if k < sectors then k else 0);
    ProgramAt(image, 0, if sectors <= k < sectors + pieces then k - sectors else 0);
    assert RoundUpSector(|image|) == 4096 * sectors;
  }

  /** The image, 0xFF up to the sector boundary, and the old content from there on. */
  function Installed(cells: seq<byte>, image: seq<byte>): (r: seq<byte>)
    requires RoundUpSector(|image|) <= |cells|
    ensures |r| == |cells|
  {
    var up := RoundUpSector(|image|);
    image + Fill(ERASED, up - |image|) + cells[up..]
  }

  // ---------- executing them ----------

  lemma AndErased(b: byte)
    ensures And(ERASED, b) == b
  {}

  lemma ProgramOnErased(cells: seq<byte>, offset: nat, data: seq<byte>)
    requires offset + |data| <= |cells|
    requires forall i :: offset <= i < offset + |data| ==> cells[i] == ERASED
    ensures Programmed(cells, offset, data) == Overwrite(cells, offset, data)
  {
    hide And;
    forall i | 0 <= i < |data|
      ensures And(cells[offset + i], data[i]) == data[i]
    {
      AndErased(data[i]);
    }
  }

  lemma {:induction false} ExecConcat(cells: seq<byte>, a: seq<Op>, b: seq<Op>)
    requires AllFit(a, |cells|) && AllFit(b, |cells|)
    ensures Exec(cells, a + b) == Exec(Exec(cells, a), b)
    decreases |a|
  {
    hide Apply;
    if a == [] {
      assert a + b == b;
    } else {
      assert (a + b)[1..] == a[1..] + b;
      ExecConcat(Apply(cells, a[0]), a[1..], b);
    }
  }

  lemma {:induction false} EraseOpsFit(cur: nat, end: nat, size: nat)
    requires cur % SECTOR_SIZE == 0 && end % SECTOR_SIZE == 0 && end <= size
    ensures AllFit(EraseOps(cur, end), size)
    decreases end - cur
  {
    if cur < end {
      EraseOpsFit(cur + SECTOR_SIZE, end, size);
    }
  }

  lemma {:induction false} ProgramOpsFit(image: seq<byte>, offset: nat, size: nat)
    requires offset <= |image| <= size
    ensures AllFit(ProgramOps(image, offset), size)
    decreases |image| - offset
  {
    if offset < |image| {
      ProgramOpsFit(image, CopyEnd(|image|, offset), size);
    }
  }

  lemma RoundUpCovers(n: nat)
    ensures n <= RoundUpSector(n)
  {}

  lemma RoundUpSectorBounds(n: nat)
    ensures n <= RoundUpSector(n) < n + SECTOR_SIZE && RoundUpSector(n) % SECTOR_SIZE == 0
  {}

  lemma InstallOpsFit(image: seq<byte>, size: nat)
    requires RoundUpSector(|image|) <= size
    ensures AllFit(InstallOps(image), size)
  {
    hide RoundUpSector, EraseOps, ProgramOps;
    RoundUpSectorBounds(|image|);
    EraseOpsFit(0, RoundUpSector(|image|), size);
    ProgramOpsFit(image, 0, size);
  }

  lemma {:induction false} ErasesAll(cells: seq<byte>, cur: nat, end: nat)
    requires cur % SECTOR_SIZE == 0 && end % SECTOR_SIZE == 0 && cur <= end <= |cells|
    ensures AllFit(EraseOps(cur, end), |cells|)
    ensures Exec(cells, EraseOps(cur, end)) == Overwrite(cells, cur, Fill(ERASED, end - cur))
    decreases end - cur
  {
    EraseOpsFit(cur, end, |cells|);
    if cur < end {
      hide Overwrite, Fill;
      var next := cur + SECTOR_SIZE;
      assert EraseOps(cur, end)[1..] == EraseOps(next, end);
      ErasesAll(Erased(cells, cur), next, end);
      OverwriteNext(cells, cur, Fill(ERASED, SECTOR_SIZE), Fill(ERASED, end - next));
      FillNext(ERASED, SECTOR_SIZE, end - next);
    } else {
      assert cells == Overwrite(cells, cur, Fill(ERASED, 0));
    }
  }

  /** Programming over erased cells writes exactly the rest of the image. */
  lemma {:induction false} ProgramsAll(cells: seq<byte>, image: seq<byte>, offset: nat)
    requires offset <= |image| <= |cells|
    requires forall i :: offset <= i < |image| ==> cells[i] == ERASED
    ensures AllFit(ProgramOps(image, offset), |cells|)
    ensures Exec(cells, ProgramOps(image, offset)) == Overwrite(cells, offset, image[offset..])
    decreases |image| - offset
  {
    ProgramOpsFit(image, offset, |cells|);
    if offset < |image| {
      var e := CopyEnd(|image|, offset);
      var data := image[offset..e];
      ProgramOnErased(cells, offset, data);
      assert ProgramOps(image, offset)[1..] == ProgramOps(image, e);
      OverwriteKeepsRest(cells, offset, data);
      hide Overwrite, Programmed;
      ProgramsAll(Overwrite(cells, offset, data), image, e);
      OverwriteNext(cells, offset, data, image[e..]);
      assert image[offset..] == data + image[e..];
    } else {
      assert cells == Overwrite(cells, offset, image[offset..]);
    }
  }

  lemma OverwriteKeepsRest(cells: seq<byte>, offset: nat, data: seq<byte>)
    requires offset + |data| <= |cells|
    ensures forall i :: offset + |data| <= i < |cells| ==> Overwrite(cells, offset, data)[i] == cells[i]
  {}

  /** From any earlier content whatever, a full install leaves the image, 0xFF up to the sector boundary, and
      every later byte as it was. */
  lemma InstallFromAnyContent(cells: seq<byte>, image: seq<byte>)
    requires RoundUpSector(|image|) <= |cells|
    ensures AllFit(InstallOps(image), |cells|)
    ensures Exec(cells, InstallOps(image)) == Installed(cells, image)
  {
    hide Installed, RoundUpSector, Exec, Overwrite, EraseOps, ProgramOps, AllFit;
    InstallOpsFit(image, |cells|);
    EraseThenCopy(cells, image);
    var up := RoundUpSector(|image|);
    ErasesAll(cells, 0, up);
    var e := Overwrite(cells, 0, Fill(ERASED, up));
    ProgramsAll(e, image, 0);
    ExecConcat(cells, EraseOps(0, up), ProgramOps(image, 0));
    assert image[0..] == image;
  }

  lemma EraseThenCopy(cells: seq<byte>, image: seq<byte>)
    requires RoundUpSector(|image|) <= |cells|
    ensures var up := RoundUpSector(|image|);
            var e := Overwrite(cells, 0, Fill(ERASED, up));
            && |image| <= up && up % SECTOR_SIZE == 0
            && (forall i :: 0 <= i < up ==> e[i] == ERASED)
            && Overwrite(e, 0, image) == Installed(cells, image)
  {
    hide RoundUpSector;
    RoundUpSectorBounds(|image|);
  }

  // ---------- interrupted installs ----------

  lemma {:induction false} ExecKeepsTail(cells: seq<byte>, ops: seq<Op>, limit: nat)
    requires AllFit(ops, |cells|) && AllFit(ops, limit) && limit <= |cells|
    ensures Exec(cells, ops)[limit..] == cells[limit..]
    decreases |ops|
  {
    hide Apply;
    if ops != [] {
      ExecKeepsTail(Apply(cells, ops[0]), ops[1..], limit);
      ApplyKeepsTail(cells, ops[0], limit);
    }
  }

  lemma ApplyKeepsTail(cells: seq<byte>, op: Op, limit: nat)
    requires op.Fits(limit) && limit <= |cells|
    ensures Apply(cells, op)[limit..] == cells[limit..]
  {}

  predicate AllCuts(cuts: seq<nat>, n: nat) {
    forall i :: 0 <= i < |cuts| ==> cuts[i] <= n
  }

  /** The flash after a series of attempts, each cut off after the given number of operations. */
  function AfterAttempts(cells: seq<byte>, ops: seq<Op>, cuts: seq<nat>): (r: seq<byte>)
    requires AllFit(ops, |cells|) && AllCuts(cuts, |ops|)
    ensures |r| == |cells|
    decreases |cuts|
  {
    if cuts == [] then cells
    else
      AfterAttempts(Exec(cells, ops[..cuts[0]]), ops, cuts[1..])
  }

  /** However many installs were cut off, between whichever operations, one complete install ends where a single
      undisturbed install would have ended. */
  lemma {:induction false} InstallIsRestartable(cells: seq<byte>, image: seq<byte>, cuts: seq<nat>)
    requires RoundUpSector(|image|) <= |cells|
    requires AllCuts(cuts, |InstallOps(image)|)
    ensures AllFit(InstallOps(image), |cells|)
    ensures Exec(AfterAttempts(cells, InstallOps(image), cuts), InstallOps(image)) == Installed(cells, image)
    decreases |cuts|
  {
    hide InstallOps, RoundUpSector, Exec;
    var ops := InstallOps(image);
    var up := RoundUpSector(|image|);
    InstallOpsFit(image, |cells|);
    InstallOpsFit(image, up);
    if cuts == [] {
      InstallFromAnyContent(cells, image);
    } else {
      var k := cuts[0];
      var first := Exec(cells, ops[..k]);
      ExecKeepsTail(cells, ops[..k], up);
      InstallIsRestartable(first, image, cuts[1..]);
    }
  }
}
