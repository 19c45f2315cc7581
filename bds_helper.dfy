/**
 * The legacy-BIOS helpers of EfiLib/BdsHelper.c: raising the boot priority
 * of every device of one type in the BBS table, and a membership search.
 *
 * Locating the legacy-BIOS protocol and GetBbsInfo are firmware calls: the
 * first becomes the flag `located`, the second's outputs (BbsCount and the
 * BBS table) become parameters.
 */
module BdsHelper {
  import opened Bytes

  /** The BBS_TABLE fields the model keeps; the segment/offset pairs and reserved words are not part of it. */
  datatype BbsEntry = BbsEntry(
    bootPriority: u16,
    bus: u32,
    device: u32,
    func: u32,
    classCode: byte,
    subClass: byte,
    deviceType: u16,
    statusFlags: u16)

  /** One entry after the loop body: a nonzero DeviceType equal to deviceType gets BootPriority 0. */
  function Prioritized(e: BbsEntry, deviceType: u16): BbsEntry {
    if e.deviceType != 0 && e.deviceType == deviceType then e.(bootPriority := 0) else e
  }

  /** The table after the loop over its first bbsCount entries. */
  function UpdatedTable(table: seq<BbsEntry>, bbsCount: nat, deviceType: u16): (r: seq<BbsEntry>)
    ensures |r| == |table|
  {
    seq(|table|, i requires 0 <= i < |table| => if i < bbsCount then Prioritized(table[i], deviceType) else table[i])
  }

  /**
   * What UpdateBbsTable does to the table: entries of the requested nonzero
   * type among the first bbsCount get priority 0; every other entry, and every
   * field but BootPriority, is unchanged.
   */
  lemma UpdatedTableEffect(table: seq<BbsEntry>, bbsCount: nat, deviceType: u16)
    ensures forall i :: 0 <= i < |table| && i < bbsCount && table[i].deviceType != 0 && table[i].deviceType == deviceType ==>
      UpdatedTable(table, bbsCount, deviceType)[i].bootPriority == 0
    ensures forall i :: 0 <= i < |table| && !(i < bbsCount && table[i].deviceType != 0 && table[i].deviceType == deviceType) ==>
      UpdatedTable(table, bbsCount, deviceType)[i] == table[i]
    ensures forall i :: 0 <= i < |table| ==>
      UpdatedTable(table, bbsCount, deviceType)[i].(bootPriority := table[i].bootPriority) == table[i]
  {
  }

  /** Updating twice with the same type leaves the table as updating once. */
  lemma UpdatedTableIdempotent(table: seq<BbsEntry>, bbsCount: nat, deviceType: u16)
    ensures UpdatedTable(UpdatedTable(table, bbsCount, deviceType), bbsCount, deviceType)
            == UpdatedTable(table, bbsCount, deviceType)
  {
    var once := UpdatedTable(table, bbsCount, deviceType);
    var twice := UpdatedTable(once, bbsCount, deviceType);
    forall i | 0 <= i < |table|
      ensures twice[i] == once[i]
    {
      if i < bbsCount {
        assert once[i] == Prioritized(table[i], deviceType);
      }
    }
  }

  /** DeviceType 0 marks an empty slot, which is skipped: asking for type 0 changes nothing. */
  lemma UpdateTypeZeroChangesNothing(table: seq<BbsEntry>, bbsCount: nat)
    ensures UpdatedTable(table, bbsCount, 0) == table
  {
    var r := UpdatedTable(table, bbsCount, 0);
    forall i | 0 <= i < |table|
      ensures r[i] == table[i]
    {
    }
  }

  /**
   * UpdateBbsTable. Without the legacy-BIOS protocol it returns at once;
   * otherwise it walks the first bbsCount entries GetBbsInfo reported and
   * writes BootPriority in place.
   */
  method UpdateBbsTable(deviceType: u16, located: bool, bbsCount: u16, table: array<BbsEntry>)
    requires located ==> bbsCount <= table.Length
    modifies table
    ensures table[..] == if located then UpdatedTable(old(table[..]), bbsCount, deviceType) else old(table[..])
  {
    if !located {
      return;
    }
    var idx := 0;
    while idx < bbsCount
      invariant 0 <= idx <= bbsCount
      invariant table[..] == UpdatedTable(old(table[..]), idx, deviceType)
    {
      if table[idx].deviceType == 0 {
        idx := idx + 1;
        continue;
      }
      if table[idx].deviceType == deviceType {
        table[idx] := table[idx].(bootPriority := 0);
      }
      idx := idx + 1;
    }
  }

  /**
   * ArrayContains: whether one of the first arrLen elements of arr equals
   * target. Both counters are 8-bit, so at most 255 elements are searched.
   */
  method ArrayContains(arr: array<u16>, arrLen: byte, target: byte) returns (found: bool)
    requires arrLen <= arr.Length
    ensures found <==> exists i :: 0 <= i < arrLen && arr[i] == target
    ensures arrLen == 0 ==> !found
  {
    var i := 0;
    while i < arrLen
      invariant 0 <= i <= arrLen
      invariant forall j :: 0 <= j < i ==> arr[j] != target
    {
      if arr[i] == target {
        return true;
      }
      i := i + 1;
    }
    return false;
  }
}
