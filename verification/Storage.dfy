/** `Storage`: the ZMS partition as a map from identifiers to byte strings. */
module Storage {
  import opened Types
  import RuleCodec

  type Cells = map<nat, seq<byte>>

  const SSID_ID: nat := 0
  const PASSWORD_ID: nat := 1
  const RULES_ID_BASE: nat := 2
  const RULES_ID_END: nat := 6

  const ENOENT: int := 2
  const ENOSPC: int := 28

  /** A refused write returns a negative error, or 0 for a rewrite of equal data; never a positive length. */
  type ZmsError = e: int | e <= 0

  /** What ZMS answers to one write: its free space, and an error if it refuses. */
  datatype ZmsWrite = ZmsWrite(freeSpace: int, accepts: bool, error: ZmsError) {
    predicate Takes(size: nat) { freeSpace >= size && accepts }
  }

  /** The value `write_buffer` returns for data of the given size. */
  function WriteResult(size: nat, z: ZmsWrite): (ret: int)
  {
    if z.freeSpace < 0 then z.freeSpace
    else if z.freeSpace < size then -ENOSPC
    else if z.accepts then size
    else z.error
  }

  /** The partition after the write; writing nothing is a deletion in ZMS. */
  function Written(cells: Cells, id: nat, data: seq<byte>, z: ZmsWrite): Cells {
    if !z.Takes(|data|) then cells
    else if data == [] then cells - {id}
    else cells[id := data]
  }

  /** The value `read_buffer` returns: `fault` when ZMS fails, otherwise what it copied. */
  function ReadResult(cells: Cells, id: nat, size: nat, fault: int): int
  {
    if fault < 0 then fault
    else if id !in cells then -ENOENT
    else RuleCodec.Copied(cells[id], size)
  }

  /** No stored entry is empty: ZMS treats writing nothing as a deletion. */
  ghost predicate NoEmptyCell(cells: Cells) {
    forall id :: id in cells ==> cells[id] != []
  }

  class Storage {
    var cells: Cells

    constructor (initial: Cells)
      ensures cells == initial
    {
      cells := initial;
    }

    method ReadBuffer(id: nat, buf: array<byte>, size: nat, fault: int) returns (ret: int)
      requires 0 < size <= buf.Length
      modifies buf
      ensures ret == ReadResult(cells, id, size, fault)
      ensures ret < 0 ==> buf[..] == old(buf[..])
      ensures ret >= 0 ==> id in cells && buf[..size] == RuleCodec.ReadInto(old(buf[..size]), cells[id])
      ensures buf[size..] == old(buf[size..])
    {
      ret := ReadResult(cells, id, size, fault);
      if ret < 0 {
        return;
      }
      var data := cells[id];
      var i := 0;
      while i < ret
        invariant 0 <= i <= ret
        invariant forall k :: 0 <= k < buf.Length ==> buf[k] == if k < i then data[k] else old(buf[k])
      {
        buf[i] := data[i];
        i := i + 1;
      }
      if ret < size {
        buf[ret] := 0;
      } else {
        buf[size - 1] := 0;
      }
    }

    method WriteBuffer(id: nat, data: seq<byte>, z: ZmsWrite) returns (ret: int)
      modifies this
      ensures ret == WriteResult(|data|, z)
      ensures cells == Written(old(cells), id, data, z)
      ensures data != [] ==> cells == if ret > 0 then old(cells)[id := data] else old(cells)
      ensures NoEmptyCell(old(cells)) ==> NoEmptyCell(cells)
    {
      if z.freeSpace < 0 {
        return z.freeSpace;
      }
      if z.freeSpace < |data| {
        return -ENOSPC;
      }
      if z.accepts {
        cells := if data == [] then cells - {id} else cells[id := data];
        ret := |data|;
      } else {
        ret := z.error;
      }
    }

    /** A failing length query (`!answers`) reads as an empty entry. */
    method IsIdEmpty(id: nat, answers: bool) returns (empty: bool)
      requires NoEmptyCell(cells)
      ensures empty <==> !(answers && id in cells)
    {
      var length := if !answers || id !in cells then -ENOENT else |cells[id]|;
      empty := !(length > 0);
    }

    method DeleteData(id: nat, zms: int) returns (ret: int)
      modifies this
      ensures ret == zms
      ensures cells == if ret == 0 then old(cells) - {id} else old(cells)
    {
      if zms == 0 {
        cells := cells - {id};
      }
      ret := zms;
    }
  }
}
