/**
 * The sequential parts of src/modbus_connection.rs: the server side's
 * bounds checks and request dispatch, and the client side's read plan,
 * which cuts every poll range into requests no longer than the Modbus
 * Application Protocol Specification V1.1b3 allows (sections 6.1 to 6.4:
 * at most 2000 coils or discrete inputs, at most 125 registers per read).
 */
module ModbusConnection {
  import opened Wrappers
  import opened Numbers
  import opened RangeArrays
  import opened ObservableArrays
  import opened TagRangeSets
  import opened TagStores
  import opened DeviceTables

  /** The exception responses the server produces (section 7 of the protocol specification). */
  datatype ExceptionCode = IllegalFunction | IllegalDataAddress | ServerDeviceFailure

  /** The exception code on the wire: 01, 02 and 04. */
  function CodeValue(e: ExceptionCode): Byte
  {
    match e
    case IllegalFunction => 1
    case IllegalDataAddress => 2
    case ServerDeviceFailure => 4
  }

  /** A request addressed to one unit; `Other` stands for every function the server does not serve. */
  datatype Request =
    | ReadHoldingRegisters(start: Word, count: Word)
    | WriteSingleRegister(addr: Word, value: Word)
    | WriteMultipleRegisters(addr: Word, values: seq<Word>)
    | ReadInputRegisters(start: Word, count: Word)
    | ReadCoils(start: Word, count: Word)
    | WriteSingleCoil(addr: Word, bit: bool)
    | WriteMultipleCoils(addr: Word, bits: seq<bool>)
    | ReadDiscreteInputs(start: Word, count: Word)
    | Other(functionCode: Byte)

  datatype Response =
    | ReadHoldingRegisters(words: seq<Word>)
    | WriteSingleRegister(addr: Word, value: Word)
    | WriteMultipleRegisters(addr: Word, count: int)
    | ReadInputRegisters(words: seq<Word>)
    | ReadCoils(bits: seq<bool>)
    | WriteSingleCoil(addr: Word, bit: bool)
    | WriteMultipleCoils(addr: Word, count: int)
    | ReadDiscreteInputs(bits: seq<bool>)

  // ---------------------------------------------------------------------------
  // Server side

  /**
   * `server_read` (the reply constructor `f` is applied by the caller): the
   * `count` elements from `start` when they lie inside the area, otherwise
   * IllegalDataAddress. The slice end is taken in unbounded arithmetic, as
   * the bounds check takes it; see ServerReadAsWritten for the `u16` sum.
   */
  function ServerRead<T>(elements: seq<T>, start: Word, count: Word): (r: Result<seq<T>, ExceptionCode>)
    ensures r.Ok? <==> start + count <= |elements|
    ensures r.Ok? ==> |r.value| == count && forall k :: 0 <= k < count ==> r.value[k] == elements[start + k]
    ensures r.Err? ==> r.error == IllegalDataAddress
  {
    if start + count <= |elements| then Ok(elements[start..start + count]) else Err(IllegalDataAddress)
  }

  /**
   * `server_read` as the source writes it: the bounds check adds `start` and
   * `count` as `usize`, but the slice end is the `u16` sum `start + count`.
   * When the check passes with a sum of 0x10000 or more, that sum overflows:
   * a debug build panics, a release build wraps it below `start` and the
   * slice panics. None stands for the panic.
   */
  function ServerReadAsWritten<T>(elements: seq<T>, start: Word, count: Word): (r: Option<Result<seq<T>, ExceptionCode>>)
    ensures r.None? <==> 0x1_0000 <= start + count <= |elements|
    ensures r.Some? ==> r.value == ServerRead(elements, start, count)
  {
    if start + count <= |elements| then
      var end := (start + count) % 0x1_0000;
      if start <= end then Some(Ok(elements[start..end])) else None
    else Some(Err(IllegalDataAddress))
  }

  /**
   * Reading the last holding register of a unit, ReadHoldingRegisters(65535, 1),
   * panics as written, while the bounds check admits it and the corrected
   * server answers with that register.
   */
  lemma {:induction false} LastRegisterRead(h: seq<Word>, i: seq<Word>, c: seq<bool>, d: seq<bool>)
    requires |h| == |i| == |c| == |d| == AreaSize
    ensures ServerReadAsWritten(h, 0xFFFF, 1).None?
    ensures Served(h, h, i, c, c, d, Request.ReadHoldingRegisters(0xFFFF, 1),
                   Ok(Response.ReadHoldingRegisters([h[0xFFFF]])))
  {
    assert h[0xFFFF..0x1_0000] == [h[0xFFFF]];
  }

  /**
   * `server_write`: when the data from `start` on lies inside the area, it
   * is written through the handle in slot `self`, and `(start, data)` is
   * handed to the reply constructor; otherwise IllegalDataAddress and the
   * area is left alone. The source checks only `start`; see
   * ServerWriteAsWritten.
   */
  method ServerWrite<T>(area: Base<T>, self: nat, start: Word, data: seq<T>)
      returns (r: Result<(Word, seq<T>), ExceptionCode>)
    requires area.Valid()
    modifies area
    ensures area.Valid()
    ensures r.Ok? <==> start < |old(area.elements)| && start + |data| <= |old(area.elements)|
    ensures r.Ok? ==> r.value == (start, data)
    ensures r.Ok? ==> area.elements == old(area.elements)[..start] + data + old(area.elements)[start + |data|..]
    ensures r.Ok? ==> MarkedAll(old(area.observers), area.observers, self, Range(start, start + |data|))
    ensures r.Err? ==> r.error == IllegalDataAddress && area.elements == old(area.elements) &&
                       area.observers == old(area.observers)
  {
    if start < |area.elements| && start + |data| <= |area.elements| {
      area.Update(start, data, self);
      r := Ok((start, data));
    } else {
      r := Err(IllegalDataAddress);
    }
  }

  /**
   * `server_write` followed by the element copy of `update`, as the source
   * writes them, on the area's elements: only `start` is checked, so data
   * that runs past the end of the area reaches a slice that panics (None).
   */
  function ServerWriteAsWritten<T>(elements: seq<T>, start: Word, data: seq<T>): (r: Option<Result<seq<T>, ExceptionCode>>)
    ensures r.None? <==> start < |elements| < start + |data|
    ensures r == Some(Err(IllegalDataAddress)) <==> |elements| <= start
    ensures r.Some? && r.value.Ok? ==>
              && start + |data| <= |elements| == |r.value.value|
              && r.value.value[..start] == elements[..start]
              && r.value.value[start..start + |data|] == data
              && r.value.value[start + |data|..] == elements[start + |data|..]
  {
    if start < |elements| then
      if start + |data| <= |elements| then Some(Ok(elements[..start] + data + elements[start + |data|..]))
      else None
    else Some(Err(IllegalDataAddress))
  }

  /**
   * WriteMultipleRegisters(65535, [1, 2]) passes the check as written and
   * panics in the copy, while the corrected server refuses it with
   * IllegalDataAddress and leaves the unit's areas as they were.
   */
  lemma {:induction false} WritePastEnd(h: seq<Word>, i: seq<Word>, c: seq<bool>, d: seq<bool>)
    requires |h| == |i| == |c| == |d| == AreaSize
    ensures ServerWriteAsWritten(h, 0xFFFF, [1, 2]).None?
    ensures Served(h, h, i, c, c, d, Request.WriteMultipleRegisters(0xFFFF, [1, 2]), Err(IllegalDataAddress))
  {
  }

  /**
   * The observer slots after `update` marked r through the handle in slot
   * `self`: the same number of slots, every other one marked, and the
   * writer's own slot left as it was.
   */
  ghost predicate MarkedAll(o0: seq<Option<seq<Range>>>, o1: seq<Option<seq<Range>>>, self: nat, r: Range)
  {
    && |o1| == |o0|
    && (self < |o1| ==> o1[self] == o0[self])
    && forall i :: 0 <= i < |o1| && i != self ==> Marked(o0[i], o1[i], r)
  }

  /** A read result turned into a reply, or the exception passed on. */
  function Reply<T>(r: Result<seq<T>, ExceptionCode>, f: seq<T> -> Response): Result<Response, ExceptionCode>
  {
    match r
    case Ok(v) => Ok(f(v))
    case Err(e) => Err(e)
  }

  /** The areas a request may write: holding registers and coils of every device. */
  function WordAreas(devs: seq<Device>): set<Base<Word>>
  {
    set d | d in devs :: d.tags.holdingRegisters
  }

  function BitAreas(devs: seq<Device>): set<Base<bool>>
  {
    set d | d in devs :: d.tags.coils
  }

  /**
   * The reply to req and the new holding registers and coils of the unit
   * addressed, given its areas before (h0, i0, c0, d0) and after (h1, c1).
   */
  ghost predicate Served(h0: seq<Word>, h1: seq<Word>, i0: seq<Word>, c0: seq<bool>, c1: seq<bool>,
                         d0: seq<bool>, req: Request, resp: Result<Response, ExceptionCode>)
  {
    && |h0| == |i0| == |c0| == |d0| == AreaSize
    && match req
    case ReadHoldingRegisters(start, count) =>
      resp == Reply(ServerRead(h0, start, count), w => Response.ReadHoldingRegisters(w)) && h1 == h0 && c1 == c0
    case ReadInputRegisters(start, count) =>
      resp == Reply(ServerRead(i0, start, count), w => Response.ReadInputRegisters(w)) && h1 == h0 && c1 == c0
    case ReadCoils(start, count) =>
      resp == Reply(ServerRead(c0, start, count), b => Response.ReadCoils(b)) && h1 == h0 && c1 == c0
    case ReadDiscreteInputs(start, count) =>
      resp == Reply(ServerRead(d0, start, count), b => Response.ReadDiscreteInputs(b)) && h1 == h0 && c1 == c0
    case WriteSingleRegister(addr, value) =>
      resp == Ok(Response.WriteSingleRegister(addr, value)) && h1 == h0[addr := value] && c1 == c0
    case WriteMultipleRegisters(addr, values) =>
      if addr + |values| <= AreaSize then
        resp == Ok(Response.WriteMultipleRegisters(addr, |values|)) &&
        h1 == h0[..addr] + values + h0[addr + |values|..] && c1 == c0
      else resp == Err(IllegalDataAddress) && h1 == h0 && c1 == c0
    case WriteSingleCoil(addr, bit) =>
      resp == Ok(Response.WriteSingleCoil(addr, bit)) && c1 == c0[addr := bit] && h1 == h0
    case WriteMultipleCoils(addr, bits) =>
      if addr + |bits| <= AreaSize then
        resp == Ok(Response.WriteMultipleCoils(addr, |bits|)) &&
        c1 == c0[..addr] + bits + c0[addr + |bits|..] && h1 == h0
      else resp == Err(IllegalDataAddress) && h1 == h0 && c1 == c0
    case Other(_) => false
  }

  /**
   * The observer slots of the unit's holding registers (ho0 to ho1) and
   * coils (co0 to co1) after req was handled through slot `self`: a write
   * that succeeded marks the written range for every other observer of its
   * area; nothing else touches an observer.
   */
  ghost predicate Notified(ho0: seq<Option<seq<Range>>>, ho1: seq<Option<seq<Range>>>,
                           co0: seq<Option<seq<Range>>>, co1: seq<Option<seq<Range>>>,
                           self: nat, req: Request, resp: Result<Response, ExceptionCode>)
  {
    match req
    case WriteSingleRegister(addr, _) =>
      MarkedAll(ho0, ho1, self, Range(addr, addr + 1)) && co1 == co0
    case WriteMultipleRegisters(addr, values) =>
      if resp.Ok? then MarkedAll(ho0, ho1, self, Range(addr, addr + |values|)) && co1 == co0
      else ho1 == ho0 && co1 == co0
    case WriteSingleCoil(addr, _) =>
      MarkedAll(co0, co1, self, Range(addr, addr + 1)) && ho1 == ho0
    case WriteMultipleCoils(addr, bits) =>
      if resp.Ok? then MarkedAll(co0, co1, self, Range(addr, addr + |bits|)) && ho1 == ho0
      else ho1 == ho0 && co1 == co0
    case _ => ho1 == ho0 && co1 == co0
  }

  /**
   * `ModbusService::call`: an unsupported function is IllegalFunction
   * whatever the unit; a supported one for a unit that is not configured
   * is ServerDeviceFailure; otherwise it reads or writes that unit's area
   * through the service's handle in slot `self`.
   */
  method Call(devs: seq<Device>, self: nat, unit: Byte, req: Request) returns (resp: Result<Response, ExceptionCode>)
    requires SortedUnits(devs) && Separate(devs)
    requires forall i :: 0 <= i < |devs| ==> devs[i].tags.Valid()
    modifies WordAreas(devs), BitAreas(devs)
    ensures forall i :: 0 <= i < |devs| ==> devs[i].tags.Valid()
    ensures req.Other? ==> resp == Err(IllegalFunction)
    ensures !req.Other? && (forall i :: 0 <= i < |devs| ==> devs[i].unit != unit) ==>
              resp == Err(ServerDeviceFailure)
    ensures !req.Other? ==> forall i | 0 <= i < |devs| && devs[i].unit == unit ::
              && Served(old(devs[i].tags.holdingRegisters.elements), devs[i].tags.holdingRegisters.elements,
                        old(devs[i].tags.inputRegisters.elements),
                        old(devs[i].tags.coils.elements), devs[i].tags.coils.elements,
                        old(devs[i].tags.discreteInputs.elements), req, resp)
              && Notified(old(devs[i].tags.holdingRegisters.observers), devs[i].tags.holdingRegisters.observers,
                          old(devs[i].tags.coils.observers), devs[i].tags.coils.observers, self, req, resp)
    ensures forall i | 0 <= i < |devs| && (req.Other? || devs[i].unit != unit) ::
              && devs[i].tags.holdingRegisters.elements == old(devs[i].tags.holdingRegisters.elements)
              && devs[i].tags.holdingRegisters.observers == old(devs[i].tags.holdingRegisters.observers)
              && devs[i].tags.coils.elements == old(devs[i].tags.coils.elements)
              && devs[i].tags.coils.observers == old(devs[i].tags.coils.observers)
  {
    if req.Other? {
      return Err(IllegalFunction);
    }
    var found := FindUnit(devs, unit);
    if found.None? {
      return Err(ServerDeviceFailure);
    }
    var dev := found.value;
    ghost var j :| 0 <= j < |devs| && devs[j] == dev;
    resp := Serve(dev.tags, self, req);
    forall i | 0 <= i < |devs| && devs[i].unit == unit
      ensures devs[i] == dev
    {
      assert devs[j].unit == unit;
    }
    forall i | 0 <= i < |devs| && i != j
      ensures devs[i].tags.Valid()
    {
      var t := devs[i].tags;
      assert t.holdingRegisters != dev.tags.holdingRegisters && t.inputRegisters != dev.tags.holdingRegisters;
      assert t.coils != dev.tags.coils && t.discreteInputs != dev.tags.coils;
      assert unchanged(t.holdingRegisters, t.inputRegisters, t.coils, t.discreteInputs);
    }
    forall i | 0 <= i < |devs| && devs[i].unit != unit
      ensures devs[i].tags.holdingRegisters.elements == old(devs[i].tags.holdingRegisters.elements)
      ensures devs[i].tags.holdingRegisters.observers == old(devs[i].tags.holdingRegisters.observers)
      ensures devs[i].tags.coils.elements == old(devs[i].tags.coils.elements)
      ensures devs[i].tags.coils.observers == old(devs[i].tags.coils.observers)
    {
      assert i != j;
      assert devs[i].tags.holdingRegisters != dev.tags.holdingRegisters && devs[i].tags.coils != dev.tags.coils;
    }
  }

  /** The handling of a served request by the areas of the unit it is addressed to. */
  method Serve(tags: Tags, self: nat, req: Request) returns (resp: Result<Response, ExceptionCode>)
    requires tags.Valid() && !req.Other?
    modifies tags.holdingRegisters, tags.coils
    ensures tags.Valid()
    ensures Served(old(tags.holdingRegisters.elements), tags.holdingRegisters.elements,
                   old(tags.inputRegisters.elements),
                   old(tags.coils.elements), tags.coils.elements,
                   old(tags.discreteInputs.elements), req, resp)
    ensures Notified(old(tags.holdingRegisters.observers), tags.holdingRegisters.observers,
                     old(tags.coils.observers), tags.coils.observers, self, req, resp)
  {
    match req {
      case ReadHoldingRegisters(start, count) =>
        resp := Reply(ServerRead(tags.holdingRegisters.elements, start, count), w => Response.ReadHoldingRegisters(w));
      case ReadInputRegisters(start, count) =>
        resp := Reply(ServerRead(tags.inputRegisters.elements, start, count), w => Response.ReadInputRegisters(w));
      case ReadCoils(start, count) =>
        resp := Reply(ServerRead(tags.coils.elements, start, count), b => Response.ReadCoils(b));
      case ReadDiscreteInputs(start, count) =>
        resp := Reply(ServerRead(tags.discreteInputs.elements, start, count), b => Response.ReadDiscreteInputs(b));
      case WriteSingleRegister(addr, value) =>
        var r := ServerWrite(tags.holdingRegisters, self, addr, [value]);
        resp := Ok(Response.WriteSingleRegister(r.value.0, r.value.1[0]));
      case WriteMultipleRegisters(addr, values) =>
        var r := ServerWrite(tags.holdingRegisters, self, addr, values);
        resp := if r.Ok? then Ok(Response.WriteMultipleRegisters(r.value.0, |r.value.1|)) else Err(r.error);
      case WriteSingleCoil(addr, bit) =>
        var r := ServerWrite(tags.coils, self, addr, [bit]);
        resp := Ok(Response.WriteSingleCoil(r.value.0, r.value.1[0]));
      case WriteMultipleCoils(addr, bits) =>
        var r := ServerWrite(tags.coils, self, addr, bits);
        resp := if r.Ok? then Ok(Response.WriteMultipleCoils(r.value.0, |r.value.1|)) else Err(r.error);
    }
  }

  // ---------------------------------------------------------------------------
  // Client side: the read plan

  /** The most registers one read asks for. */
  const ReadRegistersMaxLen: nat := 125
  /** The most coils or discrete inputs one read asks for. */
  const ReadBitsMaxLen: nat := 2000

  datatype ClientOp =
    | ReadHoldingRegisters(unit: Byte, start: Word, length: Word)
    | ReadInputRegisters(unit: Byte, start: Word, length: Word)
    | ReadCoils(unit: Byte, start: Word, length: Word)
    | ReadDiscreteInputs(unit: Byte, start: Word, length: Word)

  /**
   * How `push_range` cuts `start..end`: consecutive pieces of `max_len`
   * elements, the last one shorter when the length is not a multiple.
   */
  function Chunks(start: int, end: int, maxLen: nat): (c: seq<(int, int)>)
    requires maxLen > 0
    ensures start >= end <==> c == []
    decreases end - start
  {
    if start >= end then []
    else
      var len := Min(end - start, maxLen);
      [(start, len)] + Chunks(start + len, end, maxLen)
  }

  /** Every piece holds between 1 and maxLen elements and lies inside `start..end`. */
  predicate PiecesWithin(c: seq<(int, int)>, start: int, end: int, maxLen: nat)
  {
    forall i :: 0 <= i < |c| ==> 0 < c[i].1 <= maxLen && start <= c[i].0 && c[i].0 + c[i].1 <= end
  }

  /** Every piece but the last holds maxLen elements. */
  predicate PiecesFull(c: seq<(int, int)>, maxLen: nat)
  {
    forall i :: 0 <= i < |c| - 1 ==> c[i].1 == maxLen
  }

  /** Piece i starts where piece i - 1 ends. */
  predicate Adjacent(c: seq<(int, int)>, i: int)
    requires 0 < i < |c|
  {
    c[i].0 == c[i - 1].0 + c[i - 1].1
  }

  /** The pieces run from `start` to `end`, each starting where the one before ends. */
  predicate PiecesTile(c: seq<(int, int)>, start: int, end: int)
  {
    && (c != [] ==> c[0].0 == start && c[|c| - 1].0 + c[|c| - 1].1 == end)
    && forall i :: 0 < i < |c| ==> Adjacent(c, i)
  }

  /** ops holds one request per piece, f applied to the piece's start and length. */
  predicate MadeBy(ops: seq<ClientOp>, c: seq<(int, int)>, area: Area, unit: Byte)
  {
    |ops| == |c| &&
    forall i :: 0 <= i < |c| ==>
      0 <= c[i].0 < 0x1_0000 && 0 <= c[i].1 < 0x1_0000 && ops[i] == MakeOp(area, unit, c[i].0, c[i].1)
  }

  /** Every piece holds between 1 and maxLen elements and lies inside the range. */
  lemma {:induction false} ChunksBounded(start: int, end: int, maxLen: nat)
    requires maxLen > 0
    ensures PiecesWithin(Chunks(start, end, maxLen), start, end, maxLen)
    decreases end - start
  {
    if start < end {
      var c := Chunks(start, end, maxLen);
      var len := Min(end - start, maxLen);
      var rest := Chunks(start + len, end, maxLen);
      ChunksBounded(start + len, end, maxLen);
      assert c == [(start, len)] + rest;
      forall i | 0 < i < |c|
        ensures 0 < c[i].1 <= maxLen && start <= c[i].0 && c[i].0 + c[i].1 <= end
      {
        assert c[i] == rest[i - 1];
      }
    }
  }

  /** Every piece but the last holds exactly maxLen elements. */
  lemma {:induction false} ChunksFull(start: int, end: int, maxLen: nat)
    requires maxLen > 0
    ensures PiecesFull(Chunks(start, end, maxLen), maxLen)
    decreases end - start
  {
    if start < end {
      var c := Chunks(start, end, maxLen);
      var len := Min(end - start, maxLen);
      var rest := Chunks(start + len, end, maxLen);
      ChunksFull(start + len, end, maxLen);
      assert c == [(start, len)] + rest;
      forall i | 0 <= i < |c| - 1
        ensures c[i].1 == maxLen
      {
        if i > 0 {
          assert c[i] == rest[i - 1];
        }
      }
    }
  }

  /**
   * The pieces follow one another without gap or overlap, from `start` to
   * `end`: their concatenation is exactly the range.
   */
  lemma {:induction false} ChunksContiguous(start: int, end: int, maxLen: nat)
    requires maxLen > 0
    ensures PiecesTile(Chunks(start, end, maxLen), start, end)
    decreases end - start
  {
    if start < end {
      var c := Chunks(start, end, maxLen);
      var len := Min(end - start, maxLen);
      var rest := Chunks(start + len, end, maxLen);
      ChunksContiguous(start + len, end, maxLen);
      assert c == [(start, len)] + rest;
      forall i | 0 < i < |c|
        ensures Adjacent(c, i)
      {
        if i > 1 {
          assert Adjacent(rest, i - 1);
        }
      }
    }
  }

  /** x lies in the piece p, given as start and length. */
  predicate InPiece(p: (int, int), x: int)
  {
    p.0 <= x < p.0 + p.1
  }

  /** The pieces cover `start..end`: every point of the range lies in some piece. */
  lemma {:induction false} ChunksCover(start: int, end: int, maxLen: nat, x: int)
    requires maxLen > 0 && start <= x < end
    ensures exists i :: 0 <= i < |Chunks(start, end, maxLen)| && InPiece(Chunks(start, end, maxLen)[i], x)
    decreases end - start
  {
    var c := Chunks(start, end, maxLen);
    var len := Min(end - start, maxLen);
    var rest := Chunks(start + len, end, maxLen);
    assert c == [(start, len)] + rest;
    if x < start + len {
      assert c[0] == (start, len);
      assert InPiece(c[0], x);
    } else {
      ChunksCover(start + len, end, maxLen, x);
      var i :| 0 <= i < |rest| && InPiece(rest[i], x);
      assert c[i + 1] == rest[i];
    }
  }

  /** The pieces of a range inside the 16-bit address space, as requests made by f. */
  function ChunkOps(start: int, end: int, maxLen: nat, area: Area, unit: Byte): (ops: seq<ClientOp>)
    requires 0 < maxLen < 0x1_0000 && 0 <= start && end <= 0x1_0000
    decreases end - start
  {
    if start >= end then []
    else
      var len := Min(end - start, maxLen);
      [MakeOp(area, unit, start, len)] + ChunkOps(start + len, end, maxLen, area, unit)
  }

  /** The requests are f applied to the pieces, one request per piece, in order. */
  lemma {:induction false} ChunkOpsPieces(start: int, end: int, maxLen: nat, area: Area, unit: Byte)
    requires 0 < maxLen < 0x1_0000 && 0 <= start && end <= 0x1_0000
    ensures MadeBy(ChunkOps(start, end, maxLen, area, unit), Chunks(start, end, maxLen), area, unit)
    decreases end - start
  {
    if start < end {
      var len := Min(end - start, maxLen);
      ChunkOpsPieces(start + len, end, maxLen, area, unit);
      var c := Chunks(start, end, maxLen);
      var rest := Chunks(start + len, end, maxLen);
      assert c == [(start, len)] + rest;
    }
  }

  /**
   * `push_range`: appends one request per piece of `range`, in order, each
   * made by f from the piece's start and length.
   */
  method PushRange(ops: seq<ClientOp>, range: Range, maxLen: nat, area: Area, unit: Byte)
      returns (ops': seq<ClientOp>)
    requires 0 < maxLen < 0x1_0000
    requires 0 <= range.start <= range.end < 0x1_0000
    ensures ops' == ops + ChunkOps(range.start, range.end, maxLen, area, unit)
  {
    ops' := ops;
    var start := range.start;
    var length := range.end - range.start;
    while start < range.end
      invariant range.start <= start <= range.end && length == range.end - start
      invariant ops' + ChunkOps(start, range.end, maxLen, area, unit) == ops + ChunkOps(range.start, range.end, maxLen, area, unit)
      decreases range.end - start
    {
      var opLen := Min(length, maxLen);
      ops' := ops' + [MakeOp(area, unit, start, opLen)];
      start := start + opLen;
      length := length - opLen;
    }
  }

  /** Every range of the set lies inside the 16-bit address space. */
  ghost predicate Bounded(ranges: seq<Range>)
  {
    forall i :: 0 <= i < |ranges| ==> 0 <= ranges[i].start <= ranges[i].end < 0x1_0000
  }

  /** The requests for every range of a set, one range after the other. */
  function RangeOps(ranges: seq<Range>, maxLen: nat, area: Area, unit: Byte): seq<ClientOp>
    requires 0 < maxLen < 0x1_0000 && Bounded(ranges)
    decreases |ranges|
  {
    if ranges == [] then []
    else
      var last := ranges[|ranges| - 1];
      RangeOps(ranges[..|ranges| - 1], maxLen, area, unit) + ChunkOps(last.start, last.end, maxLen, area, unit)
  }

  /** One `for range in &ranges.<area>` loop of `read_sequence`. */
  method PushRanges(ops: seq<ClientOp>, ranges: seq<Range>, maxLen: nat, area: Area, unit: Byte)
      returns (ops': seq<ClientOp>)
    requires 0 < maxLen < 0x1_0000 && Bounded(ranges)
    ensures ops' == ops + RangeOps(ranges, maxLen, area, unit)
  {
    ops' := ops;
    for i := 0 to |ranges|
      invariant ops' == ops + RangeOps(ranges[..i], maxLen, area, unit)
    {
      assert ranges[..i + 1][..i] == ranges[..i];
      ops' := PushRange(ops', ranges[i], maxLen, area, unit);
    }
    assert ranges[..|ranges|] == ranges;
  }

  /** The four Modbus areas, in the order `read_sequence` visits them. */
  datatype Area = Holding | Input | Coil | Discrete

  /** `READ_REGISTERS_MAX_LEN` for the register areas, `READ_BITS_MAX_LEN` for the bit areas. */
  function MaxLen(area: Area): (n: nat)
    ensures 0 < n < 0x1_0000
  {
    if area == Holding || area == Input then ReadRegistersMaxLen else ReadBitsMaxLen
  }

  /**
   * The closure `read_sequence` hands to `push_range` for one area of one
   * unit: the read request of that area for the piece at start.
   */
  function MakeOp(area: Area, unit: Byte, start: Word, length: Word): (op: ClientOp)
    ensures op.unit == unit && op.start == start && op.length == length && AreaOf(op) == area
  {
    match area
    case Holding => ClientOp.ReadHoldingRegisters(unit, start, length)
    case Input => ClientOp.ReadInputRegisters(unit, start, length)
    case Coil => ClientOp.ReadCoils(unit, start, length)
    case Discrete => ClientOp.ReadDiscreteInputs(unit, start, length)
  }

  /** The area a request reads. */
  function AreaOf(op: ClientOp): Area
  {
    match op
    case ReadHoldingRegisters(_, _, _) => Holding
    case ReadInputRegisters(_, _, _) => Input
    case ReadCoils(_, _, _) => Coil
    case ReadDiscreteInputs(_, _, _) => Discrete
  }

  /**
   * A request the protocol allows: it asks for at least one and at most
   * 125 registers or 2000 bits, and stays inside the 16-bit address space.
   */
  predicate Allowed(op: ClientOp)
  {
    0 < op.length <= MaxLen(AreaOf(op)) && op.start + op.length <= 0x1_0000
  }

  /**
   * The poll set of one unit as values: the ranges of its holding
   * registers, input registers, coils and discrete inputs.
   */
  datatype PollSet = PollSet(holdingRegisters: seq<Range>, inputRegisters: seq<Range>,
                             coils: seq<Range>, discreteInputs: seq<Range>)

  /** The poll set a `TagRanges` holds. */
  function PollSetOf(ranges: TagRanges): (p: PollSet)
    reads ranges
    ensures p.holdingRegisters == ranges.holdingRegisters && p.inputRegisters == ranges.inputRegisters
    ensures p.coils == ranges.coils && p.discreteInputs == ranges.discreteInputs
  {
    PollSet(ranges.holdingRegisters, ranges.inputRegisters, ranges.coils, ranges.discreteInputs)
  }

  /** The ranges of one area of a poll set. */
  function AreaRanges(p: PollSet, area: Area): seq<Range>
  {
    match area
    case Holding => p.holdingRegisters
    case Input => p.inputRegisters
    case Coil => p.coils
    case Discrete => p.discreteInputs
  }

  /** Every range of every area lies inside the 16-bit address space. */
  ghost predicate AllBounded(p: PollSet)
  {
    Bounded(p.holdingRegisters) && Bounded(p.inputRegisters) && Bounded(p.coils) && Bounded(p.discreteInputs)
  }

  /** The requests for one area of one unit. */
  function AreaOps(unit: Byte, p: PollSet, area: Area): seq<ClientOp>
    requires AllBounded(p)
  {
    RangeOps(AreaRanges(p, area), MaxLen(area), area, unit)
  }

  /** The requests for one unit: holding registers, input registers, coils, then discrete inputs. */
  function UnitOps(unit: Byte, p: PollSet): seq<ClientOp>
    requires AllBounded(p)
  {
    AreaOps(unit, p, Holding) + AreaOps(unit, p, Input) + AreaOps(unit, p, Coil) + AreaOps(unit, p, Discrete)
  }

  /** The poll sets of the units, in the order of `units()`. */
  function PollSets(devs: seq<Device>): (r: seq<(Byte, PollSet)>)
    reads set i | 0 <= i < |devs| :: devs[i].ranges
    ensures |r| == |devs| && forall i :: 0 <= i < |r| ==> r[i] == (devs[i].unit, PollSetOf(devs[i].ranges))
  {
    seq(|devs|, i requires 0 <= i < |devs| reads set j | 0 <= j < |devs| :: devs[j].ranges =>
                  (devs[i].unit, PollSetOf(devs[i].ranges)))
  }

  /** Every poll set of the plan lies inside the 16-bit address space. */
  ghost predicate Plannable(sets: seq<(Byte, PollSet)>)
  {
    forall i :: 0 <= i < |sets| ==> AllBounded(sets[i].1)
  }

  /** The plan for the first k units: the requests of each, in order. */
  function Plan(sets: seq<(Byte, PollSet)>, k: nat): seq<ClientOp>
    requires Plannable(sets) && k <= |sets|
  {
    if k == 0 then []
    else Plan(sets, k - 1) + UnitOps(sets[k - 1].0, sets[k - 1].1)
  }

  /**
   * The k-th poll set is that of the k-th unit of `units()`, and
   * `ranges(unit)` finds it, so `unwrap` never fails.
   */
  lemma PollSetsLookup(devs: seq<Device>, k: nat)
    requires SortedUnits(devs) && k < |devs|
    ensures PollSets(devs)[k].0 == Units(devs)[k]
    ensures Ranges(devs, Units(devs)[k]) == Ok(devs[k].ranges)
    ensures PollSets(devs)[k].1 == PollSetOf(devs[k].ranges)
  {
  }

  /** One `for range in &ranges.<area>` loop of one unit. */
  method PushArea(ops: seq<ClientOp>, unit: Byte, p: PollSet, area: Area) returns (ops': seq<ClientOp>)
    requires AllBounded(p)
    ensures ops' == ops + AreaOps(unit, p, area)
  {
    var rs := AreaRanges(p, area);
    assert Bounded(rs);
    ops' := PushRanges(ops, rs, MaxLen(area), area, unit);
  }

  /** The four area loops of one unit. */
  method PushUnit(ops: seq<ClientOp>, unit: Byte, p: PollSet) returns (ops': seq<ClientOp>)
    requires AllBounded(p)
    ensures ops' == ops + UnitOps(unit, p)
  {
    ops' := PushArea(ops, unit, p, Holding);
    ops' := PushArea(ops', unit, p, Input);
    ops' := PushArea(ops', unit, p, Coil);
    ops' := PushArea(ops', unit, p, Discrete);
    AppendFour(ops, AreaOps(unit, p, Holding), AreaOps(unit, p, Input), AreaOps(unit, p, Coil), AreaOps(unit, p, Discrete));
  }

  lemma AppendFour<T>(s: seq<T>, a: seq<T>, b: seq<T>, c: seq<T>, d: seq<T>)
    ensures s + a + b + c + d == s + (a + b + c + d)
  {
  }

  /**
   * `read_sequence`: for each unit in `units()` order, the requests for its
   * holding-register, input-register, coil and discrete-input ranges. The
   * poll sets are read once up front (`PollSets`, which `PollSetsLookup`
   * ties to `units()` and `ranges(unit).unwrap()`); nothing writes them
   * while the plan is built.
   */
  method ReadSequence(devs: seq<Device>) returns (ops: seq<ClientOp>)
    requires Plannable(PollSets(devs))
    ensures ops == Plan(PollSets(devs), |devs|)
  {
    var sets := PollSets(devs);
    ops := [];
    for k := 0 to |sets|
      invariant ops == Plan(sets, k)
    {
      PlanStep(sets, k);
      ops := PushUnit(ops, sets[k].0, sets[k].1);
    }
  }

  lemma PlanStep(sets: seq<(Byte, PollSet)>, k: nat)
    requires Plannable(sets) && k < |sets|
    ensures AllBounded(sets[k].1) && Plan(sets, k + 1) == Plan(sets, k) + UnitOps(sets[k].0, sets[k].1)
  {
  }

  // ---------------------------------------------------------------------------
  // Properties of the plan

  /** Every request of ops is allowed, for unit, in area. */
  predicate AllFor(ops: seq<ClientOp>, unit: Byte, area: Area)
  {
    forall i :: 0 <= i < |ops| ==> Allowed(ops[i]) && ops[i].unit == unit && AreaOf(ops[i]) == area
  }

  /** Every request for one range asks for an allowed amount of its area. */
  lemma {:induction false} ChunkOpsAllowed(start: int, end: int, unit: Byte, area: Area)
    requires 0 <= start && end <= 0x1_0000
    ensures AllFor(ChunkOps(start, end, MaxLen(area), area, unit), unit, area)
    decreases end - start
  {
    if start < end {
      var len := Min(end - start, MaxLen(area));
      ChunkOpsAllowed(start + len, end, unit, area);
      var ops := ChunkOps(start, end, MaxLen(area), area, unit);
      var rest := ChunkOps(start + len, end, MaxLen(area), area, unit);
      assert ops == [MakeOp(area, unit, start, len)] + rest;
      forall i | 0 < i < |ops|
        ensures Allowed(ops[i]) && ops[i].unit == unit && AreaOf(ops[i]) == area
      {
        assert ops[i] == rest[i - 1];
      }
    }
  }

  /** Every request for one area of one unit is allowed. */
  lemma {:induction false} RangeOpsAllowed(ranges: seq<Range>, unit: Byte, area: Area)
    requires Bounded(ranges)
    ensures AllFor(RangeOps(ranges, MaxLen(area), area, unit), unit, area)
    decreases |ranges|
  {
    if ranges != [] {
      var init := ranges[..|ranges| - 1];
      var last := ranges[|ranges| - 1];
      RangeOpsAllowed(init, unit, area);
      ChunkOpsAllowed(last.start, last.end, unit, area);
    }
  }

  /** Every request of ops is allowed. */
  predicate AllAllowed(ops: seq<ClientOp>)
  {
    forall i :: 0 <= i < |ops| ==> Allowed(ops[i])
  }

  /**
   * Every request of the plan asks for 1 to 125 registers or 1 to 2000 bits
   * inside the 16-bit address space.
   */
  lemma {:induction false} PlanAllowed(sets: seq<(Byte, PollSet)>, k: nat)
    requires Plannable(sets) && k <= |sets|
    ensures AllAllowed(Plan(sets, k))
  {
    if k > 0 {
      var (unit, p) := sets[k - 1];
      PlanAllowed(sets, k - 1);
      UnitOpsAllowed(unit, p);
    }
  }

  /** Every request for one unit is allowed. */
  lemma UnitOpsAllowed(unit: Byte, p: PollSet)
    requires AllBounded(p)
    ensures AllAllowed(UnitOps(unit, p))
  {
    RangeOpsAllowed(p.holdingRegisters, unit, Holding);
    RangeOpsAllowed(p.inputRegisters, unit, Input);
    RangeOpsAllowed(p.coils, unit, Coil);
    RangeOpsAllowed(p.discreteInputs, unit, Discrete);
  }
}
