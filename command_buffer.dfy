/**
 * Decoding of a window-server command buffer (window_server_client::parse_command_buffer).
 *
 * A buffer is a run of commands. Each starts with a header {op, cmd_len}; when bit
 * 0x8000 of op is set, an object handle follows the header and the bit is cleared in
 * the decoded op. The payload starts after the header (and handle) and is cmd_len
 * bytes long; the next command starts right after it.
 *
 * The byte layout of the header and of the handle is defined outside window.cpp, so
 * it is a parameter (Layout). Offsets into the buffer stand for the source's addresses into it.
 */
module CommandBuffer {
  import opened Opt

  /** A decoded header: the opcode and the payload length. */
  datatype Header = Header(op: bv32, cmdLen: nat)

  /** The command layout that the window server's header file fixes. */
  datatype Layout = Layout(
    headerSize: nat,                 // bytes of a header
    handleSize: nat,                 // bytes of an object handle
    readHeader: seq<bv8> -> Header,  // headerSize bytes read as a header
    readHandle: seq<bv8> -> nat,     // handleSize bytes read as an object handle
    unsetHandle: nat)                // what the handle of a command holds when nothing is stored in it
  {
    /** A C++ object occupies at least one byte. */
    predicate Valid() { headerSize > 0 }
  }

  /** Bit of op announcing that an object handle follows the header. */
  const HandleFlag: bv32 := 0x8000

  /** A decoded command; data is the offset of its payload in the buffer. */
  datatype Command = Command(header: Header, objHandle: nat, data: nat)

  /** The header stored at cursor, when it lies inside the buffer. */
  function RawHeader(l: Layout, buf: seq<bv8>, cursor: nat): Header
    requires cursor + l.headerSize <= |buf|
  {
    l.readHeader(buf[cursor..cursor + l.headerSize])
  }

  /** Bytes the handle occupies after the header with opcode op. */
  function HandleBytes(l: Layout, op: bv32): nat
  {
    if op & HandleFlag != 0 then l.handleSize else 0
  }

  /** The header at cursor, and the handle it announces, lie inside the buffer. */
  predicate Fits(l: Layout, buf: seq<bv8>, cursor: nat)
  {
    && cursor + l.headerSize <= |buf|
    && cursor + l.headerSize + HandleBytes(l, RawHeader(l, buf, cursor).op) <= |buf|
  }

  /** The opcode with the handle bit cleared (op &= ~0x8000). */
  function ClearHandleFlag(op: bv32): bv32
  {
    op & !HandleFlag
  }

  /** Clearing the handle bit removes it, and leaves an opcode without it unchanged. */
  lemma ClearHandleFlagBits(op: bv32)
    ensures ClearHandleFlag(op) & HandleFlag == 0
    ensures op & HandleFlag == 0 ==> ClearHandleFlag(op) == op
  {
  }

  /** Clearing the handle bit loses no other bit: the bit put back gives the opcode read. */
  lemma ClearHandleFlagKeepsOthers(op: bv32)
    ensures ClearHandleFlag(op) | (op & HandleFlag) == op
  {
  }

  /**
   * Decodes the command whose header starts at cursor, reading only bytes inside buf,
   * and gives it with the offset where the next command starts. None when the header,
   * or the handle it announces, does not fit in what is left of the buffer.
   */
  function Step(l: Layout, buf: seq<bv8>, cursor: nat): (r: Option<(Command, nat)>)
    ensures r.None? <==> !Fits(l, buf, cursor)
    ensures r.Some? ==>
              var raw := RawHeader(l, buf, cursor);
              var c := r.value.0;
              && c.header.op == ClearHandleFlag(raw.op)
              && c.header.cmdLen == raw.cmdLen
              && c.data == cursor + l.headerSize + HandleBytes(l, raw.op)
              && (raw.op & HandleFlag != 0 ==> c.objHandle == l.readHandle(buf[cursor + l.headerSize..c.data]))
              && (raw.op & HandleFlag == 0 ==> c.objHandle == l.unsetHandle)
              && r.value.1 == c.data + c.header.cmdLen
  {
    if !Fits(l, buf, cursor) then None
    else
      var raw := RawHeader(l, buf, cursor);
      var at := cursor + l.headerSize;
      if raw.op & HandleFlag != 0 then
        var data := at + l.handleSize;
        Some((Command(Header(ClearHandleFlag(raw.op), raw.cmdLen), l.readHandle(buf[at..data]), data), data + raw.cmdLen))
      else
        ClearHandleFlagBits(raw.op);
        Some((Command(raw, l.unsetHandle, at), at + raw.cmdLen))
  }

  /**
   * The commands of buf from cursor on, in buffer order. Decoding stops at the end of
   * the buffer, or before a command whose header or handle would run past it.
   */
  function Decode(l: Layout, buf: seq<bv8>, cursor: nat): seq<Command>
    requires l.Valid()
    decreases |buf| - cursor
  {
    if cursor >= |buf| then []
    else match Step(l, buf, cursor)
      case None => []
      case Some((c, next)) => [c] + Decode(l, buf, next)
  }

  /** The decoding loop: walks the buffer with a cursor and appends each command. */
  method DecodeCommands(l: Layout, buf: seq<bv8>) returns (cmds: seq<Command>)
    requires l.Valid()
    ensures cmds == Decode(l, buf, 0)
    ensures forall i :: 0 <= i < |cmds| ==> cmds[i].header.op & HandleFlag == 0
  {
    cmds := [];
    var cursor := 0;
    while cursor < |buf|
      invariant cmds + Decode(l, buf, cursor) == Decode(l, buf, 0)
      decreases |buf| - cursor
    {
      var s := Step(l, buf, cursor);
      if s.None? {
        break;
      }
      var (c, next) := s.value;
      cmds := cmds + [c];
      cursor := next;
    }
    DecodeOpsClear(l, buf, 0);
  }

  /** No decoded opcode carries the handle bit. */
  lemma {:induction false} DecodeOpsClear(l: Layout, buf: seq<bv8>, cursor: nat)
    requires l.Valid()
    ensures forall i :: 0 <= i < |Decode(l, buf, cursor)| ==> Decode(l, buf, cursor)[i].header.op & HandleFlag == 0
    decreases |buf| - cursor
  {
    if cursor < |buf| && Step(l, buf, cursor).Some? {
      DecodeOpsClear(l, buf, Step(l, buf, cursor).value.1);
    }
  }

  /** b is the command that starts right after the payload of a. */
  predicate Follows(l: Layout, buf: seq<bv8>, a: Command, b: Command)
  {
    var s := Step(l, buf, a.data + a.header.cmdLen);
    s.Some? && s.value.0 == b
  }

  /**
   * Commands come out in buffer order and back to back: the first is the one whose
   * header starts at cursor, and each next one starts exactly cmdLen bytes after the
   * payload of the one before. Decoding stops only at the end of the buffer or at the
   * first header, or announced handle, that does not fit in it.
   */
  lemma {:induction false} DecodeChain(l: Layout, buf: seq<bv8>, cursor: nat)
    requires l.Valid()
    ensures var cmds := Decode(l, buf, cursor);
            |cmds| > 0 ==> Step(l, buf, cursor).Some? && Step(l, buf, cursor).value.0 == cmds[0]
    ensures var cmds := Decode(l, buf, cursor);
            forall i :: 0 <= i < |cmds| - 1 ==> Follows(l, buf, cmds[i], cmds[i + 1])
    ensures |Decode(l, buf, cursor)| == 0 <==> cursor >= |buf| || !Fits(l, buf, cursor)
    ensures var cmds := Decode(l, buf, cursor);
            |cmds| > 0 ==>
              var e := cmds[|cmds| - 1].data + cmds[|cmds| - 1].header.cmdLen;
              e >= |buf| || !Fits(l, buf, e)
    decreases |buf| - cursor
  {
    if cursor < |buf| && Step(l, buf, cursor).Some? {
      var (c, next) := Step(l, buf, cursor).value;
      var cmds := Decode(l, buf, cursor);
      var rest := Decode(l, buf, next);
      DecodeChain(l, buf, next);
      assert cmds == [c] + rest;
      forall i | 0 <= i < |cmds| - 1
        ensures Follows(l, buf, cmds[i], cmds[i + 1])
      {
        if i == 0 {
          assert cmds[1] == rest[0];
        } else {
          assert cmds[i] == rest[i - 1] && cmds[i + 1] == rest[i];
        }
      }
      if rest == [] {
        assert cmds[|cmds| - 1] == c;
      } else {
        assert cmds[|cmds| - 1] == rest[|rest| - 1];
      }
    }
  }

  /** Every decoded command's header lies inside the buffer, so there are at most |buf| / headerSize of them. */
  lemma {:induction false} DecodeCount(l: Layout, buf: seq<bv8>, cursor: nat)
    requires l.Valid()
    requires cursor <= |buf|
    ensures |Decode(l, buf, cursor)| * l.headerSize <= |buf| - cursor
    decreases |buf| - cursor
  {
    if cursor < |buf| && Step(l, buf, cursor).Some? {
      var next := Step(l, buf, cursor).value.1;
      if next <= |buf| {
        DecodeCount(l, buf, next);
      } else {
        assert Decode(l, buf, next) == [];
      }
      var n := |Decode(l, buf, next)|;
      assert (n + 1) * l.headerSize == n * l.headerSize + l.headerSize;
    }
  }

  // ---------------------------------------------------------------------------
  // The loop as written in window.cpp:83-99. It reads the header without checking
  // how many bytes remain, and it skips the handle without storing it. What lies
  // past the end of the buffer is the parameter past (byte i past the end).

  function ByteAt(buf: seq<bv8>, past: nat -> bv8, i: nat): bv8
  {
    if i < |buf| then buf[i] else past(i - |buf|)
  }

  /** n bytes from offset from on, running past the end of buf when they do not fit. */
  function BytesAt(buf: seq<bv8>, past: nat -> bv8, from: nat, n: nat): (r: seq<bv8>)
    ensures |r| == n
    ensures from + n <= |buf| ==> r == buf[from..from + n]
  {
    var r := seq(n, (k: int) requires 0 <= k < n => ByteAt(buf, past, from + k));
    assert from + n <= |buf| ==> r == buf[from..from + n] by {
      if from + n <= |buf| {
        forall k | 0 <= k < n
          ensures r[k] == buf[from..from + n][k]
        {
          assert r[k] == ByteAt(buf, past, from + k);
        }
      }
    }
    r
  }

  /** One iteration of the source's loop: the command at cursor and where the cursor goes next. */
  function StepAsWritten(l: Layout, buf: seq<bv8>, past: nat -> bv8, cursor: nat): (r: (Command, nat))
    requires l.Valid()
    ensures r.1 >= cursor + l.headerSize
    ensures r.0.header.op & HandleFlag == 0
    ensures r.0.objHandle == l.unsetHandle
  {
    var raw := l.readHeader(BytesAt(buf, past, cursor, l.headerSize));
    var data := cursor + l.headerSize + HandleBytes(l, raw.op);
    (Command(Header(ClearHandleFlag(raw.op), raw.cmdLen), l.unsetHandle, data), data + raw.cmdLen)
  }

  /** The commands the source's loop collects from cursor on. */
  function DecodeAsWritten(l: Layout, buf: seq<bv8>, past: nat -> bv8, cursor: nat): seq<Command>
    requires l.Valid()
    decreases |buf| - cursor
  {
    if cursor >= |buf| then []
    else
      var (c, next) := StepAsWritten(l, buf, past, cursor);
      [c] + DecodeAsWritten(l, buf, past, next)
  }

  /**
   * The source's loop terminates: each iteration moves the cursor on by at least a
   * header, and it stops once the cursor reaches or passes the end.
   */
  lemma {:induction false} DecodeAsWrittenCount(l: Layout, buf: seq<bv8>, past: nat -> bv8, cursor: nat)
    requires l.Valid()
    ensures var n := |DecodeAsWritten(l, buf, past, cursor)|;
            n == 0 <==> cursor >= |buf|
    ensures var n := |DecodeAsWritten(l, buf, past, cursor)|;
            n > 0 ==> (n - 1) * l.headerSize < |buf| - cursor
    decreases |buf| - cursor
  {
    if cursor < |buf| {
      var next := StepAsWritten(l, buf, past, cursor).1;
      DecodeAsWrittenCount(l, buf, past, next);
      var m := |DecodeAsWritten(l, buf, past, next)|;
      assert m * l.headerSize == (m - 1) * l.headerSize + l.headerSize;
    }
  }

  /** The buffer is a run of whole commands: no header or handle runs past its end. */
  predicate WholeCommands(l: Layout, buf: seq<bv8>, cursor: nat)
    requires l.Valid()
    decreases |buf| - cursor
  {
    cursor >= |buf| || (Step(l, buf, cursor).Some? && WholeCommands(l, buf, Step(l, buf, cursor).value.1))
  }

  /**
   * On a buffer of whole commands the checked decoder and the source's loop see the
   * same commands: same opcodes, lengths and payload offsets, whatever lies past the
   * end. They differ only in the object handle, which the source never stores.
   */
  lemma {:induction false} DecodeAgreesWithSource(l: Layout, buf: seq<bv8>, past: nat -> bv8, cursor: nat)
    requires l.Valid()
    requires WholeCommands(l, buf, cursor)
    ensures var d := Decode(l, buf, cursor);
            var a := DecodeAsWritten(l, buf, past, cursor);
            && |d| == |a|
            && forall i :: 0 <= i < |d| ==>
                 d[i].header == a[i].header && d[i].data == a[i].data && a[i].objHandle == l.unsetHandle
    decreases |buf| - cursor
  {
    if cursor < |buf| {
      var next := Step(l, buf, cursor).value.1;
      assert BytesAt(buf, past, cursor, l.headerSize) == buf[cursor..cursor + l.headerSize];
      assert StepAsWritten(l, buf, past, cursor).1 == next;
      DecodeAgreesWithSource(l, buf, past, next);
    }
  }

  // ---------------------------------------------------------------------------
  // A concrete layout used to exhibit the two defects of the source's loop: a 16-bit
  // opcode and a 16-bit length, little-endian, followed by a 32-bit handle.

  function LittleEndian(b: seq<bv8>): nat
  {
    if b == [] then 0 else b[0] as nat + 256 * LittleEndian(b[1..])
  }

  function ExampleHeader(b: seq<bv8>): Header
  {
    if |b| < 4 then Header(0, 0) else Header((b[0] as bv32) | ((b[1] as bv32) << 8), LittleEndian(b[2..4]))
  }

  function ExampleHandle(b: seq<bv8>): nat
  {
    LittleEndian(b)
  }

  const Example: Layout := Layout(4, 4, ExampleHeader, ExampleHandle, 0)

  /**
   * A one-byte buffer: the source reads a four-byte header, three bytes of which lie
   * past the end, so what it decodes depends on memory outside the buffer. The
   * checked decoder decodes nothing from it.
   */
  lemma HeaderReadPastEnd()
    ensures DecodeAsWritten(Example, [0x01], Zeros, 0)[0].header.cmdLen == 0
    ensures DecodeAsWritten(Example, [0x01], Ones, 0)[0].header.cmdLen == 0x0101
    ensures Decode(Example, [0x01], 0) == []
  {
    var z := BytesAt([0x01], Zeros, 0, 4);
    assert z == [0x01, 0x00, 0x00, 0x00] by {
      assert z[1] == ByteAt([0x01], Zeros, 1) == Zeros(0);
    }
    assert z[2..4] == [0x00, 0x00];
    assert LittleEndian([0x00, 0x00]) == 0;
    var o := BytesAt([0x01], Ones, 0, 4);
    assert o == [0x01, 0x01, 0x01, 0x01] by {
      assert o[1] == ByteAt([0x01], Ones, 1) == Ones(0);
    }
    assert o[2..4] == [0x01, 0x01];
    assert LittleEndian([0x01, 0x01]) == 0x0101 by {
      assert LittleEndian([0x01]) == 1;
    }
  }

  /** Memory past the end of the buffer, all zero. */
  function Zeros(i: nat): bv8 { 0x00 }

  /** Memory past the end of the buffer, all 0x01. */
  function Ones(i: nat): bv8 { 0x01 }
}
