/**
 * A window-server client (window_server_client in window.cpp): its table of objects
 * addressed by handle, its primary screen device and its window tree, and the
 * operations that decode a command buffer, route its commands to objects, create
 * screen devices and create window groups. Also the replies a screen device gives.
 *
 * Replies are returned values; the IPC context that carries them is not modelled.
 * Ids of new objects are given by the caller: they are assigned by the object base
 * class, which is not part of this model.
 */
module WindowClient {
  import opened Opt
  import opened CommandBuffer
  import opened WindowTree

  /** An entry of the client's object table; only screen devices are told apart. */
  datatype ClientObject = ScreenDevice(id: nat) | OtherObject(id: nat)

  /** The entry as a screen device (a dynamic cast): the device's id, or nothing. */
  function AsScreenDevice(o: ClientObject): Option<nat>
  {
    if o.ScreenDevice? then Some(o.id) else None
  }

  // ---------------------------------------------------------------------------
  // execute_commands

  /** A command handed to the object at index of the table. */
  datatype Dispatch = Dispatch(index: nat, target: ClientObject, cmd: Command)

  /** A handle names an object: handles run from 1 to the table size. */
  predicate Names(objects: seq<ClientObject>, handle: nat)
  {
    0 < handle <= |objects|
  }

  /**
   * The commands, in order, that reach an object: a command whose handle is 0 or
   * beyond the table is skipped, any other goes to objects[handle - 1].
   */
  function Route(objects: seq<ClientObject>, cmds: seq<Command>): (r: seq<Dispatch>)
    ensures forall k :: 0 <= k < |r| ==> r[k].index < |objects| && r[k].target == objects[r[k].index]
  {
    if cmds == [] then []
    else
      var last := cmds[|cmds| - 1];
      Route(objects, cmds[..|cmds| - 1])
        + (if !Names(objects, last.objHandle) then [] else [Dispatch(last.objHandle - 1, objects[last.objHandle - 1], last)])
  }

  /**
   * Routing is exact: every dispatched command comes from the buffer and goes to the
   * object its handle names, and every command whose handle names an object is
   * dispatched to it.
   */
  lemma {:induction false} RouteExact(objects: seq<ClientObject>, cmds: seq<Command>)
    ensures forall k :: 0 <= k < |Route(objects, cmds)| ==>
              var d := Route(objects, cmds)[k];
              d.cmd in cmds && d.index == d.cmd.objHandle - 1 && Names(objects, d.cmd.objHandle)
    ensures forall i :: 0 <= i < |cmds| && Names(objects, cmds[i].objHandle) ==>
              Dispatch(cmds[i].objHandle - 1, objects[cmds[i].objHandle - 1], cmds[i]) in Route(objects, cmds)
  {
    if cmds != [] {
      var init := cmds[..|cmds| - 1];
      RouteExact(objects, init);
      forall i | 0 <= i < |cmds| - 1
        ensures cmds[i] == init[i]
      {
      }
    }
  }

  /** Commands are processed in order: routing two buffers' commands is routing the first, then the second. */
  lemma {:induction false} RouteAppend(objects: seq<ClientObject>, a: seq<Command>, b: seq<Command>)
    ensures Route(objects, a + b) == Route(objects, a) + Route(objects, b)
    decreases |b|
  {
    if b == [] {
      assert a + b == a;
    } else {
      var ab := a + b;
      assert ab[..|ab| - 1] == a + b[..|b| - 1];
      assert ab[|ab| - 1] == b[|b| - 1];
      RouteAppend(objects, a, b[..|b| - 1]);
    }
  }

  /**
   * A single command is dispatched exactly once, to objects[handle - 1], when its
   * handle names an object, and not at all otherwise. With RouteAppend this fixes the
   * routing of every run of commands.
   */
  lemma RouteOne(objects: seq<ClientObject>, c: Command)
    ensures Route(objects, [c]) ==
              if Names(objects, c.objHandle) then [Dispatch(c.objHandle - 1, objects[c.objHandle - 1], c)] else []
  {
    assert [c][..0] == [];
  }

  // ---------------------------------------------------------------------------
  // create_screen_device

  /** The primary device after a device with the given id is created: only the first one is adopted. */
  function Adopt(primary: Option<nat>, id: nat): Option<nat>
  {
    if primary.None? then Some(id) else primary
  }

  /** The primary device after devices with the given ids are created one after the other. */
  function PrimaryAfter(primary: Option<nat>, ids: seq<nat>): Option<nat>
    decreases |ids|
  {
    if ids == [] then primary else PrimaryAfter(Adopt(primary, ids[0]), ids[1..])
  }

  /** The first screen device ever created stays the primary device; later ones never replace it. */
  lemma {:induction false} FirstDeviceStaysPrimary(primary: Option<nat>, ids: seq<nat>)
    ensures PrimaryAfter(primary, ids) == if primary.Some? || ids == [] then primary else Some(ids[0])
    decreases |ids|
  {
    if ids != [] {
      FirstDeviceStaysPrimary(Adopt(primary, ids[0]), ids[1..]);
    }
  }

  // ---------------------------------------------------------------------------
  // create_window_group: choosing the device

  /**
   * The handles for which the source's choice is defined: those it sends to the primary
   * device (0 or less) and those whose index handle - 1 lies inside the table.
   */
  predicate SourceIndexDefined(objects: seq<ClientObject>, handle: int)
  {
    handle <= 0 || handle - 1 < |objects|
  }

  /**
   * The device of a new group as the source chooses it: the primary device for a
   * handle of 0 or less, otherwise the entry handle - 1 of the table cast to a screen
   * device. The source does not check the handle against the table size, so this is
   * defined only where its index is in bounds.
   */
  function GroupDeviceAsWritten(objects: seq<ClientObject>, primary: Option<nat>, handle: int): Option<nat>
    requires SourceIndexDefined(objects, handle)
  {
    if handle <= 0 then primary else AsScreenDevice(objects[handle - 1])
  }

  /** The device of a new group, with a handle beyond the table giving no device, as a failed cast does. */
  function GroupDevice(objects: seq<ClientObject>, primary: Option<nat>, handle: int): Option<nat>
  {
    if handle <= 0 then primary
    else if handle > |objects| then None
    else AsScreenDevice(objects[handle - 1])
  }

  /**
   * The checked choice agrees with the source wherever the source's index is in
   * bounds, takes the primary device for handles of 0 or less, and gives no device
   * for a handle beyond the table.
   */
  lemma GroupDeviceRefinesSource(objects: seq<ClientObject>, primary: Option<nat>, handle: int)
    ensures SourceIndexDefined(objects, handle) ==> GroupDevice(objects, primary, handle) == GroupDeviceAsWritten(objects, primary, handle)
    ensures handle <= 0 ==> GroupDevice(objects, primary, handle) == primary
    ensures handle > |objects| ==> GroupDevice(objects, primary, handle).None?
  {
  }

  /**
   * The source's choice is defined exactly for handles up to the table size, yet its
   * only test is handle <= 0: the handle one past the table takes the indexing branch,
   * lies outside the source's domain, and the checked choice gives it no device.
   */
  lemma UncheckedDeviceHandle(objects: seq<ClientObject>, primary: Option<nat>)
    ensures forall h: int :: SourceIndexDefined(objects, h) <==> h <= |objects|
    ensures var h := |objects| + 1;
            && !(h <= 0)
            && !SourceIndexDefined(objects, h)
            && GroupDevice(objects, primary, h) == None
  {
  }

  // ---------------------------------------------------------------------------
  // screen_device::execute_command

  datatype Vec2 = Vec2(x: int, y: int)

  /** The screen-device requests window.cpp answers, and the rest. */
  datatype ScreenDeviceOp = PixelSize | TwipsSize | Unimplemented(op: bv32)

  const TwipsPerPixel: int := 15

  function Scale(v: Vec2, k: int): Vec2
  {
    Vec2(v.x * k, v.y * k)
  }

  /** The reply a screen device writes for a request, given the driver's window size; none for other requests. */
  function ScreenDeviceReply(op: ScreenDeviceOp, windowSize: Vec2): Option<Vec2>
  {
    match op
    case PixelSize => Some(windowSize)
    case TwipsSize => Some(Scale(windowSize, TwipsPerPixel))
    case Unimplemented(_) => None
  }

  /**
   * The pixel size is the driver's window size unchanged; the twips size is it times
   * 15, so dividing the twips size by 15 gives the pixel size back. Other requests get
   * no reply.
   */
  lemma TwipsArePixelsTimesFifteen(windowSize: Vec2, other: bv32)
    ensures ScreenDeviceReply(PixelSize, windowSize) == Some(windowSize)
    ensures var t := ScreenDeviceReply(TwipsSize, windowSize).value;
            && t == Scale(ScreenDeviceReply(PixelSize, windowSize).value, 15)
            && t.x % 15 == 0 && t.y % 15 == 0
            && Vec2(t.x / 15, t.y / 15) == windowSize
    ensures ScreenDeviceReply(Unimplemented(other), windowSize).None?
  {
  }

  // ---------------------------------------------------------------------------
  // The client

  class Client {
    /** The object table; handle h names objects[h - 1]. */
    var objects: seq<ClientObject>
    /** The first screen device created, if any. */
    var primaryDevice: Option<nat>
    /** The root window of the client's tree. */
    var root: Window

    constructor (rootId: nat)
      ensures objects == [] && primaryDevice == None && root == Window(rootId, Ordinary, [])
    {
      objects := [];
      primaryDevice := None;
      root := Window(rootId, Ordinary, []);
    }

    /** execute_commands: each command in turn goes to the object its handle names, or is skipped. */
    method ExecuteCommands(cmds: seq<Command>) returns (dispatched: seq<Dispatch>)
      ensures dispatched == Route(objects, cmds)
      ensures forall k :: 0 <= k < |dispatched| ==>
                dispatched[k].index < |objects| && dispatched[k].target == objects[dispatched[k].index]
    {
      dispatched := [];
      for i := 0 to |cmds|
        invariant dispatched == Route(objects, cmds[..i])
      {
        assert cmds[..i + 1][..i] == cmds[..i];
        var cmd := cmds[i];
        if cmd.objHandle == 0 || cmd.objHandle > |objects| {
          continue;
        }
        dispatched := dispatched + [Dispatch(cmd.objHandle - 1, objects[cmd.objHandle - 1], cmd)];
      }
      assert cmds[..|cmds|] == cmds;
    }

    /**
     * parse_command_buffer: with no buffer argument nothing happens; otherwise the
     * buffer's commands are decoded and executed in order.
     */
    method ParseCommandBuffer(l: Layout, arg: Option<seq<bv8>>) returns (dispatched: seq<Dispatch>)
      requires l.Valid()
      ensures arg.None? ==> dispatched == []
      ensures arg.Some? ==> dispatched == Route(objects, Decode(l, arg.value, 0))
    {
      if arg.None? {
        return [];
      }
      var cmds := DecodeCommands(l, arg.value);
      dispatched := ExecuteCommands(cmds);
    }

    /**
     * create_screen_device: the new device becomes primary only when there is none
     * yet, every group without a device gets the primary one, and the reply is the
     * new device's id.
     */
    method CreateScreenDevice(id: nat) returns (status: nat)
      modifies this
      ensures primaryDevice == Adopt(old(primaryDevice), id)
      ensures root == WithDevice(old(root), primaryDevice)
      ensures objects == old(objects)
      ensures status == id
    {
      if primaryDevice.None? {
        primaryDevice := Some(id);
      }
      root := WithDevice(root, primaryDevice);
      status := id;
    }

    /**
     * create_window_group: a group with id gid, on the device the handle selects, is
     * attached under the window with id parentId, or under the root when there is no
     * such window; the reply is gid.
     */
    method CreateWindowGroup(deviceHandle: int, parentId: nat, gid: nat) returns (status: nat)
      modifies this
      ensures root == Attach(old(root), parentId, Window(gid, Group(GroupDevice(old(objects), old(primaryDevice), deviceHandle)), []))
      ensures objects == old(objects) && primaryDevice == old(primaryDevice)
      ensures status == gid
    {
      var device := GroupDevice(objects, primaryDevice, deviceHandle);
      var group := Window(gid, Group(device), []);
      root := Attach(root, parentId, group);
      status := gid;
    }
  }

  // ---------------------------------------------------------------------------
  // The handle that the source's decoding loop skips but never stores

  /**
   * A buffer holding one command with opcode 0x8001, no payload and handle 1,
   * addressed to a table of one screen device. In the source's loop the handle is
   * skipped and the command keeps the handle it was created with (here 0), so it is
   * dropped; decoded with the handle stored, it reaches the device.
   */
  lemma HandleNeverStored()
    ensures var buf: seq<bv8> := [0x01, 0x80, 0x00, 0x00, 0x01, 0x00, 0x00, 0x00];
            && Route([ScreenDevice(7)], DecodeAsWritten(Example, buf, Zeros, 0)) == []
            && Route([ScreenDevice(7)], Decode(Example, buf, 0))
               == [Dispatch(0, ScreenDevice(7), Command(Header(0x0001, 0), 1, 8))]
  {
    var buf: seq<bv8> := [0x01, 0x80, 0x00, 0x00, 0x01, 0x00, 0x00, 0x00];
    assert buf[0..4] == [0x01, 0x80, 0x00, 0x00];
    assert buf[2..4] == [0x00, 0x00];
    assert buf[4..8] == [0x01, 0x00, 0x00, 0x00];
    assert LittleEndian([0x00, 0x00]) == 0;
    assert LittleEndian([0x01, 0x00, 0x00, 0x00]) == 1;
    assert BytesAt(buf, Zeros, 0, 4) == buf[0..4];
    var raw := RawHeader(Example, buf, 0);
    assert raw == ExampleHeader([0x01, 0x80, 0x00, 0x00]);
    assert (0x01 as bv8 as bv32) | ((0x80 as bv8 as bv32) << 8) == 0x8001;
    assert raw == Header(0x8001, 0);
    assert ClearHandleFlag(0x8001) == 0x0001;
    var cmd := Command(Header(0x0001, 0), 1, 8);
    assert Step(Example, buf, 0) == Some((cmd, 8));
    assert Decode(Example, buf, 0) == [cmd];
    assert Route([ScreenDevice(7)], [cmd]) == [Dispatch(0, ScreenDevice(7), cmd)] by {
      assert [cmd][..0] == [];
    }
  }
}
