# Window-server client and MMU base, modelled in Dafny

This project models two pieces of the EKA2L1 emulator.

1. **The window-server client** (`src/emu/core/src/services/window/window.cpp`). It covers:
   - decoding a command buffer into commands;
   - routing each command to the client object its handle names;
   - the client's window tree: pre-order search, giving the primary screen device to groups that have none, and attaching a new window group under its parent;
   - the rule that the first screen device becomes the primary one;
   - the pixel and twips sizes a screen device replies with.
2. **The MMU base** (`src/emu/mem/include/mem/mmu.h`). It covers:
   - the page size chosen by the page-size bits;
   - the page-table assignment flags;
   - page-table lookup by id;
   - the documented contracts of the operations each memory model provides (page-table creation, address-space rollover, switching the current address space, page-table assignment), as a state machine.

Files:

- `option.dfy`: `Option`, which stands for a reference that may be null.
- `command_buffer.dfy` (module `CommandBuffer`): the decoder. It holds both the checked decoder the rest of the model uses and the source's loop as written.
- `window_tree.dfy` (module `WindowTree`): the window tree as a value, with `Find`, `WithDevice` and `Attach`.
- `window_client.dfy` (module `WindowClient`): the client class, command routing, device selection and screen-device replies.
- `mmu.dfy` (module `Mmu`): page size, flags, the page-table allocator and `MmuBase`.

### Command layout

`ws_cmd_header` and the object handle are defined in `core/services/window/op.h`, which is not part of this model. The `Layout` datatype therefore takes these as parameters:

- the header size and the handle size;
- how header bytes read as `{op, cmd_len}`;
- how handle bytes read as a handle;
- `unsetHandle`: the value a freshly declared `ws_cmd` holds in `obj_handle`.

A layout only needs a header of at least one byte, as every C++ object has. Opcodes are held in 32 bits, and payload offsets stand for the source's `data_ptr`.

Two behaviours of the source are worth knowing before reading the table:

- `page_size()` does not reject page-size bits other than 12 and 20. It returns 1 MiB for every value but 12, including the constructor default 10 (mmu.h:75, 87-89; `Mmu.PageSizeIsPowerOfTwo`).
- The decoder reads each header without checking the bytes left; see "Findings".

## Model

| member | source | states |
|---|---|---|
| `CommandBuffer.Step` | src/emu/core/src/services/window/window.cpp:84-97 | One command is decoded at the cursor. The decoded op is the header's op with bit 0x8000 cleared, and `cmd_len` is kept. The payload starts after the header, plus the handle when bit 0x8000 was set. The handle is read only in that case. The next command starts `cmd_len` bytes after the payload start. It gives nothing exactly when the header, or the handle it announces, does not fit in the bytes left. |
| `CommandBuffer.ClearHandleFlagBits` | src/emu/core/src/services/window/window.cpp:88-89 | Clearing the flag removes bit 0x8000 and leaves an opcode without it unchanged. |
| `CommandBuffer.ClearHandleFlagKeepsOthers` | src/emu/core/src/services/window/window.cpp:89 | Clearing the flag loses no other bit of the opcode. |
| `CommandBuffer.DecodeCommands` | src/emu/core/src/services/window/window.cpp:78-99 | The cursor loop collects exactly the commands of `Decode`, in buffer order. No collected opcode carries bit 0x8000. |
| `CommandBuffer.DecodeOpsClear` | src/emu/core/src/services/window/window.cpp:88-89 | Every decoded opcode has bit 0x8000 cleared. |
| `CommandBuffer.DecodeChain` | src/emu/core/src/services/window/window.cpp:83-98 | The first command is the one at the cursor. Each later command is the one starting exactly `cmd_len` bytes after the previous payload start, so commands come out in buffer order. Decoding stops only at the end of the buffer, or at the first header or announced handle that does not fit. Nothing is decoded exactly when the cursor is at the end or the first header does not fit. |
| `CommandBuffer.DecodeCount` | src/emu/core/src/services/window/window.cpp:83-97 | Every decoded header lies inside the buffer, so at most `|buf| / headerSize` commands are decoded. |
| `CommandBuffer.StepAsWritten` | src/emu/core/src/services/window/window.cpp:84-97 | In the source's loop, one iteration moves the cursor on by at least a header. It clears bit 0x8000. The command keeps the handle it was declared with. |
| `CommandBuffer.DecodeAsWrittenCount` | src/emu/core/src/services/window/window.cpp:83-97 | The source's loop stops once the cursor reaches or passes the end. It emits nothing exactly when it starts at or past the end. Since each iteration advances by at least a header, there are at most `ceil(|buf| / headerSize)` iterations. |
| `CommandBuffer.DecodeAgreesWithSource` | src/emu/core/src/services/window/window.cpp:83-99 | On a buffer of whole commands, the checked decoder and the source's loop give the same opcodes, lengths and payload offsets, whatever lies past the end. They differ only in the handle, which the source leaves unset. |
| `CommandBuffer.HeaderReadPastEnd` | src/emu/core/src/services/window/window.cpp:86 | On a one-byte buffer, the source's loop decodes a length that depends on the bytes past the end. The checked decoder decodes nothing. |
| `WindowClient.Route` | src/emu/core/src/services/window/window.cpp:109-118 | Every routed command goes to an index inside the object table and to the object at that index. |
| `WindowClient.RouteExact` | src/emu/core/src/services/window/window.cpp:110-117 | Each routed command comes from the input and goes to `objects[handle - 1]`, with a handle from 1 to `objects.size()`. Every command whose handle is in that range is routed. Commands with handle 0 or above `objects.size()` are skipped. |
| `WindowClient.RouteAppend` | src/emu/core/src/services/window/window.cpp:110 | Commands are processed in order: routing `a + b` gives routing `a` followed by routing `b`. |
| `WindowClient.RouteOne` | src/emu/core/src/services/window/window.cpp:110-117 | A single command is dispatched exactly once, to `objects[handle - 1]`, when its handle names an object, and not at all otherwise. With `RouteAppend`, this fixes the routing of every command sequence. |
| `WindowClient.Client.ExecuteCommands` | src/emu/core/src/services/window/window.cpp:109-118 | The loop dispatches exactly `Route(objects, cmds)`. Every dispatch index is in bounds and names the object it goes to. |
| `WindowClient.Client.ParseCommandBuffer` | src/emu/core/src/services/window/window.cpp:71-102 | This is the corrected half of Findings rows 1 and 2, not the source as written. With no buffer argument, nothing is decoded or executed. Otherwise the commands of the checked decoder `Decode` are routed in order. That decoder stores each announced handle and stops before a truncated header. |
| `WindowClient.FirstDeviceStaysPrimary` | src/emu/core/src/services/window/window.cpp:129-131 | Over any run of screen-device creations, the primary device is the first one created. An existing primary device is never replaced. |
| `WindowClient.Client.CreateScreenDevice` | src/emu/core/src/services/window/window.cpp:120-137 | The new device becomes primary only when there is none. The tree gets the primary device in every group that lacks one. The object table is unchanged, and the reply is the device id. |
| `WindowClient.Client.CreateWindowGroup` | src/emu/core/src/services/window/window.cpp:159-185 | This is the corrected half of Findings row 3. For `device_handle > objects.size()` the source indexes past the table (line 168), while this method attaches a group with no device. The group's device is chosen by `GroupDevice`, and the group is attached by `Attach` under the parent id, or under the root. Objects and the primary device are unchanged, and the reply is the group id. |
| `WindowClient.GroupDeviceRefinesSource` | src/emu/core/src/services/window/window.cpp:165-169 | A handle of 0 or less selects the primary device. Wherever the source's index is defined (`SourceIndexDefined`), the choice equals the source's `objects[device_handle - 1]` cast to a screen device. Beyond the table, no device is selected. |
| `WindowClient.UncheckedDeviceHandle` | src/emu/core/src/services/window/window.cpp:165-168 | The source's choice is defined exactly for handles up to the table size. The handle one past the table still takes the indexing branch, because the only test is `device_handle <= 0`. It lies outside the source's domain, and the checked choice gives it no device. |
| `WindowClient.HandleNeverStored` | src/emu/core/src/services/window/window.cpp:84-90 | The example command below addresses object 1. The source's loop drops it, because it never stores the handle. Decoded with the handle stored, the command reaches the object. |
| `WindowClient.TwipsArePixelsTimesFifteen` | src/emu/core/src/services/window/window.cpp:42-69 | The pixel-size reply is the driver's window size unchanged. The twips-size reply is 15 times it, and dividing by 15 gives the pixel size back. Other requests get no reply. |
| `WindowClient.Client.constructor` | src/emu/core/src/services/window/window.cpp:104-107 | A new client has an empty object table, no primary device, and a root window with no children. |
| `WindowTree.Find` | src/emu/core/src/services/window/window.cpp:187-205 | A node that is found has the id asked for. |
| `WindowTree.FindIsFirstInPreOrder` | src/emu/core/src/services/window/window.cpp:187-205 | `find_window_obj` returns the first node in pre-order, root first, with the id. It returns nothing exactly when no node of the tree has that id. |
| `WindowTree.WithDeviceNodes` | src/emu/core/src/services/window/window.cpp:139-151 | After `init_device`, node by node in pre-order, ids and child counts are unchanged. A group without a device gets the primary device. Every other window keeps its kind. |
| `WindowTree.NoGroupWithoutDevice` | src/emu/core/src/services/window/window.cpp:139-151 | When there is a primary device, no group is left without a device. |
| `WindowTree.WithDeviceIdempotent` | src/emu/core/src/services/window/window.cpp:139-151 | Running `init_device` twice with the same device is the same as running it once. |
| `WindowTree.AppendUnderFindsParent` | src/emu/core/src/services/window/window.cpp:172-182 | Under an existing parent, the parent is still the node found for its id. Its children are the old ones followed by the new group. |
| `WindowTree.AttachPlacesGroup` | src/emu/core/src/services/window/window.cpp:172-182 | The group becomes the last child of the first node with the parent id. When no node has that id, the result is the root with the group appended to its children and nothing else changed. The root stays the root, and the tree gains exactly the group's ids. No other node changes. Take each node's label to be its id, kind and child count, in pre-order (`Labels`, proved equal to `PreOrder` by `LabelsArePreOrder`). `EditedBy` states the change: the parent's child count goes up by one, the group's labels are inserted right after the parent's subtree, and every other label keeps its place. Labels determine the tree (`LabelsDetermineTree`), so this fixes the result completely. |
| `WindowTree.LabelsDetermineTree` | src/emu/core/src/services/window/window.cpp:187-205 | Two window trees with the same pre-order labels (id, kind, child count) are equal. A pre-order frame on labels therefore fixes a tree completely. |
| `WindowTree.AttachFrameIsComplete` | src/emu/core/src/services/window/window.cpp:172-182 | Any tree whose labels are the root's, edited as `AttachPlacesGroup` prescribes for an existing parent, is exactly the tree `create_window_group` builds. |
| `Mmu.PageSizeOf` | src/emu/mem/include/mem/mmu.h:87-89 | Pages are 0x1000 bytes exactly when `page_size_bits_ == 12`, and 0x100000 bytes for every other value. |
| `Mmu.PageSizesArePowersOfTwo` | src/emu/mem/include/mem/mmu.h:34-35 | The two page sizes are 2^12 and 2^20. |
| `Mmu.PageSizeIsPowerOfTwo` | src/emu/mem/include/mem/mmu.h:87-89 | A page is always 2^12 or 2^20 bytes. The constructor default of 10 bits gives 2^20 bytes, not 2^10. |
| `Mmu.AssignFlagsAreDistinctBits` | src/emu/mem/include/mem/mmu.h:37-40 | `MMU_ASSIGN_LOCAL_GLOBAL_REGION` is 1 and `MMU_ASSIGN_GLOBAL` is 2. They share no bit. |
| `Mmu.AssignFlagsIndependent` | src/emu/mem/include/mem/mmu.h:37-40 | Setting either flag leaves the test for the other unchanged. |
| `Mmu.MmuBase.constructor` | src/emu/mem/include/mem/mmu.h:75 | The MMU keeps the allocator and the page-size bits it is given. Its page size follows from those bits. `using_old_mem_map()` returns the flag given, by default false. |
| `Mmu.MmuBase.PageSize` | src/emu/mem/include/mem/mmu.h:87-89 | The page size is one of exactly two values, 0x1000 when the bits are 12. |
| `Mmu.MmuBase.GetPageTableById` | src/emu/mem/include/mem/mmu.h:98-100 | It returns exactly the allocator's answer for the id. Being a function, it changes no state. |
| `Mmu.MmuBase.CreateNewPageTable` | src/emu/mem/include/mem/mmu.h:107-116 | The allocator gains exactly one table, the new one, under a fresh id. The new table is attached to no page directory, and earlier tables are unchanged. |
| `Mmu.MmuBase.RolloverFreshAddrSpace` | src/emu/mem/include/mem/mmu.h:118-123 | It returns an ASID that identifies a live address space, or -1 exactly when the memory model cannot create one. The current space and the assignments are unchanged. |
| `Mmu.MmuBase.SetCurrentAddrSpace` | src/emu/mem/include/mem/mmu.h:125-132 | It succeeds exactly for a known address space, and then `current_addr_space()` equals the id. On failure the current space is unchanged. |
| `Mmu.MmuBase.AssignPageTable` | src/emu/mem/include/mem/mmu.h:134-137 | The table is attached at the linear address in every live target. The targets are the listed address spaces, or the current one when the list is empty. It is attached afterwards exactly when it was before or some target is live. No other table's slots change, and every slot names a live address space (`Valid`). |
| `Mmu.PageTableLifecycle` | src/emu/mem/include/mem/mmu.h:107-116 | With 4 KiB pages, a new table is unattached, and assigning it before any address space exists leaves it unattached. After rollover of ASID 1, a switch to it and an assignment without a list, the table is attached at 0x40000000 in ASID 1 only. |

## Findings

| source | as written | input that shows it | evidently intended | confidence | as-written member | corrected member |
|---|---|---|---|---|---|---|
| src/emu/core/src/services/window/window.cpp:86 | The header is read at the cursor without checking how many bytes remain. | A one-byte buffer with a four-byte header: the decoded `cmd_len` is 0 or 0x0101 depending on the memory past the end. | Stop decoding when a header, or the handle it announces, does not fit in the buffer. | not executed; high | `CommandBuffer.StepAsWritten`, `CommandBuffer.HeaderReadPastEnd` | `CommandBuffer.Step`, `CommandBuffer.DecodeChain`, `CommandBuffer.DecodeCount`, `WindowClient.Client.ParseCommandBuffer` |
| src/emu/core/src/services/window/window.cpp:84-90 | When bit 0x8000 is set, the handle bytes are skipped but never copied into `cmd.obj_handle`. | Bytes `01 80 00 00 01 00 00 00` (op 0x8001, length 0, handle 1), with one object in the table: the command keeps its initial handle and, if that is 0, is never dispatched. | Store the handle that follows the header, so the command reaches `objects[handle - 1]`. | not executed; high | `CommandBuffer.StepAsWritten`, `WindowClient.HandleNeverStored` | `CommandBuffer.Step`, `WindowClient.RouteExact`, `WindowClient.Client.ParseCommandBuffer` |
| src/emu/core/src/services/window/window.cpp:168 | `objects[device_handle - 1]` is indexed for any positive handle, with no upper bound. | `device_handle = objects.size() + 1` | Treat a handle beyond the table like one that names no screen device: no device. | not executed; medium | `WindowClient.GroupDeviceAsWritten`, `WindowClient.SourceIndexDefined`, `WindowClient.UncheckedDeviceHandle` | `WindowClient.GroupDevice`, `WindowClient.GroupDeviceRefinesSource`, `WindowClient.Client.CreateWindowGroup` |

The first two rows use an example layout, `CommandBuffer.Example`: a 16-bit opcode and a 16-bit length, little-endian, then a 32-bit handle. A fresh handle of 0 is assumed. Whatever the layout and buffer, `StepAsWritten` ensures that the source's loop never stores a handle: every command keeps `unsetHandle`. On whole-command buffers, `DecodeAgreesWithSource` shows that the handle is the only difference from the checked decoder.

## Left out

- IPC transport is not modelled: `ctx.get_arg`, `write_arg_pkg`, `set_request_status`, `REGISTER_IPC`, `window_server::init` with its client map, and `send_to_command_buffer`. The buffer argument is an `Option`, and replies are returned values.
- `window_server_client::execute_command` and `restore_hotkey` are not modelled: the opcode values they switch on are defined in op.h, which is not part of this model.
- Screen-device opcodes are a datatype for the same reason, and the driver's window size is an input.
- The fields of `ws_cmd_window_group_header` are parameters of `CreateWindowGroup`.
- The ids that new devices and groups receive are parameters. The object base class that assigns them is not part of this model.
- What the target object does with a routed command is not modelled, except for a screen device's replies. `ExecuteCommands` reports which object receives which command.
- How objects enter the client's table is not shown. The model takes the table as it is.
- `shared_ptr` identity and aliasing are not modelled. The window tree is a value held in the client, and its in-place updates are replacements of that value. A node's `parent` link is implied by its position in the tree.
- Logging (`LOG_WARN`, `LOG_INFO`) is not modelled.
- `WindowTree.AttachPlacesGroup`, `WindowTree.AppendUnderFindsParent` and `WindowClient.Client.CreateWindowGroup` assume that `childs.push` (window.cpp:182) appends at the end. The container type is declared in window.h, which is not part of this model. Where `push` inserts decides the order in which `find_window_obj` visits the children.
- `WindowClient.TwipsArePixelsTimesFifteen`: components are unbounded integers. A 32-bit overflow of `screen_size * 15` is not modelled, as no realistic screen size reaches it.
- `map_to_cpu`, `unmap_from_cpu`, the 8/16/32/64-bit read and write helpers, `get_host_pointer`, `model_type` and `make_new_mmu` are not modelled: their bodies, and the memory models implementing them, are not part of this model.
- The derived constants (`offset_mask_`, `page_index_mask_`, the shifts, the chunk constants) are not modelled: the constructor that computes them is not shown.
- `Mmu.MmuBase.RolloverFreshAddrSpace`: which address space is created or renewed is a memory-model decision, so it is a parameter. What renewal does to an existing page directory is not modelled.
- `Mmu.MmuBase.AssignPageTable`: the flags are recorded with each slot, but the visibility rules of a global assignment are not modelled, as they belong to the memory models. Targets that are not live address spaces get no slot, because they have no page directory. What a memory model does with such a target is not documented.
- The page-table allocator's policy is not modelled. The model's allocator hands out increasing ids so that a new table's id is provably fresh.
- Page-table entries are not modelled.
- The CPU and configuration objects the MMU holds (`cpu_`, `conf_`) are not modelled.
