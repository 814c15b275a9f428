# Shaiya user object: inventory lookup, free-slot search and outbound packets

A Dafny model of the `CUser` extensions in `shaiya/src/shaiya/models/CUser.cpp`.
The library adds these members to the game server's user object:

- the item lookup by bag and slot;
- the search for the first free inventory slot;
- the teleport request;
- the item update sent to the database agent;
- the notice and the Aeria points packet sent to the user's client.

The model has two modules:

- `Packets` (`packets.dfy`) holds the client packets, the database records and the log entries, and builds the Notice struct.
- `Users` (`cuser.dfy`) holds the item class `CItem` and the class `CUser` with the user's fields.

The notice message, a C++ `std::string`, is modelled as a sequence of bytes (`uint8`). So `|message|` is the byte count that `message.length()` returns. An item's craftname is a fixed-size byte field of the game's item object. Its size is not shown, so the model keeps it as an unbounded sequence of bytes.

The user is modelled as a class:

- `equipment` is an array of nullable items.
- `inventory` is a 5 × 24 two-dimensional array of nullable items. Bags 1..5 map to its rows 0..4.
- The teleport fields, `userId` and `money` are plain fields.
- A `log` field records every call into the two outbound services, oldest first. `World::sendPacket` and `DbAgent::sendPacket` are both fire-and-forget, so each call becomes one appended entry.

The search and the lookup only read the object. Teleport, item update and the two send operations change only the fields named in their `modifies` frames.

## Model

| member | source | states |
|---|---|---|
| Users.CUser.ItemAtSlot | shaiya/src/shaiya/models/CUser.cpp:58-63 | bag 0 addresses `equipment[slot]`; any other bag b addresses row b - 1 of the inventory; the position must be addressable because the lookup checks no bounds |
| Users.CUser.FirstFreeSlot | shaiya/src/shaiya/models/CUser.cpp:121-132 | returns (-1, -1) exactly when all 5 × 24 inventory cells are occupied; otherwise returns a bag in 1..5 and a slot in 0..23 whose item is null, and every cell before it in bag-major, slot-minor order is occupied; equipment is never a result and no state changes |
| Users.CUser.FirstFreeUnique | shaiya/src/shaiya/models/CUser.cpp:123-129 | at most one cell is the first free cell, so the answer of the search is determined by the inventory contents alone |
| Users.CUser.Teleport | shaiya/src/shaiya/models/CUser.cpp:108-115 | sets teleport type 1, the map id, the x and z destination and a delay of 1000 ms; its frame allows no other field to change |
| Users.ItemUpdateRecords | shaiya/src/shaiya/models/CUser.cpp:141-160 | no records for an empty slot; otherwise exactly two DB records, all carrying the user id, bag and slot: first a lapis update with the item's lapis and the user's money, then a craftname update with the item's craftname |
| Users.CUser.UpdateItem | shaiya/src/shaiya/models/CUser.cpp:139-161 | appends to the log exactly the records of `ItemUpdateRecords` for the item at (bag, slot), keeps the inventory shape valid, and changes nothing else |
| Packets.NoticeFor | shaiya/src/shaiya/models/CUser.cpp:36-38 | the notice's length field is the message length in bytes, its buffer reads back as exactly the message, and the rest of the zero-initialised buffer stays zero |
| Users.CUser.SendNotice | shaiya/src/shaiya/models/CUser.cpp:34-40 | appends one client packet: the notice for the message, sent with a size of 3 + the message's byte count |
| Users.CUser.SendPoints | shaiya/src/shaiya/models/CUser.cpp:45-49 | appends one client packet: an account-points packet with 0 points, sent as the whole struct |

## Left out

- `createItem` and `deleteItem` are calls into the game binary at fixed addresses. `stItemInfo::forId` is a lookup in the server's item catalog. None of their behaviour is visible in the source.
- The hooks in `shaiya/src/shaiya/hooks/CharacterHooks.cpp` are left out. They are register save/restore trampolines written in inline assembly, plus live code patching. No statable logic in them is visible in the source.
- The item-set synergy engine (`ItemSetSynergy::parse`, `applyWornSynergies`, `removeSynergies`) is only called from the hooks. Its definition is not part of this model.
- The transport of packets and DB records is not modelled. Each send is one log entry. The byte layout of the record structs is not modelled either: their headers are not part of this model.
- `Notice.hpp` is not part of this model. The message buffer's capacity is a model constant (`NoticeCapacity`, 128). The width of the length field is unknown, so the length is kept as an unbounded `nat`. The 3-byte header size is taken from the size expression in `sendNotice`.
- `sendNotice` copies the message without checking the buffer's capacity. `SendNotice` and `NoticeFor` require that the message fits instead of modelling the overflow.
- `itemAtSlot` performs no bounds check. `ItemAtSlot` requires an addressable position instead of modelling out-of-bounds reads.
- The teleport coordinates are floats that are only stored. They are kept as 32-bit patterns (`Float32`), and no floating-point arithmetic is modelled.
- `CUser.hpp` and the item header are not part of this model. The widths of `userId`, `money`, the teleport type and delay, and the item's lapis and craftname fields are unknown, so they are unbounded integers and sequences. The equipment array has no fixed length in the model.
