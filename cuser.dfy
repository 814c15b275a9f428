/**
 * The game server's user object as the library extends it: item lookup by
 * bag and slot, the search for a free inventory slot, teleport requests,
 * item updates sent to the database agent, and notices and points sent to
 * the user's client.
 */
module Users {
  import opened Packets

  /** Number of inventory bags; bag 0 is the equipment, bags 1..BagCount the inventory. */
  const BagCount: int := 5

  /** Number of slots in one inventory bag. */
  const SlotsPerBag: int := 24

  /** The teleport type a teleport request writes; what type 1 means to the game server is not shown. */
  const TeleportTypeValue: int := 1

  /** The delay of a teleport request, in milliseconds. */
  const TeleportDelayMs: int := 1000

  /** A 32-bit float, kept as its bit pattern: the model stores floats and never computes on them. */
  datatype Float32 = Float32(bits: bv32)

  /** An item instance of the game server. */
  class CItem {
    var lapis: seq<int>
    var craftname: seq<uint8>
  }

  /** Whether (bag, slot) names a cell of the inventory grid. */
  predicate InInventory(bag: int, slot: int)
  {
    1 <= bag <= BagCount && 0 <= slot < SlotsPerBag
  }

  /** Whether (b1, s1) comes strictly before (b2, s2) in bag-major, slot-minor order. */
  predicate Before(b1: int, s1: int, b2: int, s2: int)
  {
    b1 < b2 || (b1 == b2 && s1 < s2)
  }

  /** The DB records that bring the stored copy of the item at (bag, slot) up to date. */
  function ItemUpdateRecords(userId: int, money: int, bag: int, slot: int, item: CItem?): (records: seq<Sent>)
    reads item
    ensures records == [] <==> item == null
    ensures item != null ==> |records| == 2
    ensures forall r :: r in records ==>
              r.ToDbAgent? && r.record.userId == userId && r.record.bag == bag && r.record.slot == slot
    ensures item != null ==>
              records[0].record.ItemLapisUpdate? &&
              records[0].record.lapis == item.lapis && records[0].record.money == money
    ensures item != null ==>
              records[1].record.ItemCraftnameUpdate? && records[1].record.craftname == item.craftname
  {
    if item == null then []
    else [ToDbAgent(ItemLapisUpdate(userId, bag, slot, item.lapis, money)),
          ToDbAgent(ItemCraftnameUpdate(userId, bag, slot, item.craftname))]
  }

  class CUser {
    var userId: int
    var money: int
    var equipment: array<CItem?>
    var inventory: array2<CItem?>
    var teleportType: int
    var teleportMapId: uint16
    var teleportDestX: Float32
    var teleportDestZ: Float32
    var teleportDelay: int
    /** Everything handed to World::sendPacket and DbAgent::sendPacket, oldest first. */
    var log: seq<Sent>

    /** The inventory is a grid of BagCount bags by SlotsPerBag slots. */
    ghost predicate Valid()
      reads this
    {
      inventory.Length0 == BagCount && inventory.Length1 == SlotsPerBag
    }

    /** Whether (bag, slot) is a position the lookup may read: an equipment slot or an inventory cell. */
    ghost predicate Addressable(bag: int, slot: int)
      reads this
    {
      if bag == 0 then 0 <= slot < equipment.Length else InInventory(bag, slot)
    }

    /**
     * The item at a position: bag 0 addresses the equipment array, bag b
     * (1..BagCount) addresses row b - 1 of the inventory. The lookup
     * checks no bounds, so the position must be addressable.
     */
    function ItemAtSlot(bag: int, slot: int): (item: CItem?)
      reads this, equipment, inventory
      requires Valid() && Addressable(bag, slot)
      ensures bag == 0 ==> item == equipment[slot]
      ensures bag != 0 ==> item == inventory[bag - 1, slot]
    {
      if bag == 0 then equipment[slot] else inventory[bag - 1, slot]
    }

    /** Whether every cell of the inventory grid holds an item. */
    ghost predicate InventoryFull()
      reads this, equipment, inventory
      requires Valid()
    {
      forall b, s :: InInventory(b, s) ==> ItemAtSlot(b, s) != null
    }

    /** Whether (bag, slot) is what the free-slot search must answer: the first empty inventory cell. */
    ghost predicate IsFirstFree(bag: int, slot: int)
      reads this, equipment, inventory
      requires Valid()
    {
      InInventory(bag, slot) && ItemAtSlot(bag, slot) == null &&
      forall b, s :: InInventory(b, s) && Before(b, s, bag, slot) ==> ItemAtSlot(b, s) != null
    }

    /** At most one cell is the first free one, so the search's answer depends on the inventory alone. */
    lemma FirstFreeUnique(b1: int, s1: int, b2: int, s2: int)
      requires Valid() && IsFirstFree(b1, s1) && IsFirstFree(b2, s2)
      ensures b1 == b2 && s1 == s2
    {
    }

    /**
     * The first empty inventory cell in bag-major, slot-minor order, or
     * (-1, -1) when the inventory is full. Equipment is never searched and
     * nothing changes.
     */
    method FirstFreeSlot() returns (bag: int, slot: int)
      requires Valid()
      ensures (bag, slot) == (-1, -1) <==> InventoryFull()
      ensures (bag, slot) != (-1, -1) ==> IsFirstFree(bag, slot)
    {
      bag := 1;
      while bag <= BagCount
        invariant 1 <= bag <= BagCount + 1
        invariant forall b, s :: InInventory(b, s) && b < bag ==> ItemAtSlot(b, s) != null
      {
        slot := 0;
        while slot <= SlotsPerBag - 1
          invariant 0 <= slot <= SlotsPerBag
          invariant forall b, s :: InInventory(b, s) && Before(b, s, bag, slot) ==> ItemAtSlot(b, s) != null
        {
          if ItemAtSlot(bag, slot) == null {
            return bag, slot;
          }
          slot := slot + 1;
        }
        bag := bag + 1;
      }
      return -1, -1;
    }

    /** Requests a teleport to (x, z) on map `mapId`, taking effect after TeleportDelayMs. */
    method Teleport(mapId: uint16, x: Float32, z: Float32)
      modifies this`teleportType, this`teleportMapId, this`teleportDestX, this`teleportDestZ, this`teleportDelay
      ensures teleportType == TeleportTypeValue
      ensures teleportMapId == mapId
      ensures teleportDestX == x && teleportDestZ == z
      ensures teleportDelay == TeleportDelayMs
    {
      teleportType := TeleportTypeValue;
      teleportMapId := mapId;
      teleportDestX := x;
      teleportDestZ := z;
      teleportDelay := TeleportDelayMs;
    }

    /**
     * Sends the database agent the lapis and then the craftname of the
     * item at (bag, slot); an empty position sends nothing.
     */
    method UpdateItem(bag: int, slot: int)
      requires Valid() && Addressable(bag, slot)
      modifies this`log
      ensures Valid()
      ensures log == old(log) + ItemUpdateRecords(userId, money, bag, slot, ItemAtSlot(bag, slot))
    {
      var item := ItemAtSlot(bag, slot);
      if item == null {
        return;
      }
      var lapisUpdate := ItemLapisUpdate(userId, bag, slot, item.lapis, money);
      log := log + [ToDbAgent(lapisUpdate)];
      var craftnameUpdate := ItemCraftnameUpdate(userId, bag, slot, item.craftname);
      log := log + [ToDbAgent(craftnameUpdate)];
    }

    /** Sends the user's client a notice carrying `message`: its header and exactly the message's bytes. */
    method SendNotice(message: seq<uint8>)
      requires |message| <= NoticeCapacity
      modifies this`log
      ensures log == old(log) + [ToUser(NoticeFor(message), Prefix(NoticeHeaderSize + |message|))]
    {
      var notice := Notice(0, seq(NoticeCapacity, _ => 0));
      notice := notice.(length := |message|);
      notice := notice.(message := message + notice.message[|message|..]);
      assert notice == NoticeFor(message);
      log := log + [ToUser(notice, Prefix(NoticeHeaderSize + notice.length))];
    }

    /** Sends the user's client an Aeria points packet holding zero points. */
    method SendPoints()
      modifies this`log
      ensures log == old(log) + [ToUser(AccountPoints(0), WholeStruct)]
    {
      var points := AccountPoints(0);
      log := log + [ToUser(points, WholeStruct)];
    }
  }
}
