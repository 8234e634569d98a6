/**
 The icon cache of a file list: lines 384-412 of src/app_shell/pane_list_icons.cpp with
 `list_item_image`, and `forget_list_icons` of src/app_shell/pane_managed_list.cpp. The native image
 list shifts its images down when one is removed, and every cached slot has to follow.
 */
module IconCache {
  import opened Options
  import opened Vectors
  import Arithmetic
  import Order = StableOrder

  /** managed_list::IconKey: the identity is what a change notification names. */
  datatype Key = Key(identity: int, rest: int)

  /** What the native image list holds: two placeholders, then the picture made for each key. */
  datatype Picture = FilePlaceholder | FolderPlaceholder | Raster(key: Key)

  /** CachedIcon; the slot is -1 until the native list has taken the picture. */
  datatype Entry = Entry(key: Key, slot: int, used: nat)

  /** kImageCacheBytes and kIconCache. */
  const CACHE_BYTES := 4 * 1024 * 1024
  const CACHE_ICONS := 256

  /** image_capacity(), for a positive number of bytes to an image. */
  function Capacity(imageBytes: nat): nat
    requires imageBytes > 0
  {
    var slots := CACHE_BYTES / imageBytes;
    var room := if slots > 2 then slots - 2 else 0;
    if room < CACHE_ICONS then room else CACHE_ICONS
  }

  /** The most icons, up to the limit, whose images fit with the two placeholders. */
  lemma CapacityIsLargest(imageBytes: nat, count: nat)
    requires imageBytes > 0
    ensures Capacity(imageBytes) <= 256
    ensures Capacity(imageBytes) > 0 ==> (Capacity(imageBytes) + 2) * imageBytes <= 4 * 1024 * 1024
    ensures count <= 256 && (count + 2) * imageBytes <= 4 * 1024 * 1024 ==> count <= Capacity(imageBytes)
  {
    var slots := CACHE_BYTES / imageBytes;
    assert slots * imageBytes <= CACHE_BYTES;
    if Capacity(imageBytes) > 0 {
      Arithmetic.ProductMonotonic(Capacity(imageBytes) + 2, slots, imageBytes);
    }
    if (count + 2) * imageBytes <= CACHE_BYTES {
      Arithmetic.QuotientAtLeast(CACHE_BYTES, imageBytes, count + 2);
    }
  }

  // ----- Slots and images

  function Repaired(entry: Entry, removed: int): Entry {
    if entry.slot > removed then entry.(slot := entry.slot - 1) else entry
  }

  function RepairedAll(entries: seq<Entry>, removed: int): (r: seq<Entry>)
    ensures |r| == |entries|
    ensures forall k | 0 <= k < |r| :: r[k] == Repaired(entries[k], removed)
  {
    seq(|entries|, k requires 0 <= k < |entries| => Repaired(entries[k], removed))
  }

  /** The cache without its i-th entry, the slots above the freed one moved down. */
  function Dropped(entries: seq<Entry>, i: nat): seq<Entry>
    requires i < |entries|
  {
    RepairedAll(RemoveAt(entries, i), entries[i].slot)
  }

  /** Each key has one slot, each slot one key, the slot holds the picture of its key, and the
      placeholders keep 0 and 1. */
  ghost predicate Matched(entries: seq<Entry>, images: seq<Picture>) {
    && |images| == |entries| + 2 && images[0] == FilePlaceholder && images[1] == FolderPlaceholder
    && (forall k | 0 <= k < |entries| :: 2 <= entries[k].slot < |images|)
    && (forall k | 0 <= k < |entries| :: images[entries[k].slot] == Raster(entries[k].key))
    && (forall j, k | 0 <= j < k < |entries| :: entries[j].slot != entries[k].slot)
    && (forall j, k | 0 <= j < k < |entries| :: entries[j].key != entries[k].key)
  }

  /** Erasing an entry and its image and repairing the others keeps the match. */
  lemma DroppedMatched(entries: seq<Entry>, images: seq<Picture>, i: nat)
    requires Matched(entries, images) && i < |entries|
    ensures Matched(Dropped(entries, i), RemoveAt(images, entries[i].slot))
  {
    var removed := entries[i].slot;
    var rest, shifted := RemoveAt(entries, i), RemoveAt(images, removed);
    forall k | 0 <= k < |rest| ensures rest[k].slot != removed && rest[k].key != entries[i].key {
    }
    forall k | 0 <= k < |rest|
      ensures 2 <= Repaired(rest[k], removed).slot < |shifted|
      ensures shifted[Repaired(rest[k], removed).slot] == Raster(rest[k].key)
    {
    }
    forall j, k | 0 <= j < k < |rest| ensures rest[j].slot != rest[k].slot && rest[j].key != rest[k].key {
    }
  }

  lemma SlotInRange(entries: seq<Entry>, images: seq<Picture>, i: nat)
    requires Matched(entries, images) && i < |entries|
    ensures 2 <= entries[i].slot < |images|
  {
  }

  lemma DroppedIs(entries: seq<Entry>, i: nat)
    requires i < |entries|
    ensures Dropped(entries, i) == RepairedAll(RemoveAt(entries, i), entries[i].slot)
    ensures forall k | 0 <= k < |Dropped(entries, i)| ::
      Dropped(entries, i)[k].used == entries[if k < i then k else k + 1].used
  {
  }

  /** Nothing in the native list is lost: every image but the placeholders is some key's slot. */
  lemma EverySlotTaken(entries: seq<Entry>, images: seq<Picture>, slot: nat)
    requires Matched(entries, images) && 2 <= slot < |images|
    ensures exists k | 0 <= k < |entries| :: entries[k].slot == slot
  {
    var places: seq<nat> := seq(|entries|, k requires 0 <= k < |entries| => entries[k].slot - 2);
    Order.Pigeonhole(places, |entries|);
    assert slot - 2 in Order.Elements(places);
    var k :| 0 <= k < |places| && places[k] == slot - 2;
    assert entries[k].slot == slot;
  }

  // ----- Bytes

  /** The owned bytes of the keys. */
  function KeyBytes(entries: seq<Entry>, bytes: Key -> nat): nat {
    if entries == [] then 0 else KeyBytes(entries[..|entries| - 1], bytes) + bytes(entries[|entries| - 1].key)
  }

  /** list_image_bytes(). */
  function Bytes(entries: seq<Entry>, imageBytes: nat, bytes: Key -> nat): nat {
    (|entries| + 2) * imageBytes + KeyBytes(entries, bytes)
  }

  /** What the cache owns: the images of the native list, placeholders included, and its keys. */
  lemma BytesOwned(entries: seq<Entry>, images: seq<Picture>, imageBytes: nat, bytes: Key -> nat, entry: Entry)
    requires Matched(entries, images)
    ensures Bytes(entries, imageBytes, bytes) == |images| * imageBytes + KeyBytes(entries, bytes)
    ensures KeyBytes([], bytes) == 0
    ensures KeyBytes(entries + [entry], bytes) == KeyBytes(entries, bytes) + bytes(entry.key)
  {
    assert (entries + [entry])[..|entries|] == entries;
  }

  lemma {:induction false} DroppedBytes(entries: seq<Entry>, i: nat, imageBytes: nat, bytes: Key -> nat)
    requires i < |entries|
    ensures KeyBytes(Dropped(entries, i), bytes) + bytes(entries[i].key) == KeyBytes(entries, bytes)
    ensures Bytes(Dropped(entries, i), imageBytes, bytes) + imageBytes + bytes(entries[i].key)
      == Bytes(entries, imageBytes, bytes)
    decreases |entries|
  {
    var shorter, next := entries[..|entries| - 1], Dropped(entries, i);
    if i == |entries| - 1 {
      assert RemoveAt(entries, i) == shorter;
      SameKeyBytes(next, shorter, bytes);
    } else {
      DroppedBytes(shorter, i, imageBytes, bytes);
      assert RemoveAt(entries, i) == RemoveAt(shorter, i) + [entries[|entries| - 1]];
      DroppedLast(entries, i);
    }
    OneImageLess(|entries|, imageBytes);
  }

  lemma DroppedLast(entries: seq<Entry>, i: nat)
    requires i < |entries| - 1
    ensures var next := Dropped(entries, i);
      && next[..|next| - 1] == Dropped(entries[..|entries| - 1], i)
      && next[|next| - 1].key == entries[|entries| - 1].key
  {
    var shorter, next := entries[..|entries| - 1], Dropped(entries, i);
    var rest := RemoveAt(shorter, i);
    forall k | 0 <= k < |rest| ensures next[k] == Repaired(rest[k], entries[i].slot) {
      assert RemoveAt(entries, i)[k] == rest[k];
    }
  }

  lemma OneImageLess(count: nat, imageBytes: nat)
    ensures (count + 1) * imageBytes + imageBytes == (count + 2) * imageBytes
  {
  }

  lemma {:induction false} SameKeyBytes(a: seq<Entry>, b: seq<Entry>, bytes: Key -> nat)
    requires |a| == |b| && forall k | 0 <= k < |a| :: a[k].key == b[k].key
    ensures KeyBytes(a, bytes) == KeyBytes(b, bytes)
    decreases |a|
  {
    if a != [] {
      SameKeyBytes(a[..|a| - 1], b[..|b| - 1], bytes);
    }
  }

  /** Which keys are cached, and when each was last used. */
  ghost function Uses(entries: seq<Entry>): set<(Key, nat)> {
    set k | 0 <= k < |entries| :: (entries[k].key, entries[k].used)
  }

  lemma DroppedUses(entries: seq<Entry>, i: nat)
    requires i < |entries| && forall j, k | 0 <= j < k < |entries| :: entries[j].key != entries[k].key
    ensures Uses(Dropped(entries, i)) == Uses(entries) - {(entries[i].key, entries[i].used)}
  {
    var next := Dropped(entries, i);
    forall k | 0 <= k < |next|
      ensures (next[k].key, next[k].used) in Uses(entries) - {(entries[i].key, entries[i].used)}
    {
      var j := if k < i then k else k + 1;
      assert next[k].key == entries[j].key && next[k].used == entries[j].used;
    }
    forall j | 0 <= j < |entries| && j != i ensures (entries[j].key, entries[j].used) in Uses(next) {
      var k := if j < i then j else j - 1;
      assert next[k].key == entries[j].key && next[k].used == entries[j].used;
    }
  }

  /** The uses once this key has been used at this time. */
  ghost function Touched(uses: set<(Key, nat)>, key: Key, time: nat): set<(Key, nat)> {
    (set use | use in uses && use.0 != key) + {(key, time)}
  }

  lemma TouchedUses(entries: seq<Entry>, i: nat, time: nat)
    requires i < |entries| && forall j, k | 0 <= j < k < |entries| :: entries[j].key != entries[k].key
    requires forall k | 0 <= k < |entries| :: entries[k].used < time
    ensures Uses(entries[i := entries[i].(used := time)]) == Touched(Uses(entries), entries[i].key, time)
    ensures forall use | use in Touched(Uses(entries), entries[i].key, time) ::
      use.1 < time || use == (entries[i].key, time)
    ensures TimesDiffer(Uses(entries)) ==> TimesDiffer(Touched(Uses(entries), entries[i].key, time))
  {
    var next := entries[i := entries[i].(used := time)];
    var touched := Touched(Uses(entries), entries[i].key, time);
    forall k | 0 <= k < |next| ensures (next[k].key, next[k].used) in touched {
      if k != i {
        assert next[k] == entries[k] && (entries[k].key, entries[k].used) in Uses(entries);
      }
    }
    assert (next[i].key, next[i].used) == (entries[i].key, time);
    forall k | 0 <= k < |entries| && k != i ensures (entries[k].key, entries[k].used) in Uses(next) {
      assert next[k] == entries[k];
    }
  }

  lemma TouchedBytes(entries: seq<Entry>, i: nat, time: nat, imageBytes: nat, bytes: Key -> nat)
    requires i < |entries|
    ensures var next := entries[i := entries[i].(used := time)];
      Bytes(next, imageBytes, bytes) == Bytes(entries, imageBytes, bytes)
  {
    SameKeyBytes(entries, entries[i := entries[i].(used := time)], bytes);
  }

  lemma TouchedMatched(entries: seq<Entry>, images: seq<Picture>, i: nat, time: nat)
    requires Matched(entries, images) && i < |entries|
    ensures Matched(entries[i := entries[i].(used := time)], images)
  {
  }

  /** The key used last goes last: evictions take every other key before it. */
  lemma LastUsedGoesLast(before: set<(Key, nat)>, after: set<(Key, nat)>, key: Key, time: nat)
    requires LeastUsedGone(before, after) && (key, time) in before
    requires forall use | use in before :: use.1 < time || use == (key, time)
    ensures (key, time) in after || after == {}
  {
    var gone := (key, time) in before - after;
    forall kept | kept in after ensures !gone {
    }
  }

  /** No two keys were last used at the same time. */
  ghost predicate TimesDiffer(uses: set<(Key, nat)>) {
    forall a, b | a in uses && b in uses && a.1 == b.1 :: a == b
  }

  /** Only the least recently used are gone. */
  ghost predicate LeastUsedGone(before: set<(Key, nat)>, after: set<(Key, nat)>) {
    && after <= before
    && forall gone, kept | gone in before - after && kept in after :: gone.1 < kept.1
  }

  /** There is no room for one more image whose key takes `needed` bytes. */
  predicate IsFull(entries: seq<Entry>, imageBytes: nat, bytes: Key -> nat, needed: nat)
    requires imageBytes > 0
  {
    |entries| == Capacity(imageBytes) || Bytes(entries, imageBytes, bytes) + imageBytes + needed > CACHE_BYTES
  }

  /** `entries` is what is left of `before` when the least recently used make way, and no more of them than needed:
      if any went, `last` is what there was before the last one did, and with that there was no room. */
  ghost predicate MadeWay(before: seq<Entry>, last: seq<Entry>, entries: seq<Entry>, imageBytes: nat,
                          bytes: Key -> nat, needed: nat)
    requires imageBytes > 0
  {
    && LeastUsedGone(Uses(before), Uses(entries)) && |entries| <= |before|
    && (entries == before
        || (&& IsFull(before, imageBytes, bytes, needed)
            && IsFull(last, imageBytes, bytes, needed) && LeastUsedGone(Uses(before), Uses(last))
            && exists gone :: gone !in Uses(entries) && Uses(last) == Uses(entries) + {gone}))
  }

  lemma EvictedOne(before: seq<Entry>, last: seq<Entry>, entries: seq<Entry>, i: nat, imageBytes: nat,
                   bytes: Key -> nat, needed: nat)
    requires imageBytes > 0 && i < |entries| && IsFull(entries, imageBytes, bytes, needed)
    requires TimesDiffer(Uses(entries)) && forall k | 0 <= k < |entries| :: entries[i].used <= entries[k].used
    requires forall j, k | 0 <= j < k < |entries| :: entries[j].key != entries[k].key
    requires MadeWay(before, last, entries, imageBytes, bytes, needed)
    ensures MadeWay(before, entries, Dropped(entries, i), imageBytes, bytes, needed)
  {
    DroppedUses(entries, i);
    UsesOf(entries, i);
    OneMoreGone(Uses(before), entries, i);
    var gone := (entries[i].key, entries[i].used);
    assert gone !in Uses(Dropped(entries, i)) && Uses(entries) == Uses(Dropped(entries, i)) + {gone};
    hide Uses, Dropped, TimesDiffer, LeastUsedGone, IsFull;
  }

  lemma OneMoreGone(before: set<(Key, nat)>, entries: seq<Entry>, i: nat)
    requires LeastUsedGone(before, Uses(entries)) && i < |entries|
    requires forall j, k | 0 <= j < k < |entries| :: entries[j].key != entries[k].key
    requires TimesDiffer(Uses(entries)) && forall k | 0 <= k < |entries| :: entries[i].used <= entries[k].used
    ensures LeastUsedGone(before, Uses(Dropped(entries, i)))
  {
    DroppedUses(entries, i);
    UsesOf(entries, i);
  }

  class IconCache {
    const imageBytes: nat
    const keyBytes: Key -> nat
    var entries: seq<Entry>
    var images: seq<Picture>
    var clock: nat

    ghost predicate Valid()
      reads this
    {
      && imageBytes > 0 && Matched(entries, images)
      && Bytes(entries, imageBytes, keyBytes) <= CACHE_BYTES
      && TimesDiffer(Uses(entries))
      && forall k | 0 <= k < |entries| :: entries[k].used <= clock
    }

    constructor (imageBytes: nat, keyBytes: Key -> nat)
      requires 0 < imageBytes && 2 * imageBytes <= CACHE_BYTES
      ensures Valid() && entries == []
    {
      this.imageBytes, this.keyBytes := imageBytes, keyBytes;
      entries, images, clock := [], [FilePlaceholder, FolderPlaceholder], 0;
    }

    /** The entry of a key, or the number of entries. */
    method FindKey(key: Key) returns (i: nat)
      ensures i <= |entries| && (i < |entries| ==> entries[i].key == key)
      ensures i == |entries| ==> forall k | 0 <= k < |entries| :: entries[k].key != key
    {
      i := 0;
      while i < |entries| && entries[i].key != key
        invariant i <= |entries| && forall k | 0 <= k < i :: entries[k].key != key
      {
        i := i + 1;
      }
    }

    /** A cached icon that is wanted again: its time of use moves to now, past that of every other key. */
    method Touch(key: Key) returns (cached: bool)
      requires Valid()
      modifies this`entries, this`clock
      ensures Valid()
      ensures cached <==> exists use :: use in Uses(old(entries)) && use.0 == key
      ensures cached ==> clock == old(clock) + 1 && Uses(entries) == Touched(Uses(old(entries)), key, clock)
      ensures cached ==> forall use | use in Uses(entries) :: use.1 < clock || use == (key, clock)
      ensures !cached ==> entries == old(entries) && clock == old(clock)
    {
      hide Matched, Bytes, Uses, Touched, TimesDiffer;
      var i := FindKey(key);
      if i == |entries| {
        NoUse(entries, key);
        return false;
      }
      UsesOf(entries, i);
      DistinctKeys(entries, images);
      TouchedUses(entries, i, clock + 1);
      TouchedMatched(entries, images, i, clock + 1);
      TouchedBytes(entries, i, clock + 1, imageBytes, keyBytes);
      clock := clock + 1;
      entries := entries[i := entries[i].(used := clock)];
      return true;
    }

    /** std::min_element by time of use, which needs an entry to point at. */
    method LeastUsed() returns (i: nat)
      requires entries != []
      ensures i < |entries| && forall k | 0 <= k < |entries| :: entries[i].used <= entries[k].used
    {
      i := 0;
      for k := 1 to |entries|
        invariant i < |entries| && forall j | 0 <= j < k :: entries[i].used <= entries[j].used
      {
        if entries[k].used < entries[i].used { i := k; }
      }
    }

    /** ImageList_Remove, the erased entry and the repair loop; nothing happens if the first fails. */
    method Remove(i: nat, removable: bool) returns (ok: bool)
      requires Valid() && i < |entries|
      modifies this`entries, this`images
      ensures Valid() && ok == removable
      ensures ok ==> entries == Dropped(old(entries), i) && images == RemoveAt(old(images), old(entries)[i].slot)
      ensures !ok ==> entries == old(entries) && images == old(images)
    {
      hide Matched, Bytes, Dropped, TimesDiffer;
      ok := removable;
      if !ok { return; }
      var removed := entries[i].slot;
      StillDiffer(entries, images, i);
      SlotInRange(entries, images, i);
      DroppedMatched(entries, images, i);
      DroppedBytes(entries, i, imageBytes, keyBytes);
      images := RemoveAt(images, removed);
      var rest := RemoveAt(entries, i);
      entries := Repair(rest, removed);
      DroppedIs(old(entries), i);
    }

    /** One turn of the loop that makes room. */
    method EvictOne(removable: bool, ghost needed: nat, ghost before: seq<Entry>, ghost last: seq<Entry>)
      returns (ok: bool)
      requires Valid() && entries != [] && IsFull(entries, imageBytes, keyBytes, needed)
      requires MadeWay(before, last, entries, imageBytes, keyBytes, needed)
      modifies this`entries, this`images
      ensures Valid() && ok == removable
      ensures ok ==>
        |entries| < |old(entries)| && MadeWay(before, old(entries), entries, imageBytes, keyBytes, needed)
      ensures !ok ==> entries == old(entries)
    {
      hide Matched, Bytes, Dropped, MadeWay, IsFull, Uses;
      DistinctKeys(entries, images);
      var i := LeastUsed();
      EvictedOne(before, last, entries, i, imageBytes, keyBytes, needed);
      DroppedIs(entries, i);
      ok := Remove(i, removable);
    }

    static method Repair(entries: seq<Entry>, removed: int) returns (repaired: seq<Entry>)
      ensures repaired == RepairedAll(entries, removed)
    {
      repaired := entries;
      for k := 0 to |entries|
        invariant |repaired| == |entries|
        invariant forall j | 0 <= j < k :: repaired[j] == Repaired(entries[j], removed)
        invariant forall j | k <= j < |entries| :: repaired[j] == entries[j]
      {
        if repaired[k].slot > removed {
          repaired := repaired[k := repaired[k].(slot := repaired[k].slot - 1)];
        }
      }
    }

    /** The loop that makes room for one more image and its key: it takes away the least recently used, no more
        of them than needed, and gives up when an image cannot be removed. `removes` says whether the native
        list removes an image while it holds so many. */
    method MakeRoom(needed: nat, removes: nat -> bool) returns (removed: bool, ghost last: seq<Entry>)
      requires Valid() && needed + 3 * imageBytes <= CACHE_BYTES
      modifies this`entries, this`images
      ensures Valid() && MadeWay(old(entries), last, entries, imageBytes, keyBytes, needed)
      ensures removed ==> |entries| != Capacity(imageBytes)
      ensures if removed then !IsFull(entries, imageBytes, keyBytes, needed)
              else IsFull(entries, imageBytes, keyBytes, needed) && !removes(|entries|)
    {
      SomeRoom(imageBytes);
      hide Matched, Bytes, Dropped, MadeWay, TimesDiffer, Uses, Capacity;
      last := entries;
      NothingGone(entries, imageBytes, keyBytes, needed);
      while |entries| == Capacity(imageBytes)
            || Bytes(entries, imageBytes, keyBytes) + imageBytes + needed > CACHE_BYTES
        invariant Valid() && MadeWay(old(entries), last, entries, imageBytes, keyBytes, needed)
        decreases |entries|
      {
        NotEmptyWhenFull(entries, imageBytes, keyBytes, needed);
        ghost var full := entries;
        var ok := EvictOne(removes(|entries|), needed, old(entries), last);
        if !ok { return false, last; }
        last := full;
      }
      return true, last;
    }

    /** An icon arrives for a key. If it is there already or can never fit, nothing happens. Otherwise room is made
        for it: `rest` is left of the cache, no less than needs be, and the icon is cached if its bytes fit then
        and the native list takes it. */
    method Admit(key: Key, removes: nat -> bool, taken: bool)
      returns (admitted: bool, ghost removed: bool, ghost last: seq<Entry>, ghost rest: seq<Entry>)
      requires Valid()
      modifies this`entries, this`images, this`clock
      ensures Valid()
      ensures var needed := keyBytes(key);
        if (exists use :: use in Uses(old(entries)) && use.0 == key) || needed + 3 * imageBytes > CACHE_BYTES then
          !admitted && removed && rest == entries == old(entries) && images == old(images) && clock == old(clock)
        else
          && MadeWay(old(entries), last, rest, imageBytes, keyBytes, needed)
          && (removed <==> !IsFull(rest, imageBytes, keyBytes, needed))
          && (admitted <==> taken && Bytes(rest, imageBytes, keyBytes) + imageBytes + needed <= CACHE_BYTES)
      ensures Uses(entries) == if admitted then Uses(rest) + {(key, clock)} else Uses(rest)
      ensures admitted ==> clock == old(clock) + 1
      ensures removed && |old(entries)| <= Capacity(imageBytes) ==> |entries| <= Capacity(imageBytes)
    {
      removed, last, rest := true, entries, entries;
      var found := FindKey(key);
      if found != |entries| {
        UsesOf(entries, found);
        return false, true, entries, entries;
      }
      NoUse(entries, key);
      var needed := keyBytes(key);
      if needed + 3 * imageBytes > CACHE_BYTES { return false, true, entries, entries; }
      hide Matched, KeyBytes, Bytes, TimesDiffer, Uses, IsFull, Capacity;
      removed, last := MakeRoom(needed, removes);
      rest := entries;
      if Bytes(entries, imageBytes, keyBytes) + imageBytes + needed > CACHE_BYTES { return false, removed, last, rest; }
      StillAbsent(old(entries), entries, key);
      admitted := Append(key, taken);
    }

    /** The key is tracked before its image is added, and forgotten again if the native list does not take it. */
    method Append(key: Key, taken: bool) returns (ok: bool)
      requires Valid() && forall k | 0 <= k < |entries| :: entries[k].key != key
      requires Bytes(entries, imageBytes, keyBytes) + imageBytes + keyBytes(key) <= CACHE_BYTES
      modifies this`entries, this`images, this`clock
      ensures Valid() && ok == taken && clock == old(clock) + 1
      ensures Uses(entries) == if ok then Uses(old(entries)) + {(key, clock)} else Uses(old(entries))
      ensures |entries| == |old(entries)| + if ok then 1 else 0
    {
      hide Matched, KeyBytes, Bytes, TimesDiffer, Uses;
      ghost var before := entries;
      clock := clock + 1;
      entries := entries + [Entry(key, -1, clock)];
      if !taken {
        entries := entries[..|entries| - 1];
        assert entries == before;
        return false;
      }
      ghost var added := Entry(key, |images|, clock);
      Added(before, images, added, imageBytes, keyBytes);
      entries := entries[|entries| - 1 := Entry(key, |images|, clock)];
      assert entries == before + [added];
      images := images + [Raster(key)];
      return true;
    }

    /** A change notification: the entries of these items go, with their images. If an image cannot be
        removed the whole cache is given up. */
    method Forget(changed: set<int>, removes: nat -> bool) returns (ok: bool)
      requires Valid()
      modifies this`entries, this`images
      ensures Valid() && ((forall n :: removes(n)) ==> ok)
      ensures ok ==> Uses(entries) == set use | use in Uses(old(entries)) && use.0.identity !in changed
      ensures !ok ==> entries == [] && images == [FilePlaceholder, FolderPlaceholder]
    {
      hide Matched, Bytes, Dropped, Uses, TimesDiffer;
      if changed == {} || entries == [] {
        NoUses(entries);
        return true;
      }
      var i := 0;
      while i < |entries|
        invariant Valid() && i <= |entries|
        invariant forall k | 0 <= k < i :: entries[k].key.identity !in changed
        invariant Remaining(Uses(old(entries)), Uses(entries), changed)
        decreases |entries| - i
      {
        UsesOf(entries, i);
        if entries[i].key.identity !in changed {
          i := i + 1;
          continue;
        }
        DistinctKeys(entries, images);
        DroppedUses(entries, i);
        DroppedIs(entries, i);
        var removed := Remove(i, removes(|entries|));
        if !removed {
          Emptied(entries, images, imageBytes, keyBytes);
          entries, images := [], images[..2];
          return false;
        }
      }
      AllUses(entries, changed);
      return true;
    }

    /** list_item_image(): the slot of a key that matches the row, else of its type, else a placeholder. */
    method ItemImage(matches: Key -> bool, typeKey: Option<Key>, directory: bool) returns (slot: int)
      requires Valid()
      ensures 0 <= slot < |images|
      ensures match images[slot]
              case Raster(key) =>
                matches(key) || (typeKey == Some(key) && forall k | 0 <= k < |entries| :: !matches(entries[k].key))
              case FolderPlaceholder => directory && NoneCached(matches, typeKey)
              case FilePlaceholder => !directory && NoneCached(matches, typeKey)
    {
      for i := 0 to |entries|
        invariant forall k | 0 <= k < i :: !matches(entries[k].key)
      {
        if matches(entries[i].key) { return entries[i].slot; }
      }
      if typeKey.Some? {
        var i := FindKey(typeKey.value);
        if i < |entries| { return entries[i].slot; }
      }
      return if directory then 1 else 0;
    }

    ghost predicate NoneCached(matches: Key -> bool, typeKey: Option<Key>)
      reads this
    {
      forall k | 0 <= k < |entries| :: !matches(entries[k].key) && typeKey != Some(entries[k].key)
    }
  }

  lemma NoUses(entries: seq<Entry>)
    ensures entries == [] ==> Uses(entries) == {}
  {
  }

  lemma NoUse(entries: seq<Entry>, key: Key)
    requires forall k | 0 <= k < |entries| :: entries[k].key != key
    ensures forall use | use in Uses(entries) :: use.0 != key
  {
  }

  lemma UsesOf(entries: seq<Entry>, i: nat)
    requires i < |entries|
    ensures (entries[i].key, entries[i].used) in Uses(entries)
  {
  }

  lemma AllUses(entries: seq<Entry>, changed: set<int>)
    requires forall k | 0 <= k < |entries| :: entries[k].key.identity !in changed
    ensures forall use | use in Uses(entries) :: use.0.identity !in changed
  {
  }

  lemma DistinctKeys(entries: seq<Entry>, images: seq<Picture>)
    requires Matched(entries, images)
    ensures forall j, k | 0 <= j < k < |entries| :: entries[j].key != entries[k].key
  {
  }

  lemma Emptied(entries: seq<Entry>, images: seq<Picture>, imageBytes: nat, bytes: Key -> nat)
    requires Matched(entries, images)
    ensures |images| >= 2 && images[..2] == [FilePlaceholder, FolderPlaceholder]
    ensures Matched([], [FilePlaceholder, FolderPlaceholder])
    ensures Bytes([], imageBytes, bytes) <= Bytes(entries, imageBytes, bytes) && TimesDiffer(Uses([]))
  {
    Arithmetic.ProductMonotonic(2, |entries| + 2, imageBytes);
  }

  /** Some of the changed keys are gone, and none of the others. */
  ghost predicate Remaining(before: set<(Key, nat)>, after: set<(Key, nat)>, changed: set<int>) {
    after <= before && forall use | use in before - after :: use.0.identity in changed
  }

  lemma StillDiffer(entries: seq<Entry>, images: seq<Picture>, i: nat)
    requires Matched(entries, images) && i < |entries| && TimesDiffer(Uses(entries))
    ensures TimesDiffer(Uses(Dropped(entries, i)))
  {
    DroppedUses(entries, i);
  }

  lemma NothingGone(entries: seq<Entry>, imageBytes: nat, bytes: Key -> nat, needed: nat)
    requires imageBytes > 0
    ensures MadeWay(entries, entries, entries, imageBytes, bytes, needed)
  {
  }

  lemma NotEmptyWhenFull(entries: seq<Entry>, imageBytes: nat, bytes: Key -> nat, needed: nat)
    requires imageBytes > 0 && needed + 3 * imageBytes <= CACHE_BYTES && IsFull(entries, imageBytes, bytes, needed)
    ensures entries != []
  {
    SomeRoom(imageBytes);
    assert (0 + 2) * imageBytes == 2 * imageBytes;
  }

  lemma StillAbsent(before: seq<Entry>, after: seq<Entry>, key: Key)
    requires Uses(after) <= Uses(before) && forall k | 0 <= k < |before| :: before[k].key != key
    ensures forall k | 0 <= k < |after| :: after[k].key != key
  {
    forall k | 0 <= k < |after| ensures after[k].key != key {
      assert (after[k].key, after[k].used) in Uses(after);
    }
  }

  lemma Added(entries: seq<Entry>, images: seq<Picture>, entry: Entry, imageBytes: nat, bytes: Key -> nat)
    requires Matched(entries, images) && entry.slot == |images|
    requires forall k | 0 <= k < |entries| :: entries[k].key != entry.key
    ensures Matched(entries + [entry], images + [Raster(entry.key)])
    ensures Bytes(entries + [entry], imageBytes, bytes)
      == Bytes(entries, imageBytes, bytes) + imageBytes + bytes(entry.key)
    ensures Uses(entries + [entry]) == Uses(entries) + {(entry.key, entry.used)}
    ensures (forall k | 0 <= k < |entries| :: entries[k].used < entry.used) && TimesDiffer(Uses(entries)) ==>
      TimesDiffer(Uses(entries + [entry]))
  {
    AddedMatched(entries, images, entry);
    UsesMore(entries, entry);
    AddedBytes(entries, entry, imageBytes, bytes);
    hide Matched, Uses, TimesDiffer, Bytes;
  }

  lemma AddedBytes(entries: seq<Entry>, entry: Entry, imageBytes: nat, bytes: Key -> nat)
    ensures Bytes(entries + [entry], imageBytes, bytes)
      == Bytes(entries, imageBytes, bytes) + imageBytes + bytes(entry.key)
  {
    assert (entries + [entry])[..|entries|] == entries;
    Arithmetic.SumTimes(|entries| + 2, 1, imageBytes);
  }

  lemma AddedMatched(entries: seq<Entry>, images: seq<Picture>, entry: Entry)
    requires Matched(entries, images) && entry.slot == |images|
    requires forall k | 0 <= k < |entries| :: entries[k].key != entry.key
    ensures Matched(entries + [entry], images + [Raster(entry.key)])
  {
    var more := entries + [entry];
    assert forall k | 0 <= k < |entries| :: more[k] == entries[k];
    assert more[|entries|] == entry;
  }

  lemma UsesMore(entries: seq<Entry>, entry: Entry)
    ensures Uses(entries + [entry]) == Uses(entries) + {(entry.key, entry.used)}
    ensures (forall k | 0 <= k < |entries| :: entries[k].used < entry.used) && TimesDiffer(Uses(entries)) ==>
      TimesDiffer(Uses(entries + [entry]))
  {
    var more := entries + [entry];
    assert forall k | 0 <= k < |entries| :: more[k] == entries[k];
    assert more[|entries|] == entry;
    forall use | use in Uses(entries) ensures use in Uses(more) {
      var k :| 0 <= k < |entries| && use == (entries[k].key, entries[k].used);
      assert more[k] == entries[k];
    }
  }

  lemma SomeRoom(imageBytes: nat)
    requires 0 < imageBytes && 3 * imageBytes <= CACHE_BYTES
    ensures Capacity(imageBytes) > 0
  {
    Arithmetic.QuotientAtLeast(CACHE_BYTES, imageBytes, 3);
  }
}
