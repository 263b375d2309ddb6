/** The duplicate cache: bounded, time-aware, least recently recorded first (src/bitchat/mesh/dedup.py). */
module Dedup {
  import opened Wrappers
  import opened ByteStrings
  import opened Lists
  import opened OrderedDicts
  import opened Packets

  // ---- packet identity ----

  /** The bytes that are hashed to identify a packet. */
  function IdentityBytes(p: BitchatPacket): Bytes
    requires p.Valid()
  {
    p.senderId + BigEndian(p.timestamp, 8) + [p.messageType.Code()]
    + (if p.recipientId.Some? then p.recipientId.value else []) + p.payload
  }

  /** `compute_packet_id`, over any hash function. */
  function PacketId(hash: Bytes -> Bytes, p: BitchatPacket): Bytes
    requires p.Valid()
  {
    var digest := hash(IdentityBytes(p));
    if |digest| <= 16 then digest else digest[..16]
  }

  /** Relaying a packet does not change its identity. */
  lemma IdIgnoresTtl(hash: Bytes -> Bytes, p: BitchatPacket, ttl: int)
    requires p.Valid() && p.(ttl := ttl).Valid()
    ensures PacketId(hash, p.(ttl := ttl)) == PacketId(hash, p)
  {}

  function Tail(p: BitchatPacket): Bytes {
    (if p.recipientId.Some? then p.recipientId.value else []) + p.payload
  }

  /** What the identity of a packet depends on: recipient and payload are not told apart. */
  predicate SameMessage(p: BitchatPacket, q: BitchatPacket) {
    && p.senderId == q.senderId && p.timestamp == q.timestamp && p.messageType == q.messageType
    && Tail(p) == Tail(q)
  }

  /** Two packets hash the same bytes exactly when sender, timestamp and type agree and their recipients followed by
      their payloads do. */
  lemma SameIdentityExactly(p: BitchatPacket, q: BitchatPacket)
    requires p.Valid() && q.Valid()
    ensures IdentityBytes(p) == IdentityBytes(q) <==> SameMessage(p, q)
  {
    var a, b := IdentityBytes(p), IdentityBytes(q);
    IdentityPieces(p);
    IdentityPieces(q);
    if a == b {
      assert a[..8] == b[..8] && a[8..16] == b[8..16] && a[17..] == b[17..];
      Pow256Eight();
      BigEndianRoundTrip(p.timestamp, 8);
      BigEndianRoundTrip(q.timestamp, 8);
      assert TypeOfCode(a[16]) == Some(p.messageType);
    }
  }

  lemma IdentityPieces(p: BitchatPacket)
    requires p.Valid()
    ensures var a := IdentityBytes(p);
            && |a| >= 17 && a[..8] == p.senderId && a[8..16] == BigEndian(p.timestamp, 8)
            && a[16] == p.messageType.Code() && a[17..] == Tail(p)
  {}

  /** The first 16 bytes of the digests tell the two byte strings apart, if they differ. */
  predicate NoCollision(hash: Bytes -> Bytes, a: Bytes, b: Bytes) {
    |hash(a)| >= 16 && |hash(b)| >= 16 && (hash(a)[..16] == hash(b)[..16] ==> a == b)
  }

  predicate ToldApart(hash: Bytes -> Bytes, p: BitchatPacket, q: BitchatPacket)
    requires p.Valid() && q.Valid()
  {
    NoCollision(hash, IdentityBytes(p), IdentityBytes(q))
  }

  /** Unless the digests collide, two packets have one id exactly when they agree in sender, timestamp, type and
      recipient with payload; whatever the ttl, the flags and the signature. */
  lemma SameIdExactly(hash: Bytes -> Bytes, p: BitchatPacket, q: BitchatPacket)
    requires p.Valid() && q.Valid() && ToldApart(hash, p, q)
    ensures PacketId(hash, p) == PacketId(hash, q) <==> SameMessage(p, q)
    ensures |PacketId(hash, p)| == 16
  {
    SameIdentityExactly(p, q);
  }

  // ---- the cache ----

  type Cache = OrderedDict<Bytes, real>  // packet id -> time of its last record

  datatype Bounds = Bounds(maxEntries: int, entryTtl: real)
  {
    /** What the constructor insists on. */
    predicate Valid() {
      maxEntries > 0 && entryTtl > 0.0
    }
  }

  const NO_ENTRIES: Cache := OrderedDict([], map[])

  predicate Expired(b: Bounds, recorded: real, now: real) {
    now - recorded > b.entryTtl
  }

  /** `is_id_duplicate`: an expired entry is dropped on the way. */
  function CheckId(c: Cache, b: Bounds, id: Bytes, now: real): (Cache, bool) {
    if id !in c.vals then (c, false)
    else if Expired(b, c.vals[id], now) then (c.Delete(id), false)
    else (c, true)
  }

  /** `record_id`: the entry moves to the end; a new one may evict the first. */
  function Record(c: Cache, b: Bounds, id: Bytes, now: real): Cache {
    var room :=
      if id in c.vals then c.Delete(id)
      else if |c.keys| >= b.maxEntries && c.keys != [] then c.PopFirst()
      else c;
    room.Put(id, now)
  }

  /** `check_and_record`: true for a duplicate. */
  function CheckAndRecord(c: Cache, b: Bounds, id: Bytes, now: real): (Cache, bool) {
    var (c', duplicate) := CheckId(c, b, id, now);
    if duplicate then (c', true) else (Record(c', b, id, now), false)
  }

  /** `prune_expired`: from the oldest entry up to the first that has not expired. */
  function Prune(c: Cache, b: Bounds, now: real): (Cache, nat)
    requires forall k :: k in c.keys ==> k in c.vals
    requires Distinct(c.keys)
    decreases |c.keys|
  {
    if c.keys == [] || !Expired(b, c.vals[c.keys[0]], now) then (c, 0)
    else
      assert forall k :: k in c.PopFirst().keys ==> k in c.keys && k != c.keys[0];
      var (c', n) := Prune(c.PopFirst(), b, now);
      (c', n + 1)
  }

  lemma PruneStep(c: Cache, b: Bounds, now: real)
    requires c.Valid() && c.keys != [] && Expired(b, c.vals[c.keys[0]], now)
    ensures c.PopFirst().Valid()
    ensures var (rest, n) := Prune(c.PopFirst(), b, now); Prune(c, b, now) == (rest, n + 1)
  {
    c.PopFirstValid();
  }

  class PacketDeduplicator {
    const bounds: Bounds
    var entries: Cache

    ghost predicate Valid()
      reads this
    {
      bounds.Valid() && entries.Valid()
    }

    constructor (bounds: Bounds)
      requires bounds.Valid()
      ensures Valid() && this.bounds == bounds && entries == NO_ENTRIES
    {
      this.bounds, entries := bounds, NO_ENTRIES;
    }

    method Clear()
      requires Valid()
      modifies this
      ensures Valid() && entries == NO_ENTRIES
    {
      entries := NO_ENTRIES;
    }

    method IsIdDuplicate(id: Bytes, now: real) returns (duplicate: bool)
      requires Valid()
      modifies this
      ensures Valid() && (entries, duplicate) == CheckId(old(entries), bounds, id, now)
    {
      if id !in entries.vals {
        return false;
      }
      var recorded := entries.vals[id];
      if now - recorded > bounds.entryTtl {
        entries.DeleteValid(id);
        entries := entries.Delete(id);
        return false;
      }
      return true;
    }

    method RecordId(id: Bytes, now: real)
      requires Valid()
      modifies this
      ensures Valid() && entries == Record(old(entries), bounds, id, now)
    {
      if id in entries.vals {
        entries.DeleteValid(id);
        entries := entries.Delete(id);
      } else if |entries.keys| >= bounds.maxEntries {
        entries.PopFirstValid();
        entries := entries.PopFirst();
      }
      entries.PutValid(id, now);
      entries := entries.Put(id, now);
    }

    method CheckAndRecordId(id: Bytes, now: real) returns (duplicate: bool)
      requires Valid()
      modifies this
      ensures Valid() && (entries, duplicate) == CheckAndRecord(old(entries), bounds, id, now)
    {
      duplicate := IsIdDuplicate(id, now);
      if !duplicate {
        RecordId(id, now);
      }
    }

    /** The loop walks over a snapshot of the keys; as it deletes from the front, the next key of the snapshot is
        always the first one left. */
    method PruneExpired(now: real) returns (pruned: nat)
      requires Valid()
      modifies this
      ensures Valid() && (entries, pruned) == Prune(old(entries), bounds, now)
    {
      pruned := 0;
      ghost var goal := Prune(entries, bounds, now);
      while entries.keys != []
        invariant Valid() && Prune(entries, bounds, now) == (goal.0, goal.1 - pruned)
        decreases |entries.keys|
      {
        var key := entries.keys[0];
        if now - entries.vals[key] > bounds.entryTtl {
          PruneStep(entries, bounds, now);
          DropFirst(key);
          pruned := pruned + 1;
        } else {
          break;
        }
      }
    }

    /** `del self._entries[key]` for the oldest key. */
    method DropFirst(key: Bytes)
      requires Valid() && entries.keys != [] && key == entries.keys[0]
      modifies this
      ensures Valid() && entries == old(entries).PopFirst()
    {
      entries.DeleteFirst();
      entries.DeleteValid(key);
      entries := entries.Delete(key);
    }
  }
}
