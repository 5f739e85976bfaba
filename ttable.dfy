/**
 * The engine's transposition table: a fixed vector of TT_SIZE slots, each
 * holding a 64-bit position key, the best move found there and the ply
 * ("depth_real") at which it was found.  It stores no score and no bound,
 * so the search uses it only to order moves.
 *
 * Probing and storing locate their slot differently: a probe takes the high
 * word of the 128-bit product key * size (the top 20 bits of the key), a
 * store takes key % TT_SIZE (the low 20 bits).  Both are modelled as
 * written.
 */
module TranspositionTable {
  import opened Chess
  import opened Bits

  type U64 = h: int | 0 <= h < 0x1_0000_0000_0000_0000

  /** 16 MiB divided by the 16-byte entry (8-byte key, 4-byte move, 4-byte depth). */
  const TT_SIZE: nat := 16 * 1024 * 1024 / 16

  datatype Entry = Entry(hashKey: U64, bestMove: Move, depth: int)

  /** The default-constructed entry: key 0, NO_MOVE, depth 0. */
  const EMPTY: Entry := Entry(0, NO_MOVE, 0)

  /** `table_index`: the high 64 bits of the unsigned 128-bit product. */
  function TableIndex(h: U64, size: nat): (i: nat)
    requires 0 < size < TWO_TO_64
    ensures i < size
  {
    IndexBound(h, size);
    (h * size) / TWO_TO_64
  }

  lemma IndexBound(h: U64, size: nat)
    requires 0 < size
    ensures (h * size) / TWO_TO_64 < size
  {
    assert h * size <= (TWO_TO_64 - 1) * size;
    assert (TWO_TO_64 - 1) * size < TWO_TO_64 * size;
  }

  /** For the table's own size the probe slot is the top 20 bits of the key. */
  lemma ProbeSlotIsHighBits(h: U64)
    ensures TableIndex(h, TT_SIZE) == h / 0x1000_0000_0000
  {
    var q, r := h / 0x1000_0000_0000, h % 0x1000_0000_0000;
    assert h * TT_SIZE == q * TWO_TO_64 + r * TT_SIZE;
  }

  /** `store_entry`'s slot: the low 20 bits of the key. */
  function StoreIndex(h: U64): (i: nat)
    ensures i < TT_SIZE
  {
    h % TT_SIZE
  }

  /** The table a probe sees: the slot if its full key matches, otherwise the empty entry. */
  function ProbeIn(t: seq<Entry>, h: U64): (e: Entry)
    requires |t| == TT_SIZE
    ensures e == EMPTY || e.hashKey == h
    ensures e.hashKey == h && h != 0 ==> e == t[TableIndex(h, TT_SIZE)]
    ensures ProbeHits(t, h) ==> e == t[TableIndex(h, TT_SIZE)]
    ensures !ProbeHits(t, h) ==> e == EMPTY
  {
    var i := TableIndex(h, TT_SIZE);
    if t[i].hashKey == h then t[i] else EMPTY
  }

  /** The probe finds its key in its slot. */
  predicate ProbeHits(t: seq<Entry>, h: U64)
    requires |t| == TT_SIZE
  {
    t[TableIndex(h, TT_SIZE)].hashKey == h
  }

  /** The table after `store_entry(h, d, m)`. */
  function StoreInto(t: seq<Entry>, h: U64, d: int, m: Move): (r: seq<Entry>)
    requires |t| == TT_SIZE
    ensures |r| == TT_SIZE
    ensures forall i :: 0 <= i < TT_SIZE && i != StoreIndex(h) ==> r[i] == t[i]
  {
    var i := StoreIndex(h);
    if d >= t[i].depth && t[i].hashKey != h then t[i := Entry(h, m, d)] else t
  }

  /** The slot a store writes: replaced wholesale, or left as it was. */
  lemma StoreSlot(t: seq<Entry>, h: U64, d: int, m: Move)
    requires |t| == TT_SIZE
    ensures var i := StoreIndex(h);
            StoreInto(t, h, d, m)[i] == if d >= t[i].depth && t[i].hashKey != h then Entry(h, m, d) else t[i]
  {
  }

  /** A slot that already holds the same key is never refreshed, however deep the new search. */
  lemma StoreSameKeyKeepsTable(t: seq<Entry>, h: U64, d: int, m: Move)
    requires |t| == TT_SIZE && t[StoreIndex(h)].hashKey == h
    ensures StoreInto(t, h, d, m) == t
  {
  }

  /** A shallower entry than the one in the slot is refused. */
  lemma StoreShallowerKeepsTable(t: seq<Entry>, h: U64, d: int, m: Move)
    requires |t| == TT_SIZE && d < t[StoreIndex(h)].depth
    ensures StoreInto(t, h, d, m) == t
  {
  }

  /** The table the `ucinewgame` fill produces. */
  function Cleared(): (t: seq<Entry>)
    ensures |t| == TT_SIZE && forall i :: 0 <= i < TT_SIZE ==> t[i] == EMPTY
  {
    seq(TT_SIZE, _ => EMPTY)
  }

  /** Every occupied slot holds a key whose low 20 bits are the slot number. */
  ghost predicate Placed(t: seq<Entry>)
  {
    forall i :: 0 <= i < |t| ==> t[i] == EMPTY || StoreIndex(t[i].hashKey) == i
  }

  lemma ClearedIsPlaced()
    ensures Placed(Cleared())
  {
  }

  lemma StorePreservesPlaced(t: seq<Entry>, h: U64, d: int, m: Move)
    requires |t| == TT_SIZE && Placed(t)
    ensures Placed(StoreInto(t, h, d, m))
  {
    var r := StoreInto(t, h, d, m);
    forall i | 0 <= i < |r|
      ensures r[i] == EMPTY || StoreIndex(r[i].hashKey) == i
    {
      if i != StoreIndex(h) {
        assert r[i] == t[i];
      }
    }
  }

  /**
   * In a table that only `store_entry` has filled, a probe can find a
   * non-zero key only when the key's top 20 bits equal its low 20 bits.
   */
  lemma ProbeHitMeansAlignedKey(t: seq<Entry>, h: U64)
    requires |t| == TT_SIZE && Placed(t) && h != 0
    requires ProbeIn(t, h) != EMPTY
    ensures h / 0x1000_0000_0000 == h % TT_SIZE
  {
    ProbeSlotIsHighBits(h);
    var i := TableIndex(h, TT_SIZE);
    assert t[i].hashKey == h;
  }

  /** A store whose slot differs from the key's probe slot is invisible to the probe. */
  lemma StoreElsewhereInvisible(t: seq<Entry>, h: U64, d: int, m: Move)
    requires |t| == TT_SIZE && TableIndex(h, TT_SIZE) != StoreIndex(h)
    ensures ProbeIn(StoreInto(t, h, d, m), h) == ProbeIn(t, h)
  {
  }

  /** When both slots coincide, a store that is accepted is found by the next probe. */
  lemma StoreThenProbeAligned(t: seq<Entry>, h: U64, d: int, m: Move)
    requires |t| == TT_SIZE && TableIndex(h, TT_SIZE) == StoreIndex(h)
    requires d >= t[StoreIndex(h)].depth && t[StoreIndex(h)].hashKey != h
    ensures ProbeIn(StoreInto(t, h, d, m), h) == Entry(h, m, d)
  {
  }

  /** Key 1 in a cleared table: stored in slot 1, probed in slot 0, and not found. */
  lemma StoreThenProbeMisses(m: Move)
    ensures StoreInto(Cleared(), 1, 1, m)[1] == Entry(1, m, 1)
    ensures ProbeIn(StoreInto(Cleared(), 1, 1, m), 1) == EMPTY
  {
    assert TableIndex(1, TT_SIZE) == 0;
    assert StoreIndex(1) == 1;
  }

  /** The global `transposition_table` vector. */
  class Table {
    const slots: array<Entry>

    ghost predicate Valid()
      reads this
    {
      slots.Length == TT_SIZE
    }

    ghost function Contents(): (t: seq<Entry>)
      requires Valid()
      reads this, slots
      ensures |t| == TT_SIZE
    {
      slots[..]
    }

    /** `transposition_table.resize(TT_SIZE_DEFAULT)`: every slot default-constructed. */
    constructor ()
      ensures Valid() && fresh(slots) && Contents() == Cleared()
    {
      slots := new Entry[TT_SIZE](_ => EMPTY);
    }

    /** `std::fill` with the default entry on `ucinewgame`. */
    method Reset()
      requires Valid()
      modifies slots
      ensures Valid() && Contents() == Cleared()
    {
      for i := 0 to slots.Length
        invariant forall j :: 0 <= j < i ==> slots[j] == EMPTY
      {
        slots[i] := EMPTY;
      }
    }

    /** `probe_entry`: reads one slot, changes nothing. */
    method Probe(h: U64) returns (e: Entry)
      requires Valid()
      ensures e == ProbeIn(Contents(), h)
      ensures e == EMPTY || e.hashKey == h
    {
      var index := TableIndex(h, slots.Length);
      e := EMPTY;
      if slots[index].hashKey == h {
        e := slots[index];
      }
    }

    /** `store_entry`: changes at most the slot `h % TT_SIZE`. */
    method Store(h: U64, d: int, m: Move)
      requires Valid()
      modifies slots
      ensures Valid() && Contents() == StoreInto(old(Contents()), h, d, m)
    {
      var index := h % TT_SIZE;
      if d >= slots[index].depth && slots[index].hashKey != h {
        slots[index] := Entry(h, m, d);
      }
    }
  }
}
