/// timerConfig_t, the per-timer callback table, and the builder that threads the
/// caller-owned overflow records into the null-terminated overflow chain.
module TimerConfigs {

  import opened Bits
  import opened TimerTypes

  /** Callback slots per timer (CC_CHANNELS_PER_TIMER). */
  const ChannelsPerTimer: nat := 4

  /** The non-null entries of s, in order. */
  function NonNull(s: seq<OvrHandlerRec?>): (r: seq<OvrHandlerRec>)
    ensures |r| <= |s|
  {
    if s == [] then []
    else NonNull(s[..|s| - 1]) + (if s[|s| - 1] != null then [s[|s| - 1]] else [])
  }

  lemma NonNullAppend(p: seq<OvrHandlerRec?>, x: OvrHandlerRec?)
    ensures NonNull(p + [x]) == NonNull(p) + (if x != null then [x] else [])
  {
    assert (p + [x])[..|p|] == p;
  }

  lemma {:induction false} NonNullMember(s: seq<OvrHandlerRec?>, r: OvrHandlerRec)
    ensures r in NonNull(s) <==> r in s
  {
    if s != [] {
      NonNullMember(s[..|s| - 1], r);
      assert s == s[..|s| - 1] + [s[|s| - 1]];
    }
  }

  lemma {:induction false} NonNullOfNulls(s: seq<OvrHandlerRec?>)
    requires forall i :: 0 <= i < |s| ==> s[i] == null
    ensures NonNull(s) == []
  {
    if s != [] {
      NonNullOfNulls(s[..|s| - 1]);
    }
  }

  /** Going from the first i slots to the first i + 1 adds slot i to the
      non-null list. */
  lemma SlotStep(slots: seq<OvrHandlerRec?>, i: nat)
    requires i < |slots|
    ensures NonNull(slots[..i + 1]) == NonNull(slots[..i]) + (if slots[i] != null then [slots[i]] else [])
  {
    assert slots[..i + 1] == slots[..i] + [slots[i]];
    NonNullAppend(slots[..i], slots[i]);
  }

  /** A record in slot i of distinct slots is registered, and not among the
      non-null slots before i. */
  lemma NewSlot(slots: seq<OvrHandlerRec?>, i: nat, x: OvrHandlerRec)
    requires DistinctSlots(slots) && i < |slots| && slots[i] == x
    ensures x in NonNull(slots) && x !in NonNull(slots[..i])
  {
    NonNullMember(slots, x);
    NonNullMember(slots[..i], x);
    forall j | 0 <= j < i
      ensures slots[..i][j] != x
    {
      assert slots[..i][j] == slots[j];
    }
  }

  /** No non-null record occupies two slots. */
  predicate DistinctSlots(s: seq<OvrHandlerRec?>)
  {
    forall a, b :: 0 <= a < b < |s| && s[a] != null ==> s[a] != s[b]
  }

  predicate Distinct(list: seq<OvrHandlerRec>)
  {
    forall a, b :: 0 <= a < b < |list| ==> list[a] != list[b]
  }

  lemma {:induction false} NonNullDistinct(s: seq<OvrHandlerRec?>)
    requires DistinctSlots(s)
    ensures Distinct(NonNull(s))
  {
    if s != [] {
      var p := s[..|s| - 1];
      NonNullDistinct(p);
      if s[|s| - 1] != null {
        NonNullMember(p, s[|s| - 1]);
      }
    }
  }

  /** Walking next from head visits exactly list, in order, and ends at null. */
  predicate ChainIs(head: OvrHandlerRec?, list: seq<OvrHandlerRec>)
    reads set r | r in list
  {
    && head == (if list == [] then null else list[0])
    && forall i :: 0 <= i < |list| ==> list[i].next == (if i + 1 < |list| then list[i + 1] else null)
  }

  /** The links built so far: head is the first record and each earlier record
      points to its successor; the last record's next, or the head while nothing
      is linked, is still to be written. */
  predicate PartialChain(head: OvrHandlerRec?, list: seq<OvrHandlerRec>)
    reads set r | r in list
  {
    && (list != [] ==> head == list[0])
    && forall i :: 0 <= i < |list| - 1 ==> list[i].next == list[i + 1]
  }

  /** timerConfig_t */
  class TimerConfig {
    var updateCallback: OvrHandlerRec?
    var edgeCallback: seq<CCHandlerRec?>
    var overflowCallback: seq<OvrHandlerRec?>
    var overflowCallbackActive: OvrHandlerRec?
    var forcedOverflowTimerValue: uint32

    /** The zero-filled table entry. */
    constructor ()
      ensures Cleared()
    {
      updateCallback := null;
      edgeCallback := [null, null, null, null];
      overflowCallback := [null, null, null, null];
      overflowCallbackActive := null;
      forcedOverflowTimerValue := 0;
    }

    /** Every pointer null and the forced value 0. */
    predicate Cleared()
      reads this
    {
      && updateCallback == null
      && edgeCallback == [null, null, null, null]
      && overflowCallback == [null, null, null, null]
      && overflowCallbackActive == null
      && forcedOverflowTimerValue == 0
    }

    /** The memset of timerInit, for one entry. */
    method Clear()
      modifies this
      ensures Cleared()
    {
      updateCallback := null;
      edgeCallback := [null, null, null, null];
      overflowCallback := [null, null, null, null];
      overflowCallbackActive := null;
      forcedOverflowTimerValue := 0;
    }

    /** The overflow-capable slots in chain order: updateCallback first, then
        overflowCallback[0..3]. */
    function Slots(): seq<OvrHandlerRec?>
      reads this
    {
      [updateCallback] + overflowCallback
    }

    /** The records the overflow chain is meant to hold. */
    function Chain(): seq<OvrHandlerRec>
      reads this
    {
      NonNull(Slots())
    }

    /** The caller-owned overflow records this entry refers to. */
    function Records(): set<OvrHandlerRec>
      reads this
    {
      set r | r in Chain()
    }

    predicate Shaped()
      reads this
    {
      |edgeCallback| == ChannelsPerTimer && |overflowCallback| == ChannelsPerTimer
    }

    /** The entry's invariant: four slots of each kind, no record in two slots,
        and the active chain links exactly the registered records in slot order. */
    predicate Valid()
      reads this, Records()
    {
      Shaped() && DistinctSlots(Slots()) && ChainIs(overflowCallbackActive, Chain())
    }

    lemma ClearedValid()
      requires Cleared()
      ensures Valid() && Chain() == [] && Records() == {}
    {
      NonNullOfNulls(Slots());
    }

    /** *chain = r: writes the link the builder's pointer-to-pointer designates,
        the head when nothing is linked yet (tail null) and tail.next otherwise.
        Linking a new record extends the partial chain built; linking null
        terminates it. */
    method Link(tail: OvrHandlerRec?, r: OvrHandlerRec?, ghost built: seq<OvrHandlerRec>)
      requires tail == (if built == [] then null else built[|built| - 1])
      requires Distinct(built) && PartialChain(overflowCallbackActive, built)
      requires r != null ==> r !in built
      modifies this, (if tail == null then {} else {tail})`next
      ensures updateCallback == old(updateCallback) && edgeCallback == old(edgeCallback)
      ensures overflowCallback == old(overflowCallback)
      ensures forcedOverflowTimerValue == old(forcedOverflowTimerValue)
      ensures r != null ==> Distinct(built + [r]) && PartialChain(overflowCallbackActive, built + [r])
      ensures r == null ==> ChainIs(overflowCallbackActive, built)
    {
      if tail == null {
        overflowCallbackActive := r;
      } else {
        tail.next := r;
      }
    }

    /** timerChConfig_UpdateOverflow: links updateCallback (when set) and then
        every non-null overflowCallback[i] in ascending order, terminates the chain
        with null, and enables the overflow interrupt exactly when the chain is
        non-empty.  The slots, the edge callbacks and the forced value are left
        alone, and so is every register but the enable register. */
    method UpdateOverflow(tim: Tmr) returns (trace: seq<Event>)
      requires Shaped() && DistinctSlots(Slots())
      modifies this, Records()`next, tim
      ensures Valid()
      ensures updateCallback == old(updateCallback) && edgeCallback == old(edgeCallback)
      ensures overflowCallback == old(overflowCallback)
      ensures forcedOverflowTimerValue == old(forcedOverflowTimerValue)
      ensures (overflowCallbackActive != null) == (Chain() != [])
      ensures tim.State() == old(tim.State()).(iden := EnableWrite(old(tim.iden), Pow2(OvfBit), Chain() != []))
      ensures trace == [IrqEnable(tim.number, Pow2(OvfBit), Chain() != [])]
    {
      BuildChain();
      label Built:
      var on := overflowCallbackActive != null;
      ghost var chain := Chain();
      assert ChainIs(overflowCallbackActive, chain);
      tim.InterruptEnable(Pow2(OvfBit), on);
      assert forall r :: r in chain ==> r.next == old@Built(r.next);
      trace := [IrqEnable(tim.number, Pow2(OvfBit), on)];
    }

    /** The critical section of timerChConfig_UpdateOverflow: the pointer-to-pointer
        walk that rewrites overflowCallbackActive and the records' next fields. */
    method BuildChain()
      requires Shaped() && DistinctSlots(Slots())
      modifies this, Records()`next
      ensures Valid()
      ensures updateCallback == old(updateCallback) && edgeCallback == old(edgeCallback)
      ensures overflowCallback == old(overflowCallback)
      ensures forcedOverflowTimerValue == old(forcedOverflowTimerValue)
      ensures (overflowCallbackActive != null) == (Chain() != [])
    {
      ghost var slots := Slots();
      ghost var recs := Records();
      var tail: OvrHandlerRec?;
      ghost var built: seq<OvrHandlerRec>;
      tail, built := LinkSlot(updateCallback, null, [], slots, 0);
      for i := 0 to ChannelsPerTimer
        invariant Slots() == slots
        invariant edgeCallback == old(edgeCallback)
        invariant forcedOverflowTimerValue == old(forcedOverflowTimerValue)
        invariant built == NonNull(slots[..i + 1])
        invariant tail == (if built == [] then null else built[|built| - 1])
        invariant tail != null ==> tail in recs
        invariant Distinct(built) && PartialChain(overflowCallbackActive, built)
      {
        tail, built := LinkSlot(overflowCallback[i], tail, built, slots, i + 1);
      }
      assert slots[..5] == slots;
      Link(tail, null, built);
    }

    /** One step of the walk: links slot i of the chain order when it is set and
        moves the tail to it; an empty slot links nothing. */
    method LinkSlot(r: OvrHandlerRec?, tail: OvrHandlerRec?, ghost built: seq<OvrHandlerRec>,
                    ghost slots: seq<OvrHandlerRec?>, ghost i: nat)
      returns (tail': OvrHandlerRec?, ghost built': seq<OvrHandlerRec>)
      requires DistinctSlots(slots) && i < |slots| && slots[i] == r
      requires built == NonNull(slots[..i])
      requires tail == (if built == [] then null else built[|built| - 1])
      requires Distinct(built) && PartialChain(overflowCallbackActive, built)
      modifies this, (if tail == null || r == null then {} else {tail})`next
      ensures updateCallback == old(updateCallback) && edgeCallback == old(edgeCallback)
      ensures overflowCallback == old(overflowCallback)
      ensures forcedOverflowTimerValue == old(forcedOverflowTimerValue)
      ensures built' == NonNull(slots[..i + 1]) && built' == built + (if r != null then [r] else [])
      ensures r != null ==> r in NonNull(slots)
      ensures tail' == (if built' == [] then null else built'[|built'| - 1])
      ensures Distinct(built') && PartialChain(overflowCallbackActive, built')
    {
      SlotStep(slots, i);
      tail', built' := tail, built;
      if r != null {
        NewSlot(slots, i, r);
        Link(tail, r, built);
        tail', built' := r, built + [r];
      }
    }
  }
}
