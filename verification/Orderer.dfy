/**
 * The viewer's delivery discipline: a bounded dedup window, reordering by transcript number, and
 * release of a chunked message as one group (packages/cli/src/broker/order.ts).
 */
module Orderer {
  import opened Common

  /** The routing fields the orderer reads. `entry` is the frame's `seq` (None for control/meta). */
  datatype Frame = Frame(msgId: string, entry: Option<nat>, part: int, parts: int, ct: string)

  predicate Chunked(f: Frame) { f.parts > 1 }

  function DedupKey(f: Frame): string {
    if Chunked(f) then f.msgId + ":" + Show(f.part) else f.msgId
  }

  // ---------------------------------------------------------------------------------------------
  // The step function
  // ---------------------------------------------------------------------------------------------

  datatype State = State(
    seen: set<string>,
    window: seq<string>,
    cap: nat,
    buffered: map<nat, seq<Frame>>,
    next: nat)

  function Initial(start: nat, cap: nat): State {
    State({}, [], cap, map[], start)
  }

  /** Record a key the window does not hold, evicting the oldest one when the window overflows. */
  function MarkSeen(st: State, key: string): State {
    var seen, window := st.seen + {key}, st.window + [key];
    if |window| > st.cap
    then st.(seen := seen - {window[0]}, window := window[1..])
    else st.(seen := seen, window := window)
  }

  /** Stable insertion sort by part, as the runtime's array sort orders a slot. */
  function InsertByPart(f: Frame, sorted: seq<Frame>): seq<Frame> {
    if sorted == [] || f.part < sorted[0].part then [f] + sorted
    else [sorted[0]] + InsertByPart(f, sorted[1..])
  }

  function SortByPart(slot: seq<Frame>): seq<Frame> {
    if slot == [] then [] else InsertByPart(slot[|slot| - 1], SortByPart(slot[..|slot| - 1]))
  }

  /** A slot that holds the cursor: a chunked message some of whose parts have not arrived. */
  predicate Incomplete(slot: seq<Frame>) {
    |slot| > 0 && Chunked(slot[0]) && |slot| < slot[0].parts
  }

  function Released(slot: seq<Frame>): seq<Frame> {
    if |slot| > 0 && Chunked(slot[0]) then SortByPart(slot) else slot
  }

  function AfterSlot(st: State): State {
    st.(buffered := st.buffered - {st.next}, next := st.next + 1)
  }

  /** Release consecutive complete slots from the cursor. */
  function Drain(st: State): (State, seq<Frame>)
    decreases |st.buffered|
  {
    if st.next !in st.buffered || Incomplete(st.buffered[st.next]) then (st, [])
    else
      var slot := st.buffered[st.next];
      var (st', ready) := Drain(AfterSlot(st));
      (st', Released(slot) + ready)
  }

  lemma DrainStep(st: State)
    requires st.next in st.buffered && !Incomplete(st.buffered[st.next])
    ensures |AfterSlot(st).buffered| < |st.buffered|
    ensures Drain(st).0 == Drain(AfterSlot(st)).0
    ensures Drain(st).1 == Released(st.buffered[st.next]) + Drain(AfterSlot(st)).1
  {
    assert AfterSlot(st).buffered.Keys == st.buffered.Keys - {st.next};
    assert |AfterSlot(st).buffered.Keys| < |st.buffered.Keys|;
  }

  function Slot(st: State, q: nat): seq<Frame> {
    if q in st.buffered then st.buffered[q] else []
  }

  /** Whether a content frame at or above the cursor may join its slot. */
  predicate Admits(slot: seq<Frame>, f: Frame) {
    && (slot != [] ==> slot[0].msgId == f.msgId && slot[0].parts == f.parts)
    && (if Chunked(f)
        then 0 <= f.part < f.parts && forall i :: 0 <= i < |slot| ==> slot[i].part != f.part
        else slot == [])
  }

  /** One call of `accept`: the state after it and the frames it hands to the caller. */
  function Step(st: State, f: Frame): (State, seq<Frame>) {
    var key := DedupKey(f);
    if key in st.seen then (st, [])
    else
      var marked := MarkSeen(st, key);
      if f.entry.None? then (marked, [f])
      else
        var q := f.entry.value;
        if q < st.next || !Admits(Slot(st, q), f) then (marked, [])
        else Drain(marked.(buffered := marked.buffered[q := Slot(st, q) + [f]]))
  }

  // ---------------------------------------------------------------------------------------------
  // The class
  // ---------------------------------------------------------------------------------------------

  class FrameOrderer {
    var seen: set<string>
    var seenOrder: seq<string>
    const seenCap: nat
    var buffered: map<nat, seq<Frame>>
    var nextSeq: nat

    ghost function Value(): State
      reads this
    {
      State(seen, seenOrder, seenCap, buffered, nextSeq)
    }

    constructor (start: nat, cap: nat)
      ensures Value() == Initial(start, cap)
    {
      seen, seenOrder, seenCap, buffered, nextSeq := {}, [], cap, map[], start;
    }

    /** Returns false, changing nothing, when the window still holds the key. */
    method Mark(key: string) returns (isNew: bool)
      modifies this
      ensures isNew == (key !in old(seen))
      ensures Value() == if isNew then MarkSeen(old(Value()), key) else old(Value())
    {
      if key in seen {
        return false;
      }
      seen := seen + {key};
      seenOrder := seenOrder + [key];
      if |seenOrder| > seenCap {
        var evicted := seenOrder[0];
        seenOrder := seenOrder[1..];
        seen := seen - {evicted};
      }
      return true;
    }

    /** The drain loop at the end of `accept`. */
    method ReleaseReady() returns (ready: seq<Frame>)
      modifies this
      ensures Value() == Drain(old(Value())).0
      ensures ready == Drain(old(Value())).1
    {
      ghost var placed := Value();
      ready := [];
      while true
        invariant Drain(placed).0 == Drain(Value()).0
        invariant Drain(placed).1 == ready + Drain(Value()).1
        decreases |buffered|
      {
        if nextSeq !in buffered {
          break;
        }
        var cur := buffered[nextSeq];
        var parts := if |cur| > 0 then cur[0].parts else 1;
        if parts > 1 && |cur| < parts {
          break;
        }
        ghost var here := Value();
        DrainStep(here);
        AppendAssociates(ready, Released(cur), Drain(AfterSlot(here)).1);
        ready := ready + (if parts > 1 then SortByPart(cur) else cur);
        buffered := buffered - {nextSeq};
        nextSeq := nextSeq + 1;
        assert Value() == AfterSlot(here);
      }
    }

    method Accept(frame: Frame) returns (ready: seq<Frame>)
      modifies this
      ensures Value() == Step(old(Value()), frame).0
      ensures ready == Step(old(Value()), frame).1
    {
      var isNew := Mark(DedupKey(frame));
      if !isNew {
        return [];
      }
      if frame.entry.None? {
        return [frame];
      }
      var q := frame.entry.value;
      if q < nextSeq {
        return [];
      }
      var slot := if q in buffered then buffered[q] else [];
      if slot != [] && (slot[0].msgId != frame.msgId || slot[0].parts != frame.parts) {
        return [];
      }
      if frame.parts > 1 {
        if frame.part < 0 || frame.part >= frame.parts {
          return [];
        }
        if exists i :: 0 <= i < |slot| && slot[i].part == frame.part {
          return [];
        }
      } else if |slot| > 0 {
        return [];
      }
      buffered := buffered[q := slot + [frame]];
      ready := ReleaseReady();
    }

    function Pending(): nat
      reads this
    {
      |buffered|
    }

    predicate StalledOnMissingSeq()
      reads this
    {
      |buffered| > 0 && nextSeq !in buffered
    }

    predicate StalledOnIncompleteSeq()
      reads this
    {
      nextSeq in buffered && Incomplete(buffered[nextSeq])
    }

    predicate Stalled()
      reads this
    {
      StalledOnMissingSeq() || StalledOnIncompleteSeq()
    }
  }
}
