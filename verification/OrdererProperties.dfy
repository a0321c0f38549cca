/**
 * What the delivery discipline guarantees over whole runs: for arbitrary frames every release is a
 * whole message at the cursor, and for a consistent sender the transcript depends only on the SET of
 * frames that ever arrived.
 */
module OrdererProperties {
  import opened Common
  import opened Orderer

  /** The state and the concatenated output after a sequence of arrivals. */
  function Run(start: nat, cap: nat, arrivals: seq<Frame>): (State, seq<Frame>) {
    if arrivals == [] then (Initial(start, cap), [])
    else
      var (st, out) := Run(start, cap, arrivals[..|arrivals| - 1]);
      var (st', ready) := Step(st, arrivals[|arrivals| - 1]);
      (st', out + ready)
  }

  /** The frames of `out` that carry a transcript number. */
  function Content(out: seq<Frame>): seq<Frame> {
    if out == [] then []
    else (if out[0].entry.Some? then [out[0]] else []) + Content(out[1..])
  }

  /** The whole message of transcript entry `q`: one frame, or all chunks in part order. */
  ghost predicate WholeMessage(q: nat, g: seq<Frame>) {
    && |g| > 0
    && (forall i :: 0 <= i < |g| ==>
          g[i].entry == Some(q) && g[i].msgId == g[0].msgId && g[i].parts == g[0].parts)
    && (if Chunked(g[0])
        then |g| == g[0].parts && forall i :: 0 <= i < |g| ==> g[i].part == i
        else |g| == 1)
  }

  /** One whole message per transcript number, consecutive from `start`. */
  ghost predicate Messages(start: nat, groups: seq<seq<Frame>>) {
    forall i :: 0 <= i < |groups| ==> WholeMessage(start + i, groups[i])
  }

  lemma MessagesCons(start: nat, g: seq<Frame>, rest: seq<seq<Frame>>)
    requires WholeMessage(start, g) && Messages(start + 1, rest)
    ensures Messages(start, [g] + rest)
  {
    forall i | 0 <= i < |rest| + 1 ensures WholeMessage(start + i, ([g] + rest)[i]) {
      if i > 0 {
        assert WholeMessage(start + 1 + (i - 1), rest[i - 1]);
      }
    }
  }

  lemma MessagesTail(start: nat, groups: seq<seq<Frame>>)
    requires Messages(start, groups) && groups != []
    ensures WholeMessage(start, groups[0]) && Messages(start + 1, groups[1..])
  {
    assert WholeMessage(start + 0, groups[0]);
    forall i | 0 <= i < |groups| - 1 ensures WholeMessage(start + 1 + i, groups[1..][i]) {
      assert WholeMessage(start + (i + 1), groups[i + 1]);
    }
  }

  lemma MessagesAppend(start: nat, a: seq<seq<Frame>>, b: seq<seq<Frame>>)
    requires Messages(start, a) && Messages(start + |a|, b)
    ensures Messages(start, a + b)
  {
    forall i | 0 <= i < |a + b| ensures WholeMessage(start + i, (a + b)[i]) {
      if i >= |a| {
        assert WholeMessage(start + |a| + (i - |a|), b[i - |a|]);
      }
    }
  }

  // ---------------------------------------------------------------------------------------------
  // The viewer's span loop (apps/web/app/lib/viewer.ts)
  // ---------------------------------------------------------------------------------------------

  function Span(f: Frame): nat {
    if Chunked(f) then f.parts else 1
  }

  /** Cut a release into messages by the `parts` of each head frame. */
  function Cut(ready: seq<Frame>): seq<seq<Frame>> {
    if ready == [] then []
    else
      var n := if Span(ready[0]) < |ready| then Span(ready[0]) else |ready|;
      [ready[..n]] + Cut(ready[n..])
  }

  /** The messages that a whole run hands to the viewer. */
  function MessagesOf(start: nat, cap: nat, arrivals: seq<Frame>): seq<seq<Frame>> {
    Cut(Content(Run(start, cap, arrivals).1))
  }

  method CutReady(ready: seq<Frame>) returns (groups: seq<seq<Frame>>)
    ensures groups == Cut(ready)
  {
    groups := [];
    var i := 0;
    assert ready[0..] == ready;
    assert [] + Cut(ready) == Cut(ready);
    while i < |ready|
      invariant 0 <= i <= |ready|
      invariant groups + Cut(ready[i..]) == Cut(ready)
    {
      var span := if ready[i].parts > 1 then ready[i].parts else 1;
      var end := if i + span < |ready| then i + span else |ready|;
      CutTail(ready, i, end, groups);
      groups := groups + [ready[i..end]];
      i := end;
    }
    assert groups + [] == groups;
  }

  lemma CutTail(ready: seq<Frame>, i: nat, end: nat, groups: seq<seq<Frame>>)
    requires i < |ready|
    requires end == if i + Span(ready[i]) < |ready| then i + Span(ready[i]) else |ready|
    ensures groups + Cut(ready[i..]) == (groups + [ready[i..end]]) + Cut(ready[end..])
  {
    var tail := ready[i..];
    assert tail[0] == ready[i];
    assert tail[..end - i] == ready[i..end] && tail[end - i..] == ready[end..];
    assert Cut(tail) == [ready[i..end]] + Cut(ready[end..]);
  }

  lemma CutCons(q: nat, g: seq<Frame>, tail: seq<Frame>)
    requires WholeMessage(q, g)
    ensures Cut(g + tail) == [g] + Cut(tail)
  {
    var ready := g + tail;
    assert ready[0] == g[0];
    assert ready[..|g|] == g && ready[|g|..] == tail;
  }

  /** The span loop recovers exactly the messages that were concatenated. */
  lemma {:induction false} CutFlatten(start: nat, groups: seq<seq<Frame>>)
    requires Messages(start, groups)
    ensures Cut(Flatten(groups)) == groups
    decreases groups
  {
    if groups != [] {
      MessagesTail(start, groups);
      CutFlatten(start + 1, groups[1..]);
      CutCons(start, groups[0], Flatten(groups[1..]));
    }
  }

  // ---------------------------------------------------------------------------------------------
  // Sorting a slot
  // ---------------------------------------------------------------------------------------------

  ghost predicate Ascending(s: seq<Frame>) {
    forall i, j :: 0 <= i < j < |s| ==> s[i].part < s[j].part
  }

  lemma {:induction false} InsertKeepsAscending(f: Frame, s: seq<Frame>)
    requires Ascending(s)
    requires forall g :: g in s ==> g.part != f.part
    ensures Ascending(InsertByPart(f, s))
    ensures |InsertByPart(f, s)| == |s| + 1
    ensures forall g :: g in InsertByPart(f, s) <==> g == f || g in s
  {
    if s != [] && f.part >= s[0].part {
      InsertKeepsAscending(f, s[1..]);
      var rest := InsertByPart(f, s[1..]);
      forall i, j | 0 <= i < j < |rest| + 1
        ensures ([s[0]] + rest)[i].part < ([s[0]] + rest)[j].part
      {
        if i == 0 {
          assert rest[j - 1] in rest;
          assert forall g :: g in s[1..] ==> s[0].part < g.part;
        }
      }
    }
  }

  lemma {:induction false} SortAscends(slot: seq<Frame>)
    requires forall i, j :: 0 <= i < j < |slot| ==> slot[i].part != slot[j].part
    ensures Ascending(SortByPart(slot))
    ensures |SortByPart(slot)| == |slot|
    ensures forall g :: g in SortByPart(slot) <==> g in slot
  {
    if slot != [] {
      var init, last := slot[..|slot| - 1], slot[|slot| - 1];
      SortAscends(init);
      InsertKeepsAscending(last, SortByPart(init));
      assert slot == init + [last];
    }
  }

  /** An ascending list of parts below `n` has at most `n` members, and `n` members are 0..n-1. */
  lemma {:induction false} AscendingIsTight(s: seq<Frame>, n: int)
    requires Ascending(s)
    requires forall i :: 0 <= i < |s| ==> 0 <= s[i].part < n
    ensures |s| <= (if n < 0 then 0 else n)
    ensures |s| == n ==> forall i :: 0 <= i < |s| ==> s[i].part == i
  {
    if s != [] {
      var init := s[..|s| - 1];
      var m := s[|s| - 1].part;
      AscendingIsTight(init, m);
    }
  }

  // ---------------------------------------------------------------------------------------------
  // The invariant every arrival keeps
  // ---------------------------------------------------------------------------------------------

  ghost predicate GoodSlot(q: nat, slot: seq<Frame>) {
    && |slot| > 0
    && (forall i :: 0 <= i < |slot| ==>
          slot[i].entry == Some(q) && slot[i].msgId == slot[0].msgId && slot[i].parts == slot[0].parts)
    && (if Chunked(slot[0])
        then
          && (forall i :: 0 <= i < |slot| ==> 0 <= slot[i].part < slot[0].parts)
          && (forall i, j :: 0 <= i < j < |slot| ==> slot[i].part != slot[j].part)
        else |slot| == 1)
  }

  /** Slots are well formed and none lies below the cursor. */
  ghost predicate SlotsGood(st: State) {
    forall q :: q in st.buffered ==> st.next <= q && GoodSlot(q, st.buffered[q])
  }

  /** ... and the slot at the cursor, if any, still misses a part. */
  ghost predicate Settled(st: State) {
    && SlotsGood(st)
    && (st.next in st.buffered ==> Incomplete(st.buffered[st.next]))
  }

  lemma ReleasedIsWhole(q: nat, slot: seq<Frame>)
    requires GoodSlot(q, slot) && !Incomplete(slot)
    ensures WholeMessage(q, Released(slot))
    ensures forall f :: f in Released(slot) <==> f in slot
  {
    if Chunked(slot[0]) {
      SortAscends(slot);
      var s := SortByPart(slot);
      forall i | 0 <= i < |s|
        ensures 0 <= s[i].part < slot[0].parts && s[i].entry == Some(q)
        ensures s[i].msgId == slot[0].msgId && s[i].parts == slot[0].parts
      {
        assert s[i] in slot;
      }
      AscendingIsTight(s, slot[0].parts);
    }
  }

  ghost predicate Holds(st: State, f: Frame) {
    exists q :: q in st.buffered && f in st.buffered[q]
  }

  ghost predicate AllFrom(groups: seq<seq<Frame>>, st: State) {
    forall i, f :: 0 <= i < |groups| && f in groups[i] ==> Holds(st, f)
  }

  /** The drain removes the slots below its final cursor and no other. */
  ghost predicate Trimmed(before: State, after: State) {
    && after == before.(buffered := after.buffered, next := after.next)
    && before.next <= after.next
    && (forall q :: q in before.buffered && after.next <= q ==> q in after.buffered)
    && (forall q :: q in after.buffered ==> q in before.buffered && after.buffered[q] == before.buffered[q])
  }

  lemma {:induction false} DrainTrims(st: State)
    requires SlotsGood(st)
    ensures Trimmed(st, Drain(st).0)
    ensures Settled(Drain(st).0)
    decreases |st.buffered|
  {
    if st.next in st.buffered && !Incomplete(st.buffered[st.next]) {
      DrainStep(st);
      DrainTrims(AfterSlot(st));
    }
  }

  /** The messages a drain releases. */
  function DrainGroups(st: State): seq<seq<Frame>>
    decreases |st.buffered|
  {
    if st.next !in st.buffered || Incomplete(st.buffered[st.next]) then []
    else
      DrainStep(st);
      [Released(st.buffered[st.next])] + DrainGroups(AfterSlot(st))
  }

  lemma {:induction false} DrainIsItsGroups(st: State)
    ensures Drain(st).0.next == st.next + |DrainGroups(st)|
    ensures Drain(st).1 == Flatten(DrainGroups(st))
    decreases |st.buffered|
  {
    if st.next in st.buffered && !Incomplete(st.buffered[st.next]) {
      DrainStep(st);
      DrainIsItsGroups(AfterSlot(st));
      FlattenCons(Released(st.buffered[st.next]), DrainGroups(AfterSlot(st)));
    }
  }

  lemma {:induction false} DrainReleases(st: State)
    requires SlotsGood(st)
    ensures Messages(st.next, DrainGroups(st)) && AllFrom(DrainGroups(st), st)
    decreases |st.buffered|
  {
    if st.next in st.buffered && !Incomplete(st.buffered[st.next]) {
      DrainStep(st);
      SlotAtCursor(st);
      DrainReleases(AfterSlot(st));
      MessagesCons(st.next, Released(st.buffered[st.next]), DrainGroups(AfterSlot(st)));
      ConsAllFrom(st, Released(st.buffered[st.next]), DrainGroups(AfterSlot(st)));
    }
  }

  lemma SlotAtCursor(st: State)
    requires SlotsGood(st) && st.next in st.buffered && !Incomplete(st.buffered[st.next])
    ensures WholeMessage(st.next, Released(st.buffered[st.next]))
    ensures forall f :: f in Released(st.buffered[st.next]) ==> f in st.buffered[st.next]
    ensures SlotsGood(AfterSlot(st))
  {
    ReleasedIsWhole(st.next, st.buffered[st.next]);
  }

  lemma ConsAllFrom(st: State, g: seq<Frame>, rest: seq<seq<Frame>>)
    requires st.next in st.buffered && forall f :: f in g ==> f in st.buffered[st.next]
    requires AllFrom(rest, AfterSlot(st))
    ensures AllFrom([g] + rest, st)
  {
    forall i, f | 0 <= i < |rest| + 1 && f in ([g] + rest)[i] ensures Holds(st, f) {
      if i > 0 {
        assert Holds(AfterSlot(st), f);
      }
    }
  }

  /** The state a content frame is placed into, before the drain. */
  function Place(st: State, f: Frame): State
    requires f.entry.Some?
  {
    var marked := MarkSeen(st, DedupKey(f));
    marked.(buffered := marked.buffered[f.entry.value := Slot(st, f.entry.value) + [f]])
  }

  ghost predicate Places(st: State, f: Frame) {
    && DedupKey(f) !in st.seen
    && f.entry.Some?
    && st.next <= f.entry.value
    && Admits(Slot(st, f.entry.value), f)
  }

  lemma PlacingKeepsSlotsGood(st: State, f: Frame)
    requires SlotsGood(st) && Places(st, f)
    ensures SlotsGood(Place(st, f))
    ensures Step(st, f) == Drain(Place(st, f))
  {
    var q := f.entry.value;
    var slot := Slot(st, q);
    assert slot != [] ==> GoodSlot(q, slot);
    assert GoodSlot(q, slot + [f]);
  }

  /** One `accept` of an arbitrary frame: what it releases and what it leaves. */
  lemma StepReleases(st: State, f: Frame) returns (groups: seq<seq<Frame>>)
    requires Settled(st)
    ensures Settled(Step(st, f).0)
    ensures Step(st, f).0.next == st.next + |groups|
    ensures f.entry.Some? ==> Step(st, f).1 == Flatten(groups)
    ensures f.entry.None? ==> groups == [] && Step(st, f).1 <= [f]
    ensures Messages(st.next, groups)
    ensures forall i, g :: 0 <= i < |groups| && g in groups[i] ==> g == f || Holds(st, g)
    ensures forall g :: Holds(Step(st, f).0, g) ==> g == f || Holds(st, g)
  {
    if Places(st, f) {
      PlacingKeepsSlotsGood(st, f);
      var placed := Place(st, f);
      forall g | Holds(placed, g) ensures g == f || Holds(st, g) {
        var q :| q in placed.buffered && g in placed.buffered[q];
        assert q == f.entry.value ==> g == f || g in Slot(st, q);
      }
      DrainTrims(placed);
      DrainIsItsGroups(placed);
      DrainReleases(placed);
      groups := DrainGroups(placed);
    } else {
      groups := [];
    }
  }

  lemma {:induction false} ContentAppend(a: seq<Frame>, b: seq<Frame>)
    ensures Content(a + b) == Content(a) + Content(b)
  {
    if a == [] {
      assert a + b == b;
    } else {
      assert (a + b)[0] == a[0] && (a + b)[1..] == a[1..] + b;
      ContentAppend(a[1..], b);
      AppendAssociates(if a[0].entry.Some? then [a[0]] else [], Content(a[1..]), Content(b));
    }
  }

  lemma {:induction false} ContentOfContent(a: seq<Frame>)
    requires forall i :: 0 <= i < |a| ==> a[i].entry.Some?
    ensures Content(a) == a
  {
    if a != [] {
      ContentOfContent(a[1..]);
      assert a == [a[0]] + a[1..];
    }
  }

  lemma {:induction false} FlattenIsContent(start: nat, groups: seq<seq<Frame>>)
    requires Messages(start, groups)
    ensures Content(Flatten(groups)) == Flatten(groups)
    decreases groups
  {
    if groups != [] {
      var rest := groups[1..];
      MessagesTail(start, groups);
      FlattenIsContent(start + 1, rest);
      ContentOfContent(groups[0]);
      ContentAppend(groups[0], Flatten(rest));
    }
  }

  lemma RunSnoc(start: nat, cap: nat, arrivals: seq<Frame>, f: Frame)
    ensures Run(start, cap, arrivals + [f]).0 == Step(Run(start, cap, arrivals).0, f).0
    ensures Run(start, cap, arrivals + [f]).1 == Run(start, cap, arrivals).1 + Step(Run(start, cap, arrivals).0, f).1
  {
    assert (arrivals + [f])[..|arrivals|] == arrivals;
  }

  /** `groups` are the messages a run over `arrivals` has released, and nothing else is buffered. */
  ghost predicate Explains(start: nat, arrivals: seq<Frame>, st: State, out: seq<Frame>, groups: seq<seq<Frame>>) {
    && Settled(st)
    && st.next == start + |groups|
    && Content(out) == Flatten(groups)
    && Messages(start, groups)
    && (forall i, f :: 0 <= i < |groups| && f in groups[i] ==> f in arrivals)
    && (forall f :: Holds(st, f) ==> f in arrivals)
  }

  lemma {:induction false} RunReleases(start: nat, cap: nat, arrivals: seq<Frame>) returns (groups: seq<seq<Frame>>)
    ensures Explains(start, arrivals, Run(start, cap, arrivals).0, Run(start, cap, arrivals).1, groups)
  {
    if arrivals == [] {
      groups := [];
    } else {
      var init, f := arrivals[..|arrivals| - 1], arrivals[|arrivals| - 1];
      assert arrivals == init + [f];
      var before := RunReleases(start, cap, init);
      RunSnoc(start, cap, init, f);
      groups := StepExplains(start, init, Run(start, cap, init).0, Run(start, cap, init).1, f, before);
    }
  }

  lemma StepExplains(start: nat, init: seq<Frame>, st: State, out: seq<Frame>, f: Frame, before: seq<seq<Frame>>)
    returns (groups: seq<seq<Frame>>)
    requires Explains(start, init, st, out, before)
    ensures Explains(start, init + [f], Step(st, f).0, out + Step(st, f).1, groups)
  {
    var more := StepReleases(st, f);
    groups := before + more;
    MessagesAppend(start, before, more);
    assert Content(out + Step(st, f).1) == Flatten(groups) by {
      ReleasedContent(st, f, more);
      FlattenAppend(before, more);
      ContentAppend(out, Step(st, f).1);
    }
    forall i, g | 0 <= i < |groups| && g in groups[i] ensures g in init + [f] {
      assert i >= |before| ==> g in more[i - |before|];
    }
  }

  lemma ReleasedContent(st: State, f: Frame, groups: seq<seq<Frame>>)
    requires Messages(st.next, groups)
    requires f.entry.Some? ==> Step(st, f).1 == Flatten(groups)
    requires f.entry.None? ==> groups == [] && Step(st, f).1 <= [f]
    ensures Content(Step(st, f).1) == Flatten(groups)
  {
    if f.entry.Some? {
      FlattenIsContent(st.next, groups);
    } else {
      assert [f][1..] == [];
      assert Content([f]) == [];
    }
  }

  /**
   * Safety for arbitrary, even inconsistent, frames: cutting the content output at message
   * boundaries gives one whole message per transcript number, consecutive from `start`, none
   * skipped and none repeated, every frame of it one that arrived.
   */
  lemma ReleasesWholeMessagesInOrder(start: nat, cap: nat, arrivals: seq<Frame>)
    ensures var messages := MessagesOf(start, cap, arrivals);
            && Run(start, cap, arrivals).0.next == start + |messages|
            && Flatten(messages) == Content(Run(start, cap, arrivals).1)
            && Messages(start, messages)
            && (forall i, f :: 0 <= i < |messages| && f in messages[i] ==> f in arrivals)
  {
    var groups := RunReleases(start, cap, arrivals);
    CutFlatten(start, groups);
  }

  /** What one `accept` of a content frame returns is cut by the viewer exactly at message boundaries. */
  lemma ViewerCutsEachReleaseExactly(start: nat, cap: nat, arrivals: seq<Frame>, f: Frame)
    requires f.entry.Some?
    ensures var st := Run(start, cap, arrivals).0;
            var (st', ready) := Step(st, f);
            && st'.next == st.next + |Cut(ready)|
            && Flatten(Cut(ready)) == ready
            && Messages(st.next, Cut(ready))
  {
    var _ := RunReleases(start, cap, arrivals);
    var st := Run(start, cap, arrivals).0;
    var groups := StepReleases(st, f);
    CutFlatten(st.next, groups);
  }

  /** Delivery is stalled exactly when content waits in the buffer. */
  lemma StalledIffPending(start: nat, cap: nat, arrivals: seq<Frame>, o: FrameOrderer)
    requires o.Value() == Run(start, cap, arrivals).0
    ensures o.Stalled() <==> o.Pending() > 0
  {
    var _ := RunReleases(start, cap, arrivals);
  }

  // ---------------------------------------------------------------------------------------------
  // Confluence for a consistent sender
  // ---------------------------------------------------------------------------------------------

  /**
   * The sender's discipline, as a property of what arrived: a dedup key names one frame, a transcript
   * number names one message, and chunk indices are in range.
   */
  ghost predicate Consistent(received: set<Frame>) {
    && (forall f, g :: f in received && g in received && DedupKey(f) == DedupKey(g) ==> f == g)
    && (forall f, g :: f in received && g in received && f.entry.Some? && f.entry == g.entry ==>
          f.msgId == g.msgId && f.parts == g.parts)
    && (forall f :: f in received && f.entry.Some? && Chunked(f) ==> 0 <= f.part < f.parts)
  }

  /** Every frame of entry `q`'s message has arrived. */
  ghost predicate Complete(received: set<Frame>, q: nat) {
    exists g :: WholeMessage(q, g) && forall f :: f in g ==> f in received
  }

  function Received(arrivals: seq<Frame>): set<Frame> {
    set f | f in arrivals
  }

  lemma MessageIsUnique(received: set<Frame>, q: nat, g: seq<Frame>, h: seq<Frame>)
    requires Consistent(received) && WholeMessage(q, g) && WholeMessage(q, h)
    requires forall f :: f in g || f in h ==> f in received
    ensures g == h
  {
    assert g[0] in g && h[0] in h;
    assert |g| == |h|;
    forall i | 0 <= i < |g| ensures g[i] == h[i] {
      assert g[i] in g && h[i] in h;
      assert DedupKey(g[i]) == DedupKey(h[i]);
    }
  }

  /** No received content frame is lost: it was delivered (its entry is passed) or it is buffered. */
  ghost predicate Accounted(st: State, received: set<Frame>) {
    && (forall f :: f in received && f.entry.Some? && st.next <= f.entry.value ==>
          f.entry.value in st.buffered && f in st.buffered[f.entry.value])
    && (forall k :: k in st.seen ==> exists f :: f in received && DedupKey(f) == k)
    && (forall q, f :: q in st.buffered && f in st.buffered[q] ==> f in received)
  }

  lemma SlotAdmits(st: State, received: set<Frame>, f: Frame)
    requires SlotsGood(st) && Accounted(st, received) && Consistent(received + {f})
    requires f.entry.Some? && st.next <= f.entry.value
    ensures f in Slot(st, f.entry.value) || Admits(Slot(st, f.entry.value), f)
  {
    var q := f.entry.value;
    var slot := Slot(st, q);
    if slot != [] {
      assert slot[0] in st.buffered[q];
      if Chunked(f) {
        if i :| 0 <= i < |slot| && slot[i].part == f.part {
          assert slot[i] in st.buffered[q];
          assert DedupKey(slot[i]) == DedupKey(f);
        }
      } else {
        assert DedupKey(slot[0]) == DedupKey(f);
      }
    }
  }

  lemma StepAccounts(st: State, received: set<Frame>, f: Frame)
    requires Settled(st) && Accounted(st, received) && Consistent(received + {f})
    ensures Accounted(Step(st, f).0, received + {f})
  {
    var all := received + {f};
    if DedupKey(f) in st.seen {
      var g :| g in received && DedupKey(g) == DedupKey(f);
      assert g == f;
    } else if Places(st, f) {
      PlacingKeepsSlotsGood(st, f);
      var placed := Place(st, f);
      DrainTrims(placed);
      assert f in placed.buffered[f.entry.value];
    } else if f.entry.Some? && st.next <= f.entry.value {
      SlotAdmits(st, received, f);
    }
  }

  lemma {:induction false} RunAccounts(start: nat, cap: nat, arrivals: seq<Frame>)
    requires Consistent(Received(arrivals))
    ensures Accounted(Run(start, cap, arrivals).0, Received(arrivals))
  {
    if arrivals != [] {
      var n := |arrivals| - 1;
      var init, f := arrivals[..n], arrivals[n];
      assert arrivals == init + [f];
      assert Received(arrivals) == Received(init) + {f};
      RunAccounts(start, cap, init);
      var _ := RunReleases(start, cap, init);
      StepAccounts(Run(start, cap, init).0, Received(init), f);
    }
  }

  lemma {:induction false} DistinctFit(g: seq<Frame>, slot: seq<Frame>)
    requires forall i, j :: 0 <= i < j < |g| ==> g[i] != g[j]
    requires forall i :: 0 <= i < |g| ==> g[i] in slot
    ensures |g| <= |slot|
  {
    if g != [] {
      var last := g[|g| - 1];
      var k :| 0 <= k < |slot| && slot[k] == last;
      var rest := slot[..k] + slot[k + 1..];
      forall i | 0 <= i < |g| - 1 ensures g[i] in rest {
        var m :| 0 <= m < |slot| && slot[m] == g[i];
        assert rest[if m < k then m else m - 1] == g[i];
      }
      DistinctFit(g[..|g| - 1], rest);
    }
  }

  lemma CursorIsIncomplete(st: State, received: set<Frame>)
    requires Settled(st) && Accounted(st, received)
    ensures !Complete(received, st.next)
  {
    if g :| WholeMessage(st.next, g) && forall f :: f in g ==> f in received {
      assert g[0] in g;
      var slot := st.buffered[st.next];
      assert Chunked(slot[0]);
      forall i | 0 <= i < |g| ensures g[i] in slot {
        assert g[i] in g;
      }
      DistinctFit(g, slot);
      assert false;
    }
  }

  /**
   * The cursor is the least transcript number from `start` on whose message has not fully arrived,
   * and the content output is exactly the messages before it.
   */
  lemma CursorIsLeastMissing(start: nat, cap: nat, arrivals: seq<Frame>)
    requires Consistent(Received(arrivals))
    ensures var st := Run(start, cap, arrivals).0;
            var messages := MessagesOf(start, cap, arrivals);
            && st.next == start + |messages|
            && !Complete(Received(arrivals), st.next)
            && (forall q :: start <= q < st.next ==> Complete(Received(arrivals), q))
            && Messages(start, messages)
            && (forall i, f :: 0 <= i < |messages| && f in messages[i] ==> f in Received(arrivals))
  {
    var st := Run(start, cap, arrivals).0;
    var groups := RunReleases(start, cap, arrivals);
    CutFlatten(start, groups);
    RunAccounts(start, cap, arrivals);
    CursorIsIncomplete(st, Received(arrivals));
    forall q | start <= q < st.next ensures Complete(Received(arrivals), q) {
      assert WholeMessage(start + (q - start), groups[q - start]);
    }
  }

  /**
   * Confluence: the transcript and the cursor are a function of the set of frames that arrived. Order,
   * repetition and the size of the dedup window, hence every eviction from it, are invisible.
   */
  lemma TranscriptIsConfluent(start: nat, cap: nat, arrivals: seq<Frame>, cap': nat, arrivals': seq<Frame>)
    requires Consistent(Received(arrivals))
    requires Received(arrivals) == Received(arrivals')
    ensures Run(start, cap, arrivals).0.next == Run(start, cap', arrivals').0.next
    ensures Content(Run(start, cap, arrivals).1) == Content(Run(start, cap', arrivals').1)
  {
    CursorIsLeastMissing(start, cap, arrivals);
    CursorIsLeastMissing(start, cap', arrivals');
    ReleasesWholeMessagesInOrder(start, cap, arrivals);
    ReleasesWholeMessagesInOrder(start, cap', arrivals');
    MessagesAreUnique(Received(arrivals), start,
                      Cut(Content(Run(start, cap, arrivals).1)), Cut(Content(Run(start, cap', arrivals').1)));
  }

  lemma MessagesAreUnique(received: set<Frame>, start: nat, a: seq<seq<Frame>>, b: seq<seq<Frame>>)
    requires Consistent(received) && Messages(start, a) && Messages(start, b) && |a| == |b|
    requires forall i, f :: 0 <= i < |a| && f in a[i] ==> f in received
    requires forall i, f :: 0 <= i < |b| && f in b[i] ==> f in received
    ensures a == b
  {
    forall i | 0 <= i < |a| ensures a[i] == b[i] {
      MessageIsUnique(received, start + i, a[i], b[i]);
    }
  }

  /** For any frames, a longer run only extends the transcript already released. */
  lemma {:induction false} TranscriptOnlyGrows(start: nat, cap: nat, arrivals: seq<Frame>, more: seq<Frame>)
    ensures Content(Run(start, cap, arrivals).1) <= Content(Run(start, cap, arrivals + more).1)
    ensures Run(start, cap, arrivals).0.next <= Run(start, cap, arrivals + more).0.next
    decreases |more|
  {
    if more == [] {
      assert arrivals + more == arrivals;
    } else {
      var init, f := more[..|more| - 1], more[|more| - 1];
      var shorter := arrivals + init;
      assert arrivals + more == shorter + [f];
      TranscriptOnlyGrows(start, cap, arrivals, init);
      OneMoreOnlyGrows(start, cap, shorter, f);
      PrefixTransitive(Content(Run(start, cap, arrivals).1), Content(Run(start, cap, shorter).1),
                       Content(Run(start, cap, arrivals + more).1));
    }
  }

  lemma PrefixTransitive<T>(a: seq<T>, b: seq<T>, c: seq<T>)
    requires a <= b <= c
    ensures a <= c
  {
  }

  lemma OneMoreOnlyGrows(start: nat, cap: nat, arrivals: seq<Frame>, f: Frame)
    ensures Content(Run(start, cap, arrivals).1) <= Content(Run(start, cap, arrivals + [f]).1)
    ensures Run(start, cap, arrivals).0.next <= Run(start, cap, arrivals + [f]).0.next
  {
    RunSnoc(start, cap, arrivals, f);
    var st, out := Run(start, cap, arrivals).0, Run(start, cap, arrivals).1;
    var _ := RunReleases(start, cap, arrivals);
    var _ := StepReleases(st, f);
    ContentAppend(out, Step(st, f).1);
  }
}
